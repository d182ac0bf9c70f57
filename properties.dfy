/** What the comparison engine promises: which inputs it compares, how many
    records it emits and in which order, what each record holds, how the
    records change when two pages swap places, and how the statistical
    report lines up with the records. */
module ComparisonProperties {
  import opened Wrappers
  import opened PairEnumeration
  import opened LandingPageAnalyzer

  // ---------------------------------------------------------------------------
  // Visiting a list of pairs

  /** A run over the first m pairs succeeds exactly when none of them touches
      an absent content, and then record k is the record of pair k. */
  lemma {:induction false} CompareFirstCompared(
    lib: TextLibrary, pages: seq<PageInput>, ps: seq<IndexPair>, m: nat)
    requires m <= |ps|
    ensures CompareFirst(lib, pages, ps, m).Compared? <==>
      forall k :: 0 <= k < m ==> Comparable(pages, ps[k])
    ensures CompareFirst(lib, pages, ps, m).Compared? ==>
      forall k :: 0 <= k < m ==>
        Comparable(pages, ps[k]) &&
        CompareFirst(lib, pages, ps, m).records[k] == ComparePair(lib, pages[ps[k].first], pages[ps[k].second])
  {
    if m > 0 {
      CompareFirstCompared(lib, pages, ps, m - 1);
    }
  }

  /** Every pair of n pages touches only present contents exactly when there
      is at most one page or every page's content is present. */
  lemma {:induction false} AllPairsComparable(pages: seq<PageInput>)
    ensures (forall k :: 0 <= k < |AllPairs(|pages|)| ==> Comparable(pages, AllPairs(|pages|)[k])) <==>
      (|pages| < 2 || forall t :: 0 <= t < |pages| ==> pages[t].content.Some?)
  {
    var n := |pages|;
    var ps := AllPairs(n);
    if forall k :: 0 <= k < |ps| ==> Comparable(pages, ps[k]) {
      if n >= 2 {
        forall t | 0 <= t < n
          ensures pages[t].content.Some?
        {
          // page t takes part in (0, 1) when t is 0, and in (0, t) otherwise
          var other := if t == 0 then 1 else 0;
          var i, j := if t < other then t else other, if t < other then other else t;
          AllPairsAt(n, i, j);
          assert Comparable(pages, ps[PairIndex(n, i, j)]);
        }
      }
    }
  }

  // ---------------------------------------------------------------------------
  // compare_pages

  /** compare_pages returns its records exactly when it has at most one page or
      every page has content; otherwise it raises. */
  lemma {:induction false} ComparePagesSucceeds(lib: TextLibrary, pages: seq<PageInput>)
    ensures ComparePagesSpec(lib, pages).Compared? <==>
      (|pages| < 2 || forall t :: 0 <= t < |pages| ==> pages[t].content.Some?)
  {
    CompareFirstCompared(lib, pages, AllPairs(|pages|), |AllPairs(|pages|)|);
    AllPairsComparable(pages);
  }

  /** N pages whose contents are all present give N * (N - 1) / 2 records. */
  lemma {:induction false} ComparePagesCount(lib: TextLibrary, pages: seq<PageInput>)
    requires forall t :: 0 <= t < |pages| ==> pages[t].content.Some?
    ensures ComparePagesSpec(lib, pages).Compared?
    ensures |ComparePagesSpec(lib, pages).records| == |pages| * (|pages| - 1) / 2
  {
    ComparePagesSucceeds(lib, pages);
    AllPairsCount(|pages|);
  }

  /** Record k compares the k-th pair (i, j) in lexicographic order, with
      i < j: page i's URL first, the signed engagement difference i minus j,
      and the similarity and key differences of the two contents. */
  lemma {:induction false} ComparePagesRecordAt(lib: TextLibrary, pages: seq<PageInput>, k: nat)
    requires ComparePagesSpec(lib, pages).Compared?
    requires k < |ComparePagesSpec(lib, pages).records|
    ensures k < |AllPairs(|pages|)|
    ensures var p := AllPairs(|pages|)[k];
      var r := ComparePagesSpec(lib, pages).records[k];
      p.first < p.second < |pages| &&
      pages[p.first].content.Some? && pages[p.second].content.Some? &&
      r.page1Url == pages[p.first].url &&
      r.page2Url == pages[p.second].url &&
      r.engagementDifference == pages[p.first].engagement - pages[p.second].engagement &&
      r.contentSimilarity == CalculateSimilarity(lib.tfidfCosine, pages[p.first].content, pages[p.second].content) &&
      r.keyDifferences == ExtractKeyDifferences(lib.titleRatio, pages[p.first].content.value, pages[p.second].content.value)
  {
    CompareFirstCompared(lib, pages, AllPairs(|pages|), |AllPairs(|pages|)|);
  }

  /** Every pair i < j has its record, at position PairIndex(n, i, j). */
  lemma {:induction false} ComparePagesRecordOfPair(lib: TextLibrary, pages: seq<PageInput>, i: nat, j: nat)
    requires ComparePagesSpec(lib, pages).Compared?
    requires i < j < |pages|
    ensures PairIndex(|pages|, i, j) < |ComparePagesSpec(lib, pages).records|
    ensures pages[i].content.Some? && pages[j].content.Some? &&
      ComparePagesSpec(lib, pages).records[PairIndex(|pages|, i, j)] == ComparePair(lib, pages[i], pages[j])
  {
    AllPairsAt(|pages|, i, j);
    CompareFirstCompared(lib, pages, AllPairs(|pages|), |AllPairs(|pages|)|);
  }

  /** Of two records, the earlier one compares a lexicographically smaller
      pair (i, j), and each record compares its own pair with i < j: each
      unordered pair once, never reversed, never a page against itself. */
  lemma {:induction false} ComparePagesOrder(lib: TextLibrary, pages: seq<PageInput>, k: nat, k': nat)
    requires ComparePagesSpec(lib, pages).Compared?
    requires k < k' < |ComparePagesSpec(lib, pages).records|
    ensures k' < |AllPairs(|pages|)|
    ensures var p, q := AllPairs(|pages|)[k], AllPairs(|pages|)[k'];
      var rs := ComparePagesSpec(lib, pages).records;
      LexLess(p, q) && p.first < p.second && q.first < q.second &&
      Comparable(pages, p) && Comparable(pages, q) &&
      rs[k] == ComparePair(lib, pages[p.first], pages[p.second]) &&
      rs[k'] == ComparePair(lib, pages[q.first], pages[q.second])
  {
    AllPairsSorted(|pages|);
    CompareFirstCompared(lib, pages, AllPairs(|pages|), |AllPairs(|pages|)|);
  }

  /** With a single page nothing is compared, even if its content is absent. */
  lemma {:induction false} SinglePage(lib: TextLibrary, page: PageInput)
    ensures ComparePagesSpec(lib, [page]) == Compared([])
  {
    assert Row(0, 1) == [];
  }

  // ---------------------------------------------------------------------------
  // Swapping the two pages of a pair

  /** Swapping the pages swaps the URLs and negates the engagement difference. */
  lemma {:induction false} ComparePairSwap(lib: TextLibrary, page1: PageInput, page2: PageInput)
    requires page1.content.Some? && page2.content.Some?
    ensures ComparePair(lib, page2, page1).page1Url == ComparePair(lib, page1, page2).page2Url
    ensures ComparePair(lib, page2, page1).page2Url == ComparePair(lib, page1, page2).page1Url
    ensures ComparePair(lib, page2, page1).engagementDifference == -ComparePair(lib, page1, page2).engagementDifference
  {
  }

  /** Swapping the contents negates both signed counts, swaps the heading sets
      and asks the title ratio the other way round. */
  lemma {:induction false} KeyDifferencesSwap(titleRatio: (string, string) -> real, content1: PageContent, content2: PageContent)
    ensures var d, e := ExtractKeyDifferences(titleRatio, content1, content2), ExtractKeyDifferences(titleRatio, content2, content1);
      e.contentLengthDiff == -d.contentLengthDiff &&
      e.linkCountDiff == -d.linkCountDiff &&
      e.headingChanges.uniqueToFirst == d.headingChanges.uniqueToSecond &&
      e.headingChanges.uniqueToSecond == d.headingChanges.uniqueToFirst &&
      e.titleDiff == titleRatio(content2.title, content1.title)
  {
    CompareListsSwap(content1.headings, content2.headings);
  }

  /** A content compared with itself: no length or link difference, no
      heading changes, and a title difference of 1 when the ratio gives 1 for
      equal titles. */
  lemma {:induction false} KeyDifferencesSelf(titleRatio: (string, string) -> real, content: PageContent)
    ensures var d := ExtractKeyDifferences(titleRatio, content, content);
      d.contentLengthDiff == 0 && d.linkCountDiff == 0 &&
      d.headingChanges == HeadingChanges({}, {}) &&
      d.titleDiff == titleRatio(content.title, content.title)
    ensures (forall s :: titleRatio(s, s) == 1.0) ==>
      ExtractKeyDifferences(titleRatio, content, content).titleDiff == 1.0
  {
    CompareListsSameSet(content.headings, content.headings);
  }

  // ---------------------------------------------------------------------------
  // Heading set differences

  /** Each side holds only its own headings and none of the other's. */
  lemma {:induction false} CompareListsDisjoint(list1: seq<string>, list2: seq<string>)
    ensures CompareLists(list1, list2).uniqueToFirst <= Elements(list1)
    ensures CompareLists(list1, list2).uniqueToSecond <= Elements(list2)
    ensures CompareLists(list1, list2).uniqueToFirst !! Elements(list2)
    ensures CompareLists(list1, list2).uniqueToSecond !! Elements(list1)
    ensures CompareLists(list1, list2).uniqueToFirst !! CompareLists(list1, list2).uniqueToSecond
  {
  }

  /** Swapping the lists swaps the two fields. */
  lemma {:induction false} CompareListsSwap(list1: seq<string>, list2: seq<string>)
    ensures CompareLists(list2, list1) ==
      HeadingChanges(CompareLists(list1, list2).uniqueToSecond, CompareLists(list1, list2).uniqueToFirst)
  {
  }

  /** Both fields are empty exactly when the two lists hold the same headings. */
  lemma {:induction false} CompareListsSameSet(list1: seq<string>, list2: seq<string>)
    ensures CompareLists(list1, list2) == HeadingChanges({}, {}) <==> Elements(list1) == Elements(list2)
  {
    var c := CompareLists(list1, list2);
    if c == HeadingChanges({}, {}) {
      forall h | h in Elements(list1)
        ensures h in Elements(list2)
      {
        assert h !in c.uniqueToFirst;
      }
      forall h | h in Elements(list2)
        ensures h in Elements(list1)
      {
        assert h !in c.uniqueToSecond;
      }
    }
  }

  // ---------------------------------------------------------------------------
  // Similarity

  /** When the vectorizer only yields values in [0, 1], so does the similarity. */
  lemma {:induction false} SimilarityBounded(
    tfidfCosine: (string, string) -> Option<real>, content1: Option<PageContent>, content2: Option<PageContent>)
    requires forall a, b :: tfidfCosine(a, b).Some? ==> 0.0 <= tfidfCosine(a, b).value <= 1.0
    ensures 0.0 <= CalculateSimilarity(tfidfCosine, content1, content2) <= 1.0
  {
  }

  /** When the vectorizer is symmetric, so is the similarity. */
  lemma {:induction false} SimilaritySymmetric(
    tfidfCosine: (string, string) -> Option<real>, content1: Option<PageContent>, content2: Option<PageContent>)
    requires forall a, b :: tfidfCosine(a, b) == tfidfCosine(b, a)
    ensures CalculateSimilarity(tfidfCosine, content1, content2) == CalculateSimilarity(tfidfCosine, content2, content1)
  {
  }

  // ---------------------------------------------------------------------------
  // The statistical report

  /** The report of concatenated record lists is the concatenation of the reports. */
  lemma {:induction false} AnalyzeConcat(xs: seq<Comparison>, ys: seq<Comparison>)
    ensures AnalyzeStatistically(xs + ys).contentSimilarities ==
      AnalyzeStatistically(xs).contentSimilarities + AnalyzeStatistically(ys).contentSimilarities
    ensures AnalyzeStatistically(xs + ys).engagementDifferences ==
      AnalyzeStatistically(xs).engagementDifferences + AnalyzeStatistically(ys).engagementDifferences
    ensures AnalyzeStatistically(xs + ys).keyDifferences ==
      AnalyzeStatistically(xs).keyDifferences + AnalyzeStatistically(ys).keyDifferences
  {
    var r, a, b := AnalyzeStatistically(xs + ys), AnalyzeStatistically(xs), AnalyzeStatistically(ys);
    forall k | 0 <= k < |xs + ys|
      ensures r.contentSimilarities[k] == (a.contentSimilarities + b.contentSimilarities)[k]
      ensures r.engagementDifferences[k] == (a.engagementDifferences + b.engagementDifferences)[k]
      ensures r.keyDifferences[k] == (a.keyDifferences + b.keyDifferences)[k]
    {
      if k < |xs| {
        assert (xs + ys)[k] == xs[k];
      } else {
        assert (xs + ys)[k] == ys[k - |xs|];
      }
    }
  }

  /** After compare_pages on pages whose contents are all present, the
      engagement list has an entry at pair i < j's position, and it is
      engagement i minus engagement j. */
  lemma {:induction false} AnalyzeComparedPages(lib: TextLibrary, pages: seq<PageInput>, i: nat, j: nat)
    requires forall t :: 0 <= t < |pages| ==> pages[t].content.Some?
    requires i < j < |pages|
    ensures ComparePagesSpec(lib, pages).Compared?
    ensures var report := AnalyzeStatistically(ComparePagesSpec(lib, pages).records);
      PairIndex(|pages|, i, j) < |report.engagementDifferences| &&
      report.engagementDifferences[PairIndex(|pages|, i, j)] == pages[i].engagement - pages[j].engagement
  {
    ComparePagesCount(lib, pages);
    ComparePagesRecordOfPair(lib, pages, i, j);
  }

  // ---------------------------------------------------------------------------
  // A worked example

  const TwoPages: seq<PageInput> := [
    PageInput("A", 0.16, Some(PageContent("T1", ["H1"], "hello world", [Some("/a")], ""))),
    PageInput("B", 0.55, Some(PageContent("T1", ["H2"], "hello world", [Some("/a"), Some("/b")], "")))
  ]

  /** Two pages with identical body text: one record, engagement difference
      0.16 - 0.55, equal lengths, one link fewer, and each page's heading
      unique to it. */
  lemma {:induction false} TwoPagesScenario(lib: TextLibrary)
    requires lib.tfidfCosine("hello world", "hello world") == Some(1.0)
    ensures ComparePagesSpec(lib, TwoPages) == Compared([
      Comparison("A", "B", 1.0, -0.39,
        KeyDifferences(lib.titleRatio("T1", "T1"), HeadingChanges({"H1"}, {"H2"}), 0, -1))])
  {
    assert AllPairs(2) == [IndexPair(0, 1)] by {
      assert Row(0, 2) == [IndexPair(0, 1)];
      assert Row(1, 2) == [];
    }
    assert Elements(["H1"]) == {"H1"};
    assert Elements(["H2"]) == {"H2"};
    var c1, c2 := TwoPages[0].content.value, TwoPages[1].content.value;
    assert CalculateSimilarity(lib.tfidfCosine, TwoPages[0].content, TwoPages[1].content) == 1.0;
    assert CompareLists(c1.headings, c2.headings) == HeadingChanges({"H1"}, {"H2"});
    assert ExtractKeyDifferences(lib.titleRatio, c1, c2) ==
      KeyDifferences(lib.titleRatio("T1", "T1"), HeadingChanges({"H1"}, {"H2"}), 0, -1);
    assert CompareFirst(lib, TwoPages, [IndexPair(0, 1)], 0) == Compared([]);
  }
}
