/** The pairwise comparison engine of LandingPageAnalyzer: similarity of two
    pages' body text, their structural differences, one comparison record per
    unordered page pair, and the statistical repackaging of those records. */
module LandingPageAnalyzer {
  import opened Wrappers
  import opened PairEnumeration

  /** The structured record the content extractor produces for one page.
      A link is absent when its anchor has no href. */
  datatype PageContent = PageContent(
    title: string,
    headings: seq<string>,
    mainContent: string,
    links: seq<Option<string>>,
    metaDescription: string)

  /** One page as the caller supplies it; content is None when fetching failed. */
  datatype PageInput = PageInput(url: string, engagement: real, content: Option<PageContent>)

  /** The headings each side has that the other lacks, duplicates collapsed. */
  datatype HeadingChanges = HeadingChanges(uniqueToFirst: set<string>, uniqueToSecond: set<string>)

  datatype KeyDifferences = KeyDifferences(
    titleDiff: real,
    headingChanges: HeadingChanges,
    contentLengthDiff: int,
    linkCountDiff: int)

  datatype Comparison = Comparison(
    page1Url: string,
    page2Url: string,
    contentSimilarity: real,
    engagementDifference: real,
    keyDifferences: KeyDifferences)

  /** What compare_pages gives back: the records, or the TypeError raised
      when the structural comparison subscripts an absent content. */
  datatype Outcome = Compared(records: seq<Comparison>) | MissingContent

  /** The two library calls the engine relies on, left uninterpreted:
      tfidfCosine(a, b) is the off-diagonal entry of the Gram matrix of the
      TF-IDF matrix fitted on [a, b], or None when vectorizing raises;
      titleRatio(a, b) is the string-similarity ratio of two titles. */
  datatype TextLibrary = TextLibrary(
    tfidfCosine: (string, string) -> Option<real>,
    titleRatio: (string, string) -> real)

  /** _calculate_similarity: any failure, including an absent content, gives 0. */
  function CalculateSimilarity(
    tfidfCosine: (string, string) -> Option<real>,
    content1: Option<PageContent>,
    content2: Option<PageContent>): (r: real)
    ensures content1.Some? && content2.Some? &&
            tfidfCosine(content1.value.mainContent, content2.value.mainContent).Some? ==>
              r == tfidfCosine(content1.value.mainContent, content2.value.mainContent).value
    ensures content1.None? || content2.None? ||
            tfidfCosine(content1.value.mainContent, content2.value.mainContent).None? ==>
              r == 0.0
  {
    if content1.None? || content2.None? then 0.0
    else
      match tfidfCosine(content1.value.mainContent, content2.value.mainContent)
      case Some(v) => v
      case None => 0.0
  }

  /** The distinct elements of a list. */
  function Elements(xs: seq<string>): set<string>
  {
    set x | x in xs
  }

  /** _compare_lists: the one-sided set differences of two heading lists. */
  function CompareLists(list1: seq<string>, list2: seq<string>): (r: HeadingChanges)
    ensures forall h :: h in r.uniqueToFirst <==> h in list1 && h !in list2
    ensures forall h :: h in r.uniqueToSecond <==> h in list2 && h !in list1
  {
    HeadingChanges(Elements(list1) - Elements(list2), Elements(list2) - Elements(list1))
  }

  /** _extract_key_differences on two present contents: the title ratio of the
      two titles, the one-sided heading differences, and the signed differences
      of body-text length and link count. */
  function ExtractKeyDifferences(
    titleRatio: (string, string) -> real,
    content1: PageContent,
    content2: PageContent): (r: KeyDifferences)
    ensures r.titleDiff == titleRatio(content1.title, content2.title)
    ensures forall h :: h in r.headingChanges.uniqueToFirst <==> h in content1.headings && h !in content2.headings
    ensures forall h :: h in r.headingChanges.uniqueToSecond <==> h in content2.headings && h !in content1.headings
    ensures r.contentLengthDiff + |content2.mainContent| == |content1.mainContent|
    ensures r.linkCountDiff + |content2.links| == |content1.links|
  {
    KeyDifferences(
      titleRatio(content1.title, content2.title),
      CompareLists(content1.headings, content2.headings),
      |content1.mainContent| - |content2.mainContent|,
      |content1.links| - |content2.links|)
  }

  /** Page k exists and its content was fetched. */
  predicate Present(pages: seq<PageInput>, k: nat)
  {
    k < |pages| && pages[k].content.Some?
  }

  /** Comparing the pair touches only present contents. */
  predicate Comparable(pages: seq<PageInput>, p: IndexPair)
  {
    Present(pages, p.first) && Present(pages, p.second)
  }

  /** The record compare_pages builds for two pages whose contents are present:
      the URLs in order, the similarity of the two contents, the signed
      engagement difference, and the key differences. */
  function ComparePair(lib: TextLibrary, page1: PageInput, page2: PageInput): (r: Comparison)
    requires page1.content.Some? && page2.content.Some?
    ensures r.page1Url == page1.url && r.page2Url == page2.url
    ensures r.engagementDifference + page2.engagement == page1.engagement
    ensures r.contentSimilarity ==
      match lib.tfidfCosine(page1.content.value.mainContent, page2.content.value.mainContent)
      case Some(v) => v
      case None => 0.0
    ensures r.keyDifferences == ExtractKeyDifferences(lib.titleRatio, page1.content.value, page2.content.value)
  {
    Comparison(
      page1.url,
      page2.url,
      CalculateSimilarity(lib.tfidfCosine, page1.content, page2.content),
      page1.engagement - page2.engagement,
      ExtractKeyDifferences(lib.titleRatio, page1.content.value, page2.content.value))
  }

  /** The outcome of visiting the first m pairs of ps in order: records
      accumulate until a pair that touches an absent content raises. */
  function CompareFirst(lib: TextLibrary, pages: seq<PageInput>, ps: seq<IndexPair>, m: nat): (r: Outcome)
    requires m <= |ps|
    ensures r.Compared? ==> |r.records| == m
  {
    if m == 0 then Compared([])
    else
      match CompareFirst(lib, pages, ps, m - 1)
      case MissingContent => MissingContent
      case Compared(rs) =>
        if Comparable(pages, ps[m - 1])
        then Compared(rs + [ComparePair(lib, pages[ps[m - 1].first], pages[ps[m - 1].second])])
        else MissingContent
  }

  /** compare_pages as a function of its input: every pair i < j, in order.
      Fewer than two pages give no records; otherwise a successful run gives
      one record per unordered pair. */
  function ComparePagesSpec(lib: TextLibrary, pages: seq<PageInput>): (r: Outcome)
    ensures |pages| < 2 ==> r == Compared([])
    ensures r.Compared? ==> |r.records| == |pages| * (|pages| - 1) / 2
  {
    AllPairsCount(|pages|);
    CompareFirst(lib, pages, AllPairs(|pages|), |AllPairs(|pages|)|)
  }

  /** rs is what compare_pages has accumulated after visiting the first |rs| pairs. */
  predicate Accumulated(lib: TextLibrary, pages: seq<PageInput>, rs: seq<Comparison>)
  {
    |rs| <= |AllPairs(|pages|)| && CompareFirst(lib, pages, AllPairs(|pages|), |rs|) == Compared(rs)
  }

  /** compare_pages: the nested loops over all (i, j), comparing when i < j. */
  method ComparePages(lib: TextLibrary, pages: seq<PageInput>) returns (outcome: Outcome)
    ensures outcome == ComparePagesSpec(lib, pages)
  {
    var n := |pages|;
    AllPairsCount(n);
    var comparisonResults: seq<Comparison> := [];
    var i := 0;
    while i < n
      invariant 0 <= i <= n
      invariant |comparisonResults| == PrefixCount(n, i)
      invariant Accumulated(lib, pages, comparisonResults)
    {
      PrefixCountGrows(n, i);
      var j := 0;
      while j < n
        invariant 0 <= j <= n
        invariant |comparisonResults| == PrefixCount(n, i) + RowCount(i, j)
        invariant Accumulated(lib, pages, comparisonResults)
      {
        if i < j {
          VisitPair(lib, pages, i, j, comparisonResults);
          var page1, page2 := pages[i], pages[j];
          if page1.content.None? || page2.content.None? {
            // _extract_key_differences subscripts the absent content and raises
            return MissingContent;
          }
          comparisonResults := comparisonResults + [ComparePair(lib, page1, page2)];
        }
        j := j + 1;
      }
      i := i + 1;
    }
    assert CompareFirst(lib, pages, AllPairs(n), |AllPairs(n)|) == Compared(comparisonResults);
    return Compared(comparisonResults);
  }

  /** The visit of pair (i, j), reached after PairIndex(n, i, j) records:
      it appends the pair's record, or the whole comparison raises. */
  lemma {:induction false} VisitPair(
    lib: TextLibrary, pages: seq<PageInput>, i: nat, j: nat, rs: seq<Comparison>)
    requires i < j < |pages| && |rs| == PairIndex(|pages|, i, j)
    requires Accumulated(lib, pages, rs)
    ensures Comparable(pages, IndexPair(i, j)) ==> Accumulated(lib, pages, rs + [ComparePair(lib, pages[i], pages[j])])
    ensures !Comparable(pages, IndexPair(i, j)) ==> ComparePagesSpec(lib, pages) == MissingContent
  {
    var all := AllPairs(|pages|);
    AllPairsAt(|pages|, i, j);
    if !Comparable(pages, IndexPair(i, j)) {
      CompareFirstStopsAtMissing(lib, pages, all, |rs| + 1, |all|);
    }
  }

  /** Once a pair with absent content has raised, later pairs change nothing. */
  lemma {:induction false} CompareFirstStopsAtMissing(
    lib: TextLibrary, pages: seq<PageInput>, ps: seq<IndexPair>, m: nat, m': nat)
    requires m <= m' <= |ps| && CompareFirst(lib, pages, ps, m) == MissingContent
    ensures CompareFirst(lib, pages, ps, m') == MissingContent
    decreases m'
  {
    if m < m' {
      CompareFirstStopsAtMissing(lib, pages, ps, m, m' - 1);
    }
  }

  /** The notice analyze_engagement_factors attaches when AI analysis is off. */
  const StatisticalNotice: string := "AI analysis disabled. Only statistical comparisons available."

  /** analyze_engagement_factors with use_ai false. */
  datatype StatisticalReport = StatisticalReport(
    notice: string,
    contentSimilarities: seq<real>,
    engagementDifferences: seq<real>,
    keyDifferences: seq<KeyDifferences>)

  /** The statistical branch: three lists aligned with the input records. */
  function AnalyzeStatistically(comparisonData: seq<Comparison>): (r: StatisticalReport)
    ensures r.notice == StatisticalNotice
    ensures |r.contentSimilarities| == |comparisonData|
    ensures |r.engagementDifferences| == |comparisonData|
    ensures |r.keyDifferences| == |comparisonData|
    ensures forall k :: 0 <= k < |comparisonData| ==>
      r.contentSimilarities[k] == comparisonData[k].contentSimilarity &&
      r.engagementDifferences[k] == comparisonData[k].engagementDifference &&
      r.keyDifferences[k] == comparisonData[k].keyDifferences
  {
    StatisticalReport(
      StatisticalNotice,
      seq(|comparisonData|, k requires 0 <= k < |comparisonData| => comparisonData[k].contentSimilarity),
      seq(|comparisonData|, k requires 0 <= k < |comparisonData| => comparisonData[k].engagementDifference),
      seq(|comparisonData|, k requires 0 <= k < |comparisonData| => comparisonData[k].keyDifferences))
  }
}
