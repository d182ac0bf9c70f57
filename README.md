# Landing page comparison engine

This project is a Dafny model of the pairwise comparison core of
`LandingPageAnalyzer` (src/landing_page_analyzer.py of engagement-insights),
together with proofs about it. Given a list of pages, each with a URL, an
engagement metric and an extracted content record, `compare_pages` walks every
unordered index pair `i < j` with two nested loops. For each pair it emits one
comparison record holding:

- both URLs;
- a TF-IDF content similarity;
- the signed engagement difference;
- a structural-difference record: the title ratio, the heading set
  differences, and the signed content-length and link-count differences.

With AI analysis switched off, `analyze_engagement_factors` repackages the
records into three index-aligned lists under a fixed notice.

Files:

- `wrappers.dfy`: the `Option` type.
- `pairs.dfy` (module `PairEnumeration`): the order in which the nested loops
  visit index pairs, as the sequence `AllPairs(n)`. It proves the count, the
  lexicographic order, the absence of duplicates, and the position of each
  pair.
- `analyzer.dfy` (module `LandingPageAnalyzer`): the data records, the three
  helpers as functions, and `compare_pages` as a method with the source's
  nested loops. The method is proved equal to the specification function
  `ComparePagesSpec`.
- `properties.dfy` (module `ComparisonProperties`): what the engine promises,
  stated about `ComparePagesSpec` and the helpers.

The two library calls are parameters, bundled in the datatype `TextLibrary`:

- **TF-IDF cosine** (`tfidfCosine`): the off-diagonal entry of the TF-IDF
  Gram matrix, or `None` when vectorizing raises (for example on an empty
  vocabulary).
- **Title similarity ratio** (`titleRatio`): the ratio of the title sequence
  matcher.

Engagement values and similarity scores are exact `real`s.

**Absent content.** A page whose content could not be fetched carries `None`.
`_calculate_similarity` swallows the resulting error and gives 0. But
`_extract_key_differences` subscripts the absent content and raises, so
`compare_pages` raises at the first pair, in visiting order, that involves
such a page. This is modelled as the outcome `MissingContent`, not as a
precondition that every content is present. The reason is that a list of one
page (or none) has no pairs, and the source then returns an empty list even
when that content is absent. `ComparisonProperties.ComparePagesSucceeds`
states exactly when records come back.

## Model

| member | source | states |
|---|---|---|
| LandingPageAnalyzer.ComparePages | src/landing_page_analyzer.py:39-58 | the nested loops over all (i, j) with the `i < j` test produce exactly the outcome of visiting every pair of `AllPairs(n)` in order, including raising at the first pair with an absent content |
| LandingPageAnalyzer.CompareFirst | src/landing_page_analyzer.py:43-56 | visiting the first m pairs yields, when it succeeds, exactly m records |
| LandingPageAnalyzer.VisitPair | src/landing_page_analyzer.py:45-56 | the visit of pair (i, j) happens after exactly `PairIndex(n, i, j)` records; it either appends that pair's record to the accumulated prefix or makes the whole comparison raise |
| LandingPageAnalyzer.CompareFirstStopsAtMissing | src/landing_page_analyzer.py:43-56 | once a pair has raised, later pairs do not change the outcome |
| LandingPageAnalyzer.CalculateSimilarity | src/landing_page_analyzer.py:60-70 | the similarity is the vectorizer's value when both contents are present and vectorizing succeeds, and 0 in every other case |
| LandingPageAnalyzer.CompareLists | src/landing_page_analyzer.py:82-87 | a heading is unique to the first list exactly when it is in the first list and not in the second, and symmetrically for the second |
| LandingPageAnalyzer.ExtractKeyDifferences | src/landing_page_analyzer.py:72-80 | the title difference is the title ratio of the two titles; a heading is unique to one side exactly when that content has it and the other does not; the content-length difference is the length of body text 1 minus that of body text 2 and the link-count difference is the number of links of content 1 minus that of content 2 |
| LandingPageAnalyzer.ComparePair | src/landing_page_analyzer.py:46-55 | the record of two present pages holds page 1's URL then page 2's, the vectorizer's similarity of the two body texts or 0 when vectorizing fails, engagement 1 minus engagement 2, and the key differences of content 1 against content 2 |
| LandingPageAnalyzer.ComparePagesSpec | src/landing_page_analyzer.py:39-58 | compare_pages as a function: fewer than two pages give an empty list, and a run that does not raise gives N * (N - 1) / 2 records |
| LandingPageAnalyzer.AnalyzeStatistically | src/landing_page_analyzer.py:91-99 | the report carries the fixed notice and three lists as long as the input, whose entry k is the similarity, engagement difference and key differences of record k |
| PairEnumeration.AllPairs | src/landing_page_analyzer.py:43-45 | every enumerated pair (i, j) has i < j < n |
| PairEnumeration.AllPairsCount | src/landing_page_analyzer.py:43-45 | n pages give n * (n - 1) / 2 pairs |
| PairEnumeration.AllPairsSorted | src/landing_page_analyzer.py:43-45 | pairs come out in strictly increasing lexicographic order of (i, j) |
| PairEnumeration.AllPairsDistinct | src/landing_page_analyzer.py:43-45 | no pair is enumerated twice or in both orientations |
| PairEnumeration.AllPairsMembership | src/landing_page_analyzer.py:43-45 | a pair is enumerated exactly when i < j < n: no self-pairs, no reversed pairs, none missing |
| PairEnumeration.AllPairsAt | src/landing_page_analyzer.py:43-45 | pair (i, j) sits at position `PairIndex(n, i, j)`, the number of pairs with a smaller first index plus j - i - 1 |
| PairEnumeration.ThreePagesOrder | src/landing_page_analyzer.py:43-45 | three pages are compared in the order (0, 1), (0, 2), (1, 2) |
| PairEnumeration.RowBounds | src/landing_page_analyzer.py:44-45 | the inner loop for i emits only pairs (i, k) with i < k |
| PairEnumeration.RowSorted | src/landing_page_analyzer.py:44-45 | the inner loop emits its pairs in increasing second index |
| PairEnumeration.RowAt | src/landing_page_analyzer.py:44-45 | the inner loop for i emits (i, k) as its (k - i - 1)-th pair |
| PairEnumeration.RowLength | src/landing_page_analyzer.py:44-45 | the inner loop for i up to j emits j - i - 1 pairs when j > i |
| PairEnumeration.PrefixBounds | src/landing_page_analyzer.py:43-45 | after the outer loop reaches i, every emitted pair has a first index below i and is ascending |
| PairEnumeration.PrefixSorted | src/landing_page_analyzer.py:43-45 | what the outer loop has emitted so far is strictly increasing |
| PairEnumeration.PrefixIsPrefix | src/landing_page_analyzer.py:43-45 | later outer iterations only extend what was emitted before |
| PairEnumeration.PrefixLength | src/landing_page_analyzer.py:43-45 | after the outer loop reaches i, twice the number of emitted pairs is i * (2n - i - 1) |
| PairEnumeration.PrefixCountIsLength | src/landing_page_analyzer.py:43-45 | the integer count of emitted pairs equals the length of what was emitted |
| PairEnumeration.PrefixCountGrows | src/landing_page_analyzer.py:43-45 | one outer iteration adds its row's count, and the count never exceeds the total |
| ComparisonProperties.CompareFirstCompared | src/landing_page_analyzer.py:43-56 | visiting a list of pairs succeeds exactly when no pair touches an absent content, and then record k is the record of pair k |
| ComparisonProperties.AllPairsComparable | src/landing_page_analyzer.py:43-45 | every pair touches only present contents exactly when there is at most one page or every content is present |
| ComparisonProperties.ComparePagesSucceeds | src/landing_page_analyzer.py:39-58 | compare_pages returns its records exactly when there are fewer than two pages or every page's content is present, and raises otherwise |
| ComparisonProperties.ComparePagesCount | src/landing_page_analyzer.py:39-58 | N pages whose contents are all present give back records, N * (N - 1) / 2 of them |
| ComparisonProperties.ComparePagesRecordAt | src/landing_page_analyzer.py:46-56 | record k compares the k-th pair (i, j), i < j: URLs of pages i and j, engagement of i minus engagement of j (signed), and the similarity and key differences of contents i and j |
| ComparisonProperties.ComparePagesRecordOfPair | src/landing_page_analyzer.py:43-56 | every pair i < j has its record, at position `PairIndex(n, i, j)` |
| ComparisonProperties.ComparePagesOrder | src/landing_page_analyzer.py:43-45 | of records k < k', record k compares pages i, j and record k' pages i', j', with (i, j) lexicographically before (i', j'), i < j and i' < j' |
| ComparisonProperties.SinglePage | src/landing_page_analyzer.py:39-58 | a single page yields no records, even when its content is absent |
| ComparisonProperties.ComparePairSwap | src/landing_page_analyzer.py:47-53 | swapping the two pages swaps the URLs and negates the engagement difference |
| ComparisonProperties.KeyDifferencesSwap | src/landing_page_analyzer.py:72-80 | swapping the contents negates the content-length and link-count differences, swaps the heading sets and queries the title ratio the other way round |
| ComparisonProperties.KeyDifferencesSelf | src/landing_page_analyzer.py:72-80 | a content compared with itself has no length or link difference and no heading changes; its title difference is the ratio of the title with itself, which is 1 whenever the ratio gives 1 on equal strings |
| ComparisonProperties.CompareListsDisjoint | src/landing_page_analyzer.py:82-87 | each side is contained in its own list's set, disjoint from the other list's set and disjoint from the other side |
| ComparisonProperties.CompareListsSwap | src/landing_page_analyzer.py:82-87 | swapping the lists swaps the two fields |
| ComparisonProperties.CompareListsSameSet | src/landing_page_analyzer.py:82-87 | both fields are empty exactly when the two lists hold the same set of headings |
| ComparisonProperties.SimilarityBounded | src/landing_page_analyzer.py:60-70 | if the vectorizer only yields values in [0, 1], the similarity is in [0, 1] |
| ComparisonProperties.SimilaritySymmetric | src/landing_page_analyzer.py:60-70 | if the vectorizer is symmetric in its two texts, so is the similarity |
| ComparisonProperties.AnalyzeConcat | src/landing_page_analyzer.py:91-99 | the report of concatenated record lists is the list-wise concatenation of the reports |
| ComparisonProperties.AnalyzeComparedPages | src/landing_page_analyzer.py:39-99 | after compare_pages on pages whose contents are all present, the engagement list has an entry at pair i < j's position `PairIndex(n, i, j)`, and it is engagement i minus engagement j |
| ComparisonProperties.TwoPagesScenario | src/landing_page_analyzer.py:39-87 | two pages with the same body text, headings H1 and H2, and one and two links give one record: similarity 1 when the vectorizer gives 1 for the two identical body texts (a hypothesis, not proved), title difference left as `titleRatio("T1", "T1")`, engagement difference -0.39, length difference 0, link difference -1, and each heading unique to its page |

## Left out

- `fetch_page_content` (src/landing_page_analyzer.py:19-37) is network I/O and HTML parsing by foreign libraries. The model takes its result, or `None`, as input.
- The TF-IDF vectorizer and the sparse-matrix product (src/landing_page_analyzer.py:62-68) are foreign floating-point code. They are the parameter `tfidfCosine`; only the wrapper's "failure gives 0" rule is modelled.
- The title sequence-matcher ratio (src/landing_page_analyzer.py:75) comes from difflib and is not modelled. It is the uninterpreted parameter `titleRatio`.
- The AI branch of `analyze_engagement_factors` (src/landing_page_analyzer.py:101-129) calls a remote language model and parses JSON from its reply. Only the statistical branch is modelled, and it is a function with no client parameter, so it cannot touch one.
- `_create_analysis_prompt` (src/landing_page_analyzer.py:131-150) only formats strings for the AI branch.
- `__init__` (src/landing_page_analyzer.py:12-17) loads the environment and builds the API client. The `use_ai` flag is modelled by offering only the statistical branch.
- The driver scripts src/temp_results.py and src/analyze_pages.py only build example inputs and write the results to a file or to standard output.
- LandingPageAnalyzer.CompareLists: the source returns lists built from sets, in hash order. The model returns the sets themselves, so element order is not modelled.
- Floating point: engagement values and similarities are exact reals. Rounding in the subtraction and in the vectorizer is not modelled.
- LandingPageAnalyzer.CalculateSimilarity: the failure value in the source is the integer `0`, not a float. The model returns the real 0.0.
- LandingPageAnalyzer.ComparePages: the raised TypeError is the payload-free outcome `MissingContent`. The exception's message and traceback are not modelled, and neither are records or page dictionaries with missing keys or values of the wrong type.
- The model checks for absent content before computing the similarity; the source computes the similarity first and then raises during the key differences. No value escapes, so the outcome is the same.
- The content's `meta_description` is carried in `PageContent` but, as in the source, never read by the comparison.
