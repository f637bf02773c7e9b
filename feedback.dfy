/**
 * The status summary of client/src/Components/pages/ActionableFeedback.jsx:
 * the guard against missing inputs, the destructuring defaults, and the
 * figures derived from the analysis (top languages and repository counts).
 */
module Feedback {
  import opened Wrappers
  import opened AssessmentRecord
  import Sequences

  /** A repository of the analysis; only the fields the counts look at. */
  datatype GithubRepo = GithubRepo(name: string, description: Option<string>, hasPages: bool, homepage: Option<string>)

  /** One entry of `Object.entries(language_stats)`: a language and its repository count. */
  type LanguageCount = (string, int)

  /** The `analysis` prop; `languageStats` lists the object's entries in `Object.entries` order. */
  datatype Analysis = Analysis(languageStats: Option<seq<LanguageCount>>, repos: Option<seq<GithubRepo>>, totalReposFetched: Option<int>)

  /**
   * What the component computes: the loading notice, or the summary figures.
   * Of the summary the page displays `totalRepos`, `totalScore`,
   * `reposWithDescription` and `reposWithDemo`; `topLanguages` and the
   * recommendations are computed but not displayed.
   */
  datatype FeedbackView =
    | Generating
    | Summary(
        totalRepos: int,
        totalScore: int,
        topLanguages: seq<LanguageCount>,
        reposWithDescription: nat,
        reposWithDemo: nat,
        recommendations: seq<string>)

  // ---------------------------------------------------------------------
  // Top languages: a stable sort by count, largest first, then the first three.

  predicate NonIncreasing(s: seq<LanguageCount>)
  {
    forall i, j :: 0 <= i < j < |s| ==> s[i].1 >= s[j].1
  }

  /** Insert `e` into a list sorted by count, before every entry whose count it equals or exceeds. */
  function InsertByCount(e: LanguageCount, sorted: seq<LanguageCount>): (r: seq<LanguageCount>)
    requires NonIncreasing(sorted)
    ensures multiset(r) == multiset(sorted) + multiset{e}
    ensures NonIncreasing(r)
  {
    if sorted == [] || e.1 >= sorted[0].1 then [e] + sorted
    else
      var tail := InsertByCount(e, sorted[1..]);
      assert sorted == [sorted[0]] + sorted[1..];
      HeadBoundsInsertion(e, sorted, tail);
      [sorted[0]] + tail
  }

  /** Every entry of the insertion into `sorted[1..]` has a count at most that of `sorted[0]`. */
  lemma HeadBoundsInsertion(e: LanguageCount, sorted: seq<LanguageCount>, tail: seq<LanguageCount>)
    requires NonIncreasing(sorted) && sorted != [] && e.1 < sorted[0].1
    requires multiset(tail) == multiset(sorted[1..]) + multiset{e}
    ensures forall j :: 0 <= j < |tail| ==> tail[j].1 <= sorted[0].1
  {
    forall j | 0 <= j < |tail|
      ensures tail[j].1 <= sorted[0].1
    {
      var x := tail[j];
      assert x in multiset(tail);
      if x != e {
        assert x in multiset(sorted[1..]);
        var m :| 0 <= m < |sorted[1..]| && sorted[1..][m] == x;
        assert sorted[m + 1] == x;
      }
    }
  }

  /**
   * `.sort((a, b) => b[1] - a[1])`: JavaScript's sort is stable, so this is
   * the one ordering by count, largest first, that keeps entries of equal
   * count in their `Object.entries` order.
   */
  function SortByCount(entries: seq<LanguageCount>): (r: seq<LanguageCount>)
    ensures multiset(r) == multiset(entries)
    ensures NonIncreasing(r)
  {
    if entries == [] then []
    else
      assert entries == [entries[0]] + entries[1..];
      InsertByCount(entries[0], SortByCount(entries[1..]))
  }

  /** The entries with count `c`, in their order. */
  function WithCount(s: seq<LanguageCount>, c: int): seq<LanguageCount>
  {
    Sequences.Filter(s, (e: LanguageCount) => e.1 == c)
  }

  lemma {:induction false} InsertKeepsTieOrder(e: LanguageCount, sorted: seq<LanguageCount>, c: int)
    requires NonIncreasing(sorted)
    ensures WithCount(InsertByCount(e, sorted), c) == (if e.1 == c then [e] else []) + WithCount(sorted, c)
  {
    if sorted != [] && e.1 < sorted[0].1 {
      InsertKeepsTieOrder(e, sorted[1..], c);
      var tail := InsertByCount(e, sorted[1..]);
      assert ([sorted[0]] + tail)[1..] == tail;
      assert WithCount(sorted, c) == (if sorted[0].1 == c then [sorted[0]] else []) + WithCount(sorted[1..], c);
    }
  }

  /** The sort is stable: entries of equal count keep their relative order. */
  lemma {:induction false} SortByCountIsStable(entries: seq<LanguageCount>, c: int)
    ensures WithCount(SortByCount(entries), c) == WithCount(entries, c)
  {
    if entries != [] {
      SortByCountIsStable(entries[1..], c);
      InsertKeepsTieOrder(entries[0], SortByCount(entries[1..]), c);
    }
  }

  /** The first `k` entries of a sorted permutation of `entries`, where `k` is 3 or the whole length if shorter. */
  lemma SortedPrefixFacts(entries: seq<LanguageCount>, sorted: seq<LanguageCount>, k: nat)
    requires multiset(sorted) == multiset(entries) && NonIncreasing(sorted)
    requires k == if |sorted| < 3 then |sorted| else 3
    ensures |sorted[..k]| == if |entries| < 3 then |entries| else 3
    ensures multiset(sorted[..k]) <= multiset(entries)
    ensures NonIncreasing(sorted[..k])
    ensures forall e :: e in entries && e !in sorted[..k] ==> k > 0 && e.1 <= sorted[k - 1].1
  {
    assert |sorted| == |multiset(sorted)| == |multiset(entries)| == |entries|;
    assert multiset(sorted) == multiset(sorted[..k]) + multiset(sorted[k..]) by {
      assert sorted == sorted[..k] + sorted[k..];
    }
    forall e | e in entries && e !in sorted[..k]
      ensures k > 0 && e.1 <= sorted[k - 1].1
    {
      assert e in multiset(sorted);
      var m :| 0 <= m < |sorted| && sorted[m] == e;
    }
  }

  /** `topLanguages`: the first three entries of the sorted list. */
  function TopLanguages(entries: seq<LanguageCount>): (r: seq<LanguageCount>)
    ensures |r| == if |entries| < 3 then |entries| else 3
    ensures multiset(r) <= multiset(entries)
    ensures NonIncreasing(r)
    ensures forall e :: e in entries && e !in r ==> |r| > 0 && e.1 <= r[|r| - 1].1
  {
    var sorted := SortByCount(entries);
    var k := if |sorted| < 3 then |sorted| else 3;
    SortedPrefixFacts(entries, sorted, k);
    sorted[..k]
  }

  // ---------------------------------------------------------------------
  // Repository counts.

  /** `r.description && r.description.length > 0`. */
  predicate HasDescription(r: GithubRepo)
  {
    r.description.Some? && |r.description.value| > 0
  }

  /** `r.has_pages || r.homepage`: the homepage counts when it is a non-empty string. */
  predicate HasDemo(r: GithubRepo)
  {
    r.hasPages || (r.homepage.Some? && r.homepage.value != "")
  }

  /** `reposWithDescription`. */
  function ReposWithDescription(repos: seq<GithubRepo>): (n: nat)
    ensures n <= |repos|
    ensures n == 0 <==> forall i :: 0 <= i < |repos| ==> !HasDescription(repos[i])
    ensures n == |repos| <==> forall i :: 0 <= i < |repos| ==> HasDescription(repos[i])
  {
    Sequences.FilterEmpty(repos, HasDescription);
    Sequences.FilterLengthFull(repos, HasDescription);
    |Sequences.Filter(repos, HasDescription)|
  }

  /** `reposWithDemo`. */
  function ReposWithDemo(repos: seq<GithubRepo>): (n: nat)
    ensures n <= |repos|
    ensures n == 0 <==> forall i :: 0 <= i < |repos| ==> !HasDemo(repos[i])
    ensures n == |repos| <==> forall i :: 0 <= i < |repos| ==> HasDemo(repos[i])
  {
    Sequences.FilterEmpty(repos, HasDemo);
    Sequences.FilterLengthFull(repos, HasDemo);
    |Sequences.Filter(repos, HasDemo)|
  }

  /** Both counts add up over any split of the list, and a single repository counts 1 exactly when it qualifies. */
  lemma RepoCountsAdd(a: seq<GithubRepo>, b: seq<GithubRepo>, r: GithubRepo)
    ensures ReposWithDescription(a + b) == ReposWithDescription(a) + ReposWithDescription(b)
    ensures ReposWithDemo(a + b) == ReposWithDemo(a) + ReposWithDemo(b)
    ensures ReposWithDescription([r]) == if HasDescription(r) then 1 else 0
    ensures ReposWithDemo([r]) == if HasDemo(r) then 1 else 0
  {
    Sequences.FilterConcat(a, b, HasDescription);
    Sequences.FilterConcat(a, b, HasDemo);
    assert [r][1..] == [];
  }

  // ---------------------------------------------------------------------
  // The component.

  /** `ActionableFeedback({ analysis, portfolioAssessment })`. */
  function FeedbackFor(analysis: Option<Analysis>, assessment: Option<Assessment>): (v: FeedbackView)
    ensures v.Generating? <==> analysis.None? || assessment.None?
    ensures v.Summary? ==>
      && v.totalRepos == analysis.value.totalReposFetched.GetOr(0)
      && v.totalScore == assessment.value.totalScore.GetOr(0)
      && v.recommendations == assessment.value.recommendations.GetOr([])
      && v.topLanguages == TopLanguages(analysis.value.languageStats.GetOr([]))
      && v.reposWithDescription == ReposWithDescription(analysis.value.repos.GetOr([]))
      && v.reposWithDemo == ReposWithDemo(analysis.value.repos.GetOr([]))
  {
    if analysis.None? || assessment.None? then Generating
    else
      var languageStats := analysis.value.languageStats.GetOr([]);
      var repos := analysis.value.repos.GetOr([]);
      Summary(
        analysis.value.totalReposFetched.GetOr(0),
        assessment.value.totalScore.GetOr(0),
        TopLanguages(languageStats),
        ReposWithDescription(repos),
        ReposWithDemo(repos),
        assessment.value.recommendations.GetOr([]))
  }

  /** With every field missing, the summary shows the destructuring defaults. */
  lemma MissingFieldsDefault(a: Assessment)
    requires a.totalScore.None? && a.recommendations.None?
    ensures FeedbackFor(Some(Analysis(None, None, None)), Some(a)) == Summary(0, 0, [], 0, 0, [])
  {
  }
}
