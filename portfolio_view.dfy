/**
 * The derivations of client/src/Components/pages/PortfolioAssessment.jsx:
 * the guard on a missing assessment, the `stats` default, the choice of
 * `portfolioRepo`, the score band, the GitHub link and the bar widths.
 * The markup itself is not modelled; `Render` collects what it displays.
 */
module PortfolioView {
  import opened Wrappers
  import opened AssessmentRecord
  import Sequences

  /** `assessment.stats || { hasPortfolio: false, repoName: 'Not found' }`. */
  function EffectiveStats(a: Assessment): (s: Stats)
    ensures a.stats.Some? ==> s == a.stats.value
    ensures a.stats.None? ==> !s.hasPortfolio && s.repoName == "Not found"
  {
    match a.stats
    case Some(st) => st
    case None => Stats(false, "Not found")
  }

  /** `assessment.portfolioRepo || (assessment.stats?.hasPortfolio ? { name: stats.repoName } : null)`. */
  function PortfolioRepo(a: Assessment): (r: Option<RepoRef>)
    ensures a.portfolioRepo.Some? ==> r == a.portfolioRepo
    ensures a.portfolioRepo.None? ==> (r.Some? <==> EffectiveStats(a).hasPortfolio)
    ensures a.portfolioRepo.None? && r.Some? ==> r.value.name == EffectiveStats(a).repoName
  {
    if a.portfolioRepo.Some? then a.portfolioRepo
    else if a.stats.Some? && a.stats.value.hasPortfolio then Some(RepoRef(EffectiveStats(a).repoName))
    else None
  }

  /** The three messages under the score bar. */
  datatype ScoreBand = Excellent | Good | NeedsWork

  /**
   * The score message's band. A missing `totalScore` is `undefined`, for
   * which both comparisons are false, so it lands in the last band.
   */
  function ScoreBandOf(totalScore: Option<int>): (b: ScoreBand)
    ensures b == Excellent <==> totalScore.Some? && totalScore.value >= 80
    ensures b == Good <==> totalScore.Some? && 60 <= totalScore.value < 80
    ensures b == NeedsWork <==> totalScore.None? || totalScore.value < 60
  {
    if totalScore.Some? && totalScore.value >= 80 then Excellent
    else if totalScore.Some? && totalScore.value >= 60 then Good
    else NeedsWork
  }

  function BandRank(b: ScoreBand): nat
  {
    match b
    case NeedsWork => 0
    case Good => 1
    case Excellent => 2
  }

  /** A higher score never gets a worse message. */
  lemma ScoreBandMonotone(s: int, t: int)
    requires s <= t
    ensures BandRank(ScoreBandOf(Some(s))) <= BandRank(ScoreBandOf(Some(t)))
  {
  }

  /** The text the page shows for a band. */
  function ScoreMessage(b: ScoreBand): string
  {
    match b
    case Excellent => "Excellent! \U{1F3AF}"
    case Good => "Good, but can improve \U{1F4AA}"
    case NeedsWork => "Needs work \U{26A0}\U{FE0F}"
  }

  /**
   * The CSS width, in percent, of a breakdown bar: the sub-score times ten.
   * A missing sub-score gives `NaN%`, which sets no width.
   */
  function BarWidth(subScore: Option<int>): (w: Option<int>)
    ensures w.Some? <==> subScore.Some?
    ensures w.Some? ==> w.value % 10 == 0 && w.value / 10 == subScore.value
    ensures subScore.Some? && 0 <= subScore.value <= 10 ==> 0 <= w.value <= 100
  {
    match subScore
    case Some(s) => Some(s * 10)
    case None => None
  }

  const GithubPrefix: string := "https://github.com/"

  /** The link target `https://github.com/${username}/${portfolioRepo.name}`. */
  function RepoUrl(username: string, repoName: string): string
  {
    GithubPrefix + username + "/" + repoName
  }

  /** Reads the owner and the repository name back out of a GitHub repository URL. */
  function ParseRepoUrl(url: string): Option<(string, string)>
  {
    if |url| < |GithubPrefix| || url[..|GithubPrefix|] != GithubPrefix then None
    else
      var rest := url[|GithubPrefix|..];
      var slash := Sequences.IndexOf(rest, '/');
      if slash == |rest| then None else Some((rest[..slash], rest[slash + 1..]))
  }

  /** The link names the user and the repository: parsing it back gives both, for any username without a `/`. */
  lemma RepoUrlRoundTrip(username: string, repoName: string)
    requires '/' !in username
    ensures ParseRepoUrl(RepoUrl(username, repoName)) == Some((username, repoName))
  {
    var url := RepoUrl(username, repoName);
    assert url[..|GithubPrefix|] == GithubPrefix;
    var rest := url[|GithubPrefix|..];
    assert rest == username + "/" + repoName;
    var slash := Sequences.IndexOf(rest, '/');
    assert rest[|username|] == '/';
    assert rest[..|username|] == username;
    assert slash == |username|;
    assert rest[slash + 1..] == repoName;
  }

  /** `portfolioRepo && username && <a href=...>`: a username counts only when it is a non-empty string. */
  function RepoLink(repo: Option<RepoRef>, username: Option<string>): (link: Option<string>)
    ensures link.Some? <==> repo.Some? && username.Some? && username.value != ""
    ensures link.Some? ==> link.value == RepoUrl(username.value, repo.value.name)
  {
    if repo.Some? && username.Some? && username.value != "" then Some(RepoUrl(username.value, repo.value.name))
    else None
  }

  /** The widths of the four breakdown bars, in percent. */
  datatype Breakdown = Breakdown(completeness: Option<int>, codeQuality: Option<int>, bestPractices: Option<int>, presentation: Option<int>)

  /** The block shown when a portfolio repository was found. */
  datatype PortfolioSection = PortfolioSection(
    repoName: string,
    scoreBarWidth: Option<int>,
    band: ScoreBand,
    message: string,
    detectionReason: Option<string>,
    bars: Breakdown)

  /** What the component renders. */
  datatype View =
    | NoPortfolioData
    | Shown(section: Option<PortfolioSection>, recommendations: seq<string>, repoLink: Option<string>)

  /** `PortfolioAssessment({ assessment, username })`. */
  function Render(assessment: Option<Assessment>, username: Option<string>): (v: View)
    ensures v.NoPortfolioData? <==> assessment.None?
    ensures v.Shown? ==> (v.section.Some? <==> EffectiveStats(assessment.value).hasPortfolio)
    ensures v.Shown? && v.section.Some? ==>
      && v.section.value.repoName == EffectiveStats(assessment.value).repoName
      && v.section.value.band == ScoreBandOf(assessment.value.totalScore)
      && v.section.value.message == ScoreMessage(v.section.value.band)
      && v.section.value.scoreBarWidth == assessment.value.totalScore
      && v.section.value.bars == Breakdown(
           BarWidth(assessment.value.completeness), BarWidth(assessment.value.codeQuality),
           BarWidth(assessment.value.bestPractices), BarWidth(assessment.value.presentation))
      && (v.section.value.detectionReason.Some? <==>
            assessment.value.detectionReason.Some? && assessment.value.detectionReason.value != "")
      && (v.section.value.detectionReason.Some? ==> v.section.value.detectionReason == assessment.value.detectionReason)
    ensures v.Shown? ==> v.recommendations == assessment.value.recommendations.GetOr([])
    ensures v.Shown? ==> v.repoLink == RepoLink(PortfolioRepo(assessment.value), username)
  {
    match assessment
    case None => NoPortfolioData
    case Some(a) =>
      var stats := EffectiveStats(a);
      var section :=
        if stats.hasPortfolio then
          var band := ScoreBandOf(a.totalScore);
          Some(PortfolioSection(
            stats.repoName,
            a.totalScore,
            band,
            ScoreMessage(band),
            if a.detectionReason.Some? && a.detectionReason.value != "" then a.detectionReason else None,
            Breakdown(BarWidth(a.completeness), BarWidth(a.codeQuality), BarWidth(a.bestPractices), BarWidth(a.presentation))))
        else None;
      Shown(section, a.recommendations.GetOr([]), RepoLink(PortfolioRepo(a), username))
  }

  /** A present value lies in `[lo, hi]`. */
  predicate WithinWhenPresent(x: Option<int>, lo: int, hi: int)
  {
    x.Some? ==> lo <= x.value <= hi
  }

  /** With sub-scores on the 0 to 10 scale, every bar is between 0% and 100% wide. */
  lemma BarsWithinFullWidth(assessment: Assessment, username: Option<string>)
    requires EffectiveStats(assessment).hasPortfolio
    requires WithinWhenPresent(assessment.completeness, 0, 10) && WithinWhenPresent(assessment.codeQuality, 0, 10)
    requires WithinWhenPresent(assessment.bestPractices, 0, 10) && WithinWhenPresent(assessment.presentation, 0, 10)
    ensures Render(Some(assessment), username).section.Some?
    ensures var bars := Render(Some(assessment), username).section.value.bars;
      && WithinWhenPresent(bars.completeness, 0, 100) && WithinWhenPresent(bars.codeQuality, 0, 100)
      && WithinWhenPresent(bars.bestPractices, 0, 100) && WithinWhenPresent(bars.presentation, 0, 100)
  {
  }
}
