/**
 * The portfolio assessment record that PortfolioAssessment.jsx and
 * ActionableFeedback.jsx both receive as a prop. No file of the repository
 * mounts either component, so where the record comes from is not modelled.
 * Every field may be missing (`None`); the components only read it.
 */
module AssessmentRecord {
  import opened Wrappers

  /**
   * The `stats` object: the model keeps `hasPortfolio`, which the page
   * branches on, and `repoName`, which it shows; the display-only fields
   * are left out.
   */
  datatype Stats = Stats(hasPortfolio: bool, repoName: string)

  /** A reference to the detected portfolio repository. */
  datatype RepoRef = RepoRef(name: string)

  datatype Assessment = Assessment(
    totalScore: Option<int>,
    stats: Option<Stats>,
    portfolioRepo: Option<RepoRef>,
    detectionReason: Option<string>,
    completeness: Option<int>,
    codeQuality: Option<int>,
    bestPractices: Option<int>,
    presentation: Option<int>,
    recommendations: Option<seq<string>>)
}
