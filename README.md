# launch-pad: verified model of the client's decision rules and the server's validators

launch-pad is a portfolio and job-matching web application: a React client
(project browser, GitHub analysis pages) over a Flask/SQLAlchemy server. This
project models, in Dafny, the small pure decision rules of the client pages
and the server models, and proves their contracts:

- the server's column validators and write-only password property
  (`server/models.py`): module `Validators`;
- the project browser's filter state, its filter over the fetched projects and
  the average-budget figure (`client/src/Components/pages/Projects.jsx`):
  module `ProjectListing`, with the `filters` state hook as the class
  `ProjectFilterState`;
- the status summary of the feedback page: the missing-input guard, the
  destructuring defaults, the top three languages and the repository counts
  (`client/src/Components/pages/ActionableFeedback.jsx`): module `Feedback`;
- the derivations of the portfolio assessment page: the missing-assessment
  guard, the `stats` default, the choice of `portfolioRepo`, the score band,
  the GitHub link and the bar widths
  (`client/src/Components/pages/PortfolioAssessment.jsx`): module
  `PortfolioView`.

`AssessmentRecord` holds the assessment record both pages read, `Sequences`
holds JavaScript's `filter` and a helper giving the first position of a value
(or the length, when it is absent), and `Wrappers` holds `Option` and
`Result`. A JSON field that may be missing is an `Option`; a Python `raise`
is a `Failure` carrying the exception class and message.

No file of the repository implements portfolio detection or scoring: the
client only renders an assessment it is given, and the client's
`POST /githubanalysis` (client/src/Components/pages/Github.jsx:24) has no
matching route in server/app.py:75-78. The model therefore has no such
engine.

The email validator is the start-anchored regular expression
`[^@]+@[^@]+\.[^@]+`, not address syntax: `Validators.EmailPattern` states
the pattern directly (three groups, anchored at the start only) and
`Validators.ValidateEmail` decides it by the first `@` and the text after it.

## Model

| member | source | states |
|---|---|---|
| Validators.ValidateProjectType | server/models.py:41-46 | accepts exactly "personal", "forked" and "contributed" and returns the value unchanged; anything else raises ValueError("Project type must be one of the personal,forked,contributed") |
| Validators.ReadPassword | server/models.py:64-66 | reading the password of any user raises AttributeError("Password is write only") and returns nothing |
| Validators.ValidateEmail | server/models.py:77-81 | accepts exactly the addresses at whose start the pattern `[^@]+@[^@]+\.[^@]+` matches, returning them unchanged; otherwise raises ValueError("Incorrect email format!") |
| Validators.MatchesEmailIffPattern | server/models.py:79 | the first-`@`/domain-part decision agrees with the regular expression's match in both directions |
| Validators.EmailAcceptedIffInnerDot | server/models.py:79-81 | an address is accepted iff its first `@` is at neither end and the text after it, up to the next `@`, has a `.` at an index from 1 to its length minus 2 |
| Validators.EmailWithoutAtRejected | server/models.py:79-80 | an address without `@` is rejected with the format error |
| Validators.EmailLeadingAtRejected | server/models.py:79-80 | an address starting with `@` is rejected |
| Validators.EmailAcceptanceSurvivesSuffix | server/models.py:79-81 | the match is anchored only at the start: appending any text to an accepted address keeps it accepted |
| Validators.SecondAtAfterMatchAccepted | server/models.py:79-81 | "a@b.c@x" is accepted although a second `@` follows the match |
| Sequences.Filter | client/src/Components/pages/Projects.jsx:55-61 | `filter` keeps only elements of the input that pass, and never yields more elements than the input |
| ProjectListing.ProjectFilterState.constructor | client/src/Components/pages/Projects.jsx:9-14 | the filter state starts with all four filters empty |
| ProjectListing.ProjectFilterState.HandleFilterChange | client/src/Components/pages/Projects.jsx:37-43 | the new state is the old one with the event's field replaced |
| ProjectListing.UpdateSetsOnlyNamedField | client/src/Components/pages/Projects.jsx:37-43 | a change event sets the field its control names and leaves the other three filters unchanged |
| ProjectListing.ProjectFilterState.ClearFilters | client/src/Components/pages/Projects.jsx:45-52 | clearing restores the initial, all-empty state |
| ProjectListing.FilteredProjects | client/src/Components/pages/Projects.jsx:55-61 | every listed project was fetched and satisfies each active filter (difficulty and type equal, budget_min at least the minimum, budget_max at most the maximum); the list is no longer than the fetched one |
| ProjectListing.FilteredProjectsExact | client/src/Components/pages/Projects.jsx:55-61 | a project appears exactly as often as it was fetched when it passes every active filter, and not at all otherwise |
| ProjectListing.FilteredProjectsInOrder | client/src/Components/pages/Projects.jsx:55-61 | the listed projects are an order-preserving subsequence of the fetched list |
| ProjectListing.NoFiltersKeepAll | client/src/Components/pages/Projects.jsx:45-61 | with every filter empty, initially or after clearing, every fetched project is listed, in order |
| ProjectListing.NarrowerFiltersKeepFewer | client/src/Components/pages/Projects.jsx:55-61 | filters that impose every constraint of others, at least as tightly, show a subsequence of what those show |
| ProjectListing.ActivatingFilterNeverAdds | client/src/Components/pages/Projects.jsx:37-61 | setting a filter that was empty never brings a project into the list |
| ProjectListing.AverageBudget | client/src/Components/pages/Projects.jsx:230 | 0 for no projects; otherwise the integer nearest the mean budget_min, halves rounding up (Math.round) |
| ProjectListing.AverageBudgetBetweenExtremes | client/src/Components/pages/Projects.jsx:230 | the average lies between the smallest and the largest budget_min |
| Feedback.SortByCount | client/src/Components/pages/ActionableFeedback.jsx:30-31 | the sorted entries are a permutation of the language entries, ordered by count, largest first |
| Feedback.SortByCountIsStable | client/src/Components/pages/ActionableFeedback.jsx:30-31 | entries with equal counts keep their original relative order |
| Feedback.TopLanguages | client/src/Components/pages/ActionableFeedback.jsx:30-32 | at most three entries (three, or all when fewer), all taken from language_stats, ordered by count non-increasing, and no language left out has a count above the smallest one kept |
| Feedback.ReposWithDescription | client/src/Components/pages/ActionableFeedback.jsx:34 | between 0 and the number of repos; 0 exactly when no repo has a non-empty description, the full number exactly when all have one |
| Feedback.ReposWithDemo | client/src/Components/pages/ActionableFeedback.jsx:35 | at most the number of repos; 0 exactly when no repo has pages or a non-empty homepage, the full number exactly when all do |
| Feedback.RepoCountsAdd | client/src/Components/pages/ActionableFeedback.jsx:34-35 | both counts add up over any split of the repo list, and one repo counts 1 exactly when it qualifies |
| Feedback.FeedbackFor | client/src/Components/pages/ActionableFeedback.jsx:4-35 | the loading view exactly when analysis or assessment is missing; otherwise missing fields take their defaults, and the top languages and the two counts are exactly TopLanguages, ReposWithDescription and ReposWithDemo of the (defaulted) analysis |
| Feedback.MissingFieldsDefault | client/src/Components/pages/ActionableFeedback.jsx:15-26 | with every field missing, the summary holds 0 repositories, score 0, no top languages, zero counts and no recommendations (of these the page displays the repository total, the score and the two counts) |
| PortfolioView.EffectiveStats | client/src/Components/pages/PortfolioAssessment.jsx:17-20 | missing stats default to hasPortfolio false and repoName "Not found"; present stats are used as given |
| PortfolioView.PortfolioRepo | client/src/Components/pages/PortfolioAssessment.jsx:22-24 | the assessment's portfolioRepo when present; otherwise a repository named by stats.repoName exactly when stats say there is a portfolio; otherwise none |
| PortfolioView.ScoreBandOf | client/src/Components/pages/PortfolioAssessment.jsx:43-45 | exactly one band: 80 and above is Excellent, 60 to 79 is Good, below 60 or a missing score is Needs work |
| PortfolioView.ScoreBandMonotone | client/src/Components/pages/PortfolioAssessment.jsx:43-45 | a higher score never gets a worse band |
| PortfolioView.BarWidth | client/src/Components/pages/PortfolioAssessment.jsx:92-113 | a bar width is the sub-score times ten: dividing it by ten gives the sub-score back, and a sub-score in 0..10 gives a width in 0..100 |
| PortfolioView.RepoLink | client/src/Components/pages/PortfolioAssessment.jsx:136-139 | a link exists exactly when a portfolio repository and a non-empty username exist, and it is "https://github.com/" + username + "/" + name |
| PortfolioView.RepoUrlRoundTrip | client/src/Components/pages/PortfolioAssessment.jsx:139 | the link names its user and repository: parsing it gives both back for any username without `/` |
| PortfolioView.Render | client/src/Components/pages/PortfolioAssessment.jsx:8-146 | the no-data view exactly when the assessment is missing; otherwise the portfolio block exactly when the defaulted stats report a portfolio, with its name, score band and its message, the score bar as wide as the total score, the four breakdown bars as BarWidth of the sub-scores, and the detection reason exactly when it is non-empty, plus the recommendations (none when missing) and the repository link |
| PortfolioView.BarsWithinFullWidth | client/src/Components/pages/PortfolioAssessment.jsx:89-115 | with sub-scores on the 0 to 10 scale, all four breakdown bars are between 0% and 100% wide |

## Left out

- Portfolio detection and scoring: no file of the repository implements it, and the `/githubanalysis` route the client calls is not registered by the server.
- Network and browser plumbing: `fetchProjects` and its loading and error states, the re-fetch on every filter change (Projects.jsx:17-35), the other pages' `fetch` calls, `localStorage` and `window.location`.
- The password setter and `authenticate`: they are bcrypt calls.
- The Flask resources, SQLAlchemy sessions and queries in server/app.py, and the seeding script server/seed.py.
- `parseInt` on the budget inputs: a bound is an optional integer; `None` covers the empty input and unreadable text, whose NaN makes every comparison false and so constrains nothing.
- ProjectListing.AverageBudget: computes the rounded mean exactly on integers; the page divides in IEEE double precision, which can differ once the quotient is large (from sums of about 2^52), where a quotient just below a half rounds to the half.
- `Number(...)` in the project form, `toLocaleDateString` and `new Date()`: floating point, locale and clock.
- JavaScript `null` in a destructured field: defaults apply to missing fields only, and a `null` list would throw; fields are either present or missing here.
- The order `Object.entries` gives integer-like keys (ascending, before the others): `languageStats` is given as the entries in the order the object yields them.
- The display-only stats fields (live-demo flag, description length, shows-projects flag, last-updated date, stars), the unused `portfolioStats` of the feedback page (its `topLanguages` and `portfolioRecs` are computed, and modelled, but not displayed by ActionableFeedback.jsx:37-66), `console.log`, and all JSX markup, CSS and routing.
- Signup's password-confirmation equality check and the static question table of the interview-preparation page.
- A portfolio repository without a `name` (the link would read "undefined"): a repository reference always has a name.
