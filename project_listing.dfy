/**
 * The project browser of client/src/Components/pages/Projects.jsx: the
 * `filters` state and its two update handlers, the filter applied to the
 * fetched projects, and the figures of the stats panel.
 */
module ProjectListing {
  import opened Wrappers
  import Sequences

  /** A project as the page receives it from `/projects`; only the fields the page computes with. */
  datatype Project = Project(id: int, title: string, difficulty: string, projectType: string, budgetMin: int, budgetMax: int)

  /**
   * The page's `filters` state. Difficulty and project type hold the selected
   * option's value, `""` for "All". A budget bound is the integer `parseInt`
   * reads from its input: `None` stands both for an empty input and for text
   * `parseInt` cannot read, whose NaN makes every comparison false and so
   * constrains nothing either.
   */
  datatype Filters = Filters(difficulty: string, projectType: string, minBudget: Option<int>, maxBudget: Option<int>)

  /** The initial `filters` state, which `clearFilters` restores. */
  const NoFilters: Filters := Filters("", "", None, None)

  /** A change event from one of the four filter controls: its `name` and its new `value`. */
  datatype FilterChange =
    | DifficultyChanged(value: string)
    | ProjectTypeChanged(value: string)
    | MinBudgetChanged(bound: Option<int>)
    | MaxBudgetChanged(bound: Option<int>)

  /** `{ ...prev, [name]: value }`: the state after a change event. */
  function Updated(f: Filters, change: FilterChange): Filters
  {
    match change
    case DifficultyChanged(v) => f.(difficulty := v)
    case ProjectTypeChanged(v) => f.(projectType := v)
    case MinBudgetChanged(b) => f.(minBudget := b)
    case MaxBudgetChanged(b) => f.(maxBudget := b)
  }

  /** A change event sets the field its control names and leaves the other three as they were. */
  lemma UpdateSetsOnlyNamedField(f: Filters, change: FilterChange)
    ensures Updated(f, change).difficulty == if change.DifficultyChanged? then change.value else f.difficulty
    ensures Updated(f, change).projectType == if change.ProjectTypeChanged? then change.value else f.projectType
    ensures Updated(f, change).minBudget == if change.MinBudgetChanged? then change.bound else f.minBudget
    ensures Updated(f, change).maxBudget == if change.MaxBudgetChanged? then change.bound else f.maxBudget
  {
  }

  /** The state hook holding `filters`, with the handlers that replace it. */
  class ProjectFilterState {
    var filters: Filters

    constructor ()
      ensures filters == NoFilters
    {
      filters := NoFilters;
    }

    /** `handleFilterChange`: merge the event's field into the previous state. */
    method HandleFilterChange(change: FilterChange)
      modifies this
      ensures filters == Updated(old(filters), change)
    {
      filters := Updated(filters, change);
    }

    /** `clearFilters`: every control back to "All" or empty. */
    method ClearFilters()
      modifies this
      ensures filters == NoFilters
    {
      filters := NoFilters;
    }
  }

  /** The callback given to `projects.filter`: four early-return checks, each skipped when its filter is empty. */
  predicate Keeps(f: Filters, p: Project)
  {
    if f.difficulty != "" && p.difficulty != f.difficulty then false
    else if f.projectType != "" && p.projectType != f.projectType then false
    else if f.minBudget.Some? && p.budgetMin < f.minBudget.value then false
    else if f.maxBudget.Some? && p.budgetMax > f.maxBudget.value then false
    else true
  }

  /** Every active filter is satisfied: the conjunctive reading of the listing's filter. */
  predicate PassesActiveFilters(f: Filters, p: Project)
  {
    && (f.difficulty != "" ==> p.difficulty == f.difficulty)
    && (f.projectType != "" ==> p.projectType == f.projectType)
    && (f.minBudget.Some? ==> p.budgetMin >= f.minBudget.value)
    && (f.maxBudget.Some? ==> p.budgetMax <= f.maxBudget.value)
  }

  /** `filteredProjects`. */
  function FilteredProjects(projects: seq<Project>, f: Filters): (r: seq<Project>)
    ensures |r| <= |projects|
    ensures forall p :: p in r ==> p in projects && PassesActiveFilters(f, p)
  {
    Sequences.Filter(projects, p => Keeps(f, p))
  }

  /** A project is kept exactly as often as it is listed when it passes every active filter, and not at all otherwise. */
  lemma FilteredProjectsExact(projects: seq<Project>, f: Filters, p: Project)
    ensures multiset(FilteredProjects(projects, f))[p] == if PassesActiveFilters(f, p) then multiset(projects)[p] else 0
  {
    Sequences.FilterMultiplicity(projects, q => Keeps(f, q), p);
  }

  /** The filtered list keeps the fetched order. */
  lemma FilteredProjectsInOrder(projects: seq<Project>, f: Filters)
    ensures Sequences.IsSubsequence(FilteredProjects(projects, f), projects)
  {
    Sequences.FilterIsSubsequence(projects, p => Keeps(f, p));
  }

  /** With every filter empty, as initially and after `clearFilters`, every project is shown. */
  lemma NoFiltersKeepAll(projects: seq<Project>)
    ensures FilteredProjects(projects, NoFilters) == projects
  {
    Sequences.FilterKeepsAll(projects, p => Keeps(NoFilters, p));
  }

  /** `g` imposes every constraint `f` does, at least as tightly. */
  predicate Narrower(g: Filters, f: Filters)
  {
    && (f.difficulty != "" ==> g.difficulty == f.difficulty)
    && (f.projectType != "" ==> g.projectType == f.projectType)
    && (f.minBudget.Some? ==> g.minBudget.Some? && g.minBudget.value >= f.minBudget.value)
    && (f.maxBudget.Some? ==> g.maxBudget.Some? && g.maxBudget.value <= f.maxBudget.value)
  }

  /** Narrower filters keep a subsequence of what wider ones keep. */
  lemma NarrowerFiltersKeepFewer(projects: seq<Project>, g: Filters, f: Filters)
    requires Narrower(g, f)
    ensures Sequences.IsSubsequence(FilteredProjects(projects, g), FilteredProjects(projects, f))
  {
    Sequences.FilterMonotone(projects, p => Keeps(g, p), p => Keeps(f, p));
  }

  /** The change sets a filter that was empty before. */
  predicate Activates(f: Filters, change: FilterChange)
  {
    match change
    case DifficultyChanged(_) => f.difficulty == ""
    case ProjectTypeChanged(_) => f.projectType == ""
    case MinBudgetChanged(_) => f.minBudget.None?
    case MaxBudgetChanged(_) => f.maxBudget.None?
  }

  /** Turning on one more filter never brings a project back into the list. */
  lemma ActivatingFilterNeverAdds(projects: seq<Project>, f: Filters, change: FilterChange)
    requires Activates(f, change)
    ensures Sequences.IsSubsequence(FilteredProjects(projects, Updated(f, change)), FilteredProjects(projects, f))
  {
    NarrowerFiltersKeepFewer(projects, Updated(f, change), f);
  }

  /** `projects.reduce((acc, p) => acc + p.budget_min, 0)`. */
  function SumBudgetMin(projects: seq<Project>): int
  {
    if projects == [] then 0 else projects[0].budgetMin + SumBudgetMin(projects[1..])
  }

  /**
   * `Math.round(sum / projects.length) || 0`. With no projects the quotient is
   * NaN and the `|| 0` gives 0; otherwise `Math.round` takes the nearest
   * integer to the mean, halves rounding up: floor((2 * sum + n) / (2 * n)).
   */
  function AverageBudget(projects: seq<Project>): (r: int)
    ensures |projects| == 0 ==> r == 0
    ensures |projects| > 0 ==> |projects| * (2 * r - 1) <= 2 * SumBudgetMin(projects) < |projects| * (2 * r + 1)
  {
    if |projects| == 0 then 0
    else
      var n, s := |projects|, SumBudgetMin(projects);
      var r := (2 * s + n) / (2 * n);
      assert 2 * n * r <= 2 * s + n < 2 * n * r + 2 * n;
      r
  }

  lemma {:induction false} SumBudgetMinBounds(projects: seq<Project>, lo: int, hi: int)
    requires forall i :: 0 <= i < |projects| ==> lo <= projects[i].budgetMin <= hi
    ensures |projects| * lo <= SumBudgetMin(projects) <= |projects| * hi
  {
    if projects != [] {
      SumBudgetMinBounds(projects[1..], lo, hi);
    }
  }

  /** Cancelling a positive factor: `n * a <= n * b` gives `a <= b`. */
  lemma CancelPositiveFactor(n: int, a: int, b: int)
    requires n > 0 && n * a <= n * b
    ensures a <= b
  {
    assert n * b - n * a == n * (b - a);
  }

  /** The average budget lies between the smallest and the largest `budget_min`. */
  lemma AverageBudgetBetweenExtremes(projects: seq<Project>, lo: int, hi: int)
    requires |projects| > 0
    requires forall i :: 0 <= i < |projects| ==> lo <= projects[i].budgetMin <= hi
    ensures lo <= AverageBudget(projects) <= hi
  {
    var n, s, r := |projects|, SumBudgetMin(projects), AverageBudget(projects);
    SumBudgetMinBounds(projects, lo, hi);
    assert n * (2 * r - 1) <= n * (2 * hi) by {
      assert 2 * s <= n * (2 * hi);
    }
    CancelPositiveFactor(n, 2 * r - 1, 2 * hi);
    assert n * (2 * lo) <= n * (2 * r + 1) by {
      assert n * (2 * lo) <= 2 * s;
    }
    CancelPositiveFactor(n, 2 * lo, 2 * r + 1);
  }
}
