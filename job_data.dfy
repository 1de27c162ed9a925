/**
 * The job postings the filter works on, the eight facet kinds with the names
 * the user interface uses for them, and the shared store through which the
 * filter card hands its selection to the job list.
 */
module JobData {
  import opened Wrappers

  /**
   * A job posting as the client holds it. Every field may be absent (None);
   * the text fields are free strings and the salaries are numbers.
   */
  datatype Job = Job(
    title: Option<string>,
    location: Option<string>,
    jobType: Option<string>,
    workMode: Option<string>,
    jobLevel: Option<string>,
    duration: Option<string>,
    experienceLevel: Option<string>,
    salaryMin: Option<int>,
    salaryMax: Option<int>)

  /** The facets, one per filterable attribute of a posting. */
  datatype FacetKind =
    | JobType | Location | Title | WorkMode | JobLevel | Duration | Salary | ExperienceLevel

  /** The order in which the filter card lists the facets. */
  const FacetOrder: seq<FacetKind> :=
    [JobType, Location, Title, WorkMode, JobLevel, Duration, Salary, ExperienceLevel]

  /** The position of a facet kind in FacetOrder. */
  function Rank(k: FacetKind): (r: nat)
    ensures r < |FacetOrder| && FacetOrder[r] == k
  {
    match k
    case JobType => 0
    case Location => 1
    case Title => 2
    case WorkMode => 3
    case JobLevel => 4
    case Duration => 5
    case Salary => 6
    case ExperienceLevel => 7
  }

  /** The facet at position i of FacetOrder has rank i: FacetOrder lists each kind once. */
  lemma RankOfOrder(i: int)
    requires 0 <= i < |FacetOrder|
    ensures Rank(FacetOrder[i]) == i
  {
    if i < 4 {
      assert i == 0 || i == 1 || i == 2 || i == 3;
    } else {
      assert i == 4 || i == 5 || i == 6 || i == 7;
    }
  }

  /** The label of a facet: the filterType string used as the key of the selection map. */
  function FilterType(k: FacetKind): string
  {
    match k
    case JobType => "Job Type"
    case Location => "Location"
    case Title => "Title"
    case WorkMode => "Work Mode"
    case JobLevel => "Job Level"
    case Duration => "Duration"
    case Salary => "Salary"
    case ExperienceLevel => "Experience Level"
  }

  /** The facet a selection key names, or None for a key the filter does not recognise. */
  function KindOf(name: string): (r: Option<FacetKind>)
    ensures r.Some? ==> FilterType(r.value) == name
  {
    if name == "Job Type" then Some(JobType)
    else if name == "Location" then Some(Location)
    else if name == "Title" then Some(Title)
    else if name == "Work Mode" then Some(WorkMode)
    else if name == "Job Level" then Some(JobLevel)
    else if name == "Duration" then Some(Duration)
    else if name == "Salary" then Some(Salary)
    else if name == "Experience Level" then Some(ExperienceLevel)
    else None
  }

  /** Every facet label is recognised as its own facet, so labels are pairwise distinct. */
  lemma KindOfFilterType(k: FacetKind)
    ensures KindOf(FilterType(k)) == Some(k)
  {
  }

  /** The text field a non-salary facet reads from a posting. */
  function TextField(job: Job, k: FacetKind): Option<string>
    requires k != Salary
  {
    match k
    case JobType => job.jobType
    case Location => job.location
    case Title => job.title
    case WorkMode => job.workMode
    case JobLevel => job.jobLevel
    case Duration => job.duration
    case ExperienceLevel => job.experienceLevel
  }

  /** JavaScript truthiness of an optional string: present and not empty. */
  predicate TruthyText(v: Option<string>)
  {
    v.Some? && v.value != ""
  }

  /** JavaScript truthiness of an optional number: present and not zero. */
  predicate TruthyNumber(v: Option<int>)
  {
    v.Some? && v.value != 0
  }

  /** The selection: facet label to the values chosen for it, in the order they were checked. */
  type Query = map<string, seq<string>>

  /**
   * The part of the shared application store the filter reads and writes:
   * the fetched job list and the selection published by the filter card
   * (None while nothing has been published).
   */
  class JobStore {
    var allJobs: seq<Job>
    var searchedQuery: Option<Query>

    constructor (jobs: seq<Job>)
      ensures allJobs == jobs && searchedQuery == None
    {
      allJobs := jobs;
      searchedQuery := None;
    }
  }
}
