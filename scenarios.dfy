/**
 * Worked examples of the filter: the work-mode selection that keeps only
 * remote postings, the salary buckets of a small job list, a fifteen-job list
 * split into pages, and the stale page left behind when a selection narrows
 * the list while the user is on a later page.
 */
module Scenarios {
  import opened Wrappers
  import opened JobData
  import opened Facets
  import opened Selection
  import opened Matching
  import opened Paging
  import opened SalaryLabels

  /** A posting with only a title and a work mode. */
  function Posting(title: string, workMode: Option<string>): Job
  {
    Job(Some(title), None, None, workMode, None, None, None, None, None)
  }

  /** The selection that ticks one work mode. */
  function WorkModeQuery(mode: string): Query
  {
    map[FilterType(WorkMode) := [mode]]
  }

  /** A posting passes a one-value work-mode selection exactly when its work mode matches that value. */
  lemma WorkModeMatches(job: Job, mode: string)
    ensures JobMatches(job, WorkModeQuery(mode)) <==> TextMatches(job.workMode, mode)
  {
    var query := WorkModeQuery(mode);
    KindOfFilterType(WorkMode);
    assert query.Keys == {FilterType(WorkMode)} && query[FilterType(WorkMode)] == [mode];
    assert FacetMatches(job, FilterType(WorkMode), [mode]) <==> ValueMatches(job, WorkMode, mode) by {
      assert mode in [mode];
    }
  }

  /** A posting with exactly the selected work mode passes the selection. */
  lemma OwnWorkModeMatches(job: Job, mode: string)
    requires job.workMode == Some(mode)
    ensures JobMatches(job, WorkModeQuery(mode))
  {
    WorkModeMatches(job, mode);
    OwnValueMatches(job, WorkMode, 0, |mode|);
    assert mode[0..|mode|] == mode;
  }

  /**
   * Selecting a work mode keeps the posting that has it and drops one whose
   * work mode does not match: [dev, qa] filtered by {"Work Mode": [mode]} is [dev].
   */
  lemma WorkModeSelection(mode: string, other: Option<string>)
    requires !TextMatches(other, mode)
    ensures var dev, qa := Posting("Dev", Some(mode)), Posting("QA", other);
      FilterJobs([dev, qa], Some(WorkModeQuery(mode))) == [dev]
  {
    var dev, qa := Posting("Dev", Some(mode)), Posting("QA", other);
    OwnWorkModeMatches(dev, mode);
    WorkModeMatches(qa, mode);
    var query := WorkModeQuery(mode);
    assert [dev, qa][1..] == [qa] && [qa][1..] == [];
    assert FilterSeq([qa], query) == [];
    assert FilterSeq([dev, qa], query) == [dev] + FilterSeq([qa], query);
  }

  /** A remote developer and an onsite tester: selecting "Remote" keeps only the developer. */
  lemma RemoteDeveloperOnly()
    ensures var dev, qa := Posting("Dev", Some("Remote")), Posting("QA", Some("Onsite"));
      FilterJobs([dev, qa], Some(WorkModeQuery("Remote"))) == [dev]
  {
    assert !TextMatches(Some("Onsite"), "Remote");
    WorkModeSelection("Remote", Some("Onsite"));
  }

  /** Ten postings without the work mode and one with it: filtering by that work mode keeps only the last. */
  lemma OneRemoteAmongTen(onsite: Job, remote: Job, mode: string)
    requires !TextMatches(onsite.workMode, mode) && remote.workMode == Some(mode)
    ensures FilterJobs(seq(10, _ => onsite) + [remote], Some(WorkModeQuery(mode))) == [remote]
  {
    var query := WorkModeQuery(mode);
    var ten := seq(10, _ => onsite);
    WorkModeMatches(onsite, mode);
    OwnWorkModeMatches(remote, mode);
    FilterSeqAppend(ten, [remote], query);
    FilterSeqNone(ten, query);
    assert FilterSeq([remote], query) == [remote];
  }

  /**
   * Salaries between 20000 and 45000 give the two-bucket list, and the first
   * bucket, read back as 0 to 40, does not admit a posting paid 20000 to 35000.
   */
  lemma SmallSalaryList(job: Job)
    requires job.salaryMin == Some(20000) && job.salaryMax == Some(35000)
    ensures SalaryBuckets(20000, 45000) == ["0-40k", "40k-1lakh"]
    ensures !SalaryMatches(job, "0-40k")
  {
    FirstBucketUnscaled(job);
  }

  /**
   * Fifteen filtered jobs: page 2 holds the last five, and Next is disabled
   * there because the page's last index, 20, is past the list.
   */
  lemma FifteenJobs<T>(s: seq<T>)
    requires |s| == 15
    ensures 2 * JobsPerPage >= |s|
    ensures PageSlice(s, 1) == s[..10]
    ensures PageSlice(s, 2) == s[10..15]
    ensures PageSlice(s, 3) == []
  {
  }

  /**
   * Ten onsite postings and one remote one: the user moves to page 2, then
   * ticks the remote work mode. The filtered list shrinks to the one remote
   * posting, but currentPage stays 2, so the page shows nothing.
   */
  method StalePage(mode: string) returns (shown: seq<Job>, matches: nat)
    ensures matches == 1 && shown == []
  {
    var onsite, remote := Posting("Onsite", None), Posting("Remote", Some(mode));
    var jobs := seq(10, _ => onsite) + [remote];
    var store := new JobStore(jobs);
    var card := new FilterCard(store);
    var view := new JobsView();
    view.Refresh(store);
    assert view.filterJobs == jobs;
    view.ClickNext();
    assert view.currentPage == 2;
    card.HandleCheckboxChange(FilterType(WorkMode), mode, true);
    assert store.searchedQuery == Some(WorkModeQuery(mode));
    view.Refresh(store);
    OneRemoteAmongTen(onsite, remote, mode);
    assert view.filterJobs == [remote];
    StalePageEmpty(view.filterJobs, view.currentPage);
    shown := view.CurrentJobs();
    matches := |view.filterJobs|;
  }
}
