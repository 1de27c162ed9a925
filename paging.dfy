/**
 * The job list component: the filtered list and the current page are
 * component state, the shown jobs are a ten-item slice of the filtered list,
 * and Previous/Next move the page when their buttons are enabled.
 */
module Paging {
  import opened JobData
  import opened Matching

  const JobsPerPage: nat := 10

  /**
   * filterJobs.slice((page - 1) * 10, page * 10) for a page of at least 1:
   * slice stops at the end of the list and is empty past it.
   */
  function PageSlice<T>(s: seq<T>, page: int): seq<T>
    requires page >= 1
  {
    var first, last := (page - 1) * JobsPerPage, page * JobsPerPage;
    if first >= |s| then [] else s[first..if last < |s| then last else |s|]
  }

  /**
   * A page holds at most ten jobs: the jobs from position (page - 1) * 10 on,
   * in filtered order, as many as remain up to ten.
   */
  lemma PageSliceSpec<T>(s: seq<T>, page: int)
    requires page >= 1
    ensures |PageSlice(s, page)| <= JobsPerPage
    ensures |PageSlice(s, page)| ==
      if (page - 1) * JobsPerPage >= |s| then 0
      else if |s| - (page - 1) * JobsPerPage < JobsPerPage then |s| - (page - 1) * JobsPerPage
      else JobsPerPage
    ensures forall i :: 0 <= i < |PageSlice(s, page)| ==> PageSlice(s, page)[i] == s[(page - 1) * JobsPerPage + i]
  {
  }

  /** The first page is the first ten jobs, or all of them when there are fewer. */
  lemma FirstPage<T>(s: seq<T>)
    ensures PageSlice(s, 1) == s[..if |s| < JobsPerPage then |s| else JobsPerPage]
  {
  }

  /** Every job of the filtered list is shown on exactly one page: job i at place i % 10 of page i / 10 + 1. */
  lemma EveryJobOnItsPage<T>(s: seq<T>, i: int, page: int)
    requires 0 <= i < |s| && page >= 1
    ensures s[i] == PageSlice(s, i / JobsPerPage + 1)[i % JobsPerPage]
    ensures (page - 1) * JobsPerPage <= i < page * JobsPerPage <==> page == i / JobsPerPage + 1
  {
    var p := i / JobsPerPage + 1;
    assert (p - 1) * JobsPerPage + i % JobsPerPage == i;
  }

  /**
   * The job list component's state: the filtered jobs (filterJobs) and the
   * one-based page number (currentPage).
   */
  class JobsView {
    var filterJobs: seq<Job>
    var currentPage: int

    /** The page number is one-based. */
    ghost predicate Valid()
      reads this
    {
      currentPage >= 1
    }

    /** The page number points at a page that has jobs, or is the first page. */
    predicate PageInRange()
      reads this
    {
      currentPage == 1 || (currentPage - 1) * JobsPerPage < |filterJobs|
    }

    /** Mounting: no jobs yet, first page. */
    constructor ()
      ensures Valid() && PageInRange()
      ensures filterJobs == [] && currentPage == 1
    {
      filterJobs := [];
      currentPage := 1;
    }

    /**
     * The filtering effect, run whenever the store's job list or selection
     * changes: filterJobs is recomputed and currentPage is left alone.
     */
    method Refresh(store: JobStore)
      requires Valid()
      modifies this
      ensures Valid()
      ensures filterJobs == FilterJobs(store.allJobs, store.searchedQuery)
      ensures currentPage == old(currentPage)
    {
      filterJobs := FilterJobs(store.allJobs, store.searchedQuery);
    }

    /** currentJobs: the slice of filterJobs the page shows. */
    function CurrentJobs(): seq<Job>
      reads this
      requires Valid()
    {
      PageSlice(filterJobs, currentPage)
    }

    /** The page buttons are rendered only when there is a job; otherwise "Job not found" is shown. */
    predicate ButtonsShown()
      reads this
    {
      |filterJobs| > 0
    }

    /** disabled={currentPage === 1} */
    predicate PreviousDisabled()
      reads this
    {
      currentPage == 1
    }

    /** disabled={indexOfLastJob >= filterJobs.length} */
    predicate NextDisabled()
      reads this
    {
      currentPage * JobsPerPage >= |filterJobs|
    }

    /** A click on Previous: one page back when the button is there and enabled. */
    method ClickPrevious()
      requires Valid()
      modifies this
      ensures Valid() && filterJobs == old(filterJobs)
      ensures currentPage ==
        if old(ButtonsShown()) && !old(PreviousDisabled()) then old(currentPage) - 1 else old(currentPage)
      ensures old(PageInRange()) ==> PageInRange()
    {
      if ButtonsShown() && !PreviousDisabled() {
        currentPage := currentPage - 1;
      }
    }

    /** A click on Next: one page on when the button is there and enabled; the new page is never empty. */
    method ClickNext()
      requires Valid()
      modifies this
      ensures Valid() && filterJobs == old(filterJobs)
      ensures currentPage ==
        if old(ButtonsShown()) && !old(NextDisabled()) then old(currentPage) + 1 else old(currentPage)
      ensures currentPage != old(currentPage) ==> CurrentJobs() != []
      ensures old(PageInRange()) ==> PageInRange()
    {
      if ButtonsShown() && !NextDisabled() {
        currentPage := currentPage + 1;
      }
    }

    /** While the page is in range and there are jobs, the shown page is not empty. */
    lemma InRangePageNotEmpty()
      requires Valid() && PageInRange() && |filterJobs| > 0
      ensures CurrentJobs() != []
    {
    }
  }

  /**
   * A page number past the end of the filtered list shows nothing although
   * the list has jobs: what a stale currentPage shows after the selection
   * narrows the list.
   */
  lemma StalePageEmpty(filtered: seq<Job>, page: int)
    requires page >= 1 && 0 < |filtered| <= (page - 1) * JobsPerPage
    ensures PageSlice(filtered, page) == []
  {
  }
}
