/**
 * The filter card's selection: the map from facet label to the values the
 * user has ticked, the checkbox toggle that replaces it, and the effect that
 * publishes it to the store.
 */
module Selection {
  import opened Wrappers
  import opened Seqs
  import opened JobData

  /** prev[filterType] || []: the values ticked so far for a facet. */
  function Current(sel: Query, filterType: string): seq<string>
  {
    if filterType in sel then sel[filterType] else []
  }

  /** current.filter(item => item !== value): every occurrence of `value` removed, the rest kept in order. */
  function RemoveAll(xs: seq<string>, value: string): (r: seq<string>)
    ensures value !in r
    ensures forall x :: x != value ==> multiset(r)[x] == multiset(xs)[x]
    ensures IsSubsequence(r, xs)
  {
    if xs == [] then []
    else
      assert xs == [xs[0]] + xs[1..];
      if xs[0] == value then
        var r := RemoveAll(xs[1..], value);
        SubsequenceSkip(r, xs);
        r
      else
        [xs[0]] + RemoveAll(xs[1..], value)
  }

  /** Removing a value that does not occur changes nothing. */
  lemma {:induction false} RemoveAllAbsent(xs: seq<string>, value: string)
    requires value !in xs
    ensures RemoveAll(xs, value) == xs
  {
    if xs != [] {
      RemoveAllAbsent(xs[1..], value);
    }
  }

  /** Removing from a concatenation removes from each part. */
  lemma {:induction false} RemoveAllAppend(xs: seq<string>, ys: seq<string>, value: string)
    ensures RemoveAll(xs + ys, value) == RemoveAll(xs, value) + RemoveAll(ys, value)
  {
    if xs == [] {
      assert xs + ys == ys;
    } else {
      assert (xs + ys)[0] == xs[0];
      assert (xs + ys)[1..] == xs[1..] + ys;
      RemoveAllAppend(xs[1..], ys, value);
    }
  }

  /** handleCheckboxChange as a state-to-state function: the selection after one checkbox event. */
  function Toggle(sel: Query, filterType: string, value: string, checked: bool): (r: Query)
    ensures r.Keys == sel.Keys + {filterType}
    ensures forall k :: k in sel && k != filterType ==> r[k] == sel[k]
    ensures checked ==>
      |r[filterType]| == |Current(sel, filterType)| + 1 &&
      r[filterType][..|Current(sel, filterType)|] == Current(sel, filterType) &&
      r[filterType][|Current(sel, filterType)|] == value
    ensures !checked ==>
      value !in r[filterType] &&
      IsSubsequence(r[filterType], Current(sel, filterType)) &&
      forall x :: x != value ==> multiset(r[filterType])[x] == multiset(Current(sel, filterType))[x]
  {
    var current := Current(sel, filterType);
    if checked then
      var appended := current + [value];
      assert appended[..|current|] == current;
      sel[filterType := appended]
    else
      sel[filterType := RemoveAll(current, value)]
  }

  /**
   * Ticking a value that is not yet ticked and then unticking it restores
   * that facet's list exactly; the only trace left is that the facet's key
   * is now present (with its old list, or an empty one).
   */
  lemma ToggleRoundTrip(sel: Query, filterType: string, value: string)
    requires value !in Current(sel, filterType)
    ensures Toggle(Toggle(sel, filterType, value, true), filterType, value, false) ==
      sel[filterType := Current(sel, filterType)]
  {
    var current := Current(sel, filterType);
    var ticked := Toggle(sel, filterType, value, true);
    assert Current(ticked, filterType) == current + [value];
    RemoveAllAppend(current, [value], value);
    RemoveAllAbsent(current, value);
    assert RemoveAll([value], value) == [];
    assert RemoveAll(current + [value], value) == current;
  }

  /** Ticking the same value twice records it twice: duplicates are not prevented. */
  lemma ToggleCheckTwice(sel: Query, filterType: string, value: string)
    ensures multiset(Toggle(Toggle(sel, filterType, value, true), filterType, value, true)[filterType])[value] ==
      multiset(Current(sel, filterType))[value] + 2
  {
    var current := Current(sel, filterType);
    assert Toggle(Toggle(sel, filterType, value, true), filterType, value, true)[filterType] == current + [value] + [value];
  }

  /**
   * The filter card component: its selection state and the store it
   * publishes the selection to.
   */
  class FilterCard {
    const store: JobStore
    var selectedFilters: Query

    /** Mounting: the selection starts empty and the effect publishes it. */
    constructor (store: JobStore)
      modifies store
      ensures this.store == store && selectedFilters == map[]
      ensures store.searchedQuery == Some(map[]) && store.allJobs == old(store.allJobs)
    {
      this.store := store;
      selectedFilters := map[];
      new;
      store.searchedQuery := Some(map[]);
    }

    /**
     * A checkbox event: the selection becomes Toggle of the old one, and the
     * effect that follows every change publishes it to the store.
     */
    method HandleCheckboxChange(filterType: string, value: string, checked: bool)
      modifies this, store
      ensures selectedFilters == Toggle(old(selectedFilters), filterType, value, checked)
      ensures store.searchedQuery == Some(selectedFilters) && store.allJobs == old(store.allJobs)
    {
      selectedFilters := Toggle(selectedFilters, filterType, value, checked);
      store.searchedQuery := Some(selectedFilters);
    }
  }
}
