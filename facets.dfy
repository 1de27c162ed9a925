/**
 * Facet extraction of the filter card: from the job list it derives, for
 * each facet, the values the user can tick, and drops the facets that have
 * none.
 */
module Facets {
  import opened Wrappers
  import opened Seqs
  import opened JobData

  /** One facet as the filter card lists it: its kind and the values offered. */
  datatype Facet = Facet(kind: FacetKind, values: seq<string>)

  /** The Title facet offers at most this many values. */
  const TitleLimit: nat := 10

  /** [...new Set(xs)]: every element of `xs` once, in the order of first occurrence. */
  function Distinct<T(==)>(xs: seq<T>): (r: seq<T>)
    ensures forall i :: 0 <= i < |r| ==> r[i] in xs
    ensures forall i :: 0 <= i < |xs| ==> xs[i] in r
    ensures forall i, j :: 0 <= i < j < |r| ==> r[i] != r[j]
  {
    if xs == [] then []
    else
      var init, last := xs[..|xs| - 1], xs[|xs| - 1];
      assert xs == init + [last];
      var d := Distinct(init);
      if last in d then d else d + [last]
  }

  /** Distinct lists its elements in the order in which they first occur in the input. */
  lemma {:induction false} DistinctFirstSeen<T>(xs: seq<T>)
    ensures forall i, j :: 0 <= i < j < |Distinct(xs)| ==>
      FirstIndex(xs, Distinct(xs)[i]) < FirstIndex(xs, Distinct(xs)[j])
  {
    if xs != [] {
      var init, last := xs[..|xs| - 1], xs[|xs| - 1];
      assert xs == init + [last];
      DistinctFirstSeen(init);
      forall x | x in init
        ensures FirstIndex(xs, x) == FirstIndex(init, x)
      {
        FirstIndexAppend(init, [last], x);
      }
      var d := Distinct(init);
      if last !in d {
        var r := d + [last];
        assert last !in init;
        assert xs[..|xs| - 1] == init;
        assert FirstIndex(xs, last) == |xs| - 1;
        forall i, j | 0 <= i < j < |r|
          ensures FirstIndex(xs, r[i]) < FirstIndex(xs, r[j])
        {
          assert r[i] == d[i] && d[i] in init;
          if j < |d| {
            assert r[j] == d[j] && d[j] in init;
          }
        }
      }
    }
  }

  /** allJobs.map(job => job.<field>).filter(Boolean): the non-empty values of a text field, in job order. */
  function Present(jobs: seq<Job>, k: FacetKind): (vs: seq<string>)
    requires k != Salary
  {
    if jobs == [] then []
    else
      (if TruthyText(TextField(jobs[0], k)) then [TextField(jobs[0], k).value] else [])
      + Present(jobs[1..], k)
  }

  /** A value is in Present exactly when some posting carries it and it is not empty. */
  lemma {:induction false} PresentIff(jobs: seq<Job>, k: FacetKind, v: string)
    requires k != Salary
    ensures v in Present(jobs, k) <==>
      v != "" && exists i :: 0 <= i < |jobs| && TextField(jobs[i], k) == Some(v)
  {
    if jobs != [] {
      PresentIff(jobs[1..], k, v);
      if exists i :: 0 <= i < |jobs| && TextField(jobs[i], k) == Some(v) {
        var i :| 0 <= i < |jobs| && TextField(jobs[i], k) == Some(v);
        if i > 0 {
          assert TextField(jobs[1..][i - 1], k) == Some(v);
        }
      }
    }
  }

  /** allJobs.map(job => job.salaryMin).filter(Boolean) */
  function SalaryMins(jobs: seq<Job>): (xs: seq<int>)
    ensures forall x :: x in xs ==> x != 0
  {
    if jobs == [] then []
    else (if TruthyNumber(jobs[0].salaryMin) then [jobs[0].salaryMin.value] else []) + SalaryMins(jobs[1..])
  }

  /** allJobs.map(job => job.salaryMax).filter(Boolean) */
  function SalaryMaxs(jobs: seq<Job>): (xs: seq<int>)
    ensures forall x :: x in xs ==> x != 0
  {
    if jobs == [] then []
    else (if TruthyNumber(jobs[0].salaryMax) then [jobs[0].salaryMax.value] else []) + SalaryMaxs(jobs[1..])
  }

  /** A truthy salaryMin lies in SalaryMins and a truthy salaryMax in SalaryMaxs, and nothing else does. */
  lemma {:induction false} SalaryListsIff(jobs: seq<Job>, x: int)
    ensures x in SalaryMins(jobs) <==>
      x != 0 && exists i :: 0 <= i < |jobs| && jobs[i].salaryMin == Some(x)
    ensures x in SalaryMaxs(jobs) <==>
      x != 0 && exists i :: 0 <= i < |jobs| && jobs[i].salaryMax == Some(x)
  {
    if jobs != [] {
      SalaryListsIff(jobs[1..], x);
      if exists i :: 0 <= i < |jobs| && jobs[i].salaryMin == Some(x) {
        var i :| 0 <= i < |jobs| && jobs[i].salaryMin == Some(x);
        if i > 0 {
          assert jobs[1..][i - 1].salaryMin == Some(x);
        }
      }
      if exists i :: 0 <= i < |jobs| && jobs[i].salaryMax == Some(x) {
        var i :| 0 <= i < |jobs| && jobs[i].salaryMax == Some(x);
        if i > 0 {
          assert jobs[1..][i - 1].salaryMax == Some(x);
        }
      }
    }
  }

  /** Math.min(...xs) for a non-empty list. */
  function MinOf(xs: seq<int>): (m: int)
    requires xs != []
    ensures m in xs && forall x :: x in xs ==> m <= x
  {
    if |xs| == 1 then xs[0]
    else
      assert xs == [xs[0]] + xs[1..];
      var rest := MinOf(xs[1..]);
      if xs[0] <= rest then xs[0] else rest
  }

  /** Math.max(...xs) for a non-empty list. */
  function MaxOf(xs: seq<int>): (m: int)
    requires xs != []
    ensures m in xs && forall x :: x in xs ==> x <= m
  {
    if |xs| == 1 then xs[0]
    else
      assert xs == [xs[0]] + xs[1..];
      var rest := MaxOf(xs[1..]);
      if xs[0] >= rest then xs[0] else rest
  }

  /** The full, eight-bucket salary list. */
  const AllSalaryBuckets: seq<string> :=
    ["0-40k", "40k-1lakh", "1-10lakh", "10-20lakh", "20-30lakh", "30-40lakh", "40-50lakh", "50lakh+"]

  /** The bucket list chosen from the overall minimum and maximum salary by the four-way threshold rule. */
  function SalaryBuckets(overallMin: int, overallMax: int): (r: seq<string>)
  {
    if overallMax <= 40000 then ["0-40k"]
    else if overallMin < 40000 && overallMax <= 100000 then ["0-40k", "40k-1lakh"]
    else if overallMin < 100000 && overallMax <= 500000 then ["0-40k", "40k-1lakh", "1lakh-5lakh"]
    else AllSalaryBuckets
  }

  /**
   * Every bucket list starts with "0-40k", has one, two, three or eight labels,
   * and the short lists are prefixes of one another; the list never gets
   * shorter as the overall maximum grows.
   */
  lemma SalaryBucketsShape(lo: int, hi: int, hi': int)
    requires hi <= hi'
    ensures SalaryBuckets(lo, hi) != [] && SalaryBuckets(lo, hi)[0] == "0-40k"
    ensures |SalaryBuckets(lo, hi)| in {1, 2, 3, 8}
    ensures |SalaryBuckets(lo, hi)| <= 3 ==>
      SalaryBuckets(lo, hi) == ["0-40k", "40k-1lakh", "1lakh-5lakh"][..|SalaryBuckets(lo, hi)|]
    ensures |SalaryBuckets(lo, hi)| == 8 ==> SalaryBuckets(lo, hi) == AllSalaryBuckets
    ensures |SalaryBuckets(lo, hi)| <= |SalaryBuckets(lo, hi')|
  {
  }

  /** The Salary facet's values: buckets when some job has a truthy salaryMin and some job a truthy salaryMax. */
  function SalaryRanges(jobs: seq<Job>): seq<string>
  {
    var mins, maxs := SalaryMins(jobs), SalaryMaxs(jobs);
    if |mins| > 0 && |maxs| > 0 then SalaryBuckets(MinOf(mins), MaxOf(maxs)) else []
  }

  /** `lo` is the smallest truthy salaryMin among the postings. */
  ghost predicate IsOverallMin(jobs: seq<Job>, lo: int)
  {
    && lo != 0
    && (exists i :: 0 <= i < |jobs| && jobs[i].salaryMin == Some(lo))
    && forall i :: 0 <= i < |jobs| && TruthyNumber(jobs[i].salaryMin) ==> lo <= jobs[i].salaryMin.value
  }

  /** `hi` is the largest truthy salaryMax among the postings. */
  ghost predicate IsOverallMax(jobs: seq<Job>, hi: int)
  {
    && hi != 0
    && (exists i :: 0 <= i < |jobs| && jobs[i].salaryMax == Some(hi))
    && forall i :: 0 <= i < |jobs| && TruthyNumber(jobs[i].salaryMax) ==> jobs[i].salaryMax.value <= hi
  }

  /**
   * The Salary facet has buckets exactly when some posting has a truthy
   * salaryMin and some posting a truthy salaryMax (a salary of 0 counts as
   * absent).
   */
  lemma SalaryRangesPresent(jobs: seq<Job>)
    ensures SalaryRanges(jobs) != [] <==>
      (exists i :: 0 <= i < |jobs| && TruthyNumber(jobs[i].salaryMin)) &&
      (exists j :: 0 <= j < |jobs| && TruthyNumber(jobs[j].salaryMax))
  {
    var mins, maxs := SalaryMins(jobs), SalaryMaxs(jobs);
    if exists i :: 0 <= i < |jobs| && TruthyNumber(jobs[i].salaryMin) {
      var i :| 0 <= i < |jobs| && TruthyNumber(jobs[i].salaryMin);
      SalaryListsIff(jobs, jobs[i].salaryMin.value);
    }
    if exists j :: 0 <= j < |jobs| && TruthyNumber(jobs[j].salaryMax) {
      var j :| 0 <= j < |jobs| && TruthyNumber(jobs[j].salaryMax);
      SalaryListsIff(jobs, jobs[j].salaryMax.value);
    }
    if mins != [] {
      SalaryListsIff(jobs, mins[0]);
    }
    if maxs != [] {
      SalaryListsIff(jobs, maxs[0]);
    }
    if mins != [] && maxs != [] {
      SalaryBucketsShape(MinOf(mins), MaxOf(maxs), MaxOf(maxs));
    }
  }

  /**
   * The buckets are those the threshold rule picks for the smallest truthy
   * salaryMin and the largest truthy salaryMax.
   */
  lemma SalaryRangesChosen(jobs: seq<Job>, lo: int, hi: int)
    requires IsOverallMin(jobs, lo) && IsOverallMax(jobs, hi)
    ensures SalaryRanges(jobs) == SalaryBuckets(lo, hi)
  {
    var mins, maxs := SalaryMins(jobs), SalaryMaxs(jobs);
    SalaryListsIff(jobs, lo);
    SalaryListsIff(jobs, hi);
    var m, n := MinOf(mins), MaxOf(maxs);
    SalaryListsIff(jobs, m);
    SalaryListsIff(jobs, n);
    assert m == lo && n == hi;
  }

  /** The values a facet offers before empty facets are dropped. */
  function FacetValues(jobs: seq<Job>, k: FacetKind): seq<string>
  {
    match k
    case Salary => SalaryRanges(jobs)
    case Title =>
      var titles := Distinct(Present(jobs, Title));
      titles[..if |titles| < TitleLimit then |titles| else TitleLimit]
    case _ => Distinct(Present(jobs, k))
  }

  /**
   * A text facet other than Title offers every non-empty value of its field
   * exactly once, and lists the values in the order they are first seen.
   */
  lemma TextFacet(jobs: seq<Job>, k: FacetKind)
    requires k != Salary && k != Title
    ensures forall v :: v in FacetValues(jobs, k) <==>
      v != "" && exists i :: 0 <= i < |jobs| && TextField(jobs[i], k) == Some(v)
    ensures forall i, j :: 0 <= i < j < |FacetValues(jobs, k)| ==>
      FacetValues(jobs, k)[i] != FacetValues(jobs, k)[j]
    ensures forall i, j :: 0 <= i < j < |FacetValues(jobs, k)| ==>
      FirstIndex(Present(jobs, k), FacetValues(jobs, k)[i]) < FirstIndex(Present(jobs, k), FacetValues(jobs, k)[j])
  {
    forall v ensures v in FacetValues(jobs, k) <==>
      v != "" && exists i :: 0 <= i < |jobs| && TextField(jobs[i], k) == Some(v)
    {
      PresentIff(jobs, k, v);
    }
    DistinctFirstSeen(Present(jobs, k));
  }

  /**
   * The Title facet offers at most ten titles: the first ten distinct
   * non-empty titles in the order first seen, or all of them if there are
   * fewer.
   */
  lemma TitleFacet(jobs: seq<Job>)
    ensures |FacetValues(jobs, Title)| <= TitleLimit
    ensures var n := |Distinct(Present(jobs, Title))|;
      |FacetValues(jobs, Title)| == if n < TitleLimit then n else TitleLimit
    ensures var titles := Distinct(Present(jobs, Title));
      FacetValues(jobs, Title) == titles[..|FacetValues(jobs, Title)|] &&
      (|titles| <= TitleLimit ==> FacetValues(jobs, Title) == titles)
    ensures forall v :: v in FacetValues(jobs, Title) ==>
      v != "" && exists i :: 0 <= i < |jobs| && jobs[i].title == Some(v)
  {
    var titles := Distinct(Present(jobs, Title));
    forall v | v in FacetValues(jobs, Title)
      ensures v != "" && exists i :: 0 <= i < |jobs| && jobs[i].title == Some(v)
    {
      assert v in titles;
      PresentIff(jobs, Title, v);
    }
  }

  /** Array.prototype.filter(item => item.array.length > 0) over facets. */
  function NonEmpty(fs: seq<Facet>): (r: seq<Facet>)
    ensures forall f :: f in r <==> f in fs && f.values != []
  {
    if fs == [] then []
    else
      assert fs == [fs[0]] + fs[1..];
      (if fs[0].values != [] then [fs[0]] else []) + NonEmpty(fs[1..])
  }

  /** Dropping facets keeps the survivors in their order. */
  lemma {:induction false} NonEmptyOrdered(fs: seq<Facet>)
    requires forall i, j :: 0 <= i < j < |fs| ==> Rank(fs[i].kind) < Rank(fs[j].kind)
    ensures forall i, j :: 0 <= i < j < |NonEmpty(fs)| ==> Rank(NonEmpty(fs)[i].kind) < Rank(NonEmpty(fs)[j].kind)
  {
    if fs != [] {
      NonEmptyOrdered(fs[1..]);
      forall f | f in NonEmpty(fs[1..])
        ensures Rank(fs[0].kind) < Rank(f.kind)
      {
        var j :| 0 <= j < |fs[1..]| && fs[1..][j] == f;
        assert fs[j + 1] == f;
      }
    }
  }

  /** Every facet, in the fixed order, with its values. */
  function AllFacets(jobs: seq<Job>): seq<Facet>
  {
    seq(|FacetOrder|, i requires 0 <= i < |FacetOrder| => Facet(FacetOrder[i], FacetValues(jobs, FacetOrder[i])))
  }

  /** The filter card's facet list (the memoised filterData). */
  function ComputeFacets(jobs: seq<Job>): seq<Facet>
  {
    if |jobs| == 0 then [] else NonEmpty(AllFacets(jobs))
  }

  /** No posting yields no facet values at all. */
  lemma {:induction false} NoJobsNoValues(k: FacetKind)
    ensures FacetValues([], k) == []
  {
    assert Distinct<string>([]) == [];
    if k != Salary {
      assert Present([], k) == [];
    }
  }

  /** No postings, no facets. */
  lemma ComputeFacetsEmpty()
    ensures ComputeFacets([]) == []
  {
  }

  /** Every listed facet has at least one value, and they are the values FacetValues gives it. */
  lemma ComputeFacetsValues(jobs: seq<Job>)
    ensures forall i :: 0 <= i < |ComputeFacets(jobs)| ==>
      ComputeFacets(jobs)[i].values != [] &&
      ComputeFacets(jobs)[i].values == FacetValues(jobs, ComputeFacets(jobs)[i].kind)
  {
    if jobs != [] {
      var r, all := ComputeFacets(jobs), AllFacets(jobs);
      forall i | 0 <= i < |r|
        ensures r[i].values != [] && r[i].values == FacetValues(jobs, r[i].kind)
      {
        assert r[i] in all;
      }
    }
  }

  /**
   * The listed facets keep the fixed order Job Type, Location, Title, Work
   * Mode, Job Level, Duration, Salary, Experience Level.
   */
  lemma ComputeFacetsOrdered(jobs: seq<Job>)
    ensures forall i, j :: 0 <= i < j < |ComputeFacets(jobs)| ==>
      Rank(ComputeFacets(jobs)[i].kind) < Rank(ComputeFacets(jobs)[j].kind)
  {
    if jobs != [] {
      var all := AllFacets(jobs);
      forall i | 0 <= i < |all|
        ensures Rank(all[i].kind) == i
      {
        assert all[i].kind == FacetOrder[i];
        RankOfOrder(i);
      }
      NonEmptyOrdered(all);
    }
  }

  /** A facet is listed exactly when it has at least one value. */
  lemma ComputeFacetsPresence(jobs: seq<Job>, k: FacetKind)
    ensures (exists i :: 0 <= i < |ComputeFacets(jobs)| && ComputeFacets(jobs)[i].kind == k) <==>
      FacetValues(jobs, k) != []
  {
    var r := ComputeFacets(jobs);
    if jobs == [] {
      NoJobsNoValues(k);
    } else {
      var all := AllFacets(jobs);
      if FacetValues(jobs, k) != [] {
        assert all[Rank(k)] in r;
      }
      if exists i :: 0 <= i < |r| && r[i].kind == k {
        var i :| 0 <= i < |r| && r[i].kind == k;
        assert r[i] in all;
      }
    }
  }
}
