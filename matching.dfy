/**
 * The job list's filter pass: a posting is kept when it satisfies every
 * facet that has a non-empty selection (AND across facets), where one
 * matching selected value is enough (OR within a facet).
 */
module Matching {
  import opened Wrappers
  import opened Seqs
  import opened Text
  import opened JobData

  /**
   * The bounds a salary bucket stands for: delete every character other than
   * a digit or a hyphen, split at the hyphens and parse the first two pieces.
   * None is NaN (an empty piece) or undefined (no second piece).
   */
  function SalaryBounds(bucket: string): (bounds: (Option<nat>, Option<nat>))
  {
    var parts := Split(Strip(bucket), '-');
    (ParseInt(parts[0]), if |parts| > 1 then ParseInt(parts[1]) else None)
  }

  /**
   * job?.salaryMin >= min && job?.salaryMax <= max, where every comparison
   * with undefined or NaN is false.
   */
  predicate SalaryMatches(job: Job, bucket: string)
  {
    var bounds := SalaryBounds(bucket);
    && job.salaryMin.Some? && bounds.0.Some? && job.salaryMin.value >= bounds.0.value
    && job.salaryMax.Some? && bounds.1.Some? && job.salaryMax.value <= bounds.1.value
  }

  /** field?.toLowerCase().includes(value.toLowerCase()) */
  predicate TextMatches(field: Option<string>, value: string)
  {
    field.Some? && Contains(Lower(field.value), Lower(value))
  }

  /** Whether one selected value of facet `k` admits the posting. */
  predicate ValueMatches(job: Job, k: FacetKind, value: string)
  {
    if k == Salary then SalaryMatches(job, value) else TextMatches(TextField(job, k), value)
  }

  /**
   * The test for one key of the selection: an empty selection and a key the
   * switch does not recognise admit every posting; otherwise some selected
   * value must match.
   */
  predicate FacetMatches(job: Job, filterType: string, selected: seq<string>)
  {
    if selected == [] then true
    else
      match KindOf(filterType)
      case None => true
      case Some(k) => exists v :: v in selected && ValueMatches(job, k, v)
  }

  /** Object.keys(searchedQuery).every(...): the posting passes every key of the selection. */
  predicate JobMatches(job: Job, query: Query)
  {
    forall filterType :: filterType in query ==> FacetMatches(job, filterType, query[filterType])
  }

  /** allJobs.filter(job => JobMatches(job, query)) */
  function FilterSeq(jobs: seq<Job>, query: Query): seq<Job>
  {
    if jobs == [] then []
    else if JobMatches(jobs[0], query) then [jobs[0]] + FilterSeq(jobs[1..], query)
    else FilterSeq(jobs[1..], query)
  }

  /**
   * The filtered list holds the matching postings, in their original order,
   * each as often as it occurs in the input, and nothing else.
   */
  lemma {:induction false} FilterSeqSpec(jobs: seq<Job>, query: Query)
    ensures IsSubsequence(FilterSeq(jobs, query), jobs)
    ensures forall i :: 0 <= i < |FilterSeq(jobs, query)| ==> JobMatches(FilterSeq(jobs, query)[i], query)
    ensures forall job ::
      multiset(FilterSeq(jobs, query))[job] == if JobMatches(job, query) then multiset(jobs)[job] else 0
  {
    if jobs != [] {
      assert jobs == [jobs[0]] + jobs[1..];
      var rest := FilterSeq(jobs[1..], query);
      FilterSeqSpec(jobs[1..], query);
      if !JobMatches(jobs[0], query) {
        SubsequenceSkip(rest, jobs);
      }
    }
  }

  /** Filtering a concatenation filters each part: the pass looks at one posting at a time. */
  lemma {:induction false} FilterSeqAppend(xs: seq<Job>, ys: seq<Job>, query: Query)
    ensures FilterSeq(xs + ys, query) == FilterSeq(xs, query) + FilterSeq(ys, query)
  {
    if xs == [] {
      assert xs + ys == ys;
    } else {
      assert (xs + ys)[0] == xs[0];
      assert (xs + ys)[1..] == xs[1..] + ys;
      FilterSeqAppend(xs[1..], ys, query);
    }
  }

  /** When no posting matches, the filtered list is empty. */
  lemma {:induction false} FilterSeqNone(jobs: seq<Job>, query: Query)
    requires forall i :: 0 <= i < |jobs| ==> !JobMatches(jobs[i], query)
    ensures FilterSeq(jobs, query) == []
  {
    if jobs != [] {
      FilterSeqNone(jobs[1..], query);
    }
  }

  /** The filtering effect: filter when the selection has keys, else show the whole list. */
  function FilterJobs(allJobs: seq<Job>, searchedQuery: Option<Query>): seq<Job>
  {
    if searchedQuery.Some? && |searchedQuery.value| > 0 then FilterSeq(allJobs, searchedQuery.value)
    else allJobs
  }

  /** When every posting matches, filtering keeps the list as it is. */
  lemma {:induction false} FilterSeqAll(jobs: seq<Job>, query: Query)
    requires forall i :: 0 <= i < |jobs| ==> JobMatches(jobs[i], query)
    ensures FilterSeq(jobs, query) == jobs
  {
    if jobs != [] {
      FilterSeqAll(jobs[1..], query);
    }
  }

  /**
   * A selection without any active facet (every list empty or every key
   * unrecognised), absent or without keys, leaves the job list unchanged.
   */
  lemma FilterJobsInactive(allJobs: seq<Job>, searchedQuery: Option<Query>)
    requires searchedQuery.Some? ==>
      forall filterType :: filterType in searchedQuery.value ==>
        searchedQuery.value[filterType] == [] || KindOf(filterType) == None
    ensures FilterJobs(allJobs, searchedQuery) == allJobs
  {
    if searchedQuery.Some? && |searchedQuery.value| > 0 {
      FilterSeqAll(allJobs, searchedQuery.value);
    }
  }

  /**
   * The filtered list is an order-preserving subsequence of the job list; a
   * posting is in it exactly when it satisfies, for every facet with a
   * non-empty selection, at least one selected value, and it occurs there as
   * often as in the job list.
   */
  lemma FilterJobsSpec(allJobs: seq<Job>, query: Query)
    ensures IsSubsequence(FilterJobs(allJobs, Some(query)), allJobs)
    ensures forall job ::
      multiset(FilterJobs(allJobs, Some(query)))[job] == (if JobMatches(job, query) then multiset(allJobs)[job] else 0)
    ensures forall job, filterType, k ::
      job in FilterJobs(allJobs, Some(query)) && filterType in query &&
      query[filterType] != [] && KindOf(filterType) == Some(k) ==>
        exists v :: v in query[filterType] && ValueMatches(job, k, v)
  {
    if |query| == 0 {
      SubsequenceRefl(allJobs);
    } else {
      FilterSeqSpec(allJobs, query);
    }
    var r := FilterJobs(allJobs, Some(query));
    forall job | job in r
      ensures JobMatches(job, query)
    {
      var i :| 0 <= i < |r| && r[i] == job;
    }
  }

  /** A posting without the facet's field never matches a non-empty selection for that facet. */
  lemma MissingFieldNeverMatches(job: Job, k: FacetKind, selected: seq<string>)
    requires k != Salary && TextField(job, k) == None && selected != []
    ensures !FacetMatches(job, FilterType(k), selected)
  {
    KindOfFilterType(k);
  }

  /** A text facet matches exactly when the lower-cased value occurs somewhere in the lower-cased field. */
  lemma TextMatchesIff(field: string, value: string)
    ensures TextMatches(Some(field), value) <==> exists i :: OccursAt(Lower(field), Lower(value), i)
  {
    assert TextMatches(Some(field), value) == Contains(Lower(field), Lower(value));
    ContainsIff(Lower(field), Lower(value));
  }

  /** Matching ignores ASCII case: values that lower-case alike match the same postings. */
  lemma TextMatchesCaseInsensitive(field: Option<string>, value: string, value': string)
    requires Lower(value) == Lower(value')
    ensures TextMatches(field, value) == TextMatches(field, value')
  {
  }

  /** A posting matches every value the facet list offers from its own field, and every part of it. */
  lemma OwnValueMatches(job: Job, k: FacetKind, i: nat, j: nat)
    requires k != Salary && TextField(job, k).Some?
    requires i <= j <= |TextField(job, k).value|
    ensures TextMatches(TextField(job, k), TextField(job, k).value[i..j])
  {
    var s := TextField(job, k).value;
    assert Lower(s)[i..j] == Lower(s[i..j]);
    assert OccursAt(Lower(s), Lower(s[i..j]), i);
    ContainsIff(Lower(s), Lower(s[i..j]));
  }

  /** A bucket with no hyphen (such as "50lakh+") has no upper bound and so matches no posting. */
  lemma SalaryWithoutHyphenNeverMatches(job: Job, bucket: string)
    requires '-' !in bucket
    ensures SalaryBounds(bucket).1 == None
    ensures !SalaryMatches(job, bucket)
  {
    var stripped := Strip(bucket);
    StripSpec(bucket);
    assert multiset(stripped)['-'] == 0;
    SplitWithoutSeparator(stripped, '-');
  }

  /** A posting without salaryMin or salaryMax matches no salary bucket. */
  lemma SalaryMissingNeverMatches(job: Job, bucket: string)
    requires job.salaryMin == None || job.salaryMax == None
    ensures !SalaryMatches(job, bucket)
  {
  }

  /** A bucket whose two bounds parse matches exactly the postings whose salary range lies within them. */
  lemma SalaryMatchesIff(job: Job, bucket: string, lo: nat, hi: nat)
    requires SalaryBounds(bucket) == (Some(lo), Some(hi))
    ensures SalaryMatches(job, bucket) <==>
      job.salaryMin.Some? && job.salaryMax.Some? && lo <= job.salaryMin.value && job.salaryMax.value <= hi
  {
  }

  /** `s` is a run of digits with this decimal value. */
  predicate IsNumeral(s: string)
  {
    s != [] && forall c :: c in s ==> IsDigit(c)
  }

  /**
   * The unit words of a bucket (such as "k" and "lakh") are deleted, not
   * applied: "<lo><unit>-<hi><unit'>" has exactly the bounds lo and hi.
   */
  lemma SalaryBoundsOfRange(lo: string, unitLo: string, hi: string, unitHi: string)
    requires IsNumeral(lo) && IsNumeral(hi)
    requires forall c :: c in unitLo ==> !IsDigitOrHyphen(c)
    requires forall c :: c in unitHi ==> !IsDigitOrHyphen(c)
    ensures SalaryBounds(lo + unitLo + ['-'] + hi + unitHi) == (Some(DigitsValue(lo)), Some(DigitsValue(hi)))
  {
    var a := lo + unitLo;
    var b := a + ['-'];
    var c := b + hi;
    StripKeeps(lo);
    StripKeeps(hi);
    StripKeeps(['-']);
    StripDrops(unitLo);
    StripDrops(unitHi);
    StripAppend(lo, unitLo);
    assert Strip(a) == lo;
    StripAppend(a, ['-']);
    assert Strip(b) == lo + ['-'];
    StripAppend(b, hi);
    assert Strip(c) == lo + ['-'] + hi;
    StripAppend(c, unitHi);
    assert Strip(c + unitHi) == lo + ['-'] + hi;
    assert '-' !in lo && '-' !in hi;
    SplitAtFirst(lo, hi, '-');
    SplitWithoutSeparator(hi, '-');
    DigitPrefixOfDigits(lo);
    DigitPrefixOfDigits(hi);
  }

  /** A bucket with one number and no hyphen has that number as lower bound and no upper bound. */
  lemma SalaryBoundsOfOpen(lo: string, unit: string)
    requires IsNumeral(lo)
    requires forall c :: c in unit ==> !IsDigitOrHyphen(c)
    ensures SalaryBounds(lo + unit) == (Some(DigitsValue(lo)), None)
  {
    StripAppend(lo, unit);
    StripKeeps(lo);
    StripDrops(unit);
    assert Strip(lo + unit) == lo;
    assert '-' !in lo;
    SplitWithoutSeparator(lo, '-');
    DigitPrefixOfDigits(lo);
  }
}
