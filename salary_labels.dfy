/**
 * What the salary buckets the filter card offers mean to the filter pass:
 * each label is read back by SalaryBounds, which deletes the unit words, so
 * "k" and "lakh" scale nothing.
 */
module SalaryLabels {
  import opened Wrappers
  import opened Text
  import opened JobData
  import opened Facets
  import opened Matching

  /** The value of a two-digit numeral. */
  lemma TwoDigits(d: string)
    requires |d| == 2 && IsDigit(d[0]) && IsDigit(d[1])
    ensures IsNumeral(d)
    ensures DigitsValue(d) == 10 * (d[0] as int - '0' as int) + (d[1] as int - '0' as int)
  {
    assert d[..1] == [d[0]];
    assert DigitsValue([d[0]]) == d[0] as int - '0' as int by {
      assert [d[0]][..0] == [];
    }
  }

  /** "0-40k" has the bounds 0 and 40. */
  lemma BoundsUpTo40k()
    ensures SalaryBounds("0-40k") == (Some(0), Some(40))
  {
    TwoDigits("40");
    assert "0-40k" == "0" + "" + ['-'] + "40" + "k";
    SalaryBoundsOfRange("0", "", "40", "k");
  }

  /** "40k-1lakh" has the bounds 40 and 1. */
  lemma Bounds40kTo1Lakh()
    ensures SalaryBounds("40k-1lakh") == (Some(40), Some(1))
  {
    TwoDigits("40");
    assert "40k-1lakh" == "40" + "k" + ['-'] + "1" + "lakh";
    SalaryBoundsOfRange("40", "k", "1", "lakh");
  }

  /** "1lakh-5lakh" has the bounds 1 and 5. */
  lemma Bounds1To5Lakh()
    ensures SalaryBounds("1lakh-5lakh") == (Some(1), Some(5))
  {
    var lo, unit, hi := "1", "lakh", "5";
    assert IsNumeral(lo) && IsNumeral(hi);
    assert forall c :: c in unit ==> !IsDigitOrHyphen(c);
    assert "1lakh-5lakh" == lo + unit + ['-'] + hi + unit;
    SalaryBoundsOfRange(lo, unit, hi, unit);
    assert DigitsValue(lo) == 1 by { assert lo[..0] == []; }
    assert DigitsValue(hi) == 5 by { assert hi[..0] == []; }
  }

  /** "1-10lakh" has the bounds 1 and 10. */
  lemma Bounds1To10Lakh()
    ensures SalaryBounds("1-10lakh") == (Some(1), Some(10))
  {
    var lo, hi, unit := "1", "10", "lakh";
    assert IsNumeral(hi) && DigitsValue(hi) == 10 by { TwoDigits(hi); }
    assert IsNumeral(lo);
    assert forall c :: c in unit ==> !IsDigitOrHyphen(c);
    assert "1-10lakh" == lo + "" + ['-'] + hi + unit;
    SalaryBoundsOfRange(lo, "", hi, unit);
    assert DigitsValue(lo) == 1 by { assert lo[..0] == []; }
  }

  /** "10-20lakh" has the bounds 10 and 20. */
  lemma Bounds10To20Lakh()
    ensures SalaryBounds("10-20lakh") == (Some(10), Some(20))
  {
    TwoDigits("10");
    TwoDigits("20");
    assert "10-20lakh" == "10" + "" + ['-'] + "20" + "lakh";
    SalaryBoundsOfRange("10", "", "20", "lakh");
  }

  /** "20-30lakh" has the bounds 20 and 30. */
  lemma Bounds20To30Lakh()
    ensures SalaryBounds("20-30lakh") == (Some(20), Some(30))
  {
    TwoDigits("20");
    TwoDigits("30");
    assert "20-30lakh" == "20" + "" + ['-'] + "30" + "lakh";
    SalaryBoundsOfRange("20", "", "30", "lakh");
  }

  /** "30-40lakh" has the bounds 30 and 40. */
  lemma Bounds30To40Lakh()
    ensures SalaryBounds("30-40lakh") == (Some(30), Some(40))
  {
    TwoDigits("30");
    TwoDigits("40");
    assert "30-40lakh" == "30" + "" + ['-'] + "40" + "lakh";
    SalaryBoundsOfRange("30", "", "40", "lakh");
  }

  /** "40-50lakh" has the bounds 40 and 50. */
  lemma Bounds40To50Lakh()
    ensures SalaryBounds("40-50lakh") == (Some(40), Some(50))
  {
    TwoDigits("40");
    TwoDigits("50");
    assert "40-50lakh" == "40" + "" + ['-'] + "50" + "lakh";
    SalaryBoundsOfRange("40", "", "50", "lakh");
  }

  /** "50lakh+" has the lower bound 50 and no upper bound. */
  lemma BoundsFrom50Lakh()
    ensures SalaryBounds("50lakh+") == (Some(50), None)
  {
    var lo, unit := "50", "lakh+";
    assert IsNumeral(lo) && DigitsValue(lo) == 50 by { TwoDigits(lo); }
    assert forall c :: c in unit ==> !IsDigitOrHyphen(c);
    assert "50lakh+" == lo + unit;
    SalaryBoundsOfOpen(lo, unit);
  }

  /** "0-40k" admits exactly the postings whose salaries lie between 0 and 40, not 0 and 40000. */
  lemma FirstBucketUnscaled(job: Job)
    ensures SalaryMatches(job, "0-40k") <==>
      job.salaryMin.Some? && job.salaryMax.Some? && job.salaryMin.value >= 0 && job.salaryMax.value <= 40
  {
    BoundsUpTo40k();
  }

  /** "40k-1lakh" (bounds 40 and 1) admits no posting whose salaryMin is at most its salaryMax. */
  lemma SecondBucketUnsatisfiable(job: Job)
    requires job.salaryMin.Some? && job.salaryMax.Some? ==> job.salaryMin.value <= job.salaryMax.value
    ensures !SalaryMatches(job, "40k-1lakh")
  {
    Bounds40kTo1Lakh();
  }

  /** "50lakh+" admits no posting at all. */
  lemma OpenBucketNeverMatches(job: Job)
    ensures !SalaryMatches(job, "50lakh+")
  {
    BoundsFrom50Lakh();
  }

  /** The first four labels of the full bucket list have upper bounds 40, 1, 10 and 20. */
  lemma LowLabelsUpperBound(i: int)
    requires 0 <= i < 4
    ensures SalaryBounds(AllSalaryBuckets[i]).1.Some? && SalaryBounds(AllSalaryBuckets[i]).1.value <= 40
  {
    var bucket := AllSalaryBuckets[i];
    if i == 0 {
      assert bucket == "0-40k";
      BoundsUpTo40k();
      assert SalaryBounds(bucket).1 == Some(40);
    } else if i == 1 {
      assert bucket == "40k-1lakh";
      Bounds40kTo1Lakh();
      assert SalaryBounds(bucket).1 == Some(1);
    } else if i == 2 {
      assert bucket == "1-10lakh";
      Bounds1To10Lakh();
      assert SalaryBounds(bucket).1 == Some(10);
    } else {
      assert bucket == "10-20lakh";
      Bounds10To20Lakh();
      assert SalaryBounds(bucket).1 == Some(20);
    }
  }

  /** The last four labels of the full bucket list have upper bounds 30, 40 and 50, and none. */
  lemma HighLabelsUpperBound(i: int)
    requires 4 <= i < 8
    ensures SalaryBounds(AllSalaryBuckets[i]).1.None? || SalaryBounds(AllSalaryBuckets[i]).1.value <= 50
  {
    var bucket := AllSalaryBuckets[i];
    if i == 4 {
      assert bucket == "20-30lakh";
      Bounds20To30Lakh();
      assert SalaryBounds(bucket).1 == Some(30);
    } else if i == 5 {
      assert bucket == "30-40lakh";
      Bounds30To40Lakh();
      assert SalaryBounds(bucket).1 == Some(40);
    } else if i == 6 {
      assert bucket == "40-50lakh";
      Bounds40To50Lakh();
      assert SalaryBounds(bucket).1 == Some(50);
    } else {
      assert bucket == "50lakh+";
      BoundsFrom50Lakh();
      assert SalaryBounds(bucket).1 == None;
    }
  }

  /** Every label a bucket list can hold has an upper bound of at most 50, or none. */
  lemma BucketUpperBoundAtMostFifty(bucket: string)
    requires bucket in AllSalaryBuckets || bucket == "1lakh-5lakh"
    ensures SalaryBounds(bucket).1.None? || SalaryBounds(bucket).1.value <= 50
  {
    if bucket in AllSalaryBuckets {
      var i :| 0 <= i < |AllSalaryBuckets| && AllSalaryBuckets[i] == bucket;
      if i < 4 {
        LowLabelsUpperBound(i);
      } else {
        HighLabelsUpperBound(i);
      }
    } else {
      Bounds1To5Lakh();
    }
  }

  /**
   * Every bucket the filter card can offer has an upper bound of at most 50
   * (or none), so a posting whose salaryMax exceeds 50 matches no offered
   * bucket, whatever the job list.
   */
  lemma OfferedBucketsCapAtFifty(jobs: seq<Job>, bucket: string, job: Job)
    requires bucket in FacetValues(jobs, Salary)
    requires job.salaryMax.Some? && job.salaryMax.value > 50
    ensures !SalaryMatches(job, bucket)
  {
    var mins, maxs := SalaryMins(jobs), SalaryMaxs(jobs);
    assert bucket in SalaryBuckets(MinOf(mins), MaxOf(maxs));
    BucketUpperBoundAtMostFifty(bucket);
  }
}
