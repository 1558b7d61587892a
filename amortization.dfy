/** The amortization schedule of a fixed-payment loan, stated on values: what
    one pass of the generator loop computes, what the whole sequence of
    records satisfies when the loop stops or throws, and on which dates the
    payments fall. */
module Amortization {
  import opened Calendar

  /** How often a payment falls due.  `Code` is the enumeration's value;
      for the month-stepping frequencies it is the number of months per
      period. */
  datatype PaymentFrequency = Weekly | Monthly | Quarterly | Annually
  {
    function Code(): (r: nat)
      ensures r == 0 <==> this == Weekly
      ensures r != 0 ==> 12 % r == 0
    {
      match this
      case Weekly => 0
      case Monthly => 1
      case Quarterly => 3
      case Annually => 12
    }
  }

  /** One record of the payment profile: the balance left after the
      payment, the interest and principal parts of the payment, and the
      payment date. */
  datatype Payment = Payment(balance: real, interest: real, principalPayment: real, paymentDate: Date)

  function MinReal(a: real, b: real): real
  {
    if a <= b then a else b
  }

  lemma MulMonotone(a: real, b: real, c: real)
    requires a <= b && 0.0 <= c
    ensures a * c <= b * c
  {
  }

  /** The arithmetic of one pass from the balance `prev`: interest at the
      period rate, the payment less interest capped by the balance, and the
      balance reduced by that principal. */
  predicate FollowsFrom(prev: real, rate: real, amount: real, p: Payment)
  {
    && p.interest == prev * rate
    && p.principalPayment == MinReal(amount - p.interest, prev)
    && p.balance == prev - p.principalPayment
  }

  /** The balance at the start of pass `k`: the loan's balance for the first
      pass, the balance the previous record left after that. */
  function Opening(b0: real, profile: seq<Payment>, k: nat): real
    requires k <= |profile|
  {
    if k == 0 then b0 else profile[k - 1].balance
  }

  /** Pass `k` ran with a positive balance, found a principal that is not
      negative, and recorded the arithmetic of FollowsFrom. */
  predicate PassAt(b0: real, rate: real, amount: real, profile: seq<Payment>, k: nat)
    requires k < |profile|
  {
    && Opening(b0, profile, k) > 0.0
    && profile[k].principalPayment >= 0.0
    && FollowsFrom(Opening(b0, profile, k), rate, amount, profile[k])
  }

  /** The records the loop has appended after `|profile|` passes. */
  predicate IsPartialSchedule(b0: real, rate: real, amount: real, profile: seq<Payment>)
  {
    forall k :: 0 <= k < |profile| ==> PassAt(b0, rate, amount, profile, k)
  }

  /** The loop ran to completion with `profile`: the guard `balance > 0`
      failed after its last record. */
  predicate IsSchedule(b0: real, rate: real, amount: real, profile: seq<Payment>)
  {
    IsPartialSchedule(b0, rate, amount, profile) && Opening(b0, profile, |profile|) <= 0.0
  }

  /** The loop throws in the pass after `profile`: the balance is positive
      and the payment does not cover the interest on it. */
  predicate FailsAfter(b0: real, rate: real, amount: real, profile: seq<Payment>)
  {
    && IsPartialSchedule(b0, rate, amount, profile)
    && Opening(b0, profile, |profile|) > 0.0
    && amount - Opening(b0, profile, |profile|) * rate < 0.0
  }

  /** The first pass's principal before capping. */
  function FirstPrincipal(b0: real, rate: real, amount: real): real
  {
    amount - b0 * rate
  }

  /** One pass from a positive balance with a principal that is not
      negative leaves a balance between zero and the old balance; the
      balance is zero exactly when the principal took all of it, and
      otherwise the principal is the whole payment less interest. */
  lemma PassFacts(b0: real, rate: real, amount: real, profile: seq<Payment>, k: nat)
    requires IsPartialSchedule(b0, rate, amount, profile)
    requires k < |profile|
    ensures Opening(b0, profile, k + 1) == profile[k].balance
    ensures Opening(b0, profile, k) > 0.0 && profile[k].principalPayment >= 0.0
    ensures profile[k].interest == Opening(b0, profile, k) * rate
    ensures 0.0 <= profile[k].balance <= Opening(b0, profile, k)
    ensures profile[k].balance == 0.0 <==> profile[k].principalPayment == Opening(b0, profile, k)
    ensures profile[k].principalPayment <= amount - Opening(b0, profile, k) * rate
    ensures profile[k].balance > 0.0 ==> profile[k].principalPayment == amount - Opening(b0, profile, k) * rate
  {
    assert PassAt(b0, rate, amount, profile, k);
  }

  /** Balances never grow and never drop below zero. */
  lemma {:induction false} OpeningsNonIncreasing(b0: real, rate: real, amount: real, profile: seq<Payment>, i: nat, j: nat)
    requires IsPartialSchedule(b0, rate, amount, profile)
    requires i <= j <= |profile|
    ensures Opening(b0, profile, j) <= Opening(b0, profile, i)
    ensures 0 < j ==> 0.0 <= Opening(b0, profile, j)
  {
    if i < j {
      OpeningsNonIncreasing(b0, rate, amount, profile, i, j - 1);
    }
    if 0 < j {
      PassFacts(b0, rate, amount, profile, j - 1);
    }
  }

  /** The recorded balances are not negative, do not increase from one
      record to a later one, and never exceed the loan's balance. */
  lemma BalancesNonIncreasing(b0: real, rate: real, amount: real, profile: seq<Payment>, i: nat, j: nat)
    requires IsPartialSchedule(b0, rate, amount, profile)
    requires i <= j < |profile|
    ensures 0.0 <= profile[j].balance <= profile[i].balance <= b0
  {
    OpeningsNonIncreasing(b0, rate, amount, profile, i + 1, j + 1);
    OpeningsNonIncreasing(b0, rate, amount, profile, 0, i + 1);
    PassFacts(b0, rate, amount, profile, i);
    PassFacts(b0, rate, amount, profile, j);
  }

  /** A finished schedule of a positive balance ends on a record whose
      principal is the whole remaining balance and whose balance is exactly
      zero; every earlier record leaves a positive balance. */
  lemma ScheduleEndsAtZero(b0: real, rate: real, amount: real, profile: seq<Payment>)
    requires IsSchedule(b0, rate, amount, profile)
    requires b0 > 0.0
    ensures |profile| > 0
    ensures profile[|profile| - 1].balance == 0.0
    ensures profile[|profile| - 1].principalPayment == Opening(b0, profile, |profile| - 1)
    ensures forall k :: 0 <= k < |profile| - 1 ==> profile[k].balance > 0.0
  {
    PassFacts(b0, rate, amount, profile, |profile| - 1);
    forall k | 0 <= k < |profile| - 1
      ensures profile[k].balance > 0.0
    {
      assert PassAt(b0, rate, amount, profile, k + 1);
    }
  }

  /** With a rate that is not negative, a principal is never smaller than
      the one before it, except on the last record, whose principal is capped
      by the remaining balance. */
  lemma PrincipalNonDecreasing(b0: real, rate: real, amount: real, profile: seq<Payment>, j: nat)
    requires rate >= 0.0
    requires IsPartialSchedule(b0, rate, amount, profile)
    requires 0 < j < |profile| && profile[j].balance > 0.0
    ensures profile[j - 1].principalPayment <= profile[j].principalPayment
  {
    var prev, cur := Opening(b0, profile, j - 1), Opening(b0, profile, j);
    PassFacts(b0, rate, amount, profile, j - 1);
    PassFacts(b0, rate, amount, profile, j);
    assert cur <= prev;
    MulMonotone(cur, prev, rate);
    assert profile[j - 1].principalPayment <= amount - prev * rate <= amount - cur * rate;
  }

  /** With a rate that is not negative and a positive first principal,
      every principal is positive, so every pass strictly reduces the
      balance. */
  lemma PrincipalPositive(b0: real, rate: real, amount: real, profile: seq<Payment>, k: nat)
    requires rate >= 0.0 && FirstPrincipal(b0, rate, amount) > 0.0
    requires IsPartialSchedule(b0, rate, amount, profile)
    requires k < |profile|
    ensures profile[k].principalPayment > 0.0
    ensures profile[k].balance < Opening(b0, profile, k)
  {
    assert PassAt(b0, rate, amount, profile, k);
    PassFacts(b0, rate, amount, profile, k);
    OpeningsNonIncreasing(b0, rate, amount, profile, 0, k);
    MulMonotone(Opening(b0, profile, k), b0, rate);
  }

  /** With a rate that is not negative and a positive first principal, every
      pass but the last reduces the balance by at least the first principal. */
  lemma {:induction false} OpeningBound(b0: real, rate: real, amount: real, profile: seq<Payment>, k: nat)
    requires rate >= 0.0 && FirstPrincipal(b0, rate, amount) > 0.0
    requires IsPartialSchedule(b0, rate, amount, profile)
    requires k <= |profile|
    ensures Opening(b0, profile, k) > 0.0 ==>
      Opening(b0, profile, k) + (k as real) * FirstPrincipal(b0, rate, amount) <= b0
  {
    if k > 0 && Opening(b0, profile, k) > 0.0 {
      var p0 := FirstPrincipal(b0, rate, amount);
      var prev := Opening(b0, profile, k - 1);
      assert PassAt(b0, rate, amount, profile, k - 1);
      OpeningBound(b0, rate, amount, profile, k - 1);
      OpeningsNonIncreasing(b0, rate, amount, profile, 0, k - 1);
      PassFacts(b0, rate, amount, profile, k - 1);
      MulMonotone(prev, b0, rate);
      assert profile[k - 1].principalPayment >= p0;
      assert (k as real) * p0 == ((k - 1) as real) * p0 + p0;
    }
  }

  /** The termination argument: a finished schedule has at most one record
      more than the number of first principals that fit in the balance. */
  lemma ScheduleLength(b0: real, rate: real, amount: real, profile: seq<Payment>)
    requires rate >= 0.0 && FirstPrincipal(b0, rate, amount) > 0.0
    requires IsPartialSchedule(b0, rate, amount, profile)
    requires |profile| > 0
    ensures ((|profile| - 1) as real) * FirstPrincipal(b0, rate, amount) < b0
  {
    assert PassAt(b0, rate, amount, profile, |profile| - 1);
    OpeningBound(b0, rate, amount, profile, |profile| - 1);
  }

  /** A finished schedule means the first pass did not throw: either there
      was no positive balance, or the payment covered the first interest. */
  lemma FinishedFirstPassSucceeded(b0: real, rate: real, amount: real, profile: seq<Payment>)
    requires IsSchedule(b0, rate, amount, profile)
    ensures !(b0 > 0.0 && amount < b0 * rate)
  {
    if profile != [] {
      PassFacts(b0, rate, amount, profile, 0);
    }
  }

  /** A bound on the number of passes: one more than the number of first
      principals that fit in the balance. */
  function PassLimit(b0: real, rate: real, amount: real): (r: int)
    ensures r >= 1
  {
    var p0 := FirstPrincipal(b0, rate, amount);
    if b0 > 0.0 && p0 > 0.0 then (b0 / p0).Floor + 1 else 1
  }

  /** `i` whole numbers each below `b / p` are at most its floor. */
  lemma BelowFloor(i: nat, b: real, p: real)
    requires p > 0.0 && (i as real) * p < b
    ensures i <= (b / p).Floor
  {
    assert (i as real) * p / p == i as real;
    assert (i as real) < b / p;
  }

  /** The termination argument of the loop: with a rate that is not
      negative and a payment that is not exactly the first interest, a pass
      that starts after `|profile|` earlier passes is still within
      PassLimit. */
  lemma WithinPassLimit(b0: real, rate: real, amount: real, profile: seq<Payment>)
    requires rate >= 0.0 && (b0 <= 0.0 || amount != b0 * rate)
    requires IsPartialSchedule(b0, rate, amount, profile)
    requires Opening(b0, profile, |profile|) > 0.0
    ensures |profile| + 1 <= PassLimit(b0, rate, amount)
  {
    if profile != [] {
      PassFacts(b0, rate, amount, profile, 0);
      OpeningBound(b0, rate, amount, profile, |profile|);
      BelowFloor(|profile|, b0, FirstPrincipal(b0, rate, amount));
    }
  }

  /** With a rate that is not negative, the loop can only throw in its
      first pass: once a principal was not negative, none is. */
  lemma OnlyFirstPassFails(b0: real, rate: real, amount: real, profile: seq<Payment>)
    requires rate >= 0.0
    requires FailsAfter(b0, rate, amount, profile)
    ensures profile == []
    ensures b0 > 0.0 && amount < b0 * rate
  {
    if profile != [] {
      var last := Opening(b0, profile, |profile|);
      OpeningsNonIncreasing(b0, rate, amount, profile, 0, |profile|);
      MulMonotone(last, b0, rate);
      PassFacts(b0, rate, amount, profile, 0);
      assert false;
    }
  }

  /** A principal of exactly zero is not rejected, and it leaves the
      balance as it was: when the payment equals the first interest, every
      pass repeats the first and no number of passes finishes the loop. */
  lemma StuckWhenPaymentEqualsInterest(b0: real, rate: real, amount: real, profile: seq<Payment>)
    requires b0 > 0.0 && amount == b0 * rate
    requires IsPartialSchedule(b0, rate, amount, profile)
    ensures forall k :: 0 <= k < |profile| ==> profile[k].principalPayment == 0.0 && profile[k].balance == b0
    ensures !IsSchedule(b0, rate, amount, profile)
  {
    forall k | 0 <= k < |profile|
      ensures profile[k].principalPayment == 0.0 && profile[k].balance == b0
    {
      StuckOpenings(b0, rate, amount, profile, k);
      assert PassAt(b0, rate, amount, profile, k);
    }
    StuckOpenings(b0, rate, amount, profile, |profile|);
  }

  lemma {:induction false} StuckOpenings(b0: real, rate: real, amount: real, profile: seq<Payment>, k: nat)
    requires b0 > 0.0 && amount == b0 * rate
    requires IsPartialSchedule(b0, rate, amount, profile)
    requires k <= |profile|
    ensures Opening(b0, profile, k) == b0
  {
    if k > 0 {
      StuckOpenings(b0, rate, amount, profile, k - 1);
      assert PassAt(b0, rate, amount, profile, k - 1);
    }
  }

  /** A loan without interest, 1200 repaid at 100 a period, takes exactly
      twelve payments of 100 principal and no interest. */
  lemma ZeroRateLoan(profile: seq<Payment>)
    requires IsSchedule(1200.0, 0.0, 100.0, profile)
    ensures |profile| == 12
    ensures forall k :: 0 <= k < 12 ==> profile[k].interest == 0.0 && profile[k].principalPayment == 100.0
  {
    ZeroRateOpenings(profile, |profile|);
    if |profile| > 0 {
      ZeroRateOpenings(profile, |profile| - 1);
      assert PassAt(1200.0, 0.0, 100.0, profile, |profile| - 1);
    }
    forall k | 0 <= k < 12
      ensures profile[k].interest == 0.0 && profile[k].principalPayment == 100.0
    {
      ZeroRateOpenings(profile, k);
      assert PassAt(1200.0, 0.0, 100.0, profile, k);
    }
  }

  lemma {:induction false} ZeroRateOpenings(profile: seq<Payment>, k: nat)
    requires IsPartialSchedule(1200.0, 0.0, 100.0, profile)
    requires k <= |profile|
    ensures Opening(1200.0, profile, k) == 1200.0 - 100.0 * (k as real)
  {
    if k > 0 {
      ZeroRateOpenings(profile, k - 1);
      assert PassAt(1200.0, 0.0, 100.0, profile, k - 1);
    }
  }

  /** Two finished schedules of the same loan with the same payment dates
      are the same schedule: generation is deterministic. */
  lemma ScheduleUnique(b0: real, rate: real, amount: real, first: Date, freq: PaymentFrequency, p: seq<Payment>, q: seq<Payment>)
    requires IsSchedule(b0, rate, amount, p) && HasPaymentDates(first, freq, p)
    requires IsSchedule(b0, rate, amount, q) && HasPaymentDates(first, freq, q)
    ensures p == q
  {
    var n := if |p| <= |q| then |p| else |q|;
    PrefixesAgree(b0, rate, amount, first, freq, p, q, n);
    OpeningsAgree(b0, p, q, n);
    OpeningPositiveBefore(b0, rate, amount, p, n);
    OpeningPositiveBefore(b0, rate, amount, q, n);
    assert |p| == |q|;
    assert p[..n] == p && q[..n] == q;
  }

  /** Every pass the loop made started from a positive balance. */
  lemma OpeningPositiveBefore(b0: real, rate: real, amount: real, profile: seq<Payment>, k: nat)
    requires IsPartialSchedule(b0, rate, amount, profile)
    requires k <= |profile|
    ensures k < |profile| ==> Opening(b0, profile, k) > 0.0
  {
    if k < |profile| {
      assert PassAt(b0, rate, amount, profile, k);
    }
  }

  lemma OpeningsAgree(b0: real, p: seq<Payment>, q: seq<Payment>, n: nat)
    requires n <= |p| && n <= |q| && p[..n] == q[..n]
    ensures Opening(b0, p, n) == Opening(b0, q, n)
  {
    if n > 0 {
      assert p[n - 1] == p[..n][n - 1];
      assert q[n - 1] == q[..n][n - 1];
    }
  }

  lemma {:induction false} PrefixesAgree(b0: real, rate: real, amount: real, first: Date, freq: PaymentFrequency, p: seq<Payment>, q: seq<Payment>, n: nat)
    requires IsPartialSchedule(b0, rate, amount, p) && HasPaymentDates(first, freq, p)
    requires IsPartialSchedule(b0, rate, amount, q) && HasPaymentDates(first, freq, q)
    requires n <= |p| && n <= |q|
    ensures p[..n] == q[..n]
  {
    if n > 0 {
      PrefixesAgree(b0, rate, amount, first, freq, p, q, n - 1);
      OpeningsAgree(b0, p, q, n - 1);
      assert PassAt(b0, rate, amount, p, n - 1);
      assert PassAt(b0, rate, amount, q, n - 1);
      assert DatedAt(first, freq, p, n - 1);
      assert DatedAt(first, freq, q, n - 1);
      assert p[n - 1] == q[n - 1];
      assert p[..n] == p[..n - 1] + [p[n - 1]];
      assert q[..n] == q[..n - 1] + [q[n - 1]];
    }
  }

  /** The months the stored date has moved after pass `i`:
      `months * 0 + months * 1 + ... + months * i`. */
  function DriftOffset(months: nat, i: nat): nat
  {
    if i == 0 then 0 else DriftOffset(months, i - 1) + i * months
  }

  /** The value the stored date object holds after pass `i` of a
      month-stepping schedule: pass `i` moves it `i * months` months on from
      where pass `i - 1` left it, so the offsets accumulate to
      `months * (1 + 2 + ... + i)`. The day is clamped again at every pass,
      so it never grows; a first day that every month has is kept. */
  function DriftedDate(first: Date, months: nat, i: nat): (r: Date)
    requires ValidDate(first)
    ensures ValidDate(r)
    ensures MonthIndex(r) == MonthIndex(first) + DriftOffset(months, i)
    ensures r.day <= first.day
    ensures first.day <= 28 ==> r.day == first.day
  {
    if i == 0 then AddMonthsTo(first, 0)
    else AddMonthsTo(DriftedDate(first, months, i - 1), i * months)
  }

  /** The date recorded for pass `i`. */
  function PaymentDate(first: Date, freq: PaymentFrequency, i: nat): (r: Date)
    requires ValidDate(first)
    ensures ValidDate(r)
    ensures freq == Weekly ==> DayNumber(r) == DayNumber(first) + 7 * i
    ensures freq != Weekly ==> MonthIndex(r) == MonthIndex(first) + DriftOffset(freq.Code(), i)
  {
    if freq == Weekly then AddDaysTo(first, i * 7)
    else DriftedDate(first, freq.Code(), i)
  }

  /** The date object's value after `n` passes: weekly schedules copy it
      and leave it alone; the others move it in every pass. */
  function StoredDate(first: Date, freq: PaymentFrequency, n: nat): Date
    requires ValidDate(first)
  {
    if freq == Weekly || n == 0 then first
    else DriftedDate(first, freq.Code(), n - 1)
  }

  /** Record `k` carries the date of pass `k`. */
  predicate DatedAt(first: Date, freq: PaymentFrequency, profile: seq<Payment>, k: nat)
    requires ValidDate(first) && k < |profile|
  {
    profile[k].paymentDate == PaymentDate(first, freq, k)
  }

  predicate HasPaymentDates(first: Date, freq: PaymentFrequency, profile: seq<Payment>)
  {
    ValidDate(first) && forall k :: 0 <= k < |profile| ==> DatedAt(first, freq, profile, k)
  }

  /** One more pass of the loop: a pass from the positive balance `prev`
      the records left, whose principal is not negative, dated for that
      pass, extends a partial schedule with its payment dates. */
  lemma ExtendSchedule(b0: real, rate: real, amount: real, first: Date, freq: PaymentFrequency,
                       profile: seq<Payment>, prev: real, p: Payment)
    requires IsPartialSchedule(b0, rate, amount, profile) && HasPaymentDates(first, freq, profile)
    requires prev == Opening(b0, profile, |profile|) && prev > 0.0
    requires p.principalPayment >= 0.0 && FollowsFrom(prev, rate, amount, p)
    requires p.paymentDate == PaymentDate(first, freq, |profile|)
    ensures IsPartialSchedule(b0, rate, amount, profile + [p])
    ensures HasPaymentDates(first, freq, profile + [p])
    ensures Opening(b0, profile + [p], |profile| + 1) == p.balance
  {
    var q := profile + [p];
    forall k | 0 <= k < |q|
      ensures PassAt(b0, rate, amount, q, k) && DatedAt(first, freq, q, k)
    {
      if k < |profile| {
        assert PassAt(b0, rate, amount, profile, k);
        assert DatedAt(first, freq, profile, k);
        assert q[k] == profile[k];
        assert Opening(b0, q, k) == Opening(b0, profile, k);
      }
    }
  }

  /** What the date object holds after the records `profile`, read off the
      records: weekly schedules leave it alone, the others leave it on the
      last recorded date. */
  function LastStored(first: Date, freq: PaymentFrequency, profile: seq<Payment>): Date
  {
    if freq == Weekly || profile == [] then first else profile[|profile| - 1].paymentDate
  }

  /** Read off correctly dated records, the stored date is StoredDate. */
  lemma LastStoredIsStoredDate(first: Date, freq: PaymentFrequency, profile: seq<Payment>)
    requires HasPaymentDates(first, freq, profile)
    ensures LastStored(first, freq, profile) == StoredDate(first, freq, |profile|)
  {
    if freq != Weekly && profile != [] {
      assert DatedAt(first, freq, profile, |profile| - 1);
    }
  }

  /** Pass `i` of a month-stepping schedule moves the stored date on by
      `i * months` to the date it records. */
  lemma StoredDateStep(first: Date, freq: PaymentFrequency, i: nat)
    requires ValidDate(first) && freq != Weekly
    ensures ValidDate(StoredDate(first, freq, i))
    ensures AddMonthsTo(StoredDate(first, freq, i), i * freq.Code()) == PaymentDate(first, freq, i)
  {
    var months := freq.Code();
    if i == 0 {
      assert StoredDate(first, freq, 0) == first;
      assert PaymentDate(first, freq, 0) == DriftedDate(first, months, 0);
    } else {
      var prev := DriftedDate(first, months, i - 1);
      assert StoredDate(first, freq, i) == prev;
      assert PaymentDate(first, freq, i) == DriftedDate(first, months, i);
    }
  }

  /** The accumulated offset in closed form: `months * i * (i + 1) / 2`,
      so pass `i` sits `months * i * (i + 1) / 2` months after the first
      date rather than `months * i`. */
  lemma {:induction false} DriftOffsetClosedForm(months: nat, i: nat)
    ensures 2 * DriftOffset(months, i) == months * (i * (i + 1))
  {
    if i > 0 {
      DriftOffsetClosedForm(months, i - 1);
      assert i * (i + 1) == (i - 1) * i + 2 * i;
      Distribute(months, (i - 1) * i, 2 * i);
      assert months * (2 * i) == 2 * (i * months);
    }
  }

  /** The stored date is moved in every pass, so only the first two
      payments of a month-stepping schedule land `i * months` months after
      the first date; from the third on, every payment lands later than
      that. */
  lemma PaymentsDriftFromThirdOn(first: Date, freq: PaymentFrequency, i: nat)
    requires ValidDate(first) && freq != Weekly
    ensures MonthIndex(PaymentDate(first, freq, i)) >= MonthIndex(first) + i * freq.Code()
    ensures MonthIndex(PaymentDate(first, freq, i)) == MonthIndex(first) + i * freq.Code() <==> i <= 1
  {
    var m := freq.Code();
    DriftOffsetClosedForm(m, i);
    assert i * (i + 1) == i * (i - 1) + 2 * i;
    Distribute(m, i * (i - 1), 2 * i);
    assert m * (2 * i) == 2 * (i * m);
    if i >= 2 {
      assert i * (i - 1) >= 2;
      assert m * (i * (i - 1)) > 0;
    } else {
      assert i * (i - 1) == 0;
    }
  }

  lemma Distribute(m: int, a: int, b: int)
    ensures m * (a + b) == m * a + m * b
  {
  }

  /** One month on from 31 January 2024 is 29 February: the day is clamped. */
  lemma ClampedIntoFebruary(d: Date)
    requires d == Date(2024, 0, 31)
    ensures AddMonthsTo(d, 1) == Date(2024, 1, 29)
  {
  }

  /** Monthly from 31 January 2024: the second payment falls on 29 February,
      and the clamped day is what the later passes start from. */
  lemma MonthlyFromJanuary31(first: Date)
    requires first == Date(2024, 0, 31)
    ensures DriftedDate(first, Monthly.Code(), 1) == Date(2024, 1, 29)
  {
    var d0 := DriftedDate(first, 1, 0);
    assert d0 == first;
    ClampedIntoFebruary(d0);
  }

  /** Weekly from 1 January 2024: the fifth payment falls on 29 January. */
  lemma WeeklyFromJanuary1()
    ensures PaymentDate(Date(2024, 0, 1), Weekly, 4) == Date(2024, 0, 29)
  {
    var d := PaymentDate(Date(2024, 0, 1), Weekly, 4);
    assert DayNumber(d) == DayNumber(Date(2024, 0, 29));
    DayNumberInjective(d, Date(2024, 0, 29));
  }
}
