/** The loan object: its inputs, the generator loop that builds the payment
    profile while moving the stored next-payment date, and the construction
    that runs that loop and fails when the loan can never be repaid. */
module Loan {
  import opened Calendar
  import opened Amortization

  /** The one error the generator raises. */
  datatype LoanError = LoanWillNeverBeRepaid

  datatype Result<T> = Ok(value: T) | Err(error: LoanError)

  class LoanInformation {
    var balance: real
    /** The effective rate per payment period. */
    var periodRate: real
    var paymentFrequency: PaymentFrequency
    var paymentAmount: real
    /** The date object handed in by the caller: month-stepping schedules
        move it on in every pass of the generator. */
    var nextPaymentDate: DateObject
    var paymentProfile: seq<Payment>

    /** Stores the loan's inputs; the profile is filled in by Create. */
    constructor (balance: real, periodRate: real, paymentFrequency: PaymentFrequency,
                 paymentAmount: real, nextPaymentDate: DateObject)
      ensures this.balance == balance && this.periodRate == periodRate
      ensures this.paymentFrequency == paymentFrequency && this.paymentAmount == paymentAmount
      ensures this.nextPaymentDate == nextPaymentDate && this.paymentProfile == []
    {
      this.balance := balance;
      this.periodRate := periodRate;
      this.paymentFrequency := paymentFrequency;
      this.paymentAmount := paymentAmount;
      this.nextPaymentDate := nextPaymentDate;
      this.paymentProfile := [];
    }

    /** The generator loop: passes run while the balance is positive, each
        appending one record, until the balance is used up or a pass finds
        that the payment does not cover the interest. */
    method GetPaymentProfile() returns (r: Result<seq<Payment>>)
      requires nextPaymentDate.Valid()
      requires periodRate >= 0.0
      requires balance <= 0.0 || paymentAmount != balance * periodRate
      modifies nextPaymentDate
      ensures nextPaymentDate.Valid()
      ensures r.Err? <==> balance > 0.0 && paymentAmount < balance * periodRate
      ensures r.Err? ==> FailsAfter(balance, periodRate, paymentAmount, [])
      ensures r.Ok? ==> IsSchedule(balance, periodRate, paymentAmount, r.value)
      ensures r.Ok? ==> HasPaymentDates(old(nextPaymentDate.Value()), paymentFrequency, r.value)
      ensures nextPaymentDate.Value() ==
        LastStored(old(nextPaymentDate.Value()), paymentFrequency, if r.Ok? then r.value else [])
    {
      var bal := balance;
      var profile: seq<Payment> := [];
      var i: nat := 0;
      ghost var first := nextPaymentDate.Value();
      while bal > 0.0
        invariant i == |profile| && i <= PassLimit(balance, periodRate, paymentAmount)
        invariant bal == Opening(balance, profile, i)
        invariant IsPartialSchedule(balance, periodRate, paymentAmount, profile)
        invariant HasPaymentDates(first, paymentFrequency, profile)
        invariant nextPaymentDate.Valid()
        invariant nextPaymentDate.Value() == LastStored(first, paymentFrequency, profile)
        decreases PassLimit(balance, periodRate, paymentAmount) - i
      {
        var pass := NextPass(first, profile, bal, i);
        if pass.Err? {
          OnlyFirstPassFails(balance, periodRate, paymentAmount, profile);
          return Err(pass.error);
        }
        bal := pass.value.balance;
        profile := profile + [pass.value];
        i := i + 1;
      }
      FinishedFirstPassSucceeded(balance, periodRate, paymentAmount, profile);
      return Ok(profile);
    }

    /** One pass of the generator loop, from the positive balance `bal` left
        by the records `profile`: charge interest, take the payment less
        interest (capped by the balance) as principal, fail when that
        principal is negative, otherwise date the record and reduce the
        balance. */
    method NextPass(ghost first: Date, ghost profile: seq<Payment>, bal: real, i: nat) returns (r: Result<Payment>)
      requires ValidDate(first) && nextPaymentDate.Valid()
      requires periodRate >= 0.0
      requires balance <= 0.0 || paymentAmount != balance * periodRate
      requires i == |profile| && bal == Opening(balance, profile, i) && bal > 0.0
      requires IsPartialSchedule(balance, periodRate, paymentAmount, profile)
      requires HasPaymentDates(first, paymentFrequency, profile)
      requires nextPaymentDate.Value() == LastStored(first, paymentFrequency, profile)
      modifies nextPaymentDate
      ensures nextPaymentDate.Valid()
      ensures r.Err? ==> FailsAfter(balance, periodRate, paymentAmount, profile)
      ensures r.Err? ==> nextPaymentDate.Value() == old(nextPaymentDate.Value())
      ensures r.Ok? ==> IsPartialSchedule(balance, periodRate, paymentAmount, profile + [r.value])
      ensures r.Ok? ==> HasPaymentDates(first, paymentFrequency, profile + [r.value])
      ensures r.Ok? ==> Opening(balance, profile + [r.value], i + 1) == r.value.balance
      ensures r.Ok? ==> nextPaymentDate.Value() == LastStored(first, paymentFrequency, profile + [r.value])
      ensures r.Ok? ==> i + 1 <= PassLimit(balance, periodRate, paymentAmount)
    {
      var interest := bal * periodRate;
      var principal := MinReal(paymentAmount - interest, bal);
      if principal < 0.0 {
        return Err(LoanWillNeverBeRepaid);
      }
      WithinPassLimit(balance, periodRate, paymentAmount, profile);
      LastStoredIsStoredDate(first, paymentFrequency, profile);
      var date := RecordDate(first, i);
      var rest := bal - principal;
      var payment := Payment(rest, interest, principal, date);
      ExtendSchedule(balance, periodRate, paymentAmount, first, paymentFrequency, profile, bal, payment);
      return Ok(payment);
    }

    /** The date of pass `i`: a weekly schedule copies the stored date and
        moves the copy `7 * i` days on; the others move the stored date
        itself on by `i * months` and record it. */
    method RecordDate(ghost first: Date, i: nat) returns (date: Date)
      requires ValidDate(first) && nextPaymentDate.Valid()
      requires nextPaymentDate.Value() == StoredDate(first, paymentFrequency, i)
      modifies nextPaymentDate
      ensures nextPaymentDate.Valid()
      ensures date == PaymentDate(first, paymentFrequency, i)
      ensures nextPaymentDate.Value() == if paymentFrequency == Weekly then old(nextPaymentDate.Value()) else date
    {
      if paymentFrequency == Weekly {
        var o := nextPaymentDate.AddDays(i * 7);
        date := o.Value();
      } else {
        StoredDateStep(first, paymentFrequency, i);
        var o := nextPaymentDate.AddMonths(i * paymentFrequency.Code());
        date := o.Value();
      }
    }

    /** The constructor as the program runs it: store the inputs, then
        generate the profile, or fail with the generator's error. */
    static method Create(balance: real, periodRate: real, paymentFrequency: PaymentFrequency,
                         paymentAmount: real, nextPaymentDate: DateObject)
      returns (r: Result<LoanInformation>)
      requires nextPaymentDate.Valid()
      requires periodRate >= 0.0
      requires balance <= 0.0 || paymentAmount != balance * periodRate
      modifies nextPaymentDate
      ensures r.Err? <==> balance > 0.0 && paymentAmount < balance * periodRate
      ensures r.Ok? ==> fresh(r.value)
      ensures r.Ok? ==> r.value.balance == balance && r.value.periodRate == periodRate
      ensures r.Ok? ==> r.value.paymentFrequency == paymentFrequency && r.value.paymentAmount == paymentAmount
      ensures r.Ok? ==> r.value.nextPaymentDate == nextPaymentDate
      ensures r.Ok? ==> IsSchedule(balance, periodRate, paymentAmount, r.value.paymentProfile)
      ensures r.Ok? ==> HasPaymentDates(old(nextPaymentDate.Value()), paymentFrequency, r.value.paymentProfile)
      ensures nextPaymentDate.Valid()
      ensures nextPaymentDate.Value() ==
        LastStored(old(nextPaymentDate.Value()), paymentFrequency, if r.Ok? then r.value.paymentProfile else [])
    {
      var info := new LoanInformation(balance, periodRate, paymentFrequency, paymentAmount, nextPaymentDate);
      var profile := info.GetPaymentProfile();
      match profile
      case Err(e) =>
        r := Err(e);
      case Ok(p) =>
        info.paymentProfile := p;
        r := Ok(info);
    }
  }
}
