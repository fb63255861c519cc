// Stage-1 supply thresholds over the two founder-defined buckets.

module BalancePolicy {
  import opened Options

  const ALPHA_STAGE_1_CAP := 50

  datatype Bucket = BucketA | BucketB | NotCounted
  datatype Gate = Open | BoostMinority | SoftWaitlist | HardGate
  datatype BalanceGate = BalanceGate(gate: Gate, majorityShare: Option<real>, minorityBucket: Option<Bucket>)

  function EvaluateBalanceGate(bucketA: nat, bucketB: nat): BalanceGate {
    var total := bucketA + bucketB;
    if total == 0 then BalanceGate(Open, None, None)
    else
      var majority := if bucketA > bucketB then bucketA else bucketB;
      var share := majority as real / total as real;
      var minority := if bucketA == bucketB then None else if bucketA < bucketB then Some(BucketA) else Some(BucketB);
      if share >= 0.7 then BalanceGate(HardGate, Some(share), minority)
      else if share >= 0.65 then BalanceGate(SoftWaitlist, Some(share), minority)
      else if share > 0.6 then BalanceGate(BoostMinority, Some(share), minority)
      else BalanceGate(Open, Some(share), minority)
  }

  predicate WouldAddToMajority(bucket: Bucket, gate: BalanceGate) {
    if bucket == NotCounted || gate.minorityBucket.None? then false
    else bucket != gate.minorityBucket.value
  }

  /** The gate evaluated after the new seat, as invite creation does. */
  function ProjectedGate(bucket: Bucket, bucketA: nat, bucketB: nat): BalanceGate {
    EvaluateBalanceGate(bucketA + (if bucket == BucketA then 1 else 0), bucketB + (if bucket == BucketB then 1 else 0))
  }

  /** The gate that refuses a new seat of this bucket, if any. */
  function Refusal(bucket: Bucket, bucketA: nat, bucketB: nat): Option<Gate> {
    var gate := ProjectedGate(bucket, bucketA, bucketB);
    if WouldAddToMajority(bucket, gate) && gate.gate in {HardGate, SoftWaitlist} then Some(gate.gate) else None
  }

  /** Comparing the share with a decimal threshold is an integer comparison. */
  lemma ShareThreshold(majority: nat, total: nat, percent: nat)
    requires 0 < total
    ensures majority as real / total as real >= percent as real / 100.0 <==> 100 * majority >= percent * total
    ensures majority as real / total as real <= percent as real / 100.0 <==> 100 * majority <= percent * total
  {
    var share := majority as real / total as real;
    assert share * total as real == majority as real;
    var bound := percent as real / 100.0;
    assert bound * total as real * 100.0 == (percent * total) as real;
    assert share >= bound <==> share * total as real >= bound * total as real;
    assert share <= bound <==> share * total as real <= bound * total as real;
    assert (100 * majority) as real == 100.0 * majority as real;
  }

  /** The bands of the gate, in whole seats, and the bucket to be favoured. */
  lemma GateBands(bucketA: nat, bucketB: nat)
    requires 0 < bucketA + bucketB
    ensures var total, majority := bucketA + bucketB, if bucketA > bucketB then bucketA else bucketB;
            var g := EvaluateBalanceGate(bucketA, bucketB);
            && (g.gate == HardGate <==> 100 * majority >= 70 * total)
            && (g.gate == SoftWaitlist <==> 65 * total <= 100 * majority < 70 * total)
            && (g.gate == BoostMinority <==> 60 * total < 100 * majority < 65 * total)
            && (g.gate == Open <==> 100 * majority <= 60 * total)
            && (g.minorityBucket == Some(BucketA) <==> bucketA < bucketB)
            && (g.minorityBucket == Some(BucketB) <==> bucketB < bucketA)
  {
    var majority := if bucketA > bucketB then bucketA else bucketB;
    ShareThreshold(majority, bucketA + bucketB, 60);
    ShareThreshold(majority, bucketA + bucketB, 65);
    ShareThreshold(majority, bucketA + bucketB, 70);
    assert 60 as real / 100.0 == 0.6 && 65 as real / 100.0 == 0.65 && 70 as real / 100.0 == 0.7;
  }

  /** A counted seat is admitted exactly when its own bucket stays below 65% of the counted seats. */
  lemma AdmittedIffBelow65(bucket: Bucket, bucketA: nat, bucketB: nat)
    requires bucket != NotCounted
    ensures Refusal(bucket, bucketA, bucketB).None? <==>
            100 * ((if bucket == BucketA then bucketA else bucketB) + 1) < 65 * (bucketA + bucketB + 1)
  {
    GateBands(bucketA + (if bucket == BucketA then 1 else 0), bucketB + (if bucket == BucketB then 1 else 0));
  }

  /** Which refusal, in whole seats: from 70% of the counted seats on, and from 65% up to it. */
  lemma RefusedInSeats(bucket: Bucket, bucketA: nat, bucketB: nat)
    ensures var own := (if bucket == BucketA then bucketA else bucketB) + 1;
            var total := bucketA + bucketB + 1;
            && (Refusal(bucket, bucketA, bucketB) == Some(HardGate) <==>
                  bucket != NotCounted && 100 * own >= 70 * total)
            && (Refusal(bucket, bucketA, bucketB) == Some(SoftWaitlist) <==>
                  bucket != NotCounted && 65 * total <= 100 * own < 70 * total)
  {
    if bucket != NotCounted {
      GateBands(bucketA + (if bucket == BucketA then 1 else 0), bucketB + (if bucket == BucketB then 1 else 0));
    }
  }

  /** The first counted seat is refused with HARD_GATE, whichever bucket it is in. */
  lemma FirstCountedSeatRefused(bucket: Bucket)
    requires bucket != NotCounted
    ensures Refusal(bucket, 0, 0) == Some(HardGate)
  {
  }

  // ---- Consent to be counted ----

  const BALANCE_CONSENT_VERSION := "stage1-role-preference-v1"

  datatype Consent = Consent(version: string, consentedOn: string)
  datatype ConsentError = NotCountedWithConsent | ConsentRequired | ConsentVersionInvalid | ConsentDateInvalid

  predicate Digit(c: char) { '0' <= c <= '9' }
  function Value(c: char): nat
    requires Digit(c)
  {
    c as int - '0' as int
  }

  function DaysInMonth(year: nat, month: nat): nat {
    if month == 2 then (if year % 4 == 0 && (year % 100 != 0 || year % 400 == 0) then 29 else 28)
    else if month == 4 || month == 6 || month == 9 || month == 11 then 30
    else 31
  }

  function DaysInQuarter(year: nat, first: nat): nat {
    DaysInMonth(year, first) + DaysInMonth(year, first + 1) + DaysInMonth(year, first + 2)
  }
  function YearLength(year: nat): nat {
    DaysInQuarter(year, 1) + DaysInQuarter(year, 4) + DaysInQuarter(year, 7) + DaysInQuarter(year, 10)
  }

  /** The lengths of the months alternate, with a break after July. */
  lemma MonthLengths(year: nat, month: nat)
    requires 1 <= month <= 12 && month != 2
    ensures DaysInMonth(year, month) == 30 + (month + month / 8) % 2
  {
  }

  lemma CenturiesNest(year: nat)
    ensures year % 100 == 0 ==> year % 4 == 0
    ensures year % 400 == 0 ==> year % 100 == 0
  {
    if year % 100 == 0 { assert year == 4 * (25 * (year / 100)); }
    if year % 400 == 0 { assert year == 100 * (4 * (year / 400)); }
  }

  predicate Divides(d: nat, n: nat)
    requires 0 < d
  {
    n % d == 0
  }
  function One(b: bool): nat { if b then 1 else 0 }

  /** Every fourth year is longer by a day, but of the years that end a century only every fourth. */
  lemma LeapRule(year: nat)
    ensures YearLength(year) == 365 + One(Divides(4, year)) - One(Divides(100, year)) + One(Divides(400, year))
  {
    CenturiesNest(year);
  }

  predicate DateShape(s: string) {
    && |s| == 10 && s[4] == '-' && s[7] == '-'
    && forall i :: 0 <= i < 10 && i != 4 && i != 7 ==> Digit(s[i])
  }
  /** Four, two and two digits naming a day of the calendar. */
  predicate CalendarDate(s: string) {
    && DateShape(s)
    && var year := 1000 * Value(s[0]) + 100 * Value(s[1]) + 10 * Value(s[2]) + Value(s[3]);
       var month := 10 * Value(s[5]) + Value(s[6]);
       var day := 10 * Value(s[8]) + Value(s[9]);
       1 <= month <= 12 && 1 <= day <= DaysInMonth(year, month)
  }

  function DigitOf(n: nat): char
    requires n < 10
  {
    '0' + n as char
  }
  function TwoDigits(n: nat): string
    requires n < 100
  {
    [DigitOf(n / 10), DigitOf(n % 10)]
  }
  /** The date as it is written. */
  function Written(year: nat, month: nat, day: nat): string
    requires year < 10_000 && month < 100 && day < 100
  {
    TwoDigits(year / 100) + TwoDigits(year % 100) + ['-'] + TwoDigits(month) + ['-'] + TwoDigits(day)
  }

  lemma TwoDigitsRead(a: char, b: char) returns (n: nat)
    requires Digit(a) && Digit(b)
    ensures n == 10 * Value(a) + Value(b) && n < 100 && TwoDigits(n) == [a, b]
  {
    n := 10 * Value(a) + Value(b);
    assert n / 10 == Value(a) && n % 10 == Value(b);
  }

  lemma TwoDigitsValue(n: nat)
    requires n < 100
    ensures var t := TwoDigits(n); Digit(t[0]) && Digit(t[1]) && 10 * Value(t[0]) + Value(t[1]) == n
  {
  }

  /** Round trip: the texts accepted are exactly the days of the calendar as they are written. */
  lemma CalendarDateExactly(s: string)
    ensures CalendarDate(s) <==>
            exists year: nat, month: nat, day: nat :: year < 10_000 && 1 <= month <= 12 &&
              1 <= day <= DaysInMonth(year, month) && s == Written(year, month, day)
  {
    if CalendarDate(s) {
      var century := TwoDigitsRead(s[0], s[1]);
      var rest := TwoDigitsRead(s[2], s[3]);
      var month := TwoDigitsRead(s[5], s[6]);
      var day := TwoDigitsRead(s[8], s[9]);
      var year := 100 * century + rest;
      assert year / 100 == century && year % 100 == rest;
      assert s == Written(year, month, day);
    }
    forall year: nat, month: nat, day: nat | year < 10_000 && 1 <= month <= 12 &&
      1 <= day <= DaysInMonth(year, month) && s == Written(year, month, day)
      ensures CalendarDate(s)
    {
      TwoDigitsValue(year / 100);
      TwoDigitsValue(year % 100);
      TwoDigitsValue(month);
      TwoDigitsValue(day);
    }
  }

  function ValidateConsent(bucket: Bucket, consent: Option<Consent>): (e: Option<ConsentError>)
    ensures e.None? <==> ConsentOk(bucket, consent)
  {
    if bucket == NotCounted then (if consent.Some? then Some(NotCountedWithConsent) else None)
    else if consent.None? then Some(ConsentRequired)
    else if consent.value.version != BALANCE_CONSENT_VERSION then Some(ConsentVersionInvalid)
    else if !CalendarDate(consent.value.consentedOn) then Some(ConsentDateInvalid)
    else None
  }

  /** Counted exactly with a current, dated consent. */
  predicate ConsentOk(bucket: Bucket, consent: Option<Consent>) {
    (bucket != NotCounted <==> consent.Some?) &&
    (consent.Some? ==> consent.value.version == BALANCE_CONSENT_VERSION && CalendarDate(consent.value.consentedOn))
  }
}
