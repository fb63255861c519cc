// The supply-balance metric: a day-by-day scan over consumed seats, and its prefix-sum meaning.

module Supply {
  import opened Options
  import opened BalancePolicy
  import P = Products

  const METRIC_MIN_SAMPLE := 10
  const BALANCE_DAYS_MIN_SAMPLE := 7
  const MAX_SAFE_INTEGER := 9_007_199_254_740_991
  // A Date holds at most this many days on either side of its epoch.
  const MAX_DATE_DAYS := 100_000_000

  /** Seats consumed on one UTC day in one bucket. */
  datatype Row = Row(day: int, bucket: Bucket, count: nat)

  datatype Status = Pass | Fail | InsufficientData
  datatype Comparator = AtLeast | AtMost
  datatype Metric = Metric(
    status: Status, numerator: nat, denominator: nat, value: Option<real>, threshold: real, minimumSample: nat)

  function EvaluateMetric(
      numerator: nat, denominator: nat, value: Option<real>, threshold: real, comparator: Comparator,
        minimumSample: nat): Metric {
    var status :=
      if denominator >= minimumSample && value.Some? then
        if (if comparator == AtLeast then value.value >= threshold else value.value <= threshold) then Pass else Fail
      else InsufficientData;
    Metric(status, numerator, denominator, value, threshold, minimumSample)
  }

  function RatioMetric(numerator: nat, denominator: nat, threshold: real, minimumSample: nat): Metric {
    var value := if denominator > 0 then Some(numerator as real / denominator as real) else None;
    EvaluateMetric(numerator, denominator, value, threshold, AtLeast, minimumSample)
  }

  // ---- Prefix sums ----

  /** Seats of a bucket consumed on the day; every bucket when None. */
  function On(rows: seq<Row>, bucket: Option<Bucket>, day: int): nat {
    if rows == [] then 0
    else
      var last := rows[|rows| - 1];
      On(rows[..|rows| - 1], bucket, day) +
      if last.day == day && (bucket.None? || bucket.value == last.bucket) then last.count else 0
  }
  /** Seats consumed on any day up to and including this one. */
  function UpTo(rows: seq<Row>, bucket: Option<Bucket>, day: int): nat {
    if rows == [] then 0
    else
      var last := rows[|rows| - 1];
      UpTo(rows[..|rows| - 1], bucket, day) +
      if last.day <= day && (bucket.None? || bucket.value == last.bucket) then last.count else 0
  }
  function Counted(rows: seq<Row>, day: int): nat { UpTo(rows, Some(BucketA), day) + UpTo(rows, Some(BucketB), day) }
  function Majority(rows: seq<Row>, day: int): nat {
    var a, b := UpTo(rows, Some(BucketA), day), UpTo(rows, Some(BucketB), day);
    if a > b then a else b
  }

  function FirstDay(rows: seq<Row>): (day: int)
    requires rows != []
    ensures exists r :: r in rows && r.day == day
    ensures forall r :: r in rows ==> day <= r.day
  {
    var last := rows[|rows| - 1];
    assert last in rows;
    if |rows| == 1 then last.day
    else
      var earlier := FirstDay(rows[..|rows| - 1]);
      assert forall r :: r in rows ==> r in rows[..|rows| - 1] || r == last;
      if earlier < last.day then earlier else last.day
  }

  /** The running total is yesterday's running total and today's additions. */
  lemma {:induction false} UpToStep(rows: seq<Row>, bucket: Option<Bucket>, day: int)
    ensures UpTo(rows, bucket, day) == UpTo(rows, bucket, day - 1) + On(rows, bucket, day)
  {
    if rows != [] { UpToStep(rows[..|rows| - 1], bucket, day); }
  }

  lemma {:induction false} NothingBeforeFirst(rows: seq<Row>, bucket: Option<Bucket>, day: int)
    requires forall r :: r in rows ==> day < r.day
    ensures UpTo(rows, bucket, day) == 0
  {
    if rows != [] {
      assert rows[|rows| - 1] in rows;
      NothingBeforeFirst(rows[..|rows| - 1], bucket, day);
    }
  }

  /** Nothing was added on a day without rows. */
  lemma {:induction false} NothingOn(rows: seq<Row>, bucket: Option<Bucket>, day: int)
    requires forall r :: r in rows ==> r.day != day
    ensures On(rows, bucket, day) == 0
  {
    if rows != [] {
      assert rows[|rows| - 1] in rows;
      NothingOn(rows[..|rows| - 1], bucket, day);
    }
  }

  // ---- What the metric means ----

  ghost function ObservedDays(rows: seq<Row>, asOf: int): set<int>
    requires rows != []
  {
    set day | FirstDay(rows) <= day <= asOf && Counted(rows, day) > 0
  }
  /** Observed days on which the larger bucket holds at most 60% of the counted seats. */
  ghost function BalancedDays(rows: seq<Row>, asOf: int): set<int>
    requires rows != []
  {
    set day | day in ObservedDays(rows, asOf) && 100 * Majority(rows, day) <= 60 * Counted(rows, day)
  }
  function Coverage(rows: seq<Row>, asOf: int): Option<real> {
    var total := UpTo(rows, None, asOf);
    if total > 0 then Some(Counted(rows, asOf) as real / total as real) else None
  }

  datatype Maintenance = Maintenance(metric: Metric, currentGate: BalanceGate, countedCoverage: Option<real>)

  ghost function Spec(rows: seq<Row>, asOf: int): Maintenance {
    if rows == [] then Maintenance(RatioMetric(0, 0, 0.8, METRIC_MIN_SAMPLE), EvaluateBalanceGate(0, 0), None)
    else
      // A scan that ends before the first row has added nothing, and so has the prefix sum.
      var coverage := Coverage(rows, asOf);
      var minimumSample := if coverage.Some? && coverage.value >= 0.8 then BALANCE_DAYS_MIN_SAMPLE
        else MAX_SAFE_INTEGER;
      Maintenance(
        RatioMetric(|BalancedDays(rows, asOf)|, |ObservedDays(rows, asOf)|, 0.8, minimumSample),
        EvaluateBalanceGate(UpTo(rows, Some(BucketA), asOf), UpTo(rows, Some(BucketB), asOf)), coverage)
  }

  // ---- The scan ----

  datatype DayCounts = DayCounts(bucketA: nat, bucketB: nat, total: nat)

  ghost predicate HasDay(rows: seq<Row>, day: int) { exists r :: r in rows && r.day == day }

  /** The map holds the sums of every day that has rows. */
  ghost predicate Tallies(byDay: map<int, DayCounts>, rows: seq<Row>) {
    (forall day :: day in byDay <==> HasDay(rows, day)) &&
    forall day :: day in byDay ==>
      byDay[day] == DayCounts(On(rows, Some(BucketA), day), On(rows, Some(BucketB), day), On(rows, None, day))
  }

  lemma TallyStep(byDay: map<int, DayCounts>, rows: seq<Row>, row: Row)
    requires Tallies(byDay, rows)
    ensures var now := if row.day in byDay then byDay[row.day] else DayCounts(0, 0, 0);
            Tallies(byDay[row.day := DayCounts(
              now.bucketA + (if row.bucket == BucketA then row.count else 0),
              now.bucketB + (if row.bucket == BucketB then row.count else 0), now.total + row.count)], rows + [row])
  {
    var all := rows + [row];
    assert all[..|all| - 1] == rows && row in all;
    forall day ensures HasDay(all, day) <==> HasDay(rows, day) || day == row.day {
      assert forall r :: r in all <==> r in rows || r == row;
    }
    if row.day !in byDay {
      NothingOn(rows, Some(BucketA), row.day);
      NothingOn(rows, Some(BucketB), row.day);
      NothingOn(rows, None, row.day);
    }
  }

  method TallyByDay(rows: seq<Row>) returns (byDay: map<int, DayCounts>)
    ensures Tallies(byDay, rows)
  {
    byDay := map[];
    for i := 0 to |rows|
      invariant Tallies(byDay, rows[..i])
    {
      var row := rows[i];
      assert rows[..i + 1] == rows[..i] + [row];
      TallyStep(byDay, rows[..i], row);
      var current := if row.day in byDay then byDay[row.day] else DayCounts(0, 0, 0);
      current := current.(total := current.total + row.count);
      if row.bucket == BucketA { current := current.(bucketA := current.bucketA + row.count); }
      if row.bucket == BucketB { current := current.(bucketB := current.bucketB + row.count); }
      byDay := byDay[row.day := current];
    }
    assert rows[..|rows|] == rows;
  }

  /** Scanning one more day extends the sets of days by that day. */
  lemma DaysStep(rows: seq<Row>, day: int)
    requires rows != [] && FirstDay(rows) <= day
    ensures |ObservedDays(rows, day)| == |ObservedDays(rows, day - 1)| + (if Counted(rows, day) > 0 then 1 else 0)
    ensures |BalancedDays(rows, day)| == |BalancedDays(rows, day - 1)| +
      (if Counted(rows, day) > 0 && 100 * Majority(rows, day) <= 60 * Counted(rows, day) then 1 else 0)
  {
    assert ObservedDays(rows, day) == ObservedDays(rows, day - 1) + (if Counted(rows, day) > 0 then {day} else {});
    assert BalancedDays(rows, day) == BalancedDays(rows, day - 1) +
      (if Counted(rows, day) > 0 && 100 * Majority(rows, day) <= 60 * Counted(rows, day) then {day} else {});
  }

  lemma ScanStep(byDay: map<int, DayCounts>, rows: seq<Row>, day: int)
    requires Tallies(byDay, rows)
    ensures var today := if day in byDay then byDay[day] else DayCounts(0, 0, 0);
            UpTo(rows, Some(BucketA), day) == UpTo(rows, Some(BucketA), day - 1) + today.bucketA &&
            UpTo(rows, Some(BucketB), day) == UpTo(rows, Some(BucketB), day - 1) + today.bucketB &&
            UpTo(rows, None, day) == UpTo(rows, None, day - 1) + today.total
  {
    UpToStep(rows, Some(BucketA), day);
    UpToStep(rows, Some(BucketB), day);
    UpToStep(rows, None, day);
    if day !in byDay {
      NothingOn(rows, Some(BucketA), day);
      NothingOn(rows, Some(BucketB), day);
      NothingOn(rows, None, day);
    }
  }

  lemma ScanStart(rows: seq<Row>, day: int)
    requires rows != [] && day < FirstDay(rows)
    ensures UpTo(rows, Some(BucketA), day) == UpTo(rows, Some(BucketB), day) == UpTo(rows, None, day) == 0
    ensures ObservedDays(rows, day) == {} && BalancedDays(rows, day) == {}
  {
  }

  /** The scan computes the prefix-sum meaning. */
  method SupplyMaintenance(rows: seq<Row>, asOf: int) returns (r: Maintenance)
    ensures r == Spec(rows, asOf)
  {
    var byDay := TallyByDay(rows);
    if rows == [] {
      return Maintenance(RatioMetric(0, 0, 0.8, METRIC_MIN_SAMPLE), EvaluateBalanceGate(0, 0), None);
    }
    var day := FirstDay(rows);
    var bucketA, bucketB, total, observedDays, balancedDays: nat := 0, 0, 0, 0, 0;
    ScanStart(rows, day - 1);
    while day <= asOf
      invariant FirstDay(rows) <= day && (day <= asOf + 1 || day == FirstDay(rows))
      invariant bucketA == UpTo(rows, Some(BucketA), day - 1) && bucketB == UpTo(rows, Some(BucketB), day - 1)
      invariant total == UpTo(rows, None, day - 1)
      invariant observedDays == |ObservedDays(rows, day - 1)| && balancedDays == |BalancedDays(rows, day - 1)|
      decreases asOf - day
    {
      ScanStep(byDay, rows, day);
      DaysStep(rows, day);
      if day in byDay {
        bucketA, bucketB, total := bucketA + byDay[day].bucketA, bucketB + byDay[day].bucketB, total + byDay[day].total;
      }
      day := day + 1;
      if bucketA + bucketB == 0 { continue; }
      observedDays := observedDays + 1;
      var gate := EvaluateBalanceGate(bucketA, bucketB);
      ShareAtMost60(bucketA, bucketB);
      var share := if gate.majorityShare.Some? then gate.majorityShare.value else 1.0;
      if share <= 0.6 { balancedDays := balancedDays + 1; }
    }
    if asOf < FirstDay(rows) { ScanStart(rows, asOf); }
    var countedCoverage := if total > 0 then Some((bucketA + bucketB) as real / total as real) else None;
    var minimumSample :=
      if countedCoverage.Some? && countedCoverage.value >= 0.8 then BALANCE_DAYS_MIN_SAMPLE else MAX_SAFE_INTEGER;
    r := Maintenance(
      RatioMetric(balancedDays, observedDays, 0.8, minimumSample), EvaluateBalanceGate(bucketA, bucketB),
        countedCoverage);
  }

  lemma ShareAtMost60(bucketA: nat, bucketB: nat)
    requires bucketA + bucketB > 0
    ensures var gate := EvaluateBalanceGate(bucketA, bucketB);
            gate.majorityShare.Some? &&
            (gate.majorityShare.value <= 0.6 <==>
              100 * (if bucketA > bucketB then bucketA else bucketB) <= 60 * (bucketA + bucketB))
  {
    ShareThreshold(if bucketA > bucketB then bucketA else bucketB, bucketA + bucketB, 60);
    assert 60 as real / 100.0 == 0.6;
  }

  // ---- What the result depends on ----

  ghost predicate SameDailyTotals(rows: seq<Row>, other: seq<Row>) {
    forall bucket, day :: On(rows, bucket, day) == On(other, bucket, day)
  }

  lemma {:induction false} SameRunningTotals(rows: seq<Row>, other: seq<Row>, bucket: Option<Bucket>, from: int,
    day: int)
    requires SameDailyTotals(rows, other)
    requires forall r :: r in rows + other ==> from < r.day
    ensures UpTo(rows, bucket, day) == UpTo(other, bucket, day)
    decreases day - from
  {
    if day <= from {
      NothingBeforeFirst(rows, bucket, day);
      NothingBeforeFirst(other, bucket, day);
    } else {
      SameRunningTotals(rows, other, bucket, from, day - 1);
      UpToStep(rows, bucket, day);
      UpToStep(other, bucket, day);
    }
  }

  /** Only the totals of each day matter: not the order of the rows, nor how a day is split into rows,
      nor rows that count nothing. */
  lemma OnlyDailyTotalsMatter(rows: seq<Row>, other: seq<Row>, asOf: int)
    requires SameDailyTotals(rows, other) && (rows == [] <==> other == [])
    ensures Spec(rows, asOf) == Spec(other, asOf)
  {
    if rows != [] {
      var a, b := FirstDay(rows), FirstDay(other);
      var from := (if a < b then a else b) - 1;
      forall bucket, day ensures UpTo(rows, bucket, day) == UpTo(other, bucket, day) {
        SameRunningTotals(rows, other, bucket, from, day);
      }
      forall day ensures day < a ==> Counted(rows, day) == 0
                 ensures day < b ==> Counted(other, day) == 0
      {
        if day < a { ScanStart(rows, day); }
        if day < b { ScanStart(other, day); }
      }
      assert ObservedDays(rows, asOf) == ObservedDays(other, asOf);
      assert BalancedDays(rows, asOf) == BalancedDays(other, asOf);
    }
  }

  lemma {:induction false} OnAppend(front: seq<Row>, back: seq<Row>, bucket: Option<Bucket>, day: int)
    ensures On(front + back, bucket, day) == On(front, bucket, day) + On(back, bucket, day)
  {
    if back == [] {
      assert front + back == front;
    } else {
      var whole := front + back;
      assert whole[..|whole| - 1] == front + back[..|back| - 1];
      OnAppend(front, back[..|back| - 1], bucket, day);
    }
  }

  lemma OnWithout(rows: seq<Row>, i: nat, bucket: Option<Bucket>, day: int)
    requires i < |rows|
    ensures On(rows, bucket, day) == On(rows[..i] + rows[i + 1..], bucket, day) + On([rows[i]], bucket, day)
  {
    assert rows == rows[..i] + [rows[i]] + rows[i + 1..];
    OnAppend(rows[..i] + [rows[i]], rows[i + 1..], bucket, day);
    OnAppend(rows[..i], [rows[i]], bucket, day);
    OnAppend(rows[..i], rows[i + 1..], bucket, day);
  }

  lemma MultisetWithout(rows: seq<Row>, i: nat)
    requires i < |rows|
    ensures multiset(rows[..i] + rows[i + 1..]) == multiset(rows) - multiset{rows[i]}
  {
    assert rows == rows[..i] + [rows[i]] + rows[i + 1..];
  }

  lemma {:induction false} OnFromMultiset(rows: seq<Row>, other: seq<Row>, bucket: Option<Bucket>, day: int)
    requires multiset(rows) == multiset(other)
    ensures On(rows, bucket, day) == On(other, bucket, day)
    decreases |rows|
  {
    if rows == [] {
      assert |multiset(other)| == 0;
    } else {
      assert rows[0] in multiset(rows);
      var i :| 0 <= i < |other| && other[i] == rows[0];
      MultisetWithout(rows, 0);
      MultisetWithout(other, i);
      OnFromMultiset(rows[..0] + rows[0 + 1..], other[..i] + other[i + 1..], bucket, day);
      OnWithout(rows, 0, bucket, day);
      OnWithout(other, i, bucket, day);
    }
  }

  /** The order of the rows does not matter. */
  lemma RowOrderIrrelevant(rows: seq<Row>, other: seq<Row>, asOf: int)
    requires multiset(rows) == multiset(other)
    ensures Spec(rows, asOf) == Spec(other, asOf)
  {
    forall bucket, day ensures On(rows, bucket, day) == On(other, bucket, day) {
      OnFromMultiset(rows, other, bucket, day);
    }
    assert |multiset(rows)| == |multiset(other)|;
    OnlyDailyTotalsMatter(rows, other, asOf);
  }

  /** Splitting the row of a day and bucket in two does not matter. */
  lemma SplitIrrelevant(before: seq<Row>, day: int, bucket: Bucket, m: nat, n: nat, after: seq<Row>, asOf: int)
    ensures Spec(before + [Row(day, bucket, m + n)] + after, asOf) ==
      Spec(before + [Row(day, bucket, m), Row(day, bucket, n)] + after, asOf)
  {
    var whole, parts := [Row(day, bucket, m + n)], [Row(day, bucket, m), Row(day, bucket, n)];
    forall b, d ensures On(before + whole + after, b, d) == On(before + parts + after, b, d) {
      OnAppend(before + whole, after, b, d);
      OnAppend(before, whole, b, d);
      OnAppend(before + parts, after, b, d);
      OnAppend(before, parts, b, d);
      assert whole[..0] == [] && parts[..1] == [Row(day, bucket, m)] && parts[..1][..0] == [];
    }
    OnlyDailyTotalsMatter(before + whole + after, before + parts + after, asOf);
  }

  // ---- What a PASS means ----

  lemma CardinalityAtMostSpan(days: set<int>, from: int, to: int)
    requires forall day :: day in days ==> from <= day <= to
    ensures |days| <= (if from <= to then to - from + 1 else 0)
    decreases if from <= to then to - from + 1 else 0
  {
    if from <= to {
      CardinalityAtMostSpan(days - {to}, from, to - 1);
      assert days - {to} == if to in days then days - {to} else days;
      assert days <= (days - {to}) + {to};
      assert |days| <= |days - {to}| + 1;
    } else {
      assert forall day :: day !in days;
      assert days == {};
    }
  }

  lemma QuotientAtLeast(n: nat, d: nat)
    requires d > 0
    ensures n as real / d as real >= 0.8 <==> 5 * n >= 4 * d
  {
    ShareThreshold(n, d, 80);
    assert 80 as real / 100.0 == 0.8;
  }

  /** PASS exactly when at least 7 days were observed, at least 80% of the consumed seats are in a
      counted bucket, and at least 80% of the observed days were balanced; the data are insufficient
      exactly when one of the first two fails. */
  lemma PassMeans(rows: seq<Row>, asOf: int)
    requires asOf <= MAX_DATE_DAYS && forall r :: r in rows ==> -MAX_DATE_DAYS <= r.day
    ensures Spec(rows, asOf).metric.status == Pass <==>
            rows != [] && |ObservedDays(rows, asOf)| >= 7 &&
            5 * Counted(rows, asOf) >= 4 * UpTo(rows, None, asOf) &&
              5 * |BalancedDays(rows, asOf)| >= 4 * |ObservedDays(rows, asOf)|
    ensures Spec(rows, asOf).metric.status == InsufficientData <==>
            rows == [] || |ObservedDays(rows, asOf)| < 7 || 5 * Counted(rows, asOf) < 4 * UpTo(rows, None, asOf)
  {
    if rows != [] {
      var observed, total := |ObservedDays(rows, asOf)|, UpTo(rows, None, asOf);
      CardinalityAtMostSpan(ObservedDays(rows, asOf), FirstDay(rows), asOf);
      if observed > 0 { QuotientAtLeast(|BalancedDays(rows, asOf)|, observed); }
      if total > 0 {
        QuotientAtLeast(Counted(rows, asOf), total);
      } else {
        NothingObserved(rows, asOf);
      }
    }
  }

  lemma {:induction false} CountedWithinTotal(rows: seq<Row>, day: int)
    ensures Counted(rows, day) <= UpTo(rows, None, day)
  {
    if rows != [] { CountedWithinTotal(rows[..|rows| - 1], day); }
  }

  lemma {:induction false} Grows(rows: seq<Row>, bucket: Option<Bucket>, day: int, later: int)
    requires day <= later
    ensures UpTo(rows, bucket, day) <= UpTo(rows, bucket, later)
  {
    if rows != [] { Grows(rows[..|rows| - 1], bucket, day, later); }
  }

  lemma NothingObserved(rows: seq<Row>, asOf: int)
    requires rows != [] && UpTo(rows, None, asOf) == 0
    ensures ObservedDays(rows, asOf) == {}
  {
    forall day | day <= asOf ensures Counted(rows, day) == 0 {
      CountedWithinTotal(rows, day);
      Grows(rows, None, day, asOf);
    }
  }

  lemma {:induction false} CountedRowsAreTheTotal(rows: seq<Row>, day: int)
    requires forall r :: r in rows ==> r.bucket != NotCounted
    ensures Counted(rows, day) == UpTo(rows, None, day)
  {
    if rows != [] {
      assert rows[|rows| - 1] in rows;
      CountedRowsAreTheTotal(rows[..|rows| - 1], day);
    }
  }

  /** On rows of the two counted buckets alone the coverage is never below one, so the coverage
      requirement refuses nothing. */
  lemma CountedRowsCoverFully(rows: seq<Row>, asOf: int)
    requires forall r :: r in rows ==> r.bucket != NotCounted
    ensures Coverage(rows, asOf) == if Counted(rows, asOf) > 0 then Some(1.0) else None
  {
    CountedRowsAreTheTotal(rows, asOf);
    var total := UpTo(rows, None, asOf) as real;
    if total > 0.0 { P.SelfRatio(Counted(rows, asOf) as real, total); }
  }
}
