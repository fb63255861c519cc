// The shared fixed-window limiter: one statement prunes stale rows and upserts the caller's row.

module RateLimit {
  import opened Options

  datatype Scope =
    InviteClaim | OnboardingAnswer | UnlockAnswer | ReportCreate | SupportCreate | MessageSend | WaitlistJoin
  datatype Policy = Policy(limit: nat, windowMs: nat)

  function PolicyOf(scope: Scope): Policy {
    match scope
    case InviteClaim => Policy(10, 15 * 60 * 1_000)
    case OnboardingAnswer => Policy(10, 10 * 60 * 1_000)
    case UnlockAnswer => Policy(20, 10 * 60 * 1_000)
    case ReportCreate => Policy(5, 60 * 60 * 1_000)
    case SupportCreate => Policy(3, 24 * 60 * 60 * 1_000)
    case MessageSend => Policy(20, 10 * 60 * 1_000)
    case WaitlistJoin => Policy(5, 24 * 60 * 60 * 1_000)
  }

  const PRUNE_HORIZON_MS := 2 * 24 * 60 * 60 * 1_000
  /** The count column is a 32-bit integer; incrementing past it fails the statement. */
  const INT4_MAX := 0x7fff_ffff

  /** A scope and a subject; the keyed hash is taken as injective. */
  datatype Key = Key(scope: Scope, subject: string)
  datatype Row = Row(count: nat, lastRequest: int)
  type Table = map<Key, Row>

  datatype Decision = Allowed(remaining: nat) | Limited(retryAfterSeconds: nat) | Unavailable

  /** PostgreSQL does not fix the order of the two parts of the statement; NoPrune is the reference. */
  datatype Pruning = PruneFirst | PruneLast | NoPrune
  datatype Request = Request(key: Key, now: int, pruning: Pruning)

  function Max(a: int, b: int): int { if a < b then b else a }
  function Min(a: nat, b: nat): nat { if a < b then a else b }

  function CeilDiv(a: int, b: int): int
    requires 0 < b
  {
    -((-a) / b)
  }

  function RetryAfterSeconds(lastRequest: int, windowMs: int, now: int): nat {
    Max(1, CeilDiv(lastRequest + windowMs - now, 1_000))
  }

  /** The row the upsert leaves for the key, or none when the increment overflows. */
  function Upserted(rows: Table, key: Key, now: int): Option<Row> {
    if key !in rows || now - rows[key].lastRequest >= PolicyOf(key.scope).windowMs then Some(Row(1, now))
    else if rows[key].count == INT4_MAX then None
    else Some(rows[key].(count := rows[key].count + 1))
  }

  function Fresh(rows: Table, now: int): Table {
    map k | k in rows && rows[k].lastRequest >= now - PRUNE_HORIZON_MS :: rows[k]
  }

  /** A failed statement changes nothing. A row the upsert has touched is not pruned by it. */
  function Consume(rows: Table, r: Request): Table {
    var base := if r.pruning == PruneFirst then Fresh(rows, r.now) else rows;
    var row := Upserted(base, r.key, r.now);
    if row.None? then rows
    else (if r.pruning == NoPrune then rows else Fresh(rows, r.now))[r.key := row.value]
  }

  function Decide(rows: Table, r: Request): Decision {
    var base := if r.pruning == PruneFirst then Fresh(rows, r.now) else rows;
    var row := Upserted(base, r.key, r.now);
    var policy := PolicyOf(r.key.scope);
    if row.None? then Unavailable
    else if row.value.count <= policy.limit then Allowed(policy.limit - row.value.count)
    else Limited(RetryAfterSeconds(row.value.lastRequest, policy.windowMs, r.now))
  }

  // ---- Runs ----

  function Last<T>(s: seq<T>): T
    requires s != []
  {
    s[|s| - 1]
  }
  function Front<T>(s: seq<T>): seq<T>
    requires s != []
  {
    s[..|s| - 1]
  }

  /** The table after these requests, starting empty. */
  function After(requests: seq<Request>): Table {
    if requests == [] then map[] else Consume(After(Front(requests)), Last(requests))
  }

  /** The decision on the last of these requests. */
  function Verdict(requests: seq<Request>): Decision
    requires requests != []
  {
    Decide(After(Front(requests)), Last(requests))
  }

  ghost predicate Nondecreasing(requests: seq<Request>) {
    forall i, j :: 0 <= i < j < |requests| ==> requests[i].now <= requests[j].now
  }

  function Unpruned(requests: seq<Request>): seq<Request> {
    seq(|requests|, i requires 0 <= i < |requests| => requests[i].(pruning := NoPrune))
  }

  // ---- Pruning is unobservable ----

  lemma WindowsBelowHorizon(scope: Scope)
    ensures 0 < PolicyOf(scope).windowMs < PRUNE_HORIZON_MS && 0 < PolicyOf(scope).limit < INT4_MAX
  {
  }

  /** The pruned table misses only rows too old to matter at or after `now`. */
  ghost predicate Forgets(pruned: Table, full: Table, now: int) {
    && (forall k :: k in pruned ==> k in full && full[k] == pruned[k])
    && (forall k :: k in full && k !in pruned ==> full[k].lastRequest < now - PRUNE_HORIZON_MS)
  }

  lemma ForgettingIsUnobservable(pruned: Table, full: Table, r: Request, before: int)
    requires Forgets(pruned, full, before) && before <= r.now
    ensures Decide(pruned, r) == Decide(full, r.(pruning := NoPrune))
    ensures Forgets(Consume(pruned, r), Consume(full, r.(pruning := NoPrune)), r.now)
  {
  }

  /** Whether PostgreSQL prunes before or after the upsert, the statement does the same. */
  lemma PruneOrderIrrelevant(rows: Table, key: Key, now: int)
    ensures Decide(rows, Request(key, now, PruneFirst)) == Decide(rows, Request(key, now, PruneLast))
    ensures Consume(rows, Request(key, now, PruneFirst)) == Consume(rows, Request(key, now, PruneLast))
  {
  }

  lemma {:induction false} AfterForgets(requests: seq<Request>)
    requires Nondecreasing(requests) && requests != []
    ensures Forgets(After(requests), After(Unpruned(requests)), Last(requests).now)
    ensures Verdict(requests) == Verdict(Unpruned(requests))
    decreases |requests|
  {
    var front, r := Front(requests), Last(requests);
    assert Front(Unpruned(requests)) == Unpruned(front);
    if front != [] {
      AfterForgets(front);
      ForgettingIsUnobservable(After(front), After(Unpruned(front)), r, Last(front).now);
    } else {
      ForgettingIsUnobservable(map[], map[], r, r.now);
    }
  }

  /** Over every run with nondecreasing times the limiter decides as if it never pruned. */
  lemma PruningRefinesReference(requests: seq<Request>, i: nat)
    requires Nondecreasing(requests) && i < |requests|
    ensures Verdict(requests[..i + 1]) == Verdict(Unpruned(requests)[..i + 1])
  {
    AfterForgets(requests[..i + 1]);
    assert Unpruned(requests[..i + 1]) == Unpruned(requests)[..i + 1];
  }

  // ---- Exactly the first `limit` requests of each window ----

  /** The times at which the key made its requests. */
  function TimesOf(requests: seq<Request>, key: Key): seq<int> {
    if requests == [] then []
    else TimesOf(Front(requests), key) + (if Last(requests).key == key then [Last(requests).now] else [])
  }

  /** The index of the request that began the current window: a request opens a window when it
      comes at least one window length after the previous opener. */
  function Opener(times: seq<int>, windowMs: int): (i: nat)
    requires times != []
    ensures i < |times|
  {
    if |times| == 1 then 0
    else
      var previous := Opener(Front(times), windowMs);
      if Last(times) - times[previous] >= windowMs then |times| - 1 else previous
  }

  /** The position of the last request inside its window, counting from 1. */
  function Position(times: seq<int>, windowMs: int): nat
    requires times != []
  {
    |times| - Opener(times, windowMs)
  }

  ghost predicate RowMatches(rows: Table, key: Key, times: seq<int>) {
    var windowMs := PolicyOf(key.scope).windowMs;
    if times == [] then key !in rows
    else key in rows && rows[key] == Row(Min(Position(times, windowMs), INT4_MAX), times[Opener(times, windowMs)])
  }

  lemma ConsumeKeepsRow(rows: Table, r: Request, key: Key, times: seq<int>)
    requires r.pruning == NoPrune && RowMatches(rows, key, times)
    ensures RowMatches(Consume(rows, r), key, if r.key == key then times + [r.now] else times)
  {
  }

  lemma {:induction false} RowsMatch(requests: seq<Request>, key: Key)
    requires forall i :: 0 <= i < |requests| ==> requests[i].pruning == NoPrune
    ensures RowMatches(After(requests), key, TimesOf(requests, key))
    decreases |requests|
  {
    if requests != [] {
      RowsMatch(Front(requests), key);
      ConsumeKeepsRow(After(Front(requests)), Last(requests), key, TimesOf(Front(requests), key));
      assert TimesOf(Front(requests), key) + [] == TimesOf(Front(requests), key);
    }
  }

  lemma {:induction false} TimesOfUnpruned(requests: seq<Request>, key: Key)
    ensures TimesOf(Unpruned(requests), key) == TimesOf(requests, key)
    decreases |requests|
  {
    if requests != [] {
      TimesOfUnpruned(Front(requests), key);
      assert Front(Unpruned(requests)) == Unpruned(Front(requests));
    }
  }

  /** A request is allowed exactly when it is among the first `limit` of its key's window. */
  lemma AllowedExactlyFirstInWindow(requests: seq<Request>)
    requires requests != [] && Nondecreasing(requests)
    ensures var key := Last(requests).key;
            var position := Position(TimesOf(requests, key), PolicyOf(key.scope).windowMs);
            && (Verdict(requests).Allowed? <==> position <= PolicyOf(key.scope).limit)
            && (Verdict(requests).Allowed? ==> Verdict(requests).remaining == PolicyOf(key.scope).limit - position)
            && (Verdict(requests).Unavailable? <==> position > INT4_MAX)
  {
    var key, r := Last(requests).key, Last(requests);
    WindowsBelowHorizon(key.scope);
    AfterForgets(requests);
    var full := Unpruned(requests);
    RowsMatch(Front(full), key);
    TimesOfUnpruned(requests, key);
    ConsumeKeepsRow(After(Front(full)), Last(full), key, TimesOf(Front(full), key));
    var times := TimesOf(full, key);
    assert Front(times) == TimesOf(Front(full), key);
  }

  /** Windows are real: between the opener and the end of its window nothing else opens one. */
  lemma {:induction false} WindowSpan(times: seq<int>, windowMs: int, i: nat)
    requires times != [] && 0 < windowMs && Opener(times, windowMs) <= i < |times|
    ensures i == Opener(times, windowMs) || times[i] < times[Opener(times, windowMs)] + windowMs
    decreases |times|
  {
    if |times| > 1 && i < |times| - 1 && Opener(times, windowMs) != |times| - 1 {
      WindowSpan(Front(times), windowMs, i);
    }
  }

  // ---- Bursts ----

  predicate InSpan(r: Request, key: Key, start: int) {
    r.key == key && start <= r.now < start + PolicyOf(key.scope).windowMs
  }

  /** How many of the key's requests in the window-long span from `start` were allowed. */
  function AllowedInSpan(requests: seq<Request>, key: Key, start: int): nat {
    if requests == [] then 0
    else AllowedInSpan(Front(requests), key, start) +
         (if InSpan(Last(requests), key, start) && Verdict(requests).Allowed? then 1 else 0)
  }

  /** Where the key's window lies relative to the span decides how many may have been allowed. */
  ghost predicate BurstBound(rows: Table, latest: Option<int>, key: Key, start: int, allowed: nat) {
    var policy := PolicyOf(key.scope);
    && (latest.None? || latest.value < start ==> allowed == 0)
    && (key !in rows ==> allowed == 0)
    && (key in rows ==>
          var row := rows[key];
          && 1 <= row.count && latest.Some? && row.lastRequest <= latest.value
          && (row.lastRequest < start ==> allowed <= Min(row.count, policy.limit) - 1)
          && (start <= row.lastRequest < start + policy.windowMs ==>
            allowed <= policy.limit - 1 + Min(row.count, policy.limit))
          && (start + policy.windowMs <= row.lastRequest ==> allowed <= 2 * policy.limit - 1))
  }

  lemma BurstStep(rows: Table, latest: Option<int>, r: Request, key: Key, start: int, allowed: nat)
    requires BurstBound(rows, latest, key, start, allowed) && r.pruning == NoPrune
    requires latest.Some? ==> latest.value <= r.now
    ensures BurstBound(Consume(rows, r), Some(r.now), key, start,
                       allowed + (if InSpan(r, key, start) && Decide(rows, r).Allowed? then 1 else 0))
  {
  }

  lemma {:induction false} BurstInvariant(requests: seq<Request>, key: Key, start: int)
    requires Nondecreasing(requests) && forall i :: 0 <= i < |requests| ==> requests[i].pruning == NoPrune
    ensures BurstBound(After(requests), if requests == [] then None else Some(Last(requests).now), key, start,
                       AllowedInSpan(requests, key, start))
    decreases |requests|
  {
    if requests != [] {
      var front := Front(requests);
      BurstInvariant(front, key, start);
      BurstStep(After(front), if front == [] then None else Some(Last(front).now), Last(requests), key, start,
                AllowedInSpan(front, key, start));
    }
  }

  lemma {:induction false} AllowedInSpanUnpruned(requests: seq<Request>, key: Key, start: int)
    requires Nondecreasing(requests)
    ensures AllowedInSpan(Unpruned(requests), key, start) == AllowedInSpan(requests, key, start)
    decreases |requests|
  {
    if requests != [] {
      AllowedInSpanUnpruned(Front(requests), key, start);
      assert Front(Unpruned(requests)) == Unpruned(Front(requests));
      AfterForgets(requests);
    }
  }

  /** Any half-open span of one window length holds fewer than twice the limit of allowed requests. */
  lemma BurstBelowTwiceLimit(requests: seq<Request>, key: Key, start: int)
    requires Nondecreasing(requests)
    ensures AllowedInSpan(requests, key, start) <= 2 * PolicyOf(key.scope).limit - 1
  {
    WindowsBelowHorizon(key.scope);
    AllowedInSpanUnpruned(requests, key, start);
    BurstInvariant(Unpruned(requests), key, start);
  }

  /** One request opening a window, then the rest of the limit at its very end and a full limit
      at the start of the next. */
  function Straddle(key: Key, n: nat): seq<Request> {
    var policy := PolicyOf(key.scope);
    seq(n, i requires 0 <= i < n =>
      Request(key, if i == 0 then 0 else if i < policy.limit then policy.windowMs - 1 else policy.windowMs, NoPrune))
  }

  ghost predicate StraddleRow(rows: Table, key: Key, n: nat) {
    var policy := PolicyOf(key.scope);
    if n == 0 then key !in rows
    else key in rows && rows[key] == if n <= policy.limit then Row(n, 0) else Row(n - policy.limit, policy.windowMs)
  }

  lemma StraddleStep(rows: Table, key: Key, n: nat)
    requires 0 < n <= 2 * PolicyOf(key.scope).limit && StraddleRow(rows, key, n - 1)
    ensures var r := Last(Straddle(key, n)); StraddleRow(Consume(rows, r), key, n) && Decide(rows, r).Allowed?
  {
  }

  lemma StraddleInSpan(key: Key, n: nat)
    requires 0 < n
    ensures InSpan(Last(Straddle(key, n)), key, PolicyOf(key.scope).windowMs - 1) <==> n > 1
  {
  }

  lemma {:induction false} StraddleCounts(key: Key, n: nat)
    requires n <= 2 * PolicyOf(key.scope).limit
    ensures StraddleRow(After(Straddle(key, n)), key, n)
    ensures AllowedInSpan(Straddle(key, n), key, PolicyOf(key.scope).windowMs - 1) == if n == 0 then 0 else n - 1
    decreases n
  {
    if n > 0 {
      var requests := Straddle(key, n);
      StraddleCounts(key, n - 1);
      assert Front(requests) == Straddle(key, n - 1);
      StraddleStep(After(Front(requests)), key, n);
      StraddleInSpan(key, n);
    }
  }

  /** The bound is met: for every scope some run allows 2 * limit - 1 requests within one window length. */
  lemma BurstBoundIsTight(key: Key)
    ensures var requests := Straddle(key, 2 * PolicyOf(key.scope).limit);
            Nondecreasing(requests) &&
            AllowedInSpan(requests, key, PolicyOf(key.scope).windowMs - 1) == 2 * PolicyOf(key.scope).limit - 1 ==
              (match key.scope
               case InviteClaim => 19 case OnboardingAnswer => 19 case UnlockAnswer => 39 case ReportCreate => 9
               case SupportCreate => 5 case MessageSend => 39 case WaitlistJoin => 9)
    ensures PolicyOf(key.scope).windowMs == 60_000 *
              (match key.scope
               case InviteClaim => 15 case OnboardingAnswer => 10 case UnlockAnswer => 10 case ReportCreate => 60
               case SupportCreate => 1_440 case MessageSend => 10 case WaitlistJoin => 1_440)
  {
    WindowsBelowHorizon(key.scope);
    StraddleCounts(key, 2 * PolicyOf(key.scope).limit);
  }

  // ---- Retry-After ----

  lemma CeilSeconds(ms: int)
    requires 0 < ms
    ensures var k := CeilDiv(ms, 1_000); 1 <= k && 1_000 * (k - 1) < ms <= 1_000 * k
  {
  }

  /** While a key is rejected, its row keeps the window and stays over the limit. */
  ghost predicate Exhausted(rows: Table, key: Key, windowStart: int) {
    key in rows && rows[key].lastRequest == windowStart && rows[key].count > PolicyOf(key.scope).limit
  }

  lemma {:induction false} RetriesKeepExhausted(requests: seq<Request>, more: seq<Request>, key: Key, windowStart: int)
    requires forall i :: 0 <= i < |requests + more| ==> (requests + more)[i].pruning == NoPrune
    requires Exhausted(After(requests), key, windowStart)
    requires forall r :: r in more && r.key == key ==> r.now < windowStart + PolicyOf(key.scope).windowMs
    ensures Exhausted(After(requests + more), key, windowStart)
    decreases |more|
  {
    if more == [] {
      assert requests + more == requests;
    } else {
      assert Front(requests + more) == requests + Front(more);
      RetriesKeepExhausted(requests, Front(more), key, windowStart);
      assert Last(more) in more;
    }
  }

  lemma RetryAfterUnpruned(head: seq<Request>, tail: seq<Request>, next: Request, seconds: int)
    requires forall i :: 0 <= i < |head + tail| ==> (head + tail)[i].pruning == NoPrune
    requires head != [] && Verdict(head).Limited? && next.pruning == NoPrune
    requires next.key == Last(head).key && next.now == Last(head).now + 1_000 * seconds
    requires forall m :: m in tail && m.key == next.key ==>
               m.now <= Last(head).now + 1_000 * (Verdict(head).retryAfterSeconds - 1)
    ensures Decide(After(head + tail), next).Allowed? <==> Verdict(head).retryAfterSeconds <= seconds
  {
    var r, policy := Last(head), PolicyOf(next.key.scope);
    WindowsBelowHorizon(next.key.scope);
    assert head[|head| - 1] == (head + tail)[|head| - 1];
    var windowStart := After(head)[r.key].lastRequest;
    assert Exhausted(After(head), r.key, windowStart);
    CeilSeconds(windowStart + policy.windowMs - r.now);
    RetriesKeepExhausted(head, tail, r.key, windowStart);
  }

  lemma UnprunedAppend(requests: seq<Request>, more: seq<Request>, next: Request)
    ensures var whole, last := Unpruned(requests) + Unpruned(more), next.(pruning := NoPrune);
            Unpruned(requests + more + [next]) == whole + [last] && Front(whole + [last]) == whole &&
              Last(whole + [last]) == last
  {
  }

  lemma EarlyUnpruned(more: seq<Request>, key: Key, latest: int)
    requires forall m :: m in more && m.key == key ==> m.now <= latest
    ensures forall m :: m in Unpruned(more) && m.key == key ==> m.now <= latest
  {
  }

  /** A rejection at `r` names the fewest whole seconds after which the key's next request is
      allowed, whatever other keys do and however often the key retries before then. */
  lemma RetryAfterIsExact(requests: seq<Request>, more: seq<Request>, next: Request, seconds: int)
    requires requests != [] && Verdict(requests).Limited? && Nondecreasing(requests + more + [next])
    requires var r := Last(requests); next.key == r.key && next.now == r.now + 1_000 * seconds
    requires var r := Last(requests);
             forall m :: m in more && m.key == r.key ==>
               m.now <= r.now + 1_000 * (Verdict(requests).retryAfterSeconds - 1)
    ensures Verdict(requests + more + [next]).Allowed? <==> Verdict(requests).retryAfterSeconds <= seconds
  {
    var all := requests + more + [next];
    assert Nondecreasing(requests) by { assert all[..|requests|] == requests; }
    AfterForgets(requests);
    AfterForgets(all);
    UnprunedAppend(requests, more, next);
    EarlyUnpruned(more, next.key, Last(requests).now + 1_000 * (Verdict(requests).retryAfterSeconds - 1));
    assert Last(Unpruned(requests)) == Last(requests).(pruning := NoPrune);
    RetryAfterUnpruned(Unpruned(requests), Unpruned(more), next.(pruning := NoPrune), seconds);
  }

  // ---- The procedure ----

  class RateLimiter {
    var rows: Table

    /** One call. Storage failure and counter overflow are reported alike, and leave the table alone. */
    method ConsumeRateLimit(scope: Scope, subject: string, now: int, pruning: Pruning, storageUp: bool)
      returns (d: Decision)
      requires pruning != NoPrune
      modifies this
      ensures !storageUp ==> d == Unavailable
      ensures storageUp ==> d == Decide(old(rows), Request(Key(scope, subject), now, pruning))
      ensures rows == if storageUp then Consume(old(rows), Request(Key(scope, subject), now, pruning)) else old(rows)
      ensures d == Unavailable ==> rows == old(rows)
      ensures d != Unavailable ==>
                && Key(scope, subject) in rows
                && var k, row := Key(scope, subject), rows[Key(scope, subject)];
                && (if k !in old(rows) || old(rows)[k].lastRequest + PolicyOf(scope).windowMs <= now
                    then row == Row(1, now)
                    else row == Row(old(rows)[k].count + 1, old(rows)[k].lastRequest))
                && (d.Allowed? <==> row.count <= PolicyOf(scope).limit)
                && (d.Allowed? ==> d.remaining == PolicyOf(scope).limit - row.count)
                && (d.Limited? ==>
                      1 <= d.retryAfterSeconds && row.lastRequest + PolicyOf(scope).windowMs - now <=
                        1_000 * d.retryAfterSeconds)
      ensures d != Unavailable ==> forall k :: k != Key(scope, subject) ==>
                && (k in rows <==> k in old(rows) && now - 2 * 24 * 60 * 60 * 1_000 <= old(rows)[k].lastRequest)
                && (k in rows ==> rows[k] == old(rows)[k])
    {
      var key := Key(scope, subject);
      var policy := PolicyOf(scope);
      if !storageUp { return Unavailable; }
      var before := rows;
      if pruning == PruneFirst {
        rows := Fresh(rows, now);
      }
      if key !in rows {
        rows := rows[key := Row(1, now)];
      } else {
        var row := rows[key];
        if now - row.lastRequest >= policy.windowMs {
          rows := rows[key := Row(1, now)];
        } else if row.count == INT4_MAX {
          rows := before;
          return Unavailable;
        } else {
          rows := rows[key := Row(row.count + 1, row.lastRequest)];
        }
      }
      var upserted := rows[key];
      if pruning == PruneLast {
        rows := Fresh(before, now)[key := upserted];
      }
      if upserted.count <= policy.limit {
        return Allowed(policy.limit - upserted.count);
      }
      return Limited(RetryAfterSeconds(upserted.lastRequest, policy.windowMs, now));
    }
  }
}
