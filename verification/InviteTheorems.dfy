// What holds in every interleaved run of invite statements.

module InviteTheorems {
  import opened Options
  import opened BalancePolicy
  import opened Invites
  import Runs

  /** No transaction is open. */
  ghost predicate Quiet(s: State) { s.creator.None? && s.claims == map[] }

  /** At most 50 Stage-1 rows are pending, reserved or consumed, and no two of them share an email. */
  lemma CapacityInEveryRun(s: State, acts: seq<Action>)
    requires Quiet(s) && Capacity(s.rows) && UniqueCodes(s.rows)
    ensures var rows := Runs.Run(Apply, s, acts).rows;
            && Inv(Runs.Run(Apply, s, acts)) && |LiveIds(rows)| <= 50
            && forall i, j :: i in LiveIds(rows) && j in LiveIds(rows) && rows[i].email == rows[j].email ==> i == j
  {
    forall x: State, a: Action | Inv(x) ensures Inv(Apply(x, a)) {
      StepKeepsInv(x, a);
    }
    Runs.RunKeeps(Apply, Inv, s, acts);
  }

  ghost predicate RowsEvolve(s: State, s': State) { Evolves(s.rows, s'.rows) }

  /** From any reachable point on, rows are never removed, a row's identity never changes, and a
      consumed, expired or revoked row is frozen: it is never live again if it was not, and a
      consumed row keeps its consumer. */
  lemma LifecycleInEveryRun(s: State, acts: seq<Action>)
    requires Inv(s)
    ensures Evolves(s.rows, Runs.Run(Apply, s, acts).rows)
  {
    forall x: State, a: Action | Inv(x) ensures Inv(Apply(x, a)) && RowsEvolve(x, Apply(x, a)) {
      StepKeepsInv(x, a);
      StepEvolves(x, a);
    }
    Runs.RunRelates(Apply, Inv, RowsEvolve, s, acts);
  }

  // ---- Capabilities ----

  /** The capability currently reserves this invite. */
  predicate Holds(s: State, id: int, nonce: int) {
    id in s.rows && s.rows[id].status == Reserved && s.rows[id].nonce == Some(nonce)
  }

  /** Issued, and no longer the one the row is reserved under. */
  ghost predicate Dead(s: State, id: int, nonce: int) { nonce in s.nonces && !Holds(s, id, nonce) }

  lemma StepKeepsDead(s: State, a: Action, id: int, nonce: int)
    requires Dead(s, id, nonce)
    ensures Dead(Apply(s, a), id, nonce)
  {
  }

  /** Once a reservation was released, superseded, consumed, expired or revoked, its capability
      never reserves the row again, and presenting it changes nothing, in any later state. */
  lemma DeadCapabilityNeverConsumes(s: State, acts: seq<Action>, id: int, nonce: int, user: int, now: int)
    requires Inv(s) && Dead(s, id, nonce)
    ensures var s' := Runs.Run(Apply, s, acts);
            !Holds(s', id, nonce) && ConsumeUpdateStep(s', id, user, nonce, now) == s'
  {
    var inv := (x: State) => Inv(x) && Dead(x, id, nonce);
    forall x: State, a: Action | inv(x) ensures inv(Apply(x, a)) {
      StepKeepsInv(x, a);
      StepKeepsDead(x, a, id, nonce);
    }
    Runs.RunKeeps(Apply, inv, s, acts);
  }

  /** Only the capability of the current reservation can consume, and only an unexpired Stage-1 row. */
  lemma OnlyHolderConsumes(s: State, id: int, user: int, nonce: int, now: int)
    requires Inv(s) && id !in s.claims
    ensures id in ConsumeUpdateStep(s, id, user, nonce, now).claims ==>
              Holds(s, id, nonce) && s.rows[id].phase == AlphaStage1 && now < s.rows[id].expiresAt
    ensures var s' := ConsumeCommitStep(ConsumeUpdateStep(s, id, user, nonce, now), id);
            (s'.rows != s.rows <==> id in ConsumeUpdateStep(s, id, user, nonce, now).claims) &&
            (s'.rows != s.rows ==> s'.rows == s.rows[id := Consume(s.rows[id], Claim(user, now))])
  {
  }

  // ---- Balance ----

  /** Live Stage-1 seats of one bucket. */
  function CountedIds(rows: Table, bucket: Bucket): set<int> {
    set id | id in LiveIds(rows) && rows[id].bucket == bucket
  }

  ghost predicate BelowShare(rows: Table, bucket: Bucket) {
    100 * |CountedIds(rows, bucket)| < 65 * (|CountedIds(rows, BucketA)| + |CountedIds(rows, BucketB)|)
  }

  /** What the capacity transaction counts is the committed table without the seats it expired. */
  lemma CountedAreRemaining(s: State, c: Creator, bucket: Bucket)
    requires Inv(s) && s.creator == Some(c) && c.pc != Locked
    ensures BucketSeats(View(s), c.input.now, bucket) == CountedIds(View(s), bucket)
  {
    var view := View(s);
    forall id ensures id in BucketSeats(view, c.input.now, bucket) <==> id in CountedIds(view, bucket) {
      if id in view {
        assert id in s.rows;
      }
    }
  }

  /** An insert leaves its own bucket below 65% of the counted seats of the committed table exactly
      when the gate, evaluated on the seats as they are at the insert, would still admit it. */
  lemma ShareAfterInsertExactly(s: State, c: Creator)
    requires s.creator == Some(c) && c.pc.SeatsCounted? && c.input.bucket != NotCounted
    requires c.input.id !in s.rows && !CodeTaken(s.rows, c.input.code)
    ensures BelowShare(InsertAndCommitStep(s).rows, c.input.bucket) <==>
            Refusal(c.input.bucket, |CountedIds(View(s), BucketA)|, |CountedIds(View(s), BucketB)|).None?
  {
    var view := View(s);
    assert InsertAndCommitStep(s).rows == view[c.input.id := NewInvite(c.input)];
    AddedSeat(view, c.input, BucketA);
    AddedSeat(view, c.input, BucketB);
    AdmittedIffBelow65(c.input.bucket, |CountedIds(view, BucketA)|, |CountedIds(view, BucketB)|);
  }

  /** So with nothing between the count and the insert, every admitted counted invite is below it. */
  lemma AdmittedLeavesOwnBucketBelow65(s: State, c: Creator)
    requires Inv(s) && s.creator == Some(c) && c.pc == EmailChecked && c.input.bucket != NotCounted
    ensures var s' := InsertAndCommitStep(CountSeatsStep(s));
            c.input.id in s'.rows && c.input.id !in s.rows ==> BelowShare(s'.rows, c.input.bucket)
  {
    var mid := CountSeatsStep(s);
    var s' := InsertAndCommitStep(mid);
    if c.input.id in s'.rows && c.input.id !in s.rows {
      CountedAreRemaining(s, c, BucketA);
      CountedAreRemaining(s, c, BucketB);
      assert View(mid) == View(s);
      ShareAfterInsertExactly(mid, mid.creator.value);
    }
  }

  lemma AddedSeat(rows: Table, input: CreateInput, bucket: Bucket)
    requires input.id !in rows
    ensures |CountedIds(rows[input.id := NewInvite(input)], bucket)| ==
            |CountedIds(rows, bucket)| + (if input.bucket == bucket then 1 else 0)
  {
    var rows' := rows[input.id := NewInvite(input)];
    var added := if input.bucket == bucket then {input.id} else {};
    forall id ensures id in CountedIds(rows', bucket) <==> id in CountedIds(rows, bucket) + added {
      if id != input.id && id in rows {
        assert rows'[id] == rows[id];
      }
    }
    assert CountedIds(rows', bucket) == CountedIds(rows, bucket) + added;
  }

  const SHARE_INPUT := CreateInput(2, 2, "a", BucketA, 0)
  const SHARE_ROW := Invite("b", 1, Pending, 1_000, None, None, None, None, AlphaStage1, BucketB)

  /** One live B seat, no transaction. */
  const SHARE_START := State(map[1 := SHARE_ROW], None, map[], {})
  /** ... a transaction for an A seat past its email check. */
  const SHARE_EXAMPLE := State(map[1 := SHARE_ROW], Some(Creator(SHARE_INPUT, EmailChecked, {})), map[], {})
  const SHARE_COUNTED := SHARE_EXAMPLE.(creator := Some(Creator(SHARE_INPUT, SeatsCounted(0, 1), {})))
  const SHARE_REVOKED := SHARE_COUNTED.(rows := map[1 := SHARE_ROW.(status := Revoked)])

  lemma ShareExampleBegins()
    ensures CheckEmailStep(SweepStep(BeginCreateStep(SHARE_START, SHARE_INPUT))) == SHARE_EXAMPLE
  {
    var locked := BeginCreateStep(SHARE_START, SHARE_INPUT);
    assert (set id | id in locked.rows && SweepWhere(locked.rows[id], 0)) == {};
    var swept := SweepStep(locked);
    assert swept == SHARE_START.(creator := Some(Creator(SHARE_INPUT, Swept, {})));
    assert View(swept) == SHARE_START.rows && !EmailActive(View(swept), "a");
  }

  lemma ShareExampleCounts()
    ensures CountSeatsStep(SHARE_EXAMPLE) == SHARE_COUNTED
  {
    var view := View(SHARE_EXAMPLE);
    assert view == SHARE_EXAMPLE.rows;
    assert forall id :: id in SeatIds(view, 0) <==> id == 1;
    assert forall id :: id !in BucketSeats(view, 0, BucketA);
    assert BucketSeats(view, 0, BucketA) == {};
    assert forall id :: id in BucketSeats(view, 0, BucketB) <==> id == 1;
    assert BucketSeats(view, 0, BucketB) == {1} && SeatIds(view, 0) == {1};
    AdmittedIffBelow65(BucketA, 0, 1);
  }

  lemma ShareExampleRevokes()
    ensures RevokeStep(SHARE_COUNTED, "b", {1}) == SHARE_REVOKED
  {
  }

  lemma ShareExampleAfter(id: int)
    ensures id !in CountedIds(View(SHARE_REVOKED), BucketA) && id !in CountedIds(View(SHARE_REVOKED), BucketB)
  {
  }

  const SHARE_CHECK: seq<Action> := [BeginCreate(SHARE_INPUT), Sweep, CheckEmail]
  const SHARE_INSERT: seq<Action> := [CountSeats, Revoke("b", {1}), InsertAndCommit]

  lemma ShareRunIs()
    ensures Runs.Run(Apply, SHARE_START, SHARE_CHECK + SHARE_INSERT) ==
            InsertAndCommitStep(RevokeStep(CountSeatsStep(SHARE_EXAMPLE), "b", {1}))
  {
    Runs.RunAppend(Apply, SHARE_START, SHARE_CHECK, SHARE_INSERT);
    Runs.RunThree(Apply, SHARE_START, BeginCreate(SHARE_INPUT), Sweep, CheckEmail);
    ShareExampleBegins();
    Runs.RunThree(Apply, SHARE_EXAMPLE, CountSeats, Revoke("b", {1}), InsertAndCommit);
  }

  /** Revocation does not take the capacity lock. In this run from a quiet table it slips between the
      count and the insert, and the admitted seat ends with its bucket at 100%: the bound is on the
      counted observation. */
  lemma RevokeBetweenCountAndInsertBreaksShare()
    ensures Quiet(SHARE_START) && Inv(SHARE_START) && 2 !in SHARE_START.rows
    ensures var after := Runs.Run(Apply, SHARE_START, SHARE_CHECK + SHARE_INSERT).rows;
      2 in after && !BelowShare(after, BucketA)
  {
    assert LiveIds(SHARE_START.rows) == {1};
    ShareRunIs();
    ShareExampleCounts();
    ShareExampleRevokes();
    forall id ensures id !in CountedIds(View(SHARE_REVOKED), BucketA) &&
      id !in CountedIds(View(SHARE_REVOKED), BucketB) {
      ShareExampleAfter(id);
    }
    assert CountedIds(View(SHARE_REVOKED), BucketA) == {} && CountedIds(View(SHARE_REVOKED), BucketB) == {};
    FirstCountedSeatRefused(BucketA);
    ShareAfterInsertExactly(SHARE_REVOKED, SHARE_REVOKED.creator.value);
  }

  ghost predicate NoCountedSeats(s: State) {
    && Inv(s)
    && (forall id :: id in s.rows && Live(s.rows[id]) ==> s.rows[id].bucket == NotCounted)
    && (s.creator.Some? && s.creator.value.pc.SeatsCounted? ==> s.creator.value.input.bucket == NotCounted)
  }

  lemma NoneCounted(rows: Table, rows': Table)
    requires forall id :: id in rows && Live(rows[id]) ==> rows[id].bucket == NotCounted
    requires rows'.Keys <= rows.Keys
    requires forall id :: id in rows' ==> SameInvite(rows[id], rows'[id]) && (Live(rows'[id]) ==> Live(rows[id]))
    ensures CountedIds(rows', BucketA) == {} && CountedIds(rows', BucketB) == {}
  {
    forall id ensures id !in CountedIds(rows', BucketA) && id !in CountedIds(rows', BucketB) {
      if id in rows' && Live(rows'[id]) {
        assert id in rows;
      }
    }
  }

  lemma CountRefusesFirstCountedSeat(s: State, c: Creator)
    requires NoCountedSeats(s) && s.creator == Some(c) && c.pc == EmailChecked && c.input.bucket != NotCounted
    ensures CountSeatsStep(s).creator.None?
  {
    CountedAreRemaining(s, c, BucketA);
    CountedAreRemaining(s, c, BucketB);
    NoneCounted(s.rows, View(s));
    FirstCountedSeatRefused(c.input.bucket);
  }

  /** Only the capacity transaction's insert adds a row, and after its count. */
  lemma NewRowsComeFromInsert(s: State, a: Action, id: int)
    requires id in Apply(s, a).rows && id !in s.rows
    ensures s.creator.Some? && s.creator.value.pc.SeatsCounted? &&
      Apply(s, a).rows[id] == NewInvite(s.creator.value.input)
  {
  }

  lemma StepKeepsCountedPcUncounted(s: State, a: Action)
    requires NoCountedSeats(s)
    ensures var c := Apply(s, a).creator;
            c.Some? && c.value.pc.SeatsCounted? ==> c.value.input.bucket == NotCounted
  {
    if a.CountSeats? && s.creator.Some? && s.creator.value.pc == EmailChecked &&
      s.creator.value.input.bucket != NotCounted {
      CountRefusesFirstCountedSeat(s, s.creator.value);
    }
  }

  lemma StepKeepsNoCountedSeats(s: State, a: Action)
    requires NoCountedSeats(s)
    ensures NoCountedSeats(Apply(s, a))
  {
    var rows' := Apply(s, a).rows;
    StepKeepsInv(s, a);
    StepEvolves(s, a);
    StepKeepsCountedPcUncounted(s, a);
    forall id | id in rows' && Live(rows'[id]) ensures rows'[id].bucket == NotCounted {
      if id in s.rows {
        assert SameInvite(s.rows[id], rows'[id]);
      } else {
        NewRowsComeFromInsert(s, a, id);
      }
    }
  }

  /** Started with no counted seat, the service never admits one, however statements interleave. */
  lemma NoCountedSeatIsEverAdmitted(s: State, acts: seq<Action>)
    requires NoCountedSeats(s)
    ensures var rows := Runs.Run(Apply, s, acts).rows;
      CountedIds(rows, BucketA) == {} && CountedIds(rows, BucketB) == {}
  {
    forall x: State, a: Action | NoCountedSeats(x) ensures NoCountedSeats(Apply(x, a)) {
      StepKeepsNoCountedSeats(x, a);
    }
    Runs.RunKeeps(Apply, NoCountedSeats, s, acts);
    var rows := Runs.Run(Apply, s, acts).rows;
    NoneCounted(rows, rows);
  }
}
