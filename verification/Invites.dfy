// Stage-1 invite rows and every SQL statement that writes them, one action per statement.
//
// READ COMMITTED: a statement sees committed rows plus its own transaction's writes, and takes
// effect when it completes. A row written by an open transaction is locked; another session's
// UPDATE waits for it, so here it skips the row. `now` travels inside the action: it was read
// earlier than the step that uses it, at any clock, and is never assumed to be ordered.

module Invites {
  import opened Options
  import opened BalancePolicy

  datatype Status = Pending | Reserved | Consumed | Expired | Revoked
  datatype Phase = AlphaStage1 | LegacyPreStage1

  /** Codes and capabilities stand for their hashes (hashing is taken as injective). */
  datatype Invite = Invite(
    email: string, code: int, status: Status, expiresAt: int,
    reservedAt: Option<int>, nonce: Option<int>, consumedAt: Option<int>, consumedBy: Option<int>,
    phase: Phase, bucket: Bucket)

  type Table = map<int, Invite>

  const INVITE_LIFETIME_MS := 7 * 24 * 60 * 60 * 1_000

  /** One `createStage1Invite` call: `id` and `code` are the generated values. */
  datatype CreateInput = CreateInput(id: int, code: int, email: string, bucket: Bucket, now: int)
  datatype CreatePc = Locked | Swept | EmailChecked | SeatsCounted(bucketA: nat, bucketB: nat)
  /** The transaction holding the capacity lock; `swept` are its uncommitted expirations. */
  datatype Creator = Creator(input: CreateInput, pc: CreatePc, swept: set<int>)
  /** An uncommitted consumption by a registration transaction. */
  datatype Claim = Claim(user: int, at: int)

  datatype State = State(rows: Table, creator: Option<Creator>, claims: map<int, Claim>, nonces: set<int>)

  datatype Action =
    | BeginCreate(input: CreateInput) | Sweep | CheckEmail | CountSeats | InsertAndCommit | RollbackCreate
    | Reserve(code: int, email: string, now: int, nonce: int)
    | Release(cutoff: int, picked: set<int>)
    | Revoke(email: string, picked: set<int>)
    | ConsumeUpdate(id: int, user: int, nonce: int, now: int) | ConsumeCommit(id: int) | ConsumeRollback(id: int)

  // ---- The WHERE clauses ----

  predicate Open(r: Invite) { r.status.Pending? || r.status.Reserved? }
  predicate Live(r: Invite) { r.phase == AlphaStage1 && (Open(r) || r.status.Consumed?) }
  predicate Terminal(r: Invite) { !Open(r) }

  predicate SweepWhere(r: Invite, now: int) { r.phase == AlphaStage1 && Open(r) && r.expiresAt <= now }
  predicate SeatWhere(r: Invite, now: int) {
    r.phase == AlphaStage1 && (r.status == Consumed || (Open(r) && r.expiresAt > now))
  }
  predicate ReserveWhere(r: Invite, code: int, email: string, now: int) {
    r.code == code && r.email == email && r.phase == AlphaStage1 && r.status == Pending && r.expiresAt > now
  }
  predicate ReleaseWhere(r: Invite, cutoff: int) {
    r.phase == AlphaStage1 && r.status == Reserved && r.reservedAt.Some? && r.reservedAt.value < cutoff
  }
  predicate RevokeWhere(r: Invite, email: string) { r.email == email && Open(r) }
  predicate ConsumeWhere(r: Invite, nonce: int, now: int) {
    r.phase == AlphaStage1 && r.status == Reserved && r.nonce == Some(nonce) && r.expiresAt > now
  }

  // ---- The SET clauses ----

  function Expire(r: Invite): Invite { r.(status := Status.Expired, reservedAt := None, nonce := None) }
  function Consume(r: Invite, c: Claim): Invite {
    r.(status := Consumed, consumedAt := Some(c.at), consumedBy := Some(c.user))
  }

  function SweptRows(rows: Table, ids: set<int>): Table {
    map id | id in rows :: if id in ids then Expire(rows[id]) else rows[id]
  }
  function ReservedRows(rows: Table, ids: set<int>, now: int, nonce: int): Table {
    map id | id in rows ::
      if id in ids then rows[id].(status := Reserved, reservedAt := Some(now), nonce := Some(nonce)) else rows[id]
  }
  function ReleasedRows(rows: Table, ids: set<int>): Table {
    map id | id in rows ::
      if id in ids then rows[id].(status := Pending, reservedAt := None, nonce := None) else rows[id]
  }
  function RevokedRows(rows: Table, ids: set<int>): Table {
    map id | id in rows ::
      if id in ids then rows[id].(status := Revoked, reservedAt := None, nonce := None) else rows[id]
  }
  function NewInvite(i: CreateInput): Invite {
    Invite(i.email, i.code, Pending, i.now + INVITE_LIFETIME_MS, None, None, None, None, AlphaStage1, i.bucket)
  }

  // ---- Reads ----

  function SeatIds(rows: Table, now: int): set<int> { set id | id in rows && SeatWhere(rows[id], now) }
  function BucketSeats(rows: Table, now: int, bucket: Bucket): set<int> {
    set id | id in SeatIds(rows, now) && rows[id].bucket == bucket
  }
  function LiveIds(rows: Table): set<int> { set id | id in rows && Live(rows[id]) }
  predicate EmailActive(rows: Table, email: string) {
    exists id :: id in rows && Live(rows[id]) && rows[id].email == email
  }
  predicate CodeTaken(rows: Table, code: int) { exists id :: id in rows && rows[id].code == code }

  // ---- The statements as steps ----

  predicate RowLocked(s: State, id: int) { id in s.claims || (s.creator.Some? && id in s.creator.value.swept) }

  /** The capacity transaction's own view. */
  function View(s: State): Table { if s.creator.Some? then SweptRows(s.rows, s.creator.value.swept) else s.rows }

  function RollbackCreateStep(s: State): State { s.(creator := None) }

  function BeginCreateStep(s: State, input: CreateInput): State {
    if s.creator.None? then s.(creator := Some(Creator(input, Locked, {}))) else s
  }

  predicate CreatorAt(s: State, pc: CreatePc) { s.creator.Some? && s.creator.value.pc == pc }

  /** Waits while an expired reservation is being consumed. */
  function SweepStep(s: State): State {
    if !CreatorAt(s, Locked) then s
    else
      var input := s.creator.value.input;
      var ids := set id | id in s.rows && SweepWhere(s.rows[id], input.now);
      if ids !! s.claims.Keys then s.(creator := Some(Creator(input, Swept, ids))) else s
  }

  function CheckEmailStep(s: State): State {
    if !CreatorAt(s, Swept) then s
    else if EmailActive(View(s), s.creator.value.input.email) then RollbackCreateStep(s)
    else s.(creator := Some(s.creator.value.(pc := EmailChecked)))
  }

  function CountSeatsStep(s: State): State {
    if !CreatorAt(s, EmailChecked) then s
    else
      var input := s.creator.value.input;
      var bucketA := |BucketSeats(View(s), input.now, BucketA)|;
      var bucketB := |BucketSeats(View(s), input.now, BucketB)|;
      if |SeatIds(View(s), input.now)| >= ALPHA_STAGE_1_CAP || Refusal(input.bucket, bucketA, bucketB).Some?
      then RollbackCreateStep(s)
      else s.(creator := Some(s.creator.value.(pc := SeatsCounted(bucketA, bucketB))))
  }

  /** The primary key and the unique index on code hashes can still refuse the row. */
  function InsertAndCommitStep(s: State): State {
    if s.creator.None? || !s.creator.value.pc.SeatsCounted? then s
    else
      var input := s.creator.value.input;
      if input.id in s.rows || CodeTaken(s.rows, input.code) then RollbackCreateStep(s)
      else s.(rows := View(s)[input.id := NewInvite(input)], creator := None)
  }

  /** Capabilities are fresh random values: one already issued is never drawn again. */
  function ReserveStep(s: State, code: int, email: string, now: int, nonce: int): State {
    if nonce in s.nonces then s
    else
      var ids := set id | id in s.rows && ReserveWhere(s.rows[id], code, email, now) && !RowLocked(s, id);
      s.(rows := ReservedRows(s.rows, ids, now, nonce), nonces := s.nonces + {nonce})
  }

  /** A multi-row UPDATE changes the rows its snapshot picked that still match when reached. */
  function ReleaseStep(s: State, cutoff: int, picked: set<int>): State {
    var ids := set id | id in s.rows && id in picked && ReleaseWhere(s.rows[id], cutoff) && !RowLocked(s, id);
    s.(rows := ReleasedRows(s.rows, ids))
  }
  function RevokeStep(s: State, email: string, picked: set<int>): State {
    var ids := set id | id in s.rows && id in picked && RevokeWhere(s.rows[id], email) && !RowLocked(s, id);
    s.(rows := RevokedRows(s.rows, ids))
  }

  function ConsumeUpdateStep(s: State, id: int, user: int, nonce: int, now: int): State {
    if id in s.rows && ConsumeWhere(s.rows[id], nonce, now) && !RowLocked(s, id)
    then s.(claims := s.claims[id := Claim(user, now)]) else s
  }
  function ConsumeCommitStep(s: State, id: int): State {
    if id in s.claims && id in s.rows
    then s.(rows := s.rows[id := Consume(s.rows[id], s.claims[id])], claims := s.claims - {id}) else s
  }
  function ConsumeRollbackStep(s: State, id: int): State { s.(claims := s.claims - {id}) }

  function Apply(s: State, a: Action): State {
    match a
    case BeginCreate(input) => BeginCreateStep(s, input)
    case Sweep => SweepStep(s)
    case CheckEmail => CheckEmailStep(s)
    case CountSeats => CountSeatsStep(s)
    case InsertAndCommit => InsertAndCommitStep(s)
    case RollbackCreate => RollbackCreateStep(s)
    case Reserve(code, email, now, nonce) => ReserveStep(s, code, email, now, nonce)
    case Release(cutoff, picked) => ReleaseStep(s, cutoff, picked)
    case Revoke(email, picked) => RevokeStep(s, email, picked)
    case ConsumeUpdate(id, user, nonce, now) => ConsumeUpdateStep(s, id, user, nonce, now)
    case ConsumeCommit(id) => ConsumeCommitStep(s, id)
    case ConsumeRollback(id) => ConsumeRollbackStep(s, id)
  }

  // ---- Row lifecycle: what no statement can change ----

  predicate SameInvite(r: Invite, r': Invite) {
    r'.email == r.email && r'.code == r.code && r'.expiresAt == r.expiresAt && r'.phase == r.phase &&
      r'.bucket == r.bucket
  }

  /** Rows are never deleted or re-labelled; consumed, expired and revoked rows never change at all. */
  ghost predicate Evolves(rows: Table, rows': Table) {
    forall id :: id in rows ==>
      id in rows' && SameInvite(rows[id], rows'[id]) && (Terminal(rows[id]) ==> rows'[id] == rows[id])
  }

  // ---- The invariant ----

  ghost predicate Capacity(rows: Table) {
    && |LiveIds(rows)| <= ALPHA_STAGE_1_CAP
    && (forall i, j ::
          i in rows && j in rows && Live(rows[i]) && Live(rows[j]) && rows[i].email == rows[j].email ==> i == j)
  }

  ghost predicate UniqueCodes(rows: Table) {
    forall i, j :: i in rows && j in rows && rows[i].code == rows[j].code ==> i == j
  }

  /** Live seats the capacity transaction has not expired. */
  function Remaining(rows: Table, c: Creator): set<int> { LiveIds(rows) - c.swept }

  ghost predicate CreatorOk(rows: Table, c: Creator) {
    && (forall id :: id in c.swept ==> id in rows && SweepWhere(rows[id], c.input.now))
    && (c.pc == Locked ==> c.swept == {})
    && (c.pc != Locked ==>
      forall id :: id in rows && Live(rows[id]) && id !in c.swept ==> SeatWhere(rows[id], c.input.now))
    && (c.pc != Locked && c.pc != Swept ==>
          forall id :: id in rows && Live(rows[id]) && id !in c.swept ==> rows[id].email != c.input.email)
    && (c.pc.SeatsCounted? ==> |Remaining(rows, c)| < ALPHA_STAGE_1_CAP)
  }

  ghost predicate ClaimsOk(s: State) {
    forall id :: id in s.claims ==>
      && id in s.rows && s.rows[id].phase == AlphaStage1 && s.rows[id].status == Reserved
      && (s.creator.Some? ==> id !in s.creator.value.swept)
  }

  ghost predicate Inv(s: State) {
    && Capacity(s.rows) && UniqueCodes(s.rows) && ClaimsOk(s)
    && (s.creator.Some? ==> CreatorOk(s.rows, s.creator.value))
  }

  // ---- Single steps ----

  lemma SubsetSize(a: set<int>, b: set<int>)
    requires a <= b
    ensures |a| <= |b|
  {
    if |a| > 0 && a != b {
      var d := b - a;
      assert b == a + d && |b| == |a| + |d|;
    }
  }

  /** Any statement, from any table at all, only moves rows along the lifecycle. */
  lemma StepEvolves(s: State, a: Action)
    requires ClaimsOk(s) && (s.creator.Some? ==> CreatorOk(s.rows, s.creator.value))
    ensures Evolves(s.rows, Apply(s, a).rows)
  {
  }

  lemma EvolvingKeepsCapacity(rows: Table, rows': Table)
    requires Capacity(rows) && Evolves(rows, rows') && rows'.Keys == rows.Keys
    ensures LiveIds(rows') <= LiveIds(rows) && Capacity(rows')
  {
    forall id | id in rows' ensures id in rows && (Live(rows'[id]) ==> Live(rows[id])) {
      assert id in rows;
    }
    SubsetSize(LiveIds(rows'), LiveIds(rows));
  }

  /** Other sessions cannot disturb what the capacity transaction has established. */
  lemma EvolvingKeepsCreator(rows: Table, rows': Table, c: Creator)
    requires CreatorOk(rows, c) && Evolves(rows, rows') && rows'.Keys == rows.Keys
    requires forall id :: id in c.swept ==> rows'[id] == rows[id]
    ensures CreatorOk(rows', c)
  {
    forall id | id in rows' ensures id in rows && (Live(rows'[id]) ==> Live(rows[id])) {
      assert id in rows;
    }
    SubsetSize(Remaining(rows', c), Remaining(rows, c));
  }

  lemma CheckEmailKeepsCreator(rows: Table, c: Creator)
    requires CreatorOk(rows, c) && c.pc == Swept && !EmailActive(SweptRows(rows, c.swept), c.input.email)
    ensures CreatorOk(rows, c.(pc := EmailChecked))
  {
    var view := SweptRows(rows, c.swept);
    forall id | id in rows && Live(rows[id]) && id !in c.swept ensures rows[id].email != c.input.email {
      assert id in view && view[id] == rows[id];
    }
  }

  lemma CountSeatsKeepsCreator(rows: Table, c: Creator, bucketA: nat, bucketB: nat)
    requires CreatorOk(rows, c) && c.pc == EmailChecked
    requires |SeatIds(SweptRows(rows, c.swept), c.input.now)| < ALPHA_STAGE_1_CAP
    ensures CreatorOk(rows, c.(pc := SeatsCounted(bucketA, bucketB)))
  {
    var view := SweptRows(rows, c.swept);
    forall id | id in Remaining(rows, c) ensures id in SeatIds(view, c.input.now) {
      assert id in view && view[id] == rows[id];
    }
    SubsetSize(Remaining(rows, c), SeatIds(view, c.input.now));
    assert Remaining(rows, c.(pc := SeatsCounted(bucketA, bucketB))) == Remaining(rows, c);
  }

  lemma CreateStepKeepsInv(s: State, a: Action)
    requires Inv(s) && (a.Sweep? || a.CheckEmail? || a.CountSeats? || a.InsertAndCommit? || a.RollbackCreate?)
    ensures Inv(Apply(s, a))
  {
    var s' := Apply(s, a);
    if s' == s || s' == RollbackCreateStep(s) {
      return;
    }
    var c := s.creator.value;
    match a
    case Sweep =>
    case CheckEmail => CheckEmailKeepsCreator(s.rows, c);
    case CountSeats =>
      var pc := s'.creator.value.pc;
      CountSeatsKeepsCreator(s.rows, c, pc.bucketA, pc.bucketB);
    case InsertAndCommit => InsertKeepsInv(s, c);
    case RollbackCreate =>
  }

  /** The table after the insert is the unswept part, the swept rows expired, and one new row. */
  ghost predicate Inserted(rows: Table, c: Creator, rows': Table) {
    && c.input.id !in rows && !CodeTaken(rows, c.input.code)
    && rows'.Keys == rows.Keys + {c.input.id} && rows'[c.input.id] == NewInvite(c.input)
    && (forall id :: id in rows ==> SameInvite(rows[id], rows'[id]))
    && (forall id :: id in rows && id in c.swept ==> !Live(rows'[id]))
    && (forall id :: id in rows && id !in c.swept ==> rows'[id] == rows[id])
  }

  lemma InsertedLiveRows(rows: Table, c: Creator, rows': Table)
    requires Inserted(rows, c, rows')
    ensures LiveIds(rows') == Remaining(rows, c) + {c.input.id}
  {
    forall id | id in rows' ensures id in LiveIds(rows') <==> id in Remaining(rows, c) + {c.input.id} {
      assert id in rows || id == c.input.id;
    }
  }

  lemma InsertKeepsInv(s: State, c: Creator)
    requires Inv(s) && s.creator == Some(c) && c.pc.SeatsCounted?
    requires c.input.id !in s.rows && !CodeTaken(s.rows, c.input.code)
    ensures Inv(InsertAndCommitStep(s))
  {
    var rows' := View(s)[c.input.id := NewInvite(c.input)];
    assert InsertAndCommitStep(s) == s.(rows := rows', creator := None);
    assert Inserted(s.rows, c, rows');
    InsertedKeepsTable(s.rows, c, rows');
  }

  lemma InsertedKeepsTable(rows: Table, c: Creator, rows': Table)
    requires Capacity(rows) && UniqueCodes(rows) && CreatorOk(rows, c) && c.pc.SeatsCounted?
    requires Inserted(rows, c, rows')
    ensures Capacity(rows') && UniqueCodes(rows')
  {
    InsertedLiveRows(rows, c, rows');
    forall i, j | i in rows' && j in rows' && rows'[i].code == rows'[j].code ensures i == j {
      assert (i in rows || i == c.input.id) && (j in rows || j == c.input.id);
    }
    forall i, j | i in rows' && j in rows' && Live(rows'[i]) && Live(rows'[j]) && rows'[i].email == rows'[j].email
      ensures i == j
    {
      assert (i in rows || i == c.input.id) && (j in rows || j == c.input.id);
    }
  }

  lemma StepKeepsInv(s: State, a: Action)
    requires Inv(s)
    ensures Inv(Apply(s, a))
  {
    var s' := Apply(s, a);
    StepEvolves(s, a);
    if a.Sweep? || a.CheckEmail? || a.CountSeats? || a.InsertAndCommit? || a.RollbackCreate? {
      CreateStepKeepsInv(s, a);
    } else {
      assert s'.rows.Keys == s.rows.Keys;
      EvolvingKeepsCapacity(s.rows, s'.rows);
      if s.creator.Some? {
        EvolvingKeepsCreator(s.rows, s'.rows, s.creator.value);
      }
    }
  }
}
