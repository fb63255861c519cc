// The invite procedures as they run when no other session interferes: imperative methods over the
// table, each proved to perform exactly its statements (`Invites.Apply`) and to report them.

module InviteService {
  import opened Options
  import opened BalancePolicy
  import opened Invites
  import opened InviteTheorems

  const INVITE_RESERVATION_TTL_MS := 15 * 60 * 1_000

  datatype CreateError =
    | CapacityReached | ActiveEmailExists | BalanceSoftWaitlist | BalanceHardGate | ConstraintViolation
    | ConsentInvalid(error: ConsentError)
  datatype CreateResult =
    | Created(inviteId: int, expiresAt: int, occupiedSeats: nat, balanceGate: BalanceGate)
    | NotCreated(error: CreateError)

  datatype ReserveCode = Invalid | CodeExpired | CodeRevoked | CodeConsumed | EmailMismatch
  datatype ReserveResult = ReservedFor(inviteId: int, capability: int) | NotReserved(code: ReserveCode)

  datatype ConsumeResult = ConsumeOk | NoSuchInvite | NonceMismatch | AlreadyConsumed

  datatype Ticket = Ticket(inviteId: int, email: string, capability: int)

  /** The statements of one invite creation, in order, with nothing interleaved. */
  function CreateTransaction(s: State, input: CreateInput): State {
    InsertAndCommitStep(CountSeatsStep(CheckEmailStep(SweepStep(BeginCreateStep(s, input)))))
  }

  /** The table an invite creation observes: expired open invites are out. */
  function Observed(rows: Table, now: int): Table { SweptRows(rows, set id | id in rows && SweepWhere(rows[id], now)) }

  /** The rows that take a seat at `now`, in the fields of the committed table. */
  ghost function SeatsTaken(rows: Table, now: int): set<int> {
    set id | id in rows && rows[id].phase == AlphaStage1 &&
      (rows[id].status == Consumed ||
        ((rows[id].status == Pending || rows[id].status == Reserved) && now < rows[id].expiresAt))
  }
  ghost predicate EmailSeated(rows: Table, now: int, email: string) {
    exists id :: id in SeatsTaken(rows, now) && rows[id].email == email
  }
  ghost function SeatsOf(rows: Table, now: int, bucket: Bucket): set<int> {
    set id | id in SeatsTaken(rows, now) && rows[id].bucket == bucket
  }

  /** What the transaction counts after its sweep are the committed rows that take a seat. */
  lemma ObservedSeats(rows: Table, now: int)
    ensures SeatIds(Observed(rows, now), now) == SeatsTaken(rows, now)
    ensures forall bucket :: BucketSeats(Observed(rows, now), now, bucket) == SeatsOf(rows, now, bucket)
    ensures forall email :: EmailActive(Observed(rows, now), email) <==> EmailSeated(rows, now, email)
  {
    var seen := Observed(rows, now);
    forall id ensures id in SeatIds(seen, now) <==> id in SeatsTaken(rows, now) {
    }
    forall bucket ensures BucketSeats(seen, now, bucket) == SeatsOf(rows, now, bucket) {
      forall id ensures id in BucketSeats(seen, now, bucket) <==> id in SeatsOf(rows, now, bucket) {
      }
    }
    forall email ensures EmailActive(seen, email) <==> EmailSeated(rows, now, email) {
      if EmailActive(seen, email) {
        var id :| id in seen && Live(seen[id]) && seen[id].email == email;
        assert id in SeatsTaken(rows, now);
      } else {
        forall id | id in SeatsTaken(rows, now) ensures rows[id].email != email {
          assert id in seen && Live(seen[id]);
        }
      }
    }
  }

  /** So each reason to refuse is a condition on those rows. */
  lemma RefusalsInFields(rows: Table, input: CreateInput)
    ensures var seen := Observed(rows, input.now);
            var refusal := Refusal(
              input.bucket, |BucketSeats(seen, input.now, BucketA)|, |BucketSeats(seen, input.now, BucketB)|);
            var own := |SeatsOf(rows, input.now, input.bucket)| + 1;
            var counted := |SeatsOf(rows, input.now, BucketA)| + |SeatsOf(rows, input.now, BucketB)| + 1;
            && |SeatIds(seen, input.now)| == |SeatsTaken(rows, input.now)|
            && (EmailActive(seen, input.email) <==> EmailSeated(rows, input.now, input.email))
            && (refusal == Some(HardGate) <==> input.bucket != NotCounted && 100 * own >= 70 * counted)
            && (refusal == Some(SoftWaitlist) <==>
                  input.bucket != NotCounted && 65 * counted <= 100 * own < 70 * counted)
  {
    ObservedSeats(rows, input.now);
    RefusedInSeats(input.bucket, |SeatsOf(rows, input.now, BucketA)|, |SeatsOf(rows, input.now, BucketB)|);
  }

  /** Why the row with the presented code was not reserved. */
  function ReserveFailure(r: Invite, email: string, checkedAt: int): ReserveCode {
    if r.email != email then EmailMismatch
    else if r.phase != AlphaStage1 then Invalid
    else if r.status == Revoked then CodeRevoked
    else if r.status == Consumed then CodeConsumed
    else if r.expiresAt < checkedAt || r.status == Status.Expired then CodeExpired
    else Invalid
  }

  /** A reservation run alone: the statement reaches every matching row, and changes nothing without one. */
  lemma ReservedAlone(rows: Table, nonces: set<int>, code: int, email: string, now: int, nonce: int)
    requires nonce !in nonces && UniqueCodes(rows)
    ensures var ids := set id | id in rows && ReserveWhere(rows[id], code, email, now);
            var reserved := ReservedRows(rows, ids, now, nonce);
            ReserveStep(State(rows, None, map[], nonces), code, email, now, nonce) ==
              State(reserved, None, map[], nonces + {nonce}) &&
            UniqueCodes(reserved) && (ids == {} ==> reserved == rows) &&
            forall id :: id in ids ==>
              reserved == rows[id := rows[id].(status := Reserved, reservedAt := Some(now), nonce := Some(nonce))]
  {
    var ids := set id | id in rows && ReserveWhere(rows[id], code, email, now);
    var reserved := ReservedRows(rows, ids, now, nonce);
    forall id | id in ids
      ensures reserved == rows[id := rows[id].(status := Reserved, reservedAt := Some(now), nonce := Some(nonce))]
    {
      var marked := rows[id := rows[id].(status := Reserved, reservedAt := Some(now), nonce := Some(nonce))];
      forall other | other in rows ensures reserved[other] == marked[other] {
      }
      assert reserved == marked;
    }
  }

  /** The report, in the fields of the row presented: the email first, then how the invite ended. */
  lemma FailureReported(r: Invite, email: string, checkedAt: int)
    ensures var report := ReserveFailure(r, email, checkedAt);
            var own := r.email == email && r.phase == AlphaStage1;
            var ended := r.status == Revoked || r.status == Consumed;
            && (report == EmailMismatch <==> r.email != email)
            && (report == CodeRevoked <==> own && r.status == Revoked)
            && (report == CodeConsumed <==> own && r.status == Consumed)
            && (report == CodeExpired <==> own && !ended && (r.status == Status.Expired || r.expiresAt < checkedAt))
  {
  }

  /** What the transaction reports, and the table it leaves, in terms of what it observed. */
  ghost predicate TransactionReport(before: Table, input: CreateInput, after: Table, r: CreateResult) {
    var seen := Observed(before, input.now);
    var refusal := Refusal(
      input.bucket, |BucketSeats(seen, input.now, BucketA)|, |BucketSeats(seen, input.now, BucketB)|);
    var free := !EmailActive(seen, input.email) && |SeatIds(seen, input.now)| < ALPHA_STAGE_1_CAP;
    && (r == NotCreated(ActiveEmailExists) <==> EmailActive(seen, input.email))
    && (r == NotCreated(CapacityReached) <==>
          !EmailActive(seen, input.email) && |SeatIds(seen, input.now)| >= ALPHA_STAGE_1_CAP)
    && (r == NotCreated(BalanceHardGate) <==> free && refusal == Some(HardGate))
    && (r == NotCreated(BalanceSoftWaitlist) <==> free && refusal == Some(SoftWaitlist))
    && (r == NotCreated(ConstraintViolation) ==> input.id in before || CodeTaken(before, input.code))
    && !(r.NotCreated? && r.error.ConsentInvalid?)
    && (r.NotCreated? ==> after == before)
    && (r.Created? ==>
          && r.inviteId == input.id && input.id !in before && !CodeTaken(before, input.code)
          && after == seen[input.id := NewInvite(input)]
          && r.expiresAt == input.now + INVITE_LIFETIME_MS && r.occupiedSeats == |SeatIds(seen, input.now)| + 1)
  }

  lemma ReportInFields(before: Table, input: CreateInput, after: Table, r: CreateResult)
    requires TransactionReport(before, input, after, r)
    ensures var taken := SeatsTaken(before, input.now);
            var counted := |SeatsOf(before, input.now, BucketA)| + |SeatsOf(before, input.now, BucketB)| + 1;
            var own := |SeatsOf(before, input.now, input.bucket)| + 1;
            var again := EmailSeated(before, input.now, input.email);
            var free := !again && |taken| < 50;
            var weighed := free && input.bucket != NotCounted;
            && (r == NotCreated(ActiveEmailExists) <==> again)
            && (r == NotCreated(CapacityReached) <==> !again && |taken| >= 50)
            && (r == NotCreated(BalanceHardGate) <==> weighed && 100 * own >= 70 * counted)
            && (r == NotCreated(BalanceSoftWaitlist) <==> weighed && 65 * counted <= 100 * own < 70 * counted)
            && (r.Created? ==> free && r.occupiedSeats == |taken| + 1 == |LiveIds(after)|)
    ensures r.Created? ==>
              && after.Keys == before.Keys + {input.id} && after[input.id] == NewInvite(input)
              && (forall id :: id in before ==>
                   var row := before[id];
                   after[id] ==
                     if row.phase == AlphaStage1 && (row.status == Pending || row.status == Reserved) &&
                       row.expiresAt <= input.now
                     then row.(status := Status.Expired, reservedAt := None, nonce := None) else row)
              && (forall id :: id in LiveIds(after) && after[id].email == input.email ==> id == input.id)
              && (input.bucket != NotCounted ==> BelowShare(after, input.bucket))
  {
    RefusalsInFields(before, input);
    if r.Created? { CreatedInFields(before, input); }
  }

  class Service {
    var rows: Table
    ghost var nonces: set<int>

    /** The unique index on code hashes. */
    ghost predicate Valid() reads this { UniqueCodes(rows) }

    ghost function Committed(): State reads this { State(rows, None, map[], nonces) }

    /** The consent is validated before the transaction. */
    method CreateStage1Invite(input: CreateInput, consent: Option<Consent>) returns (r: CreateResult)
      requires Valid()
      modifies this
      ensures Valid() && nonces == old(nonces)
      ensures r.NotCreated? && r.error.ConsentInvalid? <==> !ConsentOk(input.bucket, consent)
      ensures Committed() == if ConsentOk(input.bucket, consent) then CreateTransaction(old(Committed()), input)
                             else old(Committed())
      ensures r.NotCreated? ==> rows == old(rows)
      ensures var taken := SeatsTaken(old(rows), input.now);
              var counted := |SeatsOf(old(rows), input.now, BucketA)| + |SeatsOf(old(rows), input.now, BucketB)| + 1;
              var own := |SeatsOf(old(rows), input.now, input.bucket)| + 1;
              var again := EmailSeated(old(rows), input.now, input.email);
              var free := ConsentOk(input.bucket, consent) && !again && |taken| < 50;
              var weighed := free && input.bucket != NotCounted;
              && (r == NotCreated(ActiveEmailExists) <==> ConsentOk(input.bucket, consent) && again)
              && (r == NotCreated(CapacityReached) <==>
                    ConsentOk(input.bucket, consent) && !again && |taken| >= 50)
              && (r == NotCreated(BalanceHardGate) <==> weighed && 100 * own >= 70 * counted)
              && (r == NotCreated(BalanceSoftWaitlist) <==> weighed && 65 * counted <= 100 * own < 70 * counted)
              && (r.Created? ==> free && r.occupiedSeats == |taken| + 1 == |LiveIds(rows)|)
      ensures r == NotCreated(ConstraintViolation) ==>
                input.id in old(rows) || exists id :: id in old(rows) && old(rows)[id].code == input.code
      ensures r.Created? ==>
                && input.id !in old(rows) && (forall id :: id in old(rows) ==> old(rows)[id].code != input.code)
                && r.inviteId == input.id && r.expiresAt == input.now + 7 * 24 * 60 * 60 * 1_000
                && rows.Keys == old(rows).Keys + {input.id}
                && rows[input.id] == Invite(input.email, input.code, Pending, r.expiresAt, None, None, None, None,
                     AlphaStage1, input.bucket)
                && (forall id :: id in old(rows) ==>
                     var row := old(rows)[id];
                     rows[id] ==
                       if row.phase == AlphaStage1 && (row.status == Pending || row.status == Reserved) &&
                         row.expiresAt <= input.now
                       then row.(status := Status.Expired, reservedAt := None, nonce := None) else row)
      ensures r.Created? ==>
                && (forall id :: id in LiveIds(rows) && rows[id].email == input.email ==> id == input.id)
                && (input.bucket != NotCounted ==> BelowShare(rows, input.bucket))
    {
      var refused := ValidateConsent(input.bucket, consent);
      if refused.Some? { return NotCreated(ConsentInvalid(refused.value)); }
      r := CreateInTransaction(input);
      ReportInFields(old(rows), input, rows, r);
    }

    method CreateInTransaction(input: CreateInput) returns (r: CreateResult)
      requires Valid()
      modifies this
      ensures Valid() && nonces == old(nonces)
      ensures Committed() == CreateTransaction(old(Committed()), input)
      ensures TransactionReport(old(rows), input, rows, r)
    {
      var before := rows;
      rows := Observed(rows, input.now);
      ghost var swept := SweepStep(BeginCreateStep(old(Committed()), input));
      assert swept.creator.Some? && View(swept) == rows;
      if EmailActive(rows, input.email) {
        rows := before;
        return NotCreated(ActiveEmailExists);
      }
      var seats := |SeatIds(rows, input.now)|;
      var bucketA := |BucketSeats(rows, input.now, BucketA)|;
      var bucketB := |BucketSeats(rows, input.now, BucketB)|;
      if seats >= ALPHA_STAGE_1_CAP {
        rows := before;
        return NotCreated(CapacityReached);
      }
      var balanceGate := ProjectedGate(input.bucket, bucketA, bucketB);
      if WouldAddToMajority(input.bucket, balanceGate) {
        if balanceGate.gate == HardGate {
          rows := before;
          return NotCreated(BalanceHardGate);
        }
        if balanceGate.gate == SoftWaitlist {
          rows := before;
          return NotCreated(BalanceSoftWaitlist);
        }
      }
      if input.id in before || CodeTaken(before, input.code) {
        rows := before;
        return NotCreated(ConstraintViolation);
      }
      rows := rows[input.id := NewInvite(input)];
      return Created(input.id, input.now + INVITE_LIFETIME_MS, seats + 1, balanceGate);
    }

    /** `now` is read first, the release reads its own clock, and the failure report a third one. */
    method ReserveInviteForEmail(code: int, email: string, nonce: int, now: int, releaseAt: int, checkedAt: int)
      returns (r: ReserveResult)
      requires Valid() && nonce !in nonces
      modifies this
      ensures Valid()
      ensures Committed() == ReserveStep(StaleRelease(old(Committed()), releaseAt), code, email, now, nonce)
      ensures var offered := StaleRelease(old(Committed()), releaseAt).rows;
              if r.ReservedFor? then
                && r.capability == nonce && r.inviteId in offered
                && var row := offered[r.inviteId];
                && row.code == code && row.email == email && row.phase == AlphaStage1 && row.status == Pending
                && now < row.expiresAt
                && rows == offered[r.inviteId :=
                     row.(status := Reserved, reservedAt := Some(now), nonce := Some(nonce))]
              else
                && rows == offered
                && forall id :: id in rows && rows[id].code == code && rows[id].email == email ==>
                     rows[id].phase != AlphaStage1 || rows[id].status != Pending || rows[id].expiresAt <= now
      ensures r.NotReserved? && !(exists id :: id in rows && rows[id].code == code) ==> r.code == Invalid
      ensures r.NotReserved? ==> forall id :: id in rows && rows[id].code == code ==>
                var row := rows[id];
                var own := row.email == email && row.phase == AlphaStage1;
                var ended := row.status == Revoked || row.status == Consumed;
                && (r.code == EmailMismatch <==> row.email != email)
                && (r.code == CodeRevoked <==> own && row.status == Revoked)
                && (r.code == CodeConsumed <==> own && row.status == Consumed)
                && (r.code == CodeExpired <==>
                      own && !ended && (row.status == Status.Expired || row.expiresAt < checkedAt))
    {
      var _ := ReleaseStaleReservedInvites(releaseAt);
      ghost var offered := rows;
      var ids := set id | id in rows && ReserveWhere(rows[id], code, email, now);
      ReservedAlone(rows, nonces, code, email, now, nonce);
      rows := ReservedRows(rows, ids, now, nonce);
      nonces := nonces + {nonce};
      if ids != {} {
        var id :| id in ids;
        return ReservedFor(id, nonce);
      }
      assert rows == offered;
      if !CodeTaken(rows, code) {
        return NotReserved(Invalid);
      }
      var id :| id in rows && rows[id].code == code;
      FailureReported(rows[id], email, checkedAt);
      assert forall other :: other in rows && rows[other].code == code ==> other == id;
      return NotReserved(ReserveFailure(rows[id], email, checkedAt));
    }

    method ReleaseStaleReservedInvites(now: int) returns (released: nat)
      requires Valid()
      modifies `rows
      ensures Valid()
      ensures Committed() == StaleRelease(old(Committed()), now)
      ensures rows.Keys == old(rows).Keys && released == |set id | id in rows && rows[id] != old(rows)[id]|
      ensures forall id :: id in rows ==>
                var row := old(rows)[id];
                rows[id] ==
                  if row.phase == AlphaStage1 && row.status == Reserved && row.reservedAt.Some? &&
                    row.reservedAt.value < now - 15 * 60 * 1_000
                  then row.(status := Pending, reservedAt := None, nonce := None) else row
    {
      var cutoff := now - INVITE_RESERVATION_TTL_MS;
      var ids := set id | id in rows && ReleaseWhere(rows[id], cutoff);
      rows := ReleasedRows(rows, ids);
      assert ids == set id | id in old(rows) && id in old(rows).Keys && ReleaseWhere(old(rows)[id], cutoff) &&
        !RowLocked(old(Committed()), id);
      forall id ensures id in ids <==> id in rows && rows[id] != old(rows)[id] {
        if id in ids {
          assert rows[id].status == Pending;
        }
      }
      assert ids == set id | id in rows && rows[id] != old(rows)[id];
      return |ids|;
    }

    /** A ticket is honoured exactly when presenting it now would consume the invite it names. */
    method VerifyInviteReservation(ticket: Ticket, now: int) returns (ok: bool)
      ensures ok <==>
                && ticket.inviteId in rows && rows[ticket.inviteId].email == ticket.email
                && ticket.inviteId in ConsumeUpdateStep(Committed(), ticket.inviteId, 0, ticket.capability, now).claims
      ensures ok <==>
                && ticket.inviteId in rows
                && var row := rows[ticket.inviteId];
                row.phase == AlphaStage1 && row.status == Reserved && row.email == ticket.email &&
                row.nonce == Some(ticket.capability) && now < row.expiresAt
    {
      if ticket.inviteId !in rows { return false; }
      var invite := rows[ticket.inviteId];
      if invite.phase != AlphaStage1 { return false; }
      if invite.status != Reserved { return false; }
      if invite.email != ticket.email { return false; }
      if invite.nonce != Some(ticket.capability) { return false; }
      if invite.expiresAt <= now { return false; }
      return true;
    }

    method ConsumeReservedInvite(inviteId: int, user: int, capability: int, now: int) returns (r: ConsumeResult)
      requires Valid()
      modifies `rows
      ensures Valid()
      ensures Committed() == ConsumeCommitStep(ConsumeUpdateStep(old(Committed()), inviteId, user, capability, now),
        inviteId)
      ensures r == ConsumeOk <==>
                && inviteId in old(rows)
                && var row := old(rows)[inviteId];
                row.phase == AlphaStage1 && row.status == Reserved && row.nonce == Some(capability) &&
                now < row.expiresAt
      ensures rows == if r != ConsumeOk then old(rows) else old(rows)[inviteId :=
                old(rows)[inviteId].(status := Consumed, consumedAt := Some(now), consumedBy := Some(user))]
      ensures r == AlreadyConsumed <==> inviteId in old(rows) && old(rows)[inviteId].status == Consumed
      ensures r == NoSuchInvite <==> inviteId !in old(rows)
    {
      if inviteId in rows && ConsumeWhere(rows[inviteId], capability, now) {
        rows := rows[inviteId := Consume(rows[inviteId], Claim(user, now))];
        assert rows[inviteId].status == Consumed && old(rows)[inviteId].status == Reserved;
        return ConsumeOk;
      }
      if inviteId !in rows { return NoSuchInvite; }
      if rows[inviteId].status == Consumed { return AlreadyConsumed; }
      return NonceMismatch;
    }

    method RevokeInvite(email: string) returns (revoked: nat)
      requires Valid()
      modifies `rows
      ensures Valid()
      ensures Committed() == RevokeStep(old(Committed()), email, old(rows).Keys)
      ensures rows.Keys == old(rows).Keys && revoked == |set id | id in rows && rows[id] != old(rows)[id]|
      ensures forall id :: id in rows ==>
                var row := old(rows)[id];
                rows[id] ==
                  if row.email == email && (row.status == Pending || row.status == Reserved)
                  then row.(status := Revoked, reservedAt := None, nonce := None) else row
    {
      var ids := set id | id in rows && RevokeWhere(rows[id], email);
      rows := RevokedRows(rows, ids);
      assert ids == set id | id in old(rows) && id in old(rows).Keys && RevokeWhere(old(rows)[id], email) &&
        !RowLocked(old(Committed()), id);
      forall id ensures id in ids <==> id in rows && rows[id] != old(rows)[id] {
        if id in ids {
          assert rows[id].status == Revoked;
        }
      }
      assert ids == set id | id in rows && rows[id] != old(rows)[id];
      return |ids|;
    }
  }

  function StaleRelease(s: State, now: int): State { ReleaseStep(s, now - INVITE_RESERVATION_TTL_MS, s.rows.Keys) }

  /** After the insert, the occupied seats are the seats counted and the new one. */
  lemma CreatedSeats(before: Table, input: CreateInput, view: Table, after: Table)
    requires view == Observed(before, input.now)
    requires input.id !in before && after == view[input.id := NewInvite(input)]
    requires !EmailActive(view, input.email)
    ensures |LiveIds(after)| == |SeatIds(view, input.now)| + 1
    ensures forall id :: id in LiveIds(after) && after[id].email == input.email ==> id == input.id
    ensures forall bucket ::
      |CountedIds(after, bucket)| == |BucketSeats(view, input.now, bucket)| + (if input.bucket == bucket then 1 else 0)
  {
    forall id ensures id in LiveIds(after) <==> id in SeatIds(view, input.now) + {input.id} {
      if id in before && id != input.id {
        assert after[id] == view[id];
      }
    }
    assert LiveIds(after) == SeatIds(view, input.now) + {input.id};
    forall bucket
      ensures |CountedIds(after, bucket)| == |BucketSeats(view, input.now, bucket)| +
        (if input.bucket == bucket then 1 else 0)
    {
      forall id ensures id in BucketSeats(view, input.now, bucket) <==> id in CountedIds(view, bucket) {
        if id in view {
          assert id in before;
        }
      }
      assert BucketSeats(view, input.now, bucket) == CountedIds(view, bucket);
      AddedSeat(view, input, bucket);
    }
  }

  /** The table after an insert, field by field. */
  lemma CreatedInFields(before: Table, input: CreateInput)
    requires input.id !in before && !EmailActive(Observed(before, input.now), input.email)
    requires var seen := Observed(before, input.now);
             Refusal(input.bucket, |BucketSeats(seen, input.now, BucketA)|,
               |BucketSeats(seen, input.now, BucketB)|).None?
    ensures var after := Observed(before, input.now)[input.id := NewInvite(input)];
            && |LiveIds(after)| == |SeatIds(Observed(before, input.now), input.now)| + 1
            && (forall id :: id in LiveIds(after) && after[id].email == input.email ==> id == input.id)
            && (input.bucket != NotCounted ==> BelowShare(after, input.bucket))
            && (forall id :: id in before ==>
                  var row := before[id];
                  after[id] ==
                    if row.phase == AlphaStage1 && (row.status == Pending || row.status == Reserved) &&
                      row.expiresAt <= input.now
                    then row.(status := Status.Expired, reservedAt := None, nonce := None) else row)
  {
    var seen := Observed(before, input.now);
    CreatedSeats(before, input, seen, seen[input.id := NewInvite(input)]);
    if input.bucket != NotCounted {
      AdmittedIffBelow65(
        input.bucket, |BucketSeats(seen, input.now, BucketA)|, |BucketSeats(seen, input.now, BucketB)|);
    }
  }

  /** A reservation that found its row yields a ticket that verifies, and whose consumption by a
      new user, at any instant before expiry, changes exactly that row. */
  lemma ReserveVerifyConsume(s: State, id: int, nonce: int, now: int, user: int, later: int)
    requires Quiet(s) && UniqueCodes(s.rows) && nonce !in s.nonces
    requires id in s.rows && ReserveWhere(s.rows[id], s.rows[id].code, s.rows[id].email, now) &&
      later < s.rows[id].expiresAt
    ensures var reserved := ReserveStep(s, s.rows[id].code, s.rows[id].email, now, nonce);
            && Holds(reserved, id, nonce)
            && (forall other :: other in s.rows && other != id ==> reserved.rows[other] == s.rows[other])
            && var consumed := ConsumeCommitStep(ConsumeUpdateStep(reserved, id, user, nonce, later), id);
               consumed.rows == reserved.rows[id := Consume(reserved.rows[id], Claim(user, later))] && Quiet(consumed)
  {
  }
}
