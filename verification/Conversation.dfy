// Blocking a user and sending a message race on one pair of users. Both transactions take an
// advisory lock named by the pair before they check or change anything; reads see committed rows.

module Conversation {

  type User = nat
  type ProfileId = nat
  type TxId = nat

  datatype Profile = Profile(owner: User, onboarded: bool)

  /** Commits, in commit order. */
  datatype Event =
    | Unlocked(viewer: User, profile: ProfileId)
    | Blocked(blocker: User, blocked: User)
    | Sent(sender: User, recipient: User)

  datatype SendPc =
    | SendStarted
    | TargetRead(owner: User)
    | PairLocked(owner: User)
    | ViewerRead(owner: User, viewerProfile: ProfileId)
    | NotBlocked(owner: User, viewerProfile: ProfileId)
    | Authorized(owner: User)
    | MessageInserted(owner: User)
  datatype BlockPc = BlockStarted | BlockLocked | BlockInserted

  datatype Tx =
    | Sending(viewer: User, target: ProfileId, pc: SendPc)
    | Blocking(blocker: User, blocked: User, blockPc: BlockPc)

  datatype State = State(
    lockKey: (User, User) -> int,
    profiles: map<ProfileId, Profile>, blocks: set<(User, User)>, unlocks: set<(User, ProfileId)>, log: seq<Event>,
    locks: map<int, TxId>, txs: map<TxId, Tx>)

  datatype Action =
    | AddProfile(id: ProfileId, owner: User) | Onboard(id: ProfileId) | CommitUnlock(viewer: User, profile: ProfileId)
    | StartSend(tx: TxId, viewer: User, target: ProfileId) | StartBlock(tx: TxId, blocker: User, blocked: User)
    | Step(tx: TxId)
    | Abort(tx: TxId)

  /** The lock name of the code: the two ids are put in order, then hashed by any function. */
  function PairKey(hash: (User, User) -> int): (User, User) -> int {
    (a: User, b: User) => if a < b then hash(a, b) else hash(b, a)
  }

  function End(s: State, tx: TxId): State {
    s.(txs := s.txs - {tx}, locks := map k | k in s.locks && s.locks[k] != tx :: s.locks[k])
  }

  function Advance(s: State, tx: TxId, t: Tx): State { s.(txs := s.txs[tx := t]) }

  /** Waits while another transaction holds the key. */
  function TakeLock(s: State, tx: TxId, key: int, t: Tx): State {
    if key in s.locks && s.locks[key] != tx then s else Advance(s.(locks := s.locks[key := tx]), tx, t)
  }

  predicate OwnOnboarded(profiles: map<ProfileId, Profile>, user: User, id: ProfileId) {
    id in profiles && profiles[id] == Profile(user, true)
  }
  predicate PairBlocked(blocks: set<(User, User)>, a: User, b: User) { (a, b) in blocks || (b, a) in blocks }

  ghost function SendStep(s: State, tx: TxId, t: Tx): State
    requires t.Sending?
  {
    match t.pc
    case SendStarted =>
      if t.target !in s.profiles || !s.profiles[t.target].onboarded ||
        s.profiles[t.target].owner == t.viewer then End(s, tx)
      else Advance(s, tx, t.(pc := TargetRead(s.profiles[t.target].owner)))
    case TargetRead(owner) => TakeLock(s, tx, s.lockKey(t.viewer, owner), t.(pc := PairLocked(owner)))
    case PairLocked(owner) =>
      if id :| OwnOnboarded(s.profiles, t.viewer, id) then Advance(s, tx, t.(pc := ViewerRead(owner, id)))
        else End(s, tx)
    case ViewerRead(owner, mine) =>
      if PairBlocked(s.blocks, t.viewer, owner) then End(s, tx) else Advance(s, tx, t.(pc := NotBlocked(owner, mine)))
    case NotBlocked(owner, mine) =>
      if (t.viewer, t.target) in s.unlocks || (owner, mine) in s.unlocks then
        Advance(s, tx, t.(pc := Authorized(owner))) else End(s, tx)
    case Authorized(owner) => Advance(s, tx, t.(pc := MessageInserted(owner)))
    case MessageInserted(owner) => End(s.(log := s.log + [Sent(t.viewer, owner)]), tx)
  }

  function BlockStep(s: State, tx: TxId, t: Tx): State
    requires t.Blocking?
  {
    match t.blockPc
    case BlockStarted => TakeLock(s, tx, s.lockKey(t.blocker, t.blocked), t.(blockPc := BlockLocked))
    case BlockLocked =>
      if (t.blocker, t.blocked) in s.blocks then End(s, tx) else Advance(s, tx, t.(blockPc := BlockInserted))
    case BlockInserted =>
      End(s.(blocks := s.blocks + {(t.blocker, t.blocked)}, log := s.log + [Blocked(t.blocker, t.blocked)]), tx)
  }

  ghost function Apply(s: State, a: Action): State {
    match a
    case AddProfile(id, owner) =>
      if id in s.profiles || (exists p :: p in s.profiles && s.profiles[p].owner == owner) then s
      else s.(profiles := s.profiles[id := Profile(owner, false)])
    case Onboard(id) =>
      if id in s.profiles then s.(profiles := s.profiles[id := s.profiles[id].(onboarded := true)]) else s
    case CommitUnlock(viewer, profile) =>
      if profile !in s.profiles || (viewer, profile) in s.unlocks then s
      else s.(unlocks := s.unlocks + {(viewer, profile)}, log := s.log + [Unlocked(viewer, profile)])
    case StartSend(tx, viewer, target) =>
      if tx in s.txs then s else Advance(s, tx, Sending(viewer, target, SendStarted))
    case StartBlock(tx, blocker, blocked) =>
      if tx in s.txs || blocker == blocked then s else Advance(s, tx, Blocking(blocker, blocked, BlockStarted))
    case Step(tx) =>
      if tx !in s.txs then s else if s.txs[tx].Sending? then SendStep(s, tx, s.txs[tx]) else BlockStep(s, tx, s.txs[tx])
    case Abort(tx) => End(s, tx)
  }

  // ---- Safety ----

  predicate SamePair(a: User, b: User, c: User, d: User) { (a == c && b == d) || (a == d && b == c) }

  /** No message commits once a block on its pair, in either direction, has committed. */
  ghost predicate NoSendAfterBlock(log: seq<Event>) {
    forall i, j :: 0 <= i < j < |log| && log[i].Blocked? && log[j].Sent? ==>
      !SamePair(log[i].blocker, log[i].blocked, log[j].sender, log[j].recipient)
  }

  /** The viewer unlocked a profile of the other side of this pair. */
  predicate UnlocksPair(profiles: map<ProfileId, Profile>, e: Event, a: User, b: User) {
    e.Unlocked? && e.profile in profiles && SamePair(e.viewer, profiles[e.profile].owner, a, b)
  }

  /** Every message was preceded by a committed unlock between its two users, in one direction. */
  ghost predicate SendsAfterUnlock(s: State) {
    forall j :: 0 <= j < |s.log| && s.log[j].Sent? ==>
      exists i :: 0 <= i < j && UnlocksPair(s.profiles, s.log[i], s.log[j].sender, s.log[j].recipient)
  }

  ghost predicate Symmetric(key: (User, User) -> int) { forall a: User, b: User :: key(a, b) == key(b, a) }

  // ---- The invariant ----

  predicate HoldsLock(t: Tx) {
    if t.Sending? then !t.pc.SendStarted? && !t.pc.TargetRead? else !t.blockPc.BlockStarted?
  }
  function TxKey(s: State, t: Tx): int
    requires HoldsLock(t)
  {
    if t.Sending? then s.lockKey(t.viewer, t.pc.owner) else s.lockKey(t.blocker, t.blocked)
  }
  predicate Cleared(t: Tx) { t.Sending? && (t.pc.NotBlocked? || t.pc.Authorized? || t.pc.MessageInserted?) }

  ghost predicate TxOk(s: State, tx: TxId, t: Tx) {
    && (HoldsLock(t) ==> TxKey(s, t) in s.locks && s.locks[TxKey(s, t)] == tx)
    && (t.Sending? && !t.pc.SendStarted? ==> t.target in s.profiles && s.profiles[t.target].owner == t.pc.owner)
    && (t.Sending? && (t.pc.ViewerRead? || t.pc.NotBlocked?) ==>
          t.pc.viewerProfile in s.profiles && s.profiles[t.pc.viewerProfile].owner == t.viewer)
    && (Cleared(t) ==> !PairBlocked(s.blocks, t.viewer, t.pc.owner))
    && (t.Sending? && (t.pc.Authorized? || t.pc.MessageInserted?) ==> HasUnlock(s, t.viewer, t.pc.owner))
  }

  ghost predicate HasUnlock(s: State, a: User, b: User) {
    exists i :: 0 <= i < |s.log| && UnlocksPair(s.profiles, s.log[i], a, b)
  }

  ghost predicate LogMatches(s: State) {
    && (forall e :: e in s.log && e.Blocked? ==> (e.blocker, e.blocked) in s.blocks)
    && (forall u, p :: (u, p) in s.unlocks ==> Unlocked(u, p) in s.log && p in s.profiles)
  }

  ghost predicate Inv(s: State) {
    && Symmetric(s.lockKey) && LogMatches(s) && NoSendAfterBlock(s.log) && SendsAfterUnlock(s)
    && (forall tx :: tx in s.txs ==> TxOk(s, tx, s.txs[tx]))
  }

  // ---- Steps keep it ----

  /** Tables only grow; profiles keep their owner; the log is extended. */
  ghost predicate Grows(s: State, s': State) {
    && s'.lockKey == s.lockKey && s.log <= s'.log && s.blocks <= s'.blocks
    && (forall id :: id in s.profiles ==> id in s'.profiles && s'.profiles[id].owner == s.profiles[id].owner)
  }

  lemma UnlockPersists(s: State, s': State, a: User, b: User)
    requires Grows(s, s') && HasUnlock(s, a, b)
    ensures HasUnlock(s', a, b)
  {
  }

  /** A transaction survives another session's step that keeps its lock and adds no block on its pair. */
  lemma OtherTxKept(s: State, s': State, tx: TxId, t: Tx)
    requires TxOk(s, tx, t) && Grows(s, s')
    requires forall k :: k in s.locks && s.locks[k] == tx ==> k in s'.locks && s'.locks[k] == tx
    requires Cleared(t) ==> !PairBlocked(s'.blocks, t.viewer, t.pc.owner)
    ensures TxOk(s', tx, t)
  {
  }

  /** Appending one event keeps the log facts when the event itself is justified. */
  lemma AppendKeepsLog(s: State, s': State, e: Event)
    requires NoSendAfterBlock(s.log) && SendsAfterUnlock(s) && LogMatches(s) && Grows(s, s')
    requires s'.log == s.log + [e]
    requires e.Sent? ==> !PairBlocked(s.blocks, e.sender, e.recipient) && HasUnlock(s, e.sender, e.recipient)
    ensures NoSendAfterBlock(s'.log) && SendsAfterUnlock(s')
  {
  }

  lemma SameLogKept(s: State, s': State)
    requires SendsAfterUnlock(s) && Grows(s, s') && s'.log == s.log
    ensures SendsAfterUnlock(s')
  {
  }

  /** Everything but the transactions' own progress, for a step of transaction `tx`. */
  lemma OthersKept(s: State, s': State, tx: TxId)
    requires Inv(s) && Grows(s, s')
    requires forall other :: other in s'.txs && other != tx ==> other in s.txs && s'.txs[other] == s.txs[other]
    requires forall k :: k in s.locks && s.locks[k] != tx ==> k in s'.locks && s'.locks[k] == s.locks[k]
    requires s'.blocks == s.blocks || (tx in s.txs && s.txs[tx].Blocking? && HoldsLock(s.txs[tx]) &&
                                       s'.blocks == s.blocks + {(s.txs[tx].blocker, s.txs[tx].blocked)})
    ensures forall other :: other in s'.txs && other != tx ==> TxOk(s', other, s'.txs[other])
  {
  }

  lemma SendStepKeepsInv(s: State, tx: TxId)
    requires Inv(s) && tx in s.txs && s.txs[tx].Sending?
    ensures Inv(SendStep(s, tx, s.txs[tx]))
  {
    var t := s.txs[tx];
    var s' := SendStep(s, tx, t);
    OthersKept(s, s', tx);
    if t.pc.MessageInserted? {
      AppendKeepsLog(s, s', Sent(t.viewer, t.pc.owner));
      assert forall e :: e in s'.log && e.Blocked? ==> e in s.log;
      assert forall e :: e in s.log ==> e in s'.log;
    } else {
      SameLogKept(s, s');
    }
    if tx in s'.txs && s' != s {
      if t.pc.NotBlocked? {
        UnlockRowGivesUnlock(s, tx, t);
      }
      if t.pc.Authorized? {
        UnlockPersists(s, s', t.viewer, t.pc.owner);
      }
      assert TxOk(s', tx, s'.txs[tx]);
    }
  }

  /** Either unlock row the sender looked for is an unlock within its pair. */
  lemma UnlockRowGivesUnlock(s: State, tx: TxId, t: Tx)
    requires LogMatches(s) && TxOk(s, tx, t) && t.Sending? && t.pc.NotBlocked?
    requires (t.viewer, t.target) in s.unlocks || (t.pc.owner, t.pc.viewerProfile) in s.unlocks
    ensures HasUnlock(s, t.viewer, t.pc.owner)
  {
  }

  lemma BlockStepKeepsInv(s: State, tx: TxId)
    requires Inv(s) && tx in s.txs && s.txs[tx].Blocking?
    ensures Inv(BlockStep(s, tx, s.txs[tx]))
  {
    var t := s.txs[tx];
    var s' := BlockStep(s, tx, t);
    OthersKept(s, s', tx);
    if t.blockPc.BlockInserted? {
      AppendKeepsLog(s, s', Blocked(t.blocker, t.blocked));
      assert forall e :: e in s'.log ==> e in s.log || e == Blocked(t.blocker, t.blocked);
      assert forall e :: e in s.log ==> e in s'.log;
    } else {
      SameLogKept(s, s');
    }
  }

  lemma UnlockKeepsInv(s: State, viewer: User, profile: ProfileId)
    requires Inv(s)
    ensures Inv(Apply(s, CommitUnlock(viewer, profile)))
  {
    var s' := Apply(s, CommitUnlock(viewer, profile));
    if s' != s {
      var e := Unlocked(viewer, profile);
      AppendKeepsLog(s, s', e);
      assert s'.log[|s.log|] == e;
      assert forall x :: x in s'.log ==> x in s.log || x == e;
      assert forall x :: x in s.log ==> x in s'.log;
      forall tx | tx in s'.txs ensures TxOk(s', tx, s'.txs[tx]) {
        OtherTxKept(s, s', tx, s.txs[tx]);
      }
    }
  }

  /** Steps that touch only profiles. */
  lemma ProfileStepKeepsInv(s: State, s': State)
    requires Inv(s) && Grows(s, s') && s' == s.(profiles := s'.profiles)
    ensures Inv(s')
  {
  }

  /** Steps that only open or end one transaction. */
  lemma BookkeepingKeepsInv(s: State, s': State, tx: TxId)
    requires Inv(s) && s' == s.(txs := s'.txs, locks := s'.locks)
    requires forall other :: other in s'.txs && other != tx ==> other in s.txs && s'.txs[other] == s.txs[other]
    requires forall k :: k in s.locks && s.locks[k] != tx ==> k in s'.locks && s'.locks[k] == s.locks[k]
    requires tx in s'.txs ==> TxOk(s', tx, s'.txs[tx])
    ensures Inv(s')
  {
  }

  lemma StepKeepsInv(s: State, a: Action)
    requires Inv(s)
    ensures Inv(Apply(s, a))
  {
    var s' := Apply(s, a);
    match a
    case Step(tx) =>
      if tx in s.txs {
        if s.txs[tx].Sending? { SendStepKeepsInv(s, tx); } else { BlockStepKeepsInv(s, tx); }
      }
    case CommitUnlock(viewer, profile) => UnlockKeepsInv(s, viewer, profile);
    case Abort(tx) => BookkeepingKeepsInv(s, s', tx);
    case StartSend(tx, _, _) => if s' != s { BookkeepingKeepsInv(s, s', tx); }
    case StartBlock(tx, _, _) => if s' != s { BookkeepingKeepsInv(s, s', tx); }
    case AddProfile(_, _) => ProfileStepKeepsInv(s, s');
    case Onboard(_) => ProfileStepKeepsInv(s, s');
  }
}
