// Sending a message and blocking a user as single undisturbed calls over the tables.

module ConversationService {
  import opened Conversation

  datatype ConversationError = ProfileNotFound | SelfMessage | NotOnboarded | NotUnlocked | PairIsBlocked
  datatype Authorization = Granted(targetUser: User) | Denied(code: ConversationError)
  datatype Message = Message(sender: User, recipient: User, body: string)
  datatype MessageResult = Stored(message: Message) | Refused(code: ConversationError) | BodyRejected
  datatype BlockResult = BlockOk(inserted: bool) | SelfBlock | BlockDbError

  /** The users may talk: both onboarded, distinct, not blocked, and one has unlocked the other. */
  ghost predicate MayTalk(s: State, viewer: User, target: ProfileId) {
    && target in s.profiles && s.profiles[target].onboarded && s.profiles[target].owner != viewer
    && !PairBlocked(s.blocks, viewer, s.profiles[target].owner)
    && exists mine: ProfileId :: OwnOnboarded(s.profiles, viewer, mine) &&
         ((viewer, target) in s.unlocks || (s.profiles[target].owner, mine) in s.unlocks)
  }

  /** Two distinct users, both onboarded. */
  ghost predicate BothOnboarded(s: State, viewer: User, target: ProfileId) {
    && target in s.profiles && s.profiles[target].onboarded && s.profiles[target].owner != viewer
    && exists mine: ProfileId :: OwnOnboarded(s.profiles, viewer, mine)
  }

  ghost predicate OneProfilePerUser(profiles: map<ProfileId, Profile>) {
    forall p, q :: p in profiles && q in profiles && profiles[p].owner == profiles[q].owner ==> p == q
  }

  /** Permission to talk does not depend on who asks. */
  lemma MayTalkIsMutual(s: State, viewer: User, target: ProfileId, mine: ProfileId)
    requires OneProfilePerUser(s.profiles) && OwnOnboarded(s.profiles, viewer, mine)
    requires target in s.profiles && s.profiles[target].onboarded
    ensures MayTalk(s, viewer, target) <==> MayTalk(s, s.profiles[target].owner, mine)
  {
  }

  // ---- The statements of one send, driven to the end ----

  ghost function Drive(s: State, tx: TxId, n: nat): State
    decreases n
  {
    if n == 0 then s else Drive(Apply(s, Step(tx)), tx, n - 1)
  }

  lemma {:induction false} DriveGone(s: State, tx: TxId, n: nat)
    requires tx !in s.txs
    ensures Drive(s, tx, n) == s
    decreases n
  {
    if n > 0 {
      DriveGone(s, tx, n - 1);
    }
  }

  lemma DriveStep(s: State, tx: TxId, t: Tx, n: nat)
    requires s.txs == map[tx := t] && t.Sending? && 0 < n
    ensures Drive(s, tx, n) == Drive(SendStep(s, tx, t), tx, n - 1)
  {
  }

  /** The table state with one send at this point. */
  function At(s: State, tx: TxId, locks: map<int, TxId>, t: Tx): State { s.(locks := locks, txs := map[tx := t]) }

  lemma EndsClean(s: State, tx: TxId, locks: map<int, TxId>, t: Tx, n: nat)
    requires s.locks == map[] && s.txs == map[] && (forall k :: k in locks ==> locks[k] == tx)
    ensures Drive(End(At(s, tx, locks, t), tx), tx, n) == s
  {
    var ended := End(At(s, tx, locks, t), tx);
    assert forall k :: k !in ended.locks;
    assert ended.locks == map[] && ended.txs == map[];
    DriveGone(ended, tx, n);
  }

  lemma FromViewerRead(s: State, tx: TxId, viewer: User, target: ProfileId, owner: User, mine: ProfileId,
    locks: map<int, TxId>)
    requires s.locks == map[] && s.txs == map[] && (forall k :: k in locks ==> locks[k] == tx)
    ensures Drive(At(s, tx, locks, Sending(viewer, target, ViewerRead(owner, mine))), tx, 4) ==
            if !PairBlocked(s.blocks, viewer, owner) && ((viewer, target) in s.unlocks || (owner, mine) in s.unlocks)
            then s.(log := s.log + [Sent(viewer, owner)]) else s
  {
    var t := Sending(viewer, target, ViewerRead(owner, mine));
    DriveStep(At(s, tx, locks, t), tx, t, 4);
    EndsClean(s, tx, locks, t, 3);
    if !PairBlocked(s.blocks, viewer, owner) {
      var u := t.(pc := NotBlocked(owner, mine));
      assert SendStep(At(s, tx, locks, t), tx, t) == At(s, tx, locks, u);
      DriveStep(At(s, tx, locks, u), tx, u, 3);
      EndsClean(s, tx, locks, u, 2);
      if (viewer, target) in s.unlocks || (owner, mine) in s.unlocks {
        SendCommits(s, tx, viewer, target, owner, mine, locks);
      }
    }
  }

  lemma SendCommits(s: State, tx: TxId, viewer: User, target: ProfileId, owner: User, mine: ProfileId,
    locks: map<int, TxId>)
    requires s.locks == map[] && s.txs == map[] && (forall k :: k in locks ==> locks[k] == tx)
    requires (viewer, target) in s.unlocks || (owner, mine) in s.unlocks
    ensures Drive(At(s, tx, locks, Sending(viewer, target, NotBlocked(owner, mine))), tx, 3) ==
      s.(log := s.log + [Sent(viewer, owner)])
  {
    var u := Sending(viewer, target, NotBlocked(owner, mine));
    DriveStep(At(s, tx, locks, u), tx, u, 3);
    var v := u.(pc := Authorized(owner));
    assert SendStep(At(s, tx, locks, u), tx, u) == At(s, tx, locks, v);
    DriveStep(At(s, tx, locks, v), tx, v, 2);
    var w := u.(pc := MessageInserted(owner));
    assert SendStep(At(s, tx, locks, v), tx, v) == At(s, tx, locks, w);
    DriveStep(At(s, tx, locks, w), tx, w, 1);
    var sent := s.(log := s.log + [Sent(viewer, owner)]);
    assert End(At(s, tx, locks, w).(log := sent.log), tx) == End(At(sent, tx, locks, w), tx);
    EndsClean(sent, tx, locks, w, 0);
  }

  /** Alone, a send commits a message exactly when the users may talk, and otherwise leaves no trace. */
  lemma SendAlone(s: State, tx: TxId, viewer: User, target: ProfileId)
    requires OneProfilePerUser(s.profiles) && s.locks == map[] && s.txs == map[]
    ensures Drive(Apply(s, StartSend(tx, viewer, target)), tx, 7) ==
            if MayTalk(s, viewer, target) then s.(log := s.log + [Sent(viewer, s.profiles[target].owner)]) else s
  {
    var t := Sending(viewer, target, SendStarted);
    assert Apply(s, StartSend(tx, viewer, target)) == At(s, tx, map[], t);
    DriveStep(At(s, tx, map[], t), tx, t, 7);
    EndsClean(s, tx, map[], t, 6);
    if target in s.profiles && s.profiles[target].onboarded && s.profiles[target].owner != viewer {
      var owner := s.profiles[target].owner;
      var u := t.(pc := TargetRead(owner));
      assert SendStep(At(s, tx, map[], t), tx, t) == At(s, tx, map[], u);
      DriveStep(At(s, tx, map[], u), tx, u, 6);
      var locks: map<int, TxId> := map[s.lockKey(viewer, owner) := tx];
      var v := t.(pc := PairLocked(owner));
      assert SendStep(At(s, tx, map[], u), tx, u) == At(s, tx, locks, v);
      DriveStep(At(s, tx, locks, v), tx, v, 5);
      EndsClean(s, tx, locks, v, 4);
      if mine :| OwnOnboarded(s.profiles, viewer, mine) {
        assert forall id :: OwnOnboarded(s.profiles, viewer, id) <==> id == mine;
        assert SendStep(At(s, tx, locks, v), tx, v) == At(s, tx, locks, t.(pc := ViewerRead(owner, mine)));
        FromViewerRead(s, tx, viewer, target, owner, mine, locks);
      }
    }
  }

  // ---- The procedures ----

  class Database {
    var users: set<User>
    var profiles: map<ProfileId, Profile>
    var blocks: set<(User, User)>
    var unlocks: set<(User, ProfileId)>
    var messages: seq<Message>

    /** The unique index on profile owners, and the foreign keys of blocks. */
    ghost predicate Valid() reads this {
      OneProfilePerUser(profiles) && forall pair :: pair in blocks ==> pair.0 in users && pair.1 in users
    }

    ghost function Tables(): State reads this {
      State((a: User, b: User) => 0, profiles, blocks, unlocks, [], map[], map[])
    }

    method AuthorizeConversation(viewer: User, target: ProfileId) returns (r: Authorization)
      requires Valid()
      ensures r.Granted? <==> MayTalk(Tables(), viewer, target)
      ensures r.Granted? <==>
                && target in profiles && profiles[target].onboarded && profiles[target].owner != viewer
                && (viewer, profiles[target].owner) !in blocks && (profiles[target].owner, viewer) !in blocks
                && exists mine :: mine in profiles && profiles[mine].owner == viewer && profiles[mine].onboarded &&
                     ((viewer, target) in unlocks || (profiles[target].owner, mine) in unlocks)
      ensures r.Granted? ==> r.targetUser == profiles[target].owner
      ensures r == Denied(ProfileNotFound) <==> target !in profiles
      ensures r == Denied(SelfMessage) <==> OwnOnboarded(profiles, viewer, target)
      ensures r == Denied(NotOnboarded) <==>
        target in profiles && !OwnOnboarded(profiles, viewer, target) && !BothOnboarded(Tables(), viewer, target)
      ensures r == Denied(PairIsBlocked) <==>
        BothOnboarded(Tables(), viewer, target) && PairBlocked(blocks, viewer, profiles[target].owner)
      ensures r == Denied(NotUnlocked) <==>
                BothOnboarded(Tables(), viewer, target) && !PairBlocked(blocks, viewer, profiles[target].owner) &&
                  !MayTalk(Tables(), viewer, target)
    {
      if target !in profiles { return Denied(ProfileNotFound); }
      if !profiles[target].onboarded { return Denied(NotOnboarded); }
      var owner := profiles[target].owner;
      if owner == viewer { return Denied(SelfMessage); }
      if forall id :: id in profiles ==> !OwnOnboarded(profiles, viewer, id) { return Denied(NotOnboarded); }
      var mine :| mine in profiles && OwnOnboarded(profiles, viewer, mine);
      assert forall id :: OwnOnboarded(profiles, viewer, id) <==> id == mine;
      if PairBlocked(blocks, viewer, owner) { return Denied(PairIsBlocked); }
      if (viewer, target) !in unlocks && (owner, mine) !in unlocks { return Denied(NotUnlocked); }
      return Granted(owner);
    }

    method CreateMessage(viewer: User, target: ProfileId, body: string) returns (r: MessageResult)
      requires Valid()
      modifies `messages
      ensures r.Stored? <==> MayTalk(Tables(), viewer, target) && 1 <= |body| <= 500
      ensures r.Stored? ==>
        r.message == Message(viewer, profiles[target].owner, body) && messages == old(messages) + [r.message]
      ensures !r.Stored? ==> messages == old(messages)
      ensures r.Refused? <==> !MayTalk(Tables(), viewer, target)
    {
      var authorization := AuthorizeConversation(viewer, target);
      if authorization.Denied? { return Refused(authorization.code); }
      if !(1 <= |body| <= 500) { return BodyRejected; }
      var message := Message(viewer, authorization.targetUser, body);
      messages := messages + [message];
      return Stored(message);
    }

    /** Blocking twice is idempotent, and ends permission to talk in both directions. A missing user
        violates a foreign key; that and a storage failure change nothing. */
    method CreateBlock(blocker: User, blocked: User, storageUp: bool) returns (r: BlockResult)
      requires Valid()
      modifies `blocks
      ensures Valid()
      ensures r == SelfBlock <==> blocker == blocked
      ensures r == BlockDbError <==> blocker != blocked && !(storageUp && blocker in users && blocked in users)
      ensures !r.BlockOk? ==> blocks == old(blocks)
      ensures r.BlockOk? ==>
                blocks == old(blocks) + {(blocker, blocked)} && (r.inserted <==> (blocker, blocked) !in old(blocks))
      ensures r.BlockOk? ==>
                forall id :: id in profiles && profiles[id].owner == blocked ==> !MayTalk(Tables(), blocker, id)
      ensures r.BlockOk? ==>
                forall id :: id in profiles && profiles[id].owner == blocker ==> !MayTalk(Tables(), blocked, id)
    {
      if blocker == blocked { return SelfBlock; }
      if !storageUp { return BlockDbError; }
      if (blocker, blocked) in blocks { return BlockOk(false); }
      if blocker !in users || blocked !in users { return BlockDbError; }
      blocks := blocks + {(blocker, blocked)};
      return BlockOk(true);
    }
  }
}
