// Whole runs of the conversation protocol, and its procedures as single calls.

module ConversationTheorems {
  import opened Conversation
  import Runs

  function Start(key: (User, User) -> int): State { State(key, map[], {}, {}, [], map[], map[]) }

  lemma SafeInEveryRun(key: (User, User) -> int, acts: seq<Action>)
    requires Symmetric(key)
    ensures NoSendAfterBlock(Runs.Run(Apply, Start(key), acts).log) &&
      SendsAfterUnlock(Runs.Run(Apply, Start(key), acts))
  {
    forall x: State, a: Action | Inv(x) ensures Inv(Apply(x, a)) {
      StepKeepsInv(x, a);
    }
    Runs.RunKeeps(Apply, Inv, Start(key), acts);
  }

  /** With the lock of the code, and whatever the hash, any number of concurrent transactions: no
      message commits after a block on its pair, and every message follows an unlock. */
  lemma ConversationSafe(hash: (User, User) -> int, acts: seq<Action>)
    ensures var s := Runs.Run(Apply, Start(PairKey(hash)), acts); NoSendAfterBlock(s.log) && SendsAfterUnlock(s)
  {
    SafeInEveryRun(PairKey(hash), acts);
  }

  // ---- Why the key must be symmetric ----

  ghost predicate Reachable(key: (User, User) -> int, s: State) {
    exists acts: seq<Action> :: Runs.Run(Apply, Start(key), acts) == s
  }

  lemma Move(key: (User, User) -> int, s: State, a: Action, s': State)
    requires Reachable(key, s) && Apply(s, a) == s'
    ensures Reachable(key, s')
  {
    var acts: seq<Action> :| Runs.Run(Apply, Start(key), acts) == s;
    assert (acts + [a])[..|acts + [a]| - 1] == acts;
    assert Runs.Run(Apply, Start(key), acts + [a]) == s';
  }

  /** Users `a` and `b` are onboarded and `a` has unlocked `b`. */
  function Ready(key: (User, User) -> int, a: User, b: User): State {
    State(key, map[0 := Profile(a, true), 1 := Profile(b, true)], {}, {(a, 1)}, [Unlocked(a, 1)], map[], map[])
  }

  /** ... and `a`'s send to `b`, holding its lock, has passed every check. */
  function PastChecks(key: (User, User) -> int, a: User, b: User): State {
    Ready(key, a, b).(locks := map[key(a, b) := 0], txs := map[0 := Sending(a, 1, Authorized(b))])
  }

  lemma ProfilesReachable(key: (User, User) -> int, a: User, b: User)
    requires a != b
    ensures Reachable(key, Start(key).(profiles := map[0 := Profile(a, true), 1 := Profile(b, true)]))
  {
    var s0 := Start(key);
    assert Runs.Run(Apply, s0, []) == s0;
    Move(key, s0, AddProfile(0, a), s0.(profiles := map[0 := Profile(a, false)]));
    Move(key, s0.(profiles := map[0 := Profile(a, false)]), Onboard(0), s0.(profiles := map[0 := Profile(a, true)]));
    SecondProfile(key, a, b);
  }

  lemma SecondProfile(key: (User, User) -> int, a: User, b: User)
    requires a != b && Reachable(key, Start(key).(profiles := map[0 := Profile(a, true)]))
    ensures Reachable(key, Start(key).(profiles := map[0 := Profile(a, true), 1 := Profile(b, true)]))
  {
    var s1 := Start(key).(profiles := map[0 := Profile(a, true)]);
    var s2 := s1.(profiles := map[0 := Profile(a, true), 1 := Profile(b, false)]);
    Move(key, s1, AddProfile(1, b), s2);
    Move(key, s2, Onboard(1), s2.(profiles := map[0 := Profile(a, true), 1 := Profile(b, true)]));
  }

  lemma ReadyReachable(key: (User, User) -> int, a: User, b: User)
    requires a != b
    ensures Reachable(key, Ready(key, a, b))
  {
    ProfilesReachable(key, a, b);
    Move(key, Start(key).(profiles := map[0 := Profile(a, true), 1 := Profile(b, true)]), CommitUnlock(a, 1),
      Ready(key, a, b));
  }

  lemma SendMove(key: (User, User) -> int, s: State, tx: TxId, s': State)
    requires Reachable(key, s) && tx in s.txs && s.txs[tx].Sending? && SendStep(s, tx, s.txs[tx]) == s'
    ensures Reachable(key, s')
  {
    Move(key, s, Step(tx), s');
  }

  lemma BlockMove(key: (User, User) -> int, s: State, tx: TxId, s': State)
    requires Reachable(key, s) && tx in s.txs && s.txs[tx].Blocking? && BlockStep(s, tx, s.txs[tx]) == s'
    ensures Reachable(key, s')
  {
    Move(key, s, Step(tx), s');
  }

  /** The ready state with one send in progress. */
  function SendingAt(key: (User, User) -> int, a: User, b: User, locks: map<int, TxId>, pc: SendPc): State {
    Ready(key, a, b).(locks := locks, txs := map[0 := Sending(a, 1, pc)])
  }

  lemma LockedReachable(key: (User, User) -> int, a: User, b: User)
    requires a != b
    ensures Reachable(key, SendingAt(key, a, b, map[key(a, b) := 0], PairLocked(b)))
  {
    ReadyReachable(key, a, b);
    Move(key, Ready(key, a, b), StartSend(0, a, 1), SendingAt(key, a, b, map[], SendStarted));
    SendMove(key, SendingAt(key, a, b, map[], SendStarted), 0, SendingAt(key, a, b, map[], TargetRead(b)));
    SendMove(key, SendingAt(key, a, b, map[], TargetRead(b)), 0,
      SendingAt(key, a, b, map[key(a, b) := 0], PairLocked(b)));
  }

  lemma ViewerReadReachable(key: (User, User) -> int, a: User, b: User)
    requires a != b
    ensures Reachable(key, SendingAt(key, a, b, map[key(a, b) := 0], ViewerRead(b, 0)))
  {
    LockedReachable(key, a, b);
    var locks: map<int, TxId> := map[key(a, b) := 0];
    var profiles := Ready(key, a, b).profiles;
    assert OwnOnboarded(profiles, a, 0) && forall id :: OwnOnboarded(profiles, a, id) ==> id == 0;
    SendMove(key, SendingAt(key, a, b, locks, PairLocked(b)), 0, SendingAt(key, a, b, locks, ViewerRead(b, 0)));
  }

  lemma PastChecksReachable(key: (User, User) -> int, a: User, b: User)
    requires a != b
    ensures Reachable(key, PastChecks(key, a, b))
  {
    ViewerReadReachable(key, a, b);
    var locks: map<int, TxId> := map[key(a, b) := 0];
    SendMove(key, SendingAt(key, a, b, locks, ViewerRead(b, 0)), 0, SendingAt(key, a, b, locks, NotBlocked(b, 0)));
    SendMove(key, SendingAt(key, a, b, locks, NotBlocked(b, 0)), 0, PastChecks(key, a, b));
  }

  /** A sender past its checks, and a blocker that did not have to wait. */
  function BlockingAt(key: (User, User) -> int, a: User, b: User, locks: map<int, TxId>, pc: BlockPc): State {
    PastChecks(key, a, b).(locks := locks, txs := map[0 := Sending(a, 1, Authorized(b)), 1 := Blocking(b, a, pc)])
  }

  lemma BlockerUnhindered(key: (User, User) -> int, a: User, b: User)
    requires key(a, b) != key(b, a)
    ensures Reachable(key, BlockingAt(key, a, b, map[key(a, b) := 0, key(b, a) := 1], BlockLocked))
  {
    PastChecksReachable(key, a, b);
    var own: map<int, TxId> := map[key(a, b) := 0];
    var both: map<int, TxId> := map[key(a, b) := 0, key(b, a) := 1];
    assert own[key(b, a) := 1] == both;
    Move(key, PastChecks(key, a, b), StartBlock(1, b, a), BlockingAt(key, a, b, own, BlockStarted));
    BlockMove(key, BlockingAt(key, a, b, own, BlockStarted), 1, BlockingAt(key, a, b, both, BlockLocked));
  }

  lemma BlockCommitsReachable(key: (User, User) -> int, a: User, b: User)
    requires key(a, b) != key(b, a)
    ensures Reachable(key, PastChecks(key, a, b).(blocks := {(b, a)}, log := [Unlocked(a, 1), Blocked(b, a)]))
  {
    BlockerUnhindered(key, a, b);
    var both: map<int, TxId> := map[key(a, b) := 0, key(b, a) := 1];
    var s := BlockingAt(key, a, b, both, BlockInserted);
    assert (map k | k in both && both[k] != 1 :: both[k]) == map[key(a, b) := 0];
    assert s.txs - {1} == map[0 := Sending(a, 1, Authorized(b))];
    BlockMove(key, BlockingAt(key, a, b, both, BlockLocked), 1, BlockingAt(key, a, b, both, BlockInserted));
    BlockMove(key, BlockingAt(key, a, b, both, BlockInserted), 1,
              PastChecks(key, a, b).(blocks := {(b, a)}, log := [Unlocked(a, 1), Blocked(b, a)]));
  }

  /** If the key depends on the order of the pair, the blocker takes another lock and both commit. */
  lemma AsymmetricKeyUnsafe(key: (User, User) -> int, a: User, b: User) returns (s': State)
    requires key(a, b) != key(b, a)
    ensures Reachable(key, s') && !NoSendAfterBlock(s'.log)
  {
    BlockCommitsReachable(key, a, b);
    var s := PastChecks(key, a, b).(blocks := {(b, a)}, log := [Unlocked(a, 1), Blocked(b, a)]);
    var inserted := s.(txs := map[0 := Sending(a, 1, MessageInserted(b))]);
    SendMove(key, s, 0, inserted);
    s' := SendStep(inserted, 0, inserted.txs[0]);
    SendMove(key, inserted, 0, s');
    assert s'.log == [Unlocked(a, 1), Blocked(b, a), Sent(a, b)];
    assert s'.log[1].Blocked? && s'.log[2].Sent?;
  }

  /** The ordering of the two ids is what the protocol needs: it is safe in every run exactly when
      the lock key does not depend on the order of the pair. */
  lemma SafeExactlyWhenKeySymmetric(key: (User, User) -> int)
    ensures (forall acts: seq<Action> :: NoSendAfterBlock(Runs.Run(Apply, Start(key), acts).log)) <==> Symmetric(key)
  {
    if Symmetric(key) {
      forall acts: seq<Action> ensures NoSendAfterBlock(Runs.Run(Apply, Start(key), acts).log) {
        SafeInEveryRun(key, acts);
      }
    } else {
      var a: User, b: User :| key(a, b) != key(b, a);
      var s' := AsymmetricKeyUnsafe(key, a, b);
      var acts: seq<Action> :| Runs.Run(Apply, Start(key), acts) == s';
      assert !NoSendAfterBlock(Runs.Run(Apply, Start(key), acts).log);
    }
  }
}
