/** Concrete interleavings showing that each guard in PresenceGuarantees is needed. */
module PresenceRaces {
  import opened Ids
  import opened Presence
  import opened PresenceProtocol
  import opened PresenceGuarantees

  /** The state that a sequence of actions leads to, if it is a run. */
  ghost function EndOf(run: seq<Action>): Option<State> {
    if IsRun(run) then Some(After(run)) else None
  }

  ghost predicate Nobody(s: State, roles: set<Role>) {
    forall c :: c in s.conns ==> RoleOf(s.conns[c].stage) !in roles
  }

  lemma NobodyTallies(s: State, roles: set<Role>, k: Key)
    requires Nobody(s, roles)
    ensures forall r :: r in roles ==> Tally(s, k, r) == 0
  {
    forall r | r in roles ensures Tally(s, k, r) == 0 {
      assert Having(s, k, r) == {};
    }
  }

  lemma Extend(run: seq<Action>, s: State, a: Action, t: State) returns (longer: seq<Action>)
    requires EndOf(run) == Some(s) && Enabled(s, a) && t == Do(s, a)
    ensures longer == run + [a] && EndOf(longer) == Some(t)
    ensures (a.DeleteField? ==> Nobody(s, {Opener, Member})) ==>
              forall k :: CleanDeletes(run, k) ==> CleanDeletes(longer, k)
    ensures (a.Join? ==> Nobody(s, {Remover, Leaver})) ==>
              forall k :: NoJoinWhileLeaving(run, k) ==> NoJoinWhileLeaving(longer, k)
  {
    longer := run + [a];
    assert longer[..|longer| - 1] == run;
    if Nobody(s, {Opener, Member}) {
      forall k ensures Joined(s, k) == 0 { NobodyTallies(s, {Opener, Member}, k); }
    }
    if Nobody(s, {Remover, Leaver}) {
      forall k ensures Tally(s, k, Remover) + Tally(s, k, Leaver) == 0 { NobodyTallies(s, {Remover, Leaver}, k); }
    }
  }

  const K := Key(0, 7)

  const FRESH := Connection(K, Accepted, false, [], 0, [], 0, 0)
  const COUNTED := Connection(K, Counted(1), false, [], 0, [], 0, 0)
  const HANDLED := Connection(K, Receiving, false, [7], 0, [7], 0, 0)
  const DELETING := HANDLED.(stage := DeletingField)
  const OWING := HANDLED.(stage := AnnouncingLeft)
  const GREETED := HANDLED.(stage := Greeted(1), listedAt := 1)

  lemma Open() returns (run: seq<Action>)
    ensures EndOf(run) == Some(State(map[1 := COUNTED], map[K := 1], []))
    ensures forall k :: CleanDeletes(run, k) && NoJoinWhileLeaving(run, k)
  {
    var s1 := State(map[1 := FRESH], map[], []);
    run := Extend([], INIT, Accept(1, K, 0), s1);
    run := Extend(run, s1, Join(1), State(map[1 := COUNTED], map[K := 1], []));
  }

  /** One tab of user 7, from handshake to receive loop. */
  lemma Arrive() returns (run: seq<Action>)
    ensures EndOf(run) == Some(State(map[1 := HANDLED], map[K := 1], [Event(PresenceJoined, K)]))
    ensures forall k :: CleanDeletes(run, k) && NoJoinWhileLeaving(run, k)
  {
    var s3 := State(map[1 := FRESH.(stage := Listed(1), ids := [7])], map[K := 1], []);
    var s4 := State(map[1 := HANDLED.(stage := Greeted(1))], map[K := 1], []);
    run := Open();
    run := Extend(run, State(map[1 := COUNTED], map[K := 1], []), List(1, [7]), s3);
    run := Extend(run, s3, Greet(1), s4);
    run := Extend(run, s4, EnterLoop(1), State(map[1 := HANDLED], map[K := 1], [Event(PresenceJoined, K)]));
  }

  const J := Event(PresenceJoined, K)
  const L := Event(PresenceLeft, K)

  /** The tab closes and its decrement takes the count to zero. */
  lemma Decrement() returns (run: seq<Action>)
    ensures EndOf(run) == Some(State(map[1 := DELETING], map[K := 0], [J]))
    ensures forall k :: CleanDeletes(run, k)
  {
    run := Arrive();
    var s1 := State(map[1 := HANDLED.(stage := Unregistered)], map[K := 1], [J]);
    run := Extend(run, State(map[1 := HANDLED], map[K := 1], [J]), Disconnect(1), s1);
    run := Extend(run, s1, Leave(1), State(map[1 := DELETING], map[K := 0], [J]));
  }

  const ERASED := State(map[1 := OWING, 2 := COUNTED], map[], [J])

  lemma JoinBeforeDelete() returns (run: seq<Action>)
    ensures EndOf(run) == Some(State(map[1 := DELETING, 2 := COUNTED], map[K := 1], [J]))
    ensures forall k :: CleanDeletes(run, k)
  {
    var s3 := State(map[1 := DELETING, 2 := FRESH], map[K := 0], [J]);
    run := Decrement();
    run := Extend(run, State(map[1 := DELETING], map[K := 0], [J]), Accept(2, K, 0), s3);
    run := Extend(run, s3, Join(2), State(map[1 := DELETING, 2 := COUNTED], map[K := 1], [J]));
  }

  lemma JoinThenDelete() returns (run: seq<Action>)
    ensures EndOf(run) == Some(ERASED)
  {
    run := JoinBeforeDelete();
    run := Extend(run, State(map[1 := DELETING, 2 := COUNTED], map[K := 1], [J]), DeleteField(1), ERASED);
  }

  /** Decrement to zero, another tab's join, then the delete: a connected user is not listed.
      (By NeverInflated no race can leave a zero entry behind instead.) */
  lemma DeleteErasesLiveUser() returns (run: seq<Action>)
    ensures IsRun(run)
    ensures var s := After(run); Joined(s, K) == 1 && K !in s.counts && Tally(s, K, Remover) == 0
  {
    run := JoinThenDelete();
    NobodyTallies(ERASED, {Member, Remover}, K);
    assert Having(ERASED, K, Opener) == {2};
  }

  /** One tab of user 7 up to its owed LEFT, the hash already clean. */
  lemma Depart() returns (run: seq<Action>)
    ensures EndOf(run) == Some(State(map[1 := OWING], map[], [J]))
    ensures forall k :: CleanDeletes(run, k)
  {
    run := Decrement();
    run := Extend(run, State(map[1 := DELETING], map[K := 0], [J]), DeleteField(1),
                  State(map[1 := OWING], map[], [J]));
  }

  /** The same user's second tab arrives before the first one's LEFT is out. */
  lemma Rejoin() returns (run: seq<Action>)
    ensures EndOf(run) == Some(State(map[1 := OWING, 2 := GREETED], map[K := 1], [J]))
    ensures CleanDeletes(run, K)
  {
    var s1 := State(map[1 := OWING, 2 := FRESH], map[], [J]);
    var s2 := State(map[1 := OWING, 2 := COUNTED], map[K := 1], [J]);
    var s3 := State(map[1 := OWING, 2 := FRESH.(stage := Listed(1), ids := [7], listedAt := 1)], map[K := 1], [J]);
    run := Depart();
    run := Extend(run, State(map[1 := OWING], map[], [J]), Accept(2, K, 0), s1);
    run := Extend(run, s1, Join(2), s2);
    run := Extend(run, s2, List(2, [7]), s3);
    run := Extend(run, s3, Greet(2), State(map[1 := OWING, 2 := GREETED], map[K := 1], [J]));
  }

  const GONE := HANDLED.(stage := Finished)

  const HIDDEN := State(map[1 := GONE, 2 := HANDLED.(listedAt := 1)], map[K := 1], [J, J, L])

  lemma JoinedAgain() returns (run: seq<Action>)
    ensures EndOf(run) == Some(State(map[1 := OWING, 2 := HANDLED.(listedAt := 1)], map[K := 1], [J, J]))
    ensures CleanDeletes(run, K)
  {
    run := Rejoin();
    run := Extend(run, State(map[1 := OWING, 2 := GREETED], map[K := 1], [J]), EnterLoop(2),
                  State(map[1 := OWING, 2 := HANDLED.(listedAt := 1)], map[K := 1], [J, J]));
  }

  lemma HiddenFacts()
    ensures Quiet(HIDDEN, K) && Joined(HIDDEN, K) == 1 && LastKind(HIDDEN.stream, K) == Some(PresenceLeft)
  {
    NobodyTallies(HIDDEN, {Opener, Remover, Leaver}, K);
    assert Having(HIDDEN, K, Member) == {2};
  }

  /** Even with clean deletes, a LEFT published after the next session's JOINED hides a
      connected user from everyone who follows the stream. */
  lemma LateLeftHidesLiveUser() returns (run: seq<Action>)
    ensures IsRun(run) && CleanDeletes(run, K)
    ensures var s := After(run); Quiet(s, K) && Joined(s, K) == 1 && LastKind(s.stream, K) == Some(PresenceLeft)
  {
    run := JoinedAgain();
    run := Extend(run, State(map[1 := OWING, 2 := HANDLED.(listedAt := 1)], map[K := 1], [J, J]),
                  AnnounceLeft(1), HIDDEN);
    HiddenFacts();
  }

  const OTHER := Connection(Key(0, 9), Listed(1), false, [], 1, [7, 9], 1, 0)

  const UNLISTED := OTHER.(stage := Counted(1), ids := [], listedAt := 0)

  const TWO := map[K := 1, Key(0, 9) := 1]

  const BOTH := State(map[1 := HANDLED, 2 := UNLISTED.(stage := Accepted)], map[K := 1], [J])

  lemma AcceptBoth() returns (run: seq<Action>)
    ensures EndOf(run) == Some(BOTH) && forall k :: NoJoinWhileLeaving(run, k)
  {
    run := Arrive();
    run := Extend(run, State(map[1 := HANDLED], map[K := 1], [J]), Accept(2, Key(0, 9), 1), BOTH);
  }

  lemma JoinBoth() returns (run: seq<Action>)
    ensures EndOf(run) == Some(State(map[1 := HANDLED, 2 := UNLISTED], TWO, [J]))
    ensures forall k :: NoJoinWhileLeaving(run, k)
  {
    run := AcceptBoth();
    run := Extend(run, BOTH, Join(2), State(map[1 := HANDLED, 2 := UNLISTED], TWO, [J]));
  }

  /** User 9 connects and lists while user 7's tab is still open. */
  lemma ListBoth() returns (run: seq<Action>)
    ensures EndOf(run) == Some(State(map[1 := HANDLED, 2 := OTHER], TWO, [J]))
    ensures forall k :: NoJoinWhileLeaving(run, k)
  {
    run := JoinBoth();
    run := Extend(run, State(map[1 := HANDLED, 2 := UNLISTED], TWO, [J]), List(2, [7, 9]),
                  State(map[1 := HANDLED, 2 := OTHER], TWO, [J]));
  }

  /** Then that tab closes and its decrement takes the count to zero. */
  lemma ListThenLeave() returns (run: seq<Action>)
    ensures EndOf(run) == Some(State(map[1 := DELETING, 2 := OTHER], TWO[K := 0], [J]))
    ensures forall k :: NoJoinWhileLeaving(run, k)
  {
    var s1 := State(map[1 := HANDLED.(stage := Unregistered), 2 := OTHER], TWO, [J]);
    run := ListBoth();
    run := Extend(run, State(map[1 := HANDLED, 2 := OTHER], TWO, [J]), Disconnect(1), s1);
    run := Extend(run, s1, Leave(1), State(map[1 := DELETING, 2 := OTHER], TWO[K := 0], [J]));
  }

  /** Its LEFT is owed. */
  lemma ListThenDepart() returns (run: seq<Action>)
    ensures EndOf(run) == Some(State(map[1 := OWING, 2 := OTHER], map[Key(0, 9) := 1], [J]))
    ensures forall k :: NoJoinWhileLeaving(run, k)
  {
    run := ListThenLeave();
    run := Extend(run, State(map[1 := DELETING, 2 := OTHER], TWO[K := 0], [J]), DeleteField(1),
                  State(map[1 := OWING, 2 := OTHER], map[Key(0, 9) := 1], [J]));
  }

  const TOLD := OTHER.(next := 2, stage := Greeted(1), view := [7, 9], greetedAt := 2)

  lemma DepartThenRelay() returns (run: seq<Action>)
    ensures EndOf(run) == Some(State(map[1 := GONE, 2 := OTHER.(next := 2)], map[Key(0, 9) := 1], [J, L]))
    ensures forall k :: NoJoinWhileLeaving(run, k)
  {
    var s2 := State(map[1 := GONE, 2 := OTHER], map[Key(0, 9) := 1], [J, L]);
    run := ListThenDepart();
    run := Extend(run, State(map[1 := OWING, 2 := OTHER], map[Key(0, 9) := 1], [J]), AnnounceLeft(1), s2);
    run := Extend(run, s2, Relay(2), State(map[1 := GONE, 2 := OTHER.(next := 2)], map[Key(0, 9) := 1], [J, L]));
  }

  /** A LEFT relayed between this browser's listing and its snapshot is lost: the browser keeps
      showing a user who is gone, though no join ever raced with a leave. */
  lemma SnapshotOverwritesLeft() returns (run: seq<Action>)
    ensures IsRun(run) && forall k :: NoJoinWhileLeaving(run, k)
    ensures var s := After(run);
            && 2 in s.conns && Snapshotted(s.conns[2].stage) && s.conns[2].next == |s.stream|
            && Quiet(s, K) && Joined(s, K) == 0 && 7 in s.conns[2].view
  {
    var s := State(map[1 := GONE, 2 := TOLD], map[Key(0, 9) := 1], [J, L]);
    run := DepartThenRelay();
    run := Extend(run, State(map[1 := GONE, 2 := OTHER.(next := 2)], map[Key(0, 9) := 1], [J, L]), Greet(2), s);
    assert forall r {:trigger Having(s, K, r)} :: r != Bystander ==> Having(s, K, r) == {};
  }
}
