/** Handlers that raise (backend/app/api/routers/ws.py:34-52 lies outside the `try`): exactly when
    a user stays listed whatever happens from here on. */
module PresenceRaised {
  import opened Ids
  import opened Presence
  import opened PresenceProtocol
  import opened PresenceGuarantees
  import opened PresenceRaces

  predicate IsJoined(stage: Stage) {
    RoleOf(stage).Opener? || RoleOf(stage).Member?
  }

  /** Joined, and its handler still runs: it can leave. */
  predicate CanLeave(x: Connection, k: Key) {
    x.key == k && IsJoined(x.stage) && !x.stopped
  }

  function Leaving(s: State, k: Key): set<SocketId> {
    set c | c in s.conns && CanLeave(s.conns[c], k)
  }

  predicate CanDelete(x: Connection, k: Key) {
    x.key == k && x.stage.DeletingField? && !x.stopped
  }

  ghost predicate DeletePending(s: State, k: Key) {
    exists c :: c in s.conns && CanDelete(s.conns[c], k)
  }

  /** The stored count exceeds the connections that can still leave, and no handler is about to
      delete the field. */
  ghost predicate Lasting(s: State, k: Key) {
    !DeletePending(s, k) && |Leaving(s, k)| < Value(s.counts, k)
  }

  /** On every continuation, crashes and newcomers included, the user is listed. */
  ghost predicate StaysListed(run: seq<Action>, k: Key)
    requires IsRun(run)
  {
    forall longer {:trigger IsRun(longer)} :: run <= longer && IsRun(longer) ==> k in After(longer).counts
  }

  // ---------------------------------------------------------------- lasting entries last

  lemma LeavingStep(s: State, a: Action, k: Key)
    requires Enabled(s, a)
    ensures |Leaving(Do(s, a), k)| == |Leaving(s, k)| + One(CanLeave(NextConnection(s, a), k))
                                      - One(a.c in s.conns && CanLeave(s.conns[a.c], k))
  {
    CardinalityUpdate(Leaving(s, k), Leaving(Do(s, a), k), a.c);
  }

  lemma LastingStep(s: State, a: Action, k: Key)
    requires Enabled(s, a) && Lasting(s, k)
    ensures Lasting(Do(s, a), k) && k in Do(s, a).counts
    ensures !(a.DeleteField? && KeyOf(s, a) == k)
  {
    LeavingStep(s, a, k);
    RolesMove(s, a);
    var x := NextConnection(s, a);
    assert a.DeleteField? ==> CanDelete(s.conns[a.c], s.conns[a.c].key);
    forall c | c in Do(s, a).conns ensures !CanDelete(Do(s, a).conns[c], k) {
      if c != a.c { assert Do(s, a).conns[c] == s.conns[c]; }
    }
  }

  lemma {:induction false} LastsForGood(run: seq<Action>, longer: seq<Action>, k: Key)
    requires IsRun(run) && IsRun(longer) && run <= longer && Lasting(After(run), k)
    ensures Lasting(After(longer), k) && k in After(longer).counts
    ensures CleanDeletes(run, k) ==> CleanDeletes(longer, k)
  {
    if |longer| == |run| {
      assert longer == run;
    } else {
      var before := longer[..|longer| - 1];
      LastsForGood(run, before, k);
      LastingStep(After(before), longer[|longer| - 1], k);
    }
  }

  // ---------------------------------------------------------------- other entries can be removed

  lemma Then(run: seq<Action>, a: Action) returns (longer: seq<Action>)
    requires IsRun(run) && Enabled(After(run), a)
    ensures longer == run + [a] && IsRun(longer) && After(longer) == Do(After(run), a)
  {
    longer := run + [a];
    assert longer[..|longer| - 1] == run;
  }

  ghost function Bound(xs: set<nat>): (b: nat)
    ensures forall x :: x in xs ==> x < b
  {
    if xs == {} then 0
    else
      var x :| x in xs;
      var b := Bound(xs - {x});
      assert forall y :: y in xs ==> y == x || y in xs - {x};
      if x < b then b else x + 1
  }

  ghost function Arranged(xs: set<UserId>): (r: seq<UserId>)
    ensures NoDuplicates(r) && forall x :: x in r <==> x in xs
    decreases |xs|
  {
    if xs == {} then []
    else
      var x :| x in xs;
      assert forall y :: y in xs <==> y == x || y in xs - {x};
      [x] + Arranged(xs - {x})
  }

  /** Awaits left before the handler leaves. */
  function Rank(stage: Stage): nat {
    match stage
    case Counted(_) => 4
    case Listed(_) => 3
    case Greeted(_) => 2
    case Receiving => 1
    case _ => 0
  }

  lemma NextTowardsLeave(s: State, c: SocketId) returns (a: Action)
    requires c in s.conns && CanLeave(s.conns[c], s.conns[c].key) && !s.conns[c].stage.Unregistered?
    ensures Enabled(s, a) && a.c == c && (a.List? || a.Greet? || a.EnterLoop? || a.Disconnect?)
  {
    match s.conns[c].stage
    case Counted(_) =>
      var project := s.conns[c].key.project;
      a := List(c, Arranged(HKeys(s.counts, project)));
      forall u ensures u in HKeys(s.counts, project) <==> Key(project, u) in s.counts {
        if Key(project, u) in s.counts { assert Key(project, u).user == u; }
      }
    case Listed(_) => a := Greet(c);
    case Greeted(_) => a := EnterLoop(c);
    case Receiving => a := Disconnect(c);
  }

  /** Two states that differ only in one handler's progress towards its leave. */
  ghost predicate Further(s: State, t: State, c: SocketId) {
    && c in s.conns && c in t.conns && t.conns == s.conns[c := t.conns[c]] && t.counts == s.counts
    && t.conns[c].key == s.conns[c].key && CanLeave(s.conns[c], s.conns[c].key) && CanLeave(t.conns[c], s.conns[c].key)
  }

  lemma {:induction false} Advance(run: seq<Action>, c: SocketId) returns (longer: seq<Action>)
    requires IsRun(run) && c in After(run).conns && CanLeave(After(run).conns[c], After(run).conns[c].key)
    ensures run <= longer && IsRun(longer) && Further(After(run), After(longer), c)
    ensures After(longer).conns[c].stage.Unregistered?
    decreases Rank(After(run).conns[c].stage)
  {
    if After(run).conns[c].stage.Unregistered? {
      assert After(run).conns == After(run).conns[c := After(run).conns[c]];
      return run;
    }
    var a := NextTowardsLeave(After(run), c);
    RolesMove(After(run), a);
    longer := Then(run, a);
    assert Further(After(run), After(longer), c);
    var middle := longer;
    longer := Advance(middle, c);
    assert After(longer).conns == After(run).conns[c := After(longer).conns[c]];
  }

  /** A handler that can leave does: the count drops by one, and if that takes it to zero the
      field is deleted. */
  lemma LeaveNow(run: seq<Action>, c: SocketId, k: Key) returns (longer: seq<Action>)
    requires IsRun(run) && c in After(run).conns && CanLeave(After(run).conns[c], k)
    ensures run <= longer && IsRun(longer)
    ensures if Value(After(run).counts, k) <= 1 then k !in After(longer).counts
            else
              && Value(After(longer).counts, k) == Value(After(run).counts, k) - 1
              && Leaving(After(longer), k) == Leaving(After(run), k) - {c}
  {
    longer := Advance(run, c);
    LeaveEffect(After(run), After(longer), c, k);
    longer := Then(longer, Leave(c));
    if Value(After(run).counts, k) <= 1 { longer := Then(longer, DeleteField(c)); }
  }

  lemma LeaveEffect(s: State, t: State, c: SocketId, k: Key)
    requires Further(s, t, c) && t.conns[c].stage.Unregistered? && s.conns[c].key == k
    ensures Enabled(t, Leave(c))
    ensures var u := Do(t, Leave(c));
            if Value(s.counts, k) <= 1 then Enabled(u, DeleteField(c)) && k !in Do(u, DeleteField(c)).counts
            else Value(u.counts, k) == Value(s.counts, k) - 1 && Leaving(u, k) == Leaving(s, k) - {c}
  {
    if Value(s.counts, k) > 1 {
      assert Do(t, Leave(c)).conns == s.conns[c := t.conns[c].(stage := Finished)];
    }
  }

  lemma Newcomer(run: seq<Action>, k: Key) returns (longer: seq<Action>, c: SocketId)
    requires IsRun(run)
    ensures run <= longer && IsRun(longer) && c in After(longer).conns && CanLeave(After(longer).conns[c], k)
    ensures Value(After(longer).counts, k) == Value(After(run).counts, k) + 1
  {
    c := Bound(After(run).conns.Keys);
    longer := Then(run, Accept(c, k, 0));
    longer := Then(longer, Join(c));
  }

  lemma {:induction false} Unlist(run: seq<Action>, k: Key) returns (longer: seq<Action>)
    requires IsRun(run) && !Lasting(After(run), k)
    ensures run <= longer && IsRun(longer) && k !in After(longer).counts
    decreases |Leaving(After(run), k)|
  {
    var s := After(run);
    if DeletePending(s, k) {
      var c :| c in s.conns && CanDelete(s.conns[c], k);
      longer := Then(run, DeleteField(c));
    } else if k !in s.counts {
      longer := run;
    } else if Leaving(s, k) == {} {
      var c;
      longer, c := Newcomer(run, k);
      longer := LeaveNow(longer, c, k);
    } else {
      var c :| c in Leaving(s, k);
      longer := LeaveNow(run, c, k);
      if s.counts[k] > 1 { longer := Unlist(longer, k); }
    }
  }

  /** A user is listed for good if and only if the stored count exceeds the connections whose
      handlers can still leave, and no handler is about to delete the field. */
  lemma ListedForGoodIff(run: seq<Action>, k: Key)
    requires IsRun(run)
    ensures StaysListed(run, k) <==> Lasting(After(run), k)
  {
    if Lasting(After(run), k) {
      forall longer | run <= longer && IsRun(longer) ensures k in After(longer).counts { LastsForGood(run, longer, k); }
    } else {
      var longer := Unlist(run, k);
    }
  }

  // ---------------------------------------------------------------- what a raise does

  /** Joined, and never going to leave. */
  ghost predicate StuckJoined(s: State, c: SocketId) {
    c in s.conns && s.conns[c].stopped && IsJoined(s.conns[c].stage)
  }

  lemma StuckIsLasting(s: State, c: SocketId, k: Key)
    requires StuckJoined(s, c) && s.conns[c].key == k && Exact(s, k) && Tally(s, k, Remover) == 0
    ensures Lasting(s, k)
  {
    var joined := Having(s, k, Opener) + Having(s, k, Member);
    assert Having(s, k, Opener) !! Having(s, k, Member);
    assert |joined| == Joined(s, k);
    assert Leaving(s, k) <= joined - {c} && c in joined;
    SubsetCount(Leaving(s, k), joined - {c});
    forall d | d in s.conns ensures !CanDelete(s.conns[d], k) {
      if CanDelete(s.conns[d], k) { TallyOf(s, d); }
    }
  }

  lemma {:induction false} SubsetCount<T>(a: set<T>, b: set<T>)
    requires a <= b
    ensures |a| <= |b|
  {
    if a != {} {
      var x :| x in a;
      SubsetCount(a - {x}, b - {x});
    }
  }

  /** A handler that raises between its join and its leave never leaves: if the deletes so far were
      clean and none is outstanding, its user is listed on every continuation, whatever other
      connections of the user do; no later delete of the field ever fires, and the count stays exact. */
  lemma RaisedStaysListed(run: seq<Action>, c: SocketId, k: Key)
    requires IsRun(run) && StuckJoined(After(run), c) && After(run).conns[c].key == k
    requires CleanDeletes(run, k) && Tally(After(run), k, Remover) == 0
    ensures StaysListed(run, k)
    ensures forall longer {:trigger IsRun(longer)} :: run <= longer && IsRun(longer) ==>
              CleanDeletes(longer, k) && Exact(After(longer), k)
  {
    ExactIffCleanDeletes(run, k);
    StuckIsLasting(After(run), c, k);
    ListedForGoodIff(run, k);
    forall longer | run <= longer && IsRun(longer) ensures CleanDeletes(longer, k) && Exact(After(longer), k) {
      LastsForGood(run, longer, k);
      ExactIffCleanDeletes(longer, k);
    }
  }

  /** Accept, join, raise: a user with no live connection at all who is listed for good. */
  lemma HandshakeRaises() returns (run: seq<Action>)
    ensures IsRun(run) && (forall c :: c in After(run).conns ==> After(run).conns[c].stopped)
    ensures StaysListed(run, K)
  {
    var handshake := Open();
    run := Then(handshake, Raise(1));
    var s := After(run);
    assert s.conns == map[1 := COUNTED.(stopped := true)];
    assert Leaving(s, K) == {};
    ListedForGoodIff(run, K);
  }

  /** With a delete outstanding the same raise can end otherwise: deletes have been clean so far and the
      second tab's handler raised after its join, yet the first tab's delete unlists the user. */
  lemma PendingDeleteUnlists() returns (run: seq<Action>)
    ensures IsRun(run) && CleanDeletes(run, K) && StuckJoined(After(run), 2) && After(run).conns[2].key == K
    ensures Tally(After(run), K, Remover) > 0 && !StaysListed(run, K)
  {
    var joined := JoinBeforeDelete();
    assert CleanDeletes(joined, K);
    run := Then(joined, Raise(2));
    assert run[..|run| - 1] == joined;
    var s := After(run);
    assert s.conns[1].key == K && CanDelete(s.conns[1], K);
    TallyOf(s, 1);
    ListedForGoodIff(run, K);
  }

  /** A stored count that is not positive belongs to a handler between its decrement and its
      delete; only if that handler raised there can the entry stay. */
  lemma StaleEntryMeansRaised(run: seq<Action>, k: Key) returns (c: SocketId)
    requires IsRun(run) && k in After(run).counts && After(run).counts[k] <= 0
    ensures c in After(run).conns && After(run).conns[c].key == k && After(run).conns[c].stage.DeletingField?
    ensures After(run).conns[c].stopped ==> exists i :: 0 <= i < |run| && run[i] == Raise(c)
  {
    NeverInflated(run, k);
    assert Having(After(run), k, Remover) != {};
    c :| c in Having(After(run), k, Remover);
    if After(run).conns[c].stopped && forall i :: 0 <= i < |run| ==> run[i] != Raise(c) { OnlyRaisedStop(run, c); }
  }
}
