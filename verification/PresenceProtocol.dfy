/** The project socket's handler as a transition system: one action per `await`
    (backend/app/api/routers/ws.py:19-72), over the shared Redis hash, the stream of published
    presence events, and the online list each connected browser keeps
    (frontend/src/pages/ProjectPage.tsx:147-159). Any number of handlers interleave freely. */
module PresenceProtocol {
  import opened Ids
  import opened Presence

  datatype Kind = PresenceJoined | PresenceLeft

  datatype Event = Event(kind: Kind, key: Key)

  /** How far a handler has come; the number is what the last counter command returned. */
  datatype Stage =
    | Accepted
    | Counted(count: int)
    | Listed(count: int)
    | Greeted(count: int)
    | Receiving
    | Unregistered
    | DeletingField
    | AnnouncingLeft
    | Finished

  /** A connection: its handler's stage, whether that handler raised and so stopped for good,
      and its browser's side. The browser is sent the published stream from some index on;
      `next` is the index of the next event for it. `ids`, `listedAt` and `greetedAt` record
      what the hash listing returned, how long the stream was then, and where `next` stood
      when the snapshot was sent. */
  datatype Connection = Connection(
    key: Key, stage: Stage, stopped: bool,
    view: seq<UserId>, next: nat, ids: seq<UserId>, listedAt: nat, greetedAt: nat)

  datatype State = State(conns: map<SocketId, Connection>, counts: Counts, stream: seq<Event>)

  datatype Action =
    | Accept(c: SocketId, key: Key, from: nat)
    | Join(c: SocketId)
    | List(c: SocketId, listing: seq<UserId>)
    | Greet(c: SocketId)
    | EnterLoop(c: SocketId)
    | Disconnect(c: SocketId)
    | Leave(c: SocketId)
    | DeleteField(c: SocketId)
    | AnnounceLeft(c: SocketId)
    | Relay(c: SocketId)
    | Raise(c: SocketId)

  const INIT := State(map[], map[], [])

  predicate Registered(stage: Stage) {
    stage.Accepted? || stage.Counted? || stage.Listed? || stage.Greeted? || stage.Receiving?
  }

  predicate Snapshotted(stage: Stage) {
    stage.Greeted? || stage.Receiving?
  }

  ghost predicate Enabled(s: State, a: Action) {
    if a.Accept? then a.c !in s.conns && a.from <= |s.stream|
    else
      && a.c in s.conns
      && !s.conns[a.c].stopped
      && var me := s.conns[a.c];
         match a
         case Join(_) => me.stage.Accepted?
         case List(_, listing) => me.stage.Counted? && NoDuplicates(listing)
           && forall u :: u in listing <==> Key(me.key.project, u) in s.counts
         case Greet(_) => me.stage.Listed?
         case EnterLoop(_) => me.stage.Greeted?
         case Disconnect(_) => me.stage.Receiving?
         case Leave(_) => me.stage.Unregistered?
         case DeleteField(_) => me.stage.DeletingField?
         case AnnounceLeft(_) => me.stage.AnnouncingLeft?
         case Relay(_) => Registered(me.stage) && me.next < |s.stream|
         case Raise(_) => true
         case Accept(_, _, _) => false
  }

  function KeyOf(s: State, a: Action): Key
    requires a.Accept? || a.c in s.conns
  {
    if a.Accept? then a.key else s.conns[a.c].key
  }

  function NextConnection(s: State, a: Action): Connection
    requires Enabled(s, a)
  {
    if a.Accept? then Connection(a.key, Accepted, false, [], a.from, [], 0, 0) else
    var me := s.conns[a.c];
    match a
    case Join(_) => me.(stage := Counted(Value(s.counts, me.key) + 1))
    case List(_, listing) => me.(stage := Listed(me.stage.count), ids := listing, listedAt := |s.stream|)
    case Greet(_) => me.(stage := Greeted(me.stage.count), view := me.ids, greetedAt := me.next)
    case EnterLoop(_) => me.(stage := Receiving)
    case Disconnect(_) => me.(stage := Unregistered)
    case Leave(_) => me.(stage := if Value(s.counts, me.key) - 1 <= 0 then DeletingField else Finished)
    case DeleteField(_) => me.(stage := AnnouncingLeft)
    case AnnounceLeft(_) => me.(stage := Finished)
    case Relay(_) => me.(view := Apply(me.view, me.key.project, s.stream[me.next]), next := me.next + 1)
    case _ => me.(stopped := true)
  }

  function NextCounts(s: State, a: Action): Counts
    requires Enabled(s, a)
  {
    match a
    case Join(c) => HIncrBy(s.counts, s.conns[c].key, 1)
    case Leave(c) => HIncrBy(s.counts, s.conns[c].key, -1)
    case DeleteField(c) => HDel(s.counts, s.conns[c].key)
    case _ => s.counts
  }

  function NextStream(s: State, a: Action): seq<Event>
    requires Enabled(s, a)
  {
    match a
    case EnterLoop(c) =>
      if s.conns[c].stage.count == 1 then s.stream + [Event(PresenceJoined, s.conns[c].key)] else s.stream
    case AnnounceLeft(c) => s.stream + [Event(PresenceLeft, s.conns[c].key)]
    case _ => s.stream
  }

  function Do(s: State, a: Action): State
    requires Enabled(s, a)
  {
    State(s.conns[a.c := NextConnection(s, a)], NextCounts(s, a), NextStream(s, a))
  }

  /** What the browser does with one relayed event of its own project. */
  function Apply(view: seq<UserId>, project: ProjectId, e: Event): seq<UserId> {
    if e.key.project != project then view
    else if e.kind.PresenceJoined? then (if e.key.user in view then view else view + [e.key.user])
    else Without(view, e.key.user)
  }

  function Without(view: seq<UserId>, u: UserId): (r: seq<UserId>)
    ensures forall v :: v in r <==> v in view && v != u
    ensures NoDuplicates(view) ==> NoDuplicates(r)
  {
    if view == [] then []
    else
      var rest := Without(view[..|view| - 1], u);
      assert view == view[..|view| - 1] + [view[|view| - 1]];
      assert NoDuplicates(view) ==> view[|view| - 1] !in view[..|view| - 1];
      if view[|view| - 1] == u then rest else rest + [view[|view| - 1]]
  }

  // ---------------------------------------------------------------- runs

  ghost predicate IsRun(run: seq<Action>)
    decreases |run|, 1
  {
    run == [] || (IsRun(run[..|run| - 1]) && Enabled(After(run[..|run| - 1]), run[|run| - 1]))
  }

  ghost function After(run: seq<Action>): State
    requires IsRun(run)
    decreases |run|, 2
  {
    if run == [] then INIT else Do(After(run[..|run| - 1]), run[|run| - 1])
  }

  // ---------------------------------------------------------------- counting handlers by role

  /** What a handler contributes to its user's presence. An opener's own join returned 1, so it
      still owes the stream a JOINED; a remover owes the hash a delete and the stream a LEFT. */
  datatype Role = Opener | Member | Remover | Leaver | Bystander

  function RoleOf(stage: Stage): Role {
    match stage
    case Accepted => Bystander
    case Counted(n) => if n == 1 then Opener else Member
    case Listed(n) => if n == 1 then Opener else Member
    case Greeted(n) => if n == 1 then Opener else Member
    case Receiving => Member
    case Unregistered => Member
    case DeletingField => Remover
    case AnnouncingLeft => Leaver
    case Finished => Bystander
  }

  predicate CountsAs(x: Connection, k: Key, r: Role) {
    x.key == k && RoleOf(x.stage) == r
  }

  function Having(s: State, k: Key, r: Role): set<SocketId> {
    set c | c in s.conns && CountsAs(s.conns[c], k, r)
  }

  function Tally(s: State, k: Key, r: Role): nat {
    |Having(s, k, r)|
  }

  /** Connections that have joined and not yet left. */
  function Joined(s: State, k: Key): nat {
    Tally(s, k, Opener) + Tally(s, k, Member)
  }

  /** No handler owes the stream an announcement about this user. */
  predicate Quiet(s: State, k: Key) {
    Tally(s, k, Opener) == 0 && Tally(s, k, Remover) == 0 && Tally(s, k, Leaver) == 0
  }

  function One(b: bool): nat {
    if b then 1 else 0
  }

  lemma CardinalityUpdate<T>(a: set<T>, b: set<T>, x: T)
    requires a - {x} == b - {x}
    ensures |b| == |a| + One(x in b) - One(x in a)
  {
    if x in b { assert b == (b - {x}) + {x}; } else { assert b == b - {x}; }
    if x in a { assert a == (a - {x}) + {x}; } else { assert a == a - {x}; }
  }

  lemma TallyUpdate(s: State, s': State, c: SocketId, x: Connection, k: Key, r: Role)
    requires s'.conns == s.conns[c := x]
    ensures Tally(s', k, r) == Tally(s, k, r) + One(CountsAs(x, k, r)) - One(c in s.conns && CountsAs(s.conns[c], k, r))
  {
    CardinalityUpdate(Having(s, k, r), Having(s', k, r), c);
  }

  function RoleBefore(s: State, a: Action): Role
    requires Enabled(s, a)
  {
    match a
    case Accept(_, _, _) => Bystander
    case Join(_) => Bystander
    case Leave(_) => Member
    case DeleteField(_) => Remover
    case AnnounceLeft(_) => Leaver
    case Disconnect(_) => Member
    case _ => RoleOf(s.conns[a.c].stage)
  }

  function RoleAfter(s: State, a: Action): Role
    requires Enabled(s, a)
  {
    match a
    case Join(c) => if Value(s.counts, s.conns[c].key) == 0 then Opener else Member
    case EnterLoop(_) => Member
    case Leave(c) => if Value(s.counts, s.conns[c].key) <= 1 then Remover else Bystander
    case DeleteField(_) => Leaver
    case AnnounceLeft(_) => Bystander
    case _ => RoleBefore(s, a)
  }

  lemma RolesMove(s: State, a: Action)
    requires Enabled(s, a)
    ensures RoleOf(NextConnection(s, a).stage) == RoleAfter(s, a)
    ensures NextConnection(s, a).key == KeyOf(s, a)
    ensures a.c in s.conns ==> RoleOf(s.conns[a.c].stage) == RoleBefore(s, a)
  {
  }

  /** How one action changes the tallies of one user: a handler of that user moves from one role
      to another. */
  lemma TalliesAfter(s: State, a: Action, k: Key)
    requires Enabled(s, a)
    ensures forall r {:trigger Tally(Do(s, a), k, r)} ::
              r != Bystander ==>
                Tally(Do(s, a), k, r) == Tally(s, k, r) + One(KeyOf(s, a) == k && RoleAfter(s, a) == r)
                                         - One(KeyOf(s, a) == k && RoleBefore(s, a) == r)
    ensures forall r :: r != Bystander && KeyOf(s, a) == k && RoleBefore(s, a) == r ==> Tally(s, k, r) > 0
  {
    RolesMove(s, a);
    forall r {
      TallyUpdate(s, Do(s, a), a.c, NextConnection(s, a), k, r);
    }
    if a.c in s.conns { TallyOf(s, a.c); }
  }

  lemma TallyOf(s: State, c: SocketId)
    requires c in s.conns
    ensures Tally(s, s.conns[c].key, RoleOf(s.conns[c].stage)) > 0
  {
    assert c in Having(s, s.conns[c].key, RoleOf(s.conns[c].stage));
  }

  // ---------------------------------------------------------------- every interleaving

  /** Holds in every interleaving, raised handlers included. */
  ghost predicate NoInflation(s: State, k: Key) {
    && Value(s.counts, k) <= Joined(s, k)
    && (k in s.counts && s.counts[k] <= 0 ==> Tally(s, k, Remover) > 0)
  }

  lemma NoInflationStep(s: State, a: Action, k: Key)
    requires Enabled(s, a) && NoInflation(s, k)
    ensures NoInflation(Do(s, a), k)
  {
    TalliesAfter(s, a, k);
  }

  lemma {:induction false} NeverInflated(run: seq<Action>, k: Key)
    requires IsRun(run)
    ensures NoInflation(After(run), k)
  {
    if run != [] {
      NeverInflated(run[..|run| - 1], k);
      NoInflationStep(After(run[..|run| - 1]), run[|run| - 1], k);
    }
  }

  /** No race leaves a stale zero or negative entry: once no delete is outstanding, every stored
      count is positive. */
  lemma NoStaleEntry(run: seq<Action>, k: Key)
    requires IsRun(run) && k in After(run).counts && Tally(After(run), k, Remover) == 0
    ensures 0 < After(run).counts[k] <= Joined(After(run), k)
  {
    NeverInflated(run, k);
  }

  lemma {:induction false} OnlyRaisedStop(run: seq<Action>, c: SocketId)
    requires IsRun(run) && (forall i :: 0 <= i < |run| ==> run[i] != Raise(c)) && c in After(run).conns
    ensures !After(run).conns[c].stopped
  {
    var before := run[..|run| - 1];
    assert forall i :: 0 <= i < |before| ==> before[i] == run[i];
    assert run[|run| - 1] != Raise(c);
    if c in After(before).conns { OnlyRaisedStop(before, c); }
  }

  /** No ghosts: with no delete outstanding, a listed user has a connection that joined and did
      not leave; and unless that connection's handler raised, it is a live one. */
  lemma ListedMeansJoined(run: seq<Action>, k: Key) returns (c: SocketId)
    requires IsRun(run)
    requires k in After(run).counts && Tally(After(run), k, Remover) == 0
    ensures c in After(run).conns && After(run).conns[c].key == k
    ensures var st := After(run).conns[c].stage; !st.Accepted? && (Registered(st) || st.Unregistered?)
    ensures After(run).conns[c].stopped ==> exists i :: 0 <= i < |run| && run[i] == Raise(c)
  {
    NeverInflated(run, k);
    var s := After(run);
    var who := Having(s, k, Opener) + Having(s, k, Member);
    assert Joined(s, k) > 0;
    assert Having(s, k, Opener) != {} || Having(s, k, Member) != {};
    c :| c in who;
    if s.conns[c].stopped && forall i :: 0 <= i < |run| ==> run[i] != Raise(c) { OnlyRaisedStop(run, c); }
  }

  /** What deletes have thrown away for this user so far. */
  ghost function Erased(run: seq<Action>, k: Key): int
    requires IsRun(run)
  {
    if run == [] then 0
    else
      var before, a := run[..|run| - 1], run[|run| - 1];
      Erased(before, k)
      + if a.DeleteField? && KeyOf(After(before), a) == k then Value(After(before).counts, k) else 0
  }

  lemma LedgerStep(s: State, a: Action, k: Key)
    requires Enabled(s, a)
    ensures Joined(Do(s, a), k) - Value(Do(s, a).counts, k)
         == Joined(s, k) - Value(s.counts, k)
            + if a.DeleteField? && KeyOf(s, a) == k then Value(s.counts, k) else 0
  {
    TalliesAfter(s, a, k);
  }

  /** The ledger balances in every interleaving: the connections really joined are the stored
      count plus everything erased by deletes, however they raced with joins. */
  lemma {:induction false} Ledger(run: seq<Action>, k: Key)
    requires IsRun(run)
    ensures Joined(After(run), k) == Value(After(run).counts, k) + Erased(run, k)
    ensures Erased(run, k) >= 0
  {
    NeverInflated(run, k);
    if run != [] {
      Ledger(run[..|run| - 1], k);
      LedgerStep(After(run[..|run| - 1]), run[|run| - 1], k);
    }
  }
}
