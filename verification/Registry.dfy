/** The process-wide table of live sockets and the listener that relays the published stream to
    them (backend/app/ws/connection_manager.py, backend/app/ws/redis_listener.py). Other
    coroutines run whenever this code awaits; what they do there is an arbitrary argument. */
module Registry {
  import opened Ids

  datatype Entry = Entry(project: ProjectId, user: UserId, socket: SocketId)

  type Nested = map<ProjectId, map<UserId, set<SocketId>>>

  ghost predicate NoEmpties(n: Nested) {
    forall p :: p in n ==> n[p] != map[] && forall u :: u in n[p] ==> n[p][u] != {}
  }

  /** The plain set the nested table stands for. */
  ghost function Entries(n: Nested): (r: set<Entry>)
    ensures forall e :: e in r <==>
              e.project in n && e.user in n[e.project] && e.socket in n[e.project][e.user]
  {
    set p, u, w | p in n && u in n[p] && w in n[p][u] :: Entry(p, u, w)
  }

  ghost function InProject(entries: set<Entry>, project: ProjectId): set<Entry> {
    set e | e in entries && e.project == project
  }

  /** Something another coroutine does to the table. */
  datatype Op = Connect(entry: Entry) | Disconnect(entry: Entry)

  ghost function ApplyOps(entries: set<Entry>, ops: seq<Op>): set<Entry> {
    if ops == [] then entries
    else
      var before := ApplyOps(entries, ops[..|ops| - 1]);
      match ops[|ops| - 1]
      case Connect(e) => before + {e}
      case Disconnect(e) => before - {e}
  }

  /** What others did to one entry is what the last of their operations on it, number i, did; or nothing
      if no operation was on it. */
  lemma {:induction false} LastOpDecides(entries: set<Entry>, ops: seq<Op>, e: Entry, i: int)
    requires -1 <= i < |ops| && forall j :: i < j < |ops| ==> ops[j].entry != e
    ensures i >= 0 && ops[i].entry == e ==> (e in ApplyOps(entries, ops) <==> ops[i].Connect?)
    ensures i == -1 ==> (e in ApplyOps(entries, ops) <==> e in entries)
  {
    if i < |ops| - 1 {
      assert ops[|ops| - 1].entry != e;
      LastOpDecides(entries, ops[..|ops| - 1], e, i);
    }
  }

  /** What happens while one send is awaited: whether it succeeds, and what others do meanwhile. */
  datatype Await = Await(sent: bool, meanwhile: seq<Op>)

  type World = nat -> Await

  ghost function Evolve(entries: set<Entry>, world: World, clock: nat, awaits: nat): set<Entry> {
    if awaits == 0 then entries
    else ApplyOps(Evolve(entries, world, clock, awaits - 1), world(clock + awaits - 1).meanwhile)
  }

  datatype Attempt = Attempt(user: UserId, socket: SocketId, sent: bool)

  function EntryOf(project: ProjectId, a: Attempt): Entry {
    Entry(project, a.user, a.socket)
  }

  ghost function Elements(entries: seq<Entry>): set<Entry> {
    set e | e in entries
  }

  ghost function Targets(project: ProjectId, attempts: seq<Attempt>): set<Entry> {
    set i | 0 <= i < |attempts| :: EntryOf(project, attempts[i])
  }

  ghost function Failed(project: ProjectId, attempts: seq<Attempt>): set<Entry> {
    set i | 0 <= i < |attempts| && !attempts[i].sent :: EntryOf(project, attempts[i])
  }

  ghost predicate Distinct(attempts: seq<Attempt>) {
    forall i, j :: 0 <= i < j < |attempts| ==>
      attempts[i].user != attempts[j].user || attempts[i].socket != attempts[j].socket
  }

  /** One broadcast: every socket of the project at its start is attempted exactly once, and the
      only entries it removes are those whose send failed. */
  ghost predicate Broadcast(before: set<Entry>, project: ProjectId, attempts: seq<Attempt>,
                            world: World, clock: nat, after: set<Entry>) {
    && Distinct(attempts)
    && Targets(project, attempts) == InProject(before, project)
    && (forall i :: 0 <= i < |attempts| ==> attempts[i].sent == world(clock + i).sent)
    && after == Evolve(before, world, clock, |attempts|) - Failed(project, attempts)
  }

  /** A broadcast under way: the first |attempts| targets have been tried. */
  ghost predicate Sent(start: set<Entry>, project: ProjectId, targets: seq<Entry>, world: World, clock: nat,
                       attempts: seq<Attempt>, dead: seq<Entry>, members: set<Entry>) {
    && |attempts| <= |targets|
    && (forall i :: 0 <= i < |attempts| ==> EntryOf(project, attempts[i]) == targets[i])
    && (forall i :: 0 <= i < |attempts| ==> attempts[i].sent == world(clock + i).sent)
    && Elements(dead) == Failed(project, attempts)
    && members == Evolve(start, world, clock, |attempts|)
  }

  lemma SentNext(start: set<Entry>, project: ProjectId, targets: seq<Entry>, world: World, clock: nat,
                 attempts: seq<Attempt>, dead: seq<Entry>, members: set<Entry>)
    requires Sent(start, project, targets, world, clock, attempts, dead, members)
    requires |attempts| < |targets| && targets[|attempts|].project == project
    ensures var target, await := targets[|attempts|], world(clock + |attempts|);
            Sent(start, project, targets, world, clock,
                 attempts + [Attempt(target.user, target.socket, await.sent)],
                 if await.sent then dead else dead + [target],
                 ApplyOps(members, await.meanwhile))
  {
    var target, await := targets[|attempts|], world(clock + |attempts|);
    FailedAppend(project, attempts, Attempt(target.user, target.socket, await.sent));
  }

  /** The table with one inner map replaced. */
  function WithRow(n: Nested, project: ProjectId, row: map<UserId, set<SocketId>>): Nested {
    n[project := row]
  }

  /** Replacing one inner map changes only that project's entries. */
  lemma RowReplaced(n: Nested, project: ProjectId, row: map<UserId, set<SocketId>>, x: Entry)
    ensures x in Entries(WithRow(n, project, row)) <==>
            if x.project == project then Holds(row, x.user, x.socket) else x in Entries(n)
  {
  }

  lemma AddedKeepsNoEmpties(n: Nested, project: ProjectId, users: map<UserId, set<SocketId>>, user: UserId,
                            sockets: set<SocketId>)
    requires NoEmpties(n) && sockets != {} && forall u :: u in users ==> users[u] != {}
    ensures NoEmpties(WithRow(n, project, users[user := sockets]))
  {
    assert user in users[user := sockets];
  }

  predicate Holds(row: map<UserId, set<SocketId>>, user: UserId, socket: SocketId) {
    user in row && socket in row[user]
  }

  lemma AddedToRow(users: map<UserId, set<SocketId>>, e: Entry, sockets: set<SocketId>, x: Entry)
    requires sockets == if e.user in users then users[e.user] else {}
    ensures Holds(users[e.user := sockets + {e.socket}], x.user, x.socket)
       <==> Holds(users, x.user, x.socket) || (x.user == e.user && x.socket == e.socket)
  {
  }

  lemma EntriesAdded(n: Nested, e: Entry, users: map<UserId, set<SocketId>>, sockets: set<SocketId>)
    requires NoEmpties(n)
    requires users == if e.project in n then n[e.project] else map[]
    requires sockets == if e.user in users then users[e.user] else {}
    ensures NoEmpties(WithRow(n, e.project, users[e.user := sockets + {e.socket}]))
    ensures Entries(WithRow(n, e.project, users[e.user := sockets + {e.socket}])) == Entries(n) + {e}
  {
    AddedKeepsNoEmpties(n, e.project, users, e.user, sockets + {e.socket});
    EntriesAre(n, e, users, sockets);
  }

  lemma EntriesAre(n: Nested, e: Entry, users: map<UserId, set<SocketId>>, sockets: set<SocketId>)
    requires users == if e.project in n then n[e.project] else map[]
    requires sockets == if e.user in users then users[e.user] else {}
    ensures Entries(WithRow(n, e.project, users[e.user := sockets + {e.socket}])) == Entries(n) + {e}
  {
    var row := users[e.user := sockets + {e.socket}];
    forall x: Entry ensures x in Entries(WithRow(n, e.project, row)) <==> x in Entries(n) || x == e {
      RowReplaced(n, e.project, row, x);
      AddedToRow(users, e, sockets, x);
    }
  }

  lemma EntriesRemoved(n: Nested, e: Entry, sockets: set<SocketId>)
    requires NoEmpties(n) && e.project in n && e.user in n[e.project]
    requires sockets == n[e.project][e.user] - {e.socket}
    ensures var users: map<UserId, set<SocketId>> := if sockets == {} then n[e.project] - {e.user}
              else n[e.project][e.user := sockets];
            var now := if users == map[] then n - {e.project} else n[e.project := users];
            NoEmpties(now) && Entries(now) == Entries(n) - {e}
  {
    var users: map<UserId, set<SocketId>> := if sockets == {} then n[e.project] - {e.user}
          else n[e.project][e.user := sockets];
    var now := if users == map[] then n - {e.project} else n[e.project := users];
    forall x: Entry ensures x in Entries(now) <==> x in Entries(n) && x != e {
      if x.project == e.project {
        assert x.user in users <==> x.user in n[e.project] && (x.user != e.user || sockets != {});
        assert x.user == e.user ==> (x.socket in sockets <==> x in Entries(n) && x != e);
      }
    }
  }

  class ConnectionManager {
    var connections: Nested

    constructor ()
      ensures Valid() && Members() == {}
    {
      connections := map[];
    }

    ghost predicate Valid()
      reads this
    {
      NoEmpties(connections)
    }

    ghost function Members(): set<Entry>
      reads this
    {
      Entries(connections)
    }

    method Connect(e: Entry)
      requires Valid()
      modifies this
      ensures Valid() && Members() == old(Members()) + {e}
    {
      var users: map<UserId, set<SocketId>> := if e.project in connections then connections[e.project] else map[];
      var sockets: set<SocketId> := if e.user in users then users[e.user] else {};
      EntriesAdded(connections, e, users, sockets);
      users := users[e.user := sockets + {e.socket}];
      connections := WithRow(connections, e.project, users);
    }

    /** Removes exactly this entry, and does nothing if it is already gone. */
    method Disconnect(e: Entry)
      requires Valid()
      modifies this
      ensures Valid() && Members() == old(Members()) - {e}
    {
      if e.project !in connections { return; }
      var users: map<UserId, set<SocketId>> := connections[e.project];
      if e.user !in users { return; }
      var sockets := users[e.user] - {e.socket};
      EntriesRemoved(connections, e, sockets);
      users := if sockets == {} then users - {e.user} else users[e.user := sockets];
      connections := if users == map[] then connections - {e.project} else connections[e.project := users];
    }

    method OnlineUserIds(project: ProjectId) returns (users: set<UserId>)
      requires Valid()
      ensures forall u :: u in users <==> exists w :: Entry(project, u, w) in Members()
    {
      if project !in connections { return {}; }
      users := connections[project].Keys;
      forall u | u in users ensures exists w :: Entry(project, u, w) in Members() {
        var w :| w in connections[project][u];
        assert Entry(project, u, w) in Members();
      }
    }

    method Yield(ops: seq<Op>)
      requires Valid()
      modifies this
      ensures Valid() && Members() == ApplyOps(old(Members()), ops)
    {
      var i := 0;
      while i < |ops|
        invariant 0 <= i <= |ops| && Valid()
        invariant Members() == ApplyOps(old(Members()), ops[..i])
      {
        assert ops[..i + 1][..i] == ops[..i];
        match ops[i] {
          case Connect(e) => Connect(e);
          case Disconnect(e) => Disconnect(e);
        }
        i := i + 1;
      }
      assert ops[..i] == ops;
    }

    /** Copies both levels of the table before the first await. */
    method Snapshot(project: ProjectId) returns (targets: seq<Entry>)
      requires Valid()
      ensures NoDuplicates(targets)
      ensures forall e :: e in targets <==> e in InProject(Members(), project)
    {
      targets := [];
      if project !in connections { return; }
      var users := connections[project];
      var rest := users.Keys;
      while rest != {}
        invariant rest <= users.Keys && NoDuplicates(targets)
        invariant forall e :: e in targets <==> e in InProject(Members(), project) && e.user !in rest
        decreases |rest|
      {
        var u :| u in rest;
        var sockets := users[u];
        while sockets != {}
          invariant sockets <= users[u] && NoDuplicates(targets)
          invariant forall e :: e in targets <==>
                      e in InProject(Members(), project) && (e.user !in rest || (e.user == u && e.socket !in sockets))
          decreases |sockets|
        {
          var w :| w in sockets;
          targets := targets + [Entry(project, u, w)];
          sockets := sockets - {w};
        }
        rest := rest - {u};
      }
    }

    /** One awaited send. */
    method SendNext(ghost start: set<Entry>, project: ProjectId, targets: seq<Entry>, world: World, clock: nat,
                    attempts: seq<Attempt>, dead: seq<Entry>)
      returns (longer: seq<Attempt>, failed: seq<Entry>)
      requires Valid() && |attempts| < |targets| && targets[|attempts|].project == project
      requires Sent(start, project, targets, world, clock, attempts, dead, Members())
      modifies this
      ensures Valid() && |longer| == |attempts| + 1
      ensures Sent(start, project, targets, world, clock, longer, failed, Members())
    {
      var target, await := targets[|attempts|], world(clock + |attempts|);
      SentNext(start, project, targets, world, clock, attempts, dead, Members());
      Yield(await.meanwhile);
      longer := attempts + [Attempt(target.user, target.socket, await.sent)];
      failed := if await.sent then dead else dead + [target];
    }

    /** The awaited sends; a failed one is noted and the loop goes on. */
    method SendAll(project: ProjectId, targets: seq<Entry>, world: World, clock: nat)
      returns (attempts: seq<Attempt>, dead: seq<Entry>)
      requires Valid() && forall e :: e in targets ==> e.project == project
      modifies this
      ensures Valid() && |attempts| == |targets|
      ensures Sent(old(Members()), project, targets, world, clock, attempts, dead, Members())
    {
      ghost var start := Members();
      attempts, dead := [], [];
      for i := 0 to |targets|
        invariant Valid() && |attempts| == i
        invariant Sent(start, project, targets, world, clock, attempts, dead, Members())
      {
        attempts, dead := SendNext(start, project, targets, world, clock, attempts, dead);
      }
    }

    method DropAll(dead: seq<Entry>)
      requires Valid()
      modifies this
      ensures Valid() && Members() == old(Members()) - Elements(dead)
    {
      var i := 0;
      while i < |dead|
        invariant 0 <= i <= |dead| && Valid()
        invariant Members() == old(Members()) - Elements(dead[..i])
      {
        assert dead[..i + 1] == dead[..i] + [dead[i]];
        Disconnect(dead[i]);
        i := i + 1;
      }
      assert dead[..i] == dead;
    }

    method SendToProject(project: ProjectId, world: World, clock: nat) returns (attempts: seq<Attempt>)
      requires Valid()
      modifies this
      ensures Valid() && Broadcast(old(Members()), project, attempts, world, clock, Members())
      ensures forall e :: e in Evolve(old(Members()), world, clock, |attempts|) && e !in Members() ==>
                DroppedFor(project, attempts, e)
    {
      var targets := Snapshot(project);
      var dead;
      attempts, dead := SendAll(project, targets, world, clock);
      DropAll(dead);
      TargetsAre(project, attempts, targets);
      forall e | e in Evolve(old(Members()), world, clock, |attempts|) && e !in Members()
        ensures DroppedFor(project, attempts, e)
      {
        OnlyFailedAreDropped(old(Members()), project, attempts, world, clock, Members(), e);
      }
    }
  }

  lemma FailedAppend(project: ProjectId, attempts: seq<Attempt>, last: Attempt)
    ensures Failed(project, attempts + [last])
         == Failed(project, attempts) + if last.sent then {} else {EntryOf(project, last)}
  {
    var longer := attempts + [last];
    forall e | e in Failed(project, attempts) ensures e in Failed(project, longer) {
      var i :| 0 <= i < |attempts| && !attempts[i].sent && e == EntryOf(project, attempts[i]);
      assert longer[i] == attempts[i];
    }
    assert longer[|attempts|] == last;
  }

  lemma TargetsAre(project: ProjectId, attempts: seq<Attempt>, targets: seq<Entry>)
    requires |attempts| == |targets| && NoDuplicates(targets)
    requires forall i :: 0 <= i < |attempts| ==> EntryOf(project, attempts[i]) == targets[i]
    ensures Distinct(attempts)
    ensures Targets(project, attempts) == Elements(targets)
  {
    forall i, j | 0 <= i < j < |attempts|
      ensures attempts[i].user != attempts[j].user || attempts[i].socket != attempts[j].socket
    {
      assert targets[i] != targets[j];
    }
  }

  // ---------------------------------------------------------------- the listener

  /** One item of the subscription: what others did while it was awaited, whether it is a
      pattern message, the project its channel names if any, and whether its payload parses. */
  datatype Message = Message(waiting: seq<Op>, isPattern: bool, project: Option<ProjectId>, parses: bool)

  predicate Relayable(m: Message) {
    m.isPattern && m.project.Some? && m.parses
  }

  /** What the listener did with one message; `clock` counts the sends before it. */
  datatype Round = Round(relayed: bool, attempts: seq<Attempt>, clock: nat)

  /** One message: a relayable one is broadcast, whatever sends failed before; others are skipped. */
  ghost predicate Handled(was: set<Entry>, m: Message, world: World, clock: nat, round: Round,
                          before: set<Entry>, after: set<Entry>) {
    && before == ApplyOps(was, m.waiting)
    && round.clock == clock
    && round.relayed == Relayable(m)
    && if Relayable(m) then Broadcast(before, m.project.value, round.attempts, world, clock, after)
       else round.attempts == [] && after == before
  }

  ghost function Last(start: set<Entry>, after: seq<set<Entry>>): set<Entry> {
    if after == [] then start else after[|after| - 1]
  }

  function NextClock(rounds: seq<Round>): nat {
    if rounds == [] then 0 else rounds[|rounds| - 1].clock + |rounds[|rounds| - 1].attempts|
  }

  /** The listener's whole run: the table before and after handling each message, and its rounds. */
  ghost predicate Relayed(start: set<Entry>, messages: seq<Message>, world: World, rounds: seq<Round>,
                          before: seq<set<Entry>>, after: seq<set<Entry>>)
    requires |rounds| == |before| == |after| == |messages|
  {
    messages != [] ==>
      var n := |messages| - 1;
      && Relayed(start, messages[..n], world, rounds[..n], before[..n], after[..n])
      && Handled(Last(start, after[..n]), messages[n], world, NextClock(rounds[..n]), rounds[n], before[n], after[n])
  }

  lemma RelayedAppend(start: set<Entry>, messages: seq<Message>, world: World, rounds: seq<Round>,
                      before: seq<set<Entry>>, after: seq<set<Entry>>,
                      m: Message, round: Round, b: set<Entry>, a: set<Entry>)
    requires |rounds| == |before| == |after| == |messages|
    requires Relayed(start, messages, world, rounds, before, after)
    requires Handled(Last(start, after), m, world, NextClock(rounds), round, b, a)
    ensures Relayed(start, messages + [m], world, rounds + [round], before + [b], after + [a])
  {
    var n := |messages|;
    assert (messages + [m])[..n] == messages && (rounds + [round])[..n] == rounds;
    assert (before + [b])[..n] == before && (after + [a])[..n] == after;
  }

  /** Anything but a pattern message of a recognised channel with a payload that parses. */
  predicate ToBeSkipped(m: Message) {
    !m.isPattern || m.project == None || !m.parses
  }

  /** What one round did, in terms of the message's own fields: a skipped message attempts nothing and
      leaves the table as others made it; any other attempts every socket of its project found there. */
  ghost predicate DoneRight(m: Message, round: Round, found: set<Entry>, after: set<Entry>) {
    && (ToBeSkipped(m) ==> !round.relayed && round.attempts == [] && after == found)
    && (!ToBeSkipped(m) ==>
          && round.relayed && Distinct(round.attempts)
          && Targets(m.project.value, round.attempts) == InProject(found, m.project.value))
  }

  method HandleMessage(manager: ConnectionManager, m: Message, world: World, clock: nat)
    returns (round: Round, ghost found: set<Entry>)
    requires manager.Valid()
    modifies manager
    ensures manager.Valid() && found == ApplyOps(old(manager.Members()), m.waiting)
    ensures DoneRight(m, round, found, manager.Members())
    ensures Handled(old(manager.Members()), m, world, clock, round, found, manager.Members())
  {
    manager.Yield(m.waiting);
    found := manager.Members();
    if !Relayable(m) {
      return Round(false, [], clock), found;
    }
    var attempts := manager.SendToProject(m.project.value, world, clock);
    round := Round(true, attempts, clock);
  }

  method RunListener(manager: ConnectionManager, messages: seq<Message>, world: World)
    returns (rounds: seq<Round>, ghost before: seq<set<Entry>>, ghost after: seq<set<Entry>>)
    requires manager.Valid()
    modifies manager
    ensures manager.Valid() && |rounds| == |before| == |after| == |messages|
    ensures Relayed(old(manager.Members()), messages, world, rounds, before, after)
    ensures forall i :: 0 <= i < |messages| ==> DoneRight(messages[i], rounds[i], before[i], after[i])
    ensures manager.Members() == Last(old(manager.Members()), after)
  {
    ghost var start := manager.Members();
    rounds, before, after := [], [], [];
    var clock := 0;
    for i := 0 to |messages|
      invariant manager.Valid() && |rounds| == |before| == |after| == i
      invariant Relayed(start, messages[..i], world, rounds, before, after)
      invariant manager.Members() == Last(start, after)
      invariant clock == NextClock(rounds)
    {
      var round, found := HandleMessage(manager, messages[i], world, clock);
      ghost var members := manager.Members();
      RelayedAppend(start, messages[..i], world, rounds, before, after, messages[i], round, found, members);
      assert messages[..i + 1] == messages[..i] + [messages[i]];
      rounds, before, after := rounds + [round], before + [found], after + [members];
      clock := clock + |round.attempts|;
    }
    assert messages[..|messages|] == messages;
    RelayedIsDone(start, messages, world, rounds, before, after);
  }

  lemma {:induction false} RelayedIsDone(start: set<Entry>, messages: seq<Message>, world: World, rounds: seq<Round>,
                                         before: seq<set<Entry>>, after: seq<set<Entry>>)
    requires |rounds| == |before| == |after| == |messages|
    requires Relayed(start, messages, world, rounds, before, after)
    ensures forall i :: 0 <= i < |messages| ==> DoneRight(messages[i], rounds[i], before[i], after[i])
  {
    if messages != [] {
      var n := |messages| - 1;
      RelayedIsDone(start, messages[..n], world, rounds[..n], before[..n], after[..n]);
      forall i | 0 <= i < |messages| ensures DoneRight(messages[i], rounds[i], before[i], after[i]) {
        if i < n {
          assert DoneRight(messages[..n][i], rounds[..n][i], before[..n][i], after[..n][i]);
        }
      }
    }
  }

  /** All sends of the rounds so far. */
  function Sends(rounds: seq<Round>): nat {
    if rounds == [] then 0 else Sends(rounds[..|rounds| - 1]) + |rounds[|rounds| - 1].attempts|
  }

  /** Round i's sends had the world's outcomes that follow those of all earlier sends. */
  ghost predicate OwnOutcomes(world: World, rounds: seq<Round>, i: nat)
    requires i < |rounds|
  {
    forall j :: 0 <= j < |rounds[i].attempts| ==> rounds[i].attempts[j].sent == world(Sends(rounds[..i]) + j).sent
  }

  lemma OwnOutcomesPrefix(world: World, rounds: seq<Round>, n: nat, i: nat)
    requires i < n <= |rounds| && OwnOutcomes(world, rounds[..n], i)
    ensures OwnOutcomes(world, rounds, i)
  {
    assert rounds[..n][..i] == rounds[..i];
  }

  /** The listener's sends are awaited one after the other, and no outcome is used twice. */
  lemma {:induction false} EachSendOnce(start: set<Entry>, messages: seq<Message>, world: World, rounds: seq<Round>,
                                        before: seq<set<Entry>>, after: seq<set<Entry>>)
    requires |rounds| == |before| == |after| == |messages|
    requires Relayed(start, messages, world, rounds, before, after)
    ensures NextClock(rounds) == Sends(rounds)
    ensures forall i :: 0 <= i < |rounds| ==> OwnOutcomes(world, rounds, i)
  {
    if messages != [] {
      var n := |messages| - 1;
      EachSendOnce(start, messages[..n], world, rounds[..n], before[..n], after[..n]);
      forall i | 0 <= i < |rounds| ensures OwnOutcomes(world, rounds, i) {
        if i < n { OwnOutcomesPrefix(world, rounds, n, i); }
      }
    }
  }

  // ---------------------------------------------------------------- what one socket is sent

  /** The messages, by position in the stream, that were attempted on this entry's socket. */
  function Deliveries(messages: seq<Message>, rounds: seq<Round>, e: Entry): seq<nat>
    requires |messages| == |rounds|
  {
    if rounds == [] then []
    else
      var n := |rounds| - 1;
      Deliveries(messages[..n], rounds[..n], e)
      + if messages[n].project == Some(e.project) then Repeat(n, Times(rounds[n].attempts, e)) else []
  }

  function Times(attempts: seq<Attempt>, e: Entry): nat {
    if attempts == [] then 0
    else
      var last := attempts[|attempts| - 1];
      Times(attempts[..|attempts| - 1], e) + if last.user == e.user && last.socket == e.socket then 1 else 0
  }

  function Repeat(x: nat, times: nat): seq<nat> {
    seq(times, _ => x)
  }

  /** The pattern messages of the entry's project with a payload that parses that found it in the table,
      in stream order. */
  ghost function Due(messages: seq<Message>, before: seq<set<Entry>>, e: Entry): seq<nat>
    requires |messages| == |before|
  {
    if messages == [] then []
    else
      var n := |messages| - 1;
      Due(messages[..n], before[..n], e)
      + if messages[n].isPattern && messages[n].parses && messages[n].project == Some(e.project) && e in before[n]
        then [n] else []
  }

  lemma {:induction false} TimesIfDistinct(attempts: seq<Attempt>, e: Entry)
    requires Distinct(attempts)
    ensures Times(attempts, e) == if e in Targets(e.project, attempts) then 1 else 0
  {
    if attempts != [] {
      var shorter, last := attempts[..|attempts| - 1], attempts[|attempts| - 1];
      TimesIfDistinct(shorter, e);
      assert attempts == shorter + [last];
      if e in Targets(e.project, shorter) {
        var i :| 0 <= i < |shorter| && e == EntryOf(e.project, shorter[i]);
        assert attempts[i] == shorter[i];
      }
      if e in Targets(e.project, attempts) {
        var i :| 0 <= i < |attempts| && e == EntryOf(e.project, attempts[i]);
        assert i < |shorter| ==> attempts[i] == shorter[i];
      }
      if e == EntryOf(e.project, last) { assert attempts[|attempts| - 1] == last; }
    }
  }

  /** First in, first out, exactly once: with connects, disconnects and failed sends at every
      await, a socket is sent precisely the relayable messages whose broadcast found it
      registered, each once and in stream order. */
  lemma {:induction false} EachSocketInOrderOnce(start: set<Entry>, messages: seq<Message>, world: World,
      rounds: seq<Round>, before: seq<set<Entry>>, after: seq<set<Entry>>, e: Entry)
    requires |rounds| == |before| == |after| == |messages|
    requires Relayed(start, messages, world, rounds, before, after)
    ensures Deliveries(messages, rounds, e) == Due(messages, before, e)
  {
    if messages != [] {
      var n := |messages| - 1;
      EachSocketInOrderOnce(start, messages[..n], world, rounds[..n], before[..n], after[..n], e);
      if Relayable(messages[n]) {
        TimesIfDistinct(rounds[n].attempts, e);
        assert e in InProject(before[n], e.project) <==> e in before[n];
      }
    }
  }

  /** The broadcast attempted this entry's socket and the send failed. */
  ghost predicate DroppedFor(project: ProjectId, attempts: seq<Attempt>, e: Entry) {
    exists i :: 0 <= i < |attempts| && EntryOf(project, attempts[i]) == e && !attempts[i].sent
  }

  /** A broadcast's cleanup can only take away an entry whose own send failed in it. */
  lemma OnlyFailedAreDropped(before: set<Entry>, project: ProjectId, attempts: seq<Attempt>, world: World,
      clock: nat, after: set<Entry>, e: Entry)
    requires Broadcast(before, project, attempts, world, clock, after)
    requires e in Evolve(before, world, clock, |attempts|) && e !in after
    ensures e in before && e.project == project && DroppedFor(project, attempts, e)
  {
    var i :| 0 <= i < |attempts| && !attempts[i].sent && e == EntryOf(project, attempts[i]);
    assert e in Targets(project, attempts);
  }
}
