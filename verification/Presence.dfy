/** The Redis hash behind presence: per project, user -> number of open connections
    (backend/app/ws/presence.py). The three hash commands are atomic; `leave` is two of them. */
module Presence {
  import opened Ids

  datatype Key = Key(project: ProjectId, user: UserId)

  type Counts = map<Key, int>

  function Value(counts: Counts, k: Key): int {
    if k in counts then counts[k] else 0
  }

  /** HINCRBY: a missing field counts as zero. */
  function HIncrBy(counts: Counts, k: Key, delta: int): Counts {
    counts[k := Value(counts, k) + delta]
  }

  function HDel(counts: Counts, k: Key): Counts {
    counts - {k}
  }

  function HKeys(counts: Counts, project: ProjectId): set<UserId> {
    set k | k in counts && k.project == project :: k.user
  }

  /** A command some other connection, possibly on another backend instance, gets in. */
  datatype Command = Increment(key: Key) | Decrement(key: Key) | Delete(key: Key)

  function Step(counts: Counts, command: Command): Counts {
    match command
    case Increment(k) => HIncrBy(counts, k, 1)
    case Decrement(k) => HIncrBy(counts, k, -1)
    case Delete(k) => HDel(counts, k)
  }

  function Run(counts: Counts, commands: seq<Command>): Counts {
    if commands == [] then counts else Step(Run(counts, commands[..|commands| - 1]), commands[|commands| - 1])
  }

  /** The hash once a leave is through, with `others` between its two commands. */
  function AfterLeave(counts: Counts, k: Key, others: seq<Command>): Counts {
    var after := Run(HIncrBy(counts, k, -1), others);
    if Value(counts, k) <= 1 then HDel(after, k) else after
  }

  lemma StepElsewhere(counts: Counts, k: Key, v: int, command: Command)
    requires command.key != k
    ensures Step(counts[k := v], command) == Step(counts, command)[k := v]
    ensures Step(counts - {k}, command) == Step(counts, command) - {k}
    ensures (k in Step(counts, command) <==> k in counts) && Value(Step(counts, command), k) == Value(counts, k)
  {
  }

  lemma {:induction false} RunElsewhere(counts: Counts, k: Key, v: int, others: seq<Command>)
    requires forall i :: 0 <= i < |others| ==> others[i].key != k
    ensures Run(counts[k := v], others) == Run(counts, others)[k := v]
    ensures Run(counts - {k}, others) == Run(counts, others) - {k}
    ensures (k in Run(counts, others) <==> k in counts) && Value(Run(counts, others), k) == Value(counts, k)
  {
    if others != [] {
      RunElsewhere(counts, k, v, others[..|others| - 1]);
      StepElsewhere(Run(counts, others[..|others| - 1]), k, v, others[|others| - 1]);
    }
  }

  /** A leave undoes a join, whatever happens to other users' fields in between, if and only if
      the user's field was absent or positive before. */
  lemma LeaveUndoesJoin(counts: Counts, k: Key, others: seq<Command>)
    requires forall i :: 0 <= i < |others| ==> others[i].key != k
    ensures AfterLeave(HIncrBy(counts, k, 1), k, others) == Run(counts, others)
       <==> (k in counts ==> counts[k] > 0)
  {
    var v := Value(counts, k);
    assert HIncrBy(HIncrBy(counts, k, 1), k, -1) == counts[k := v];
    RunElsewhere(counts, k, v, others);
    var rest := Run(counts, others);
    if k in counts {
      assert rest[k := v] == rest;
      assert k in rest && k !in rest - {k};
    } else {
      assert HDel(rest[k := v], k) == rest - {k} == rest;
    }
  }

  class PresenceHash {
    var counts: Counts

    constructor ()
      ensures counts == map[]
    {
      counts := map[];
    }

    method Join(project: ProjectId, user: UserId) returns (count: int)
      modifies this
      ensures counts == HIncrBy(old(counts), Key(project, user), 1)
      ensures count == counts[Key(project, user)]
      ensures user in HKeys(counts, project)
      ensures count == 1 <==> Value(old(counts), Key(project, user)) == 0
    {
      assert Key(project, user) in HIncrBy(counts, Key(project, user), 1);
      counts := HIncrBy(counts, Key(project, user), 1);
      count := counts[Key(project, user)];
    }

    /** `others` is whatever reaches Redis while this coroutine waits between its two commands. */
    method Leave(project: ProjectId, user: UserId, others: seq<Command>) returns (count: int)
      modifies this
      ensures count == Value(old(counts), Key(project, user)) - 1
      ensures counts == AfterLeave(old(counts), Key(project, user), others)
    {
      var k := Key(project, user);
      counts := HIncrBy(counts, k, -1);
      count := counts[k];
      ghost var start := counts;
      var i := 0;
      while i < |others|
        invariant 0 <= i <= |others|
        invariant counts == Run(start, others[..i])
      {
        assert others[..i + 1][..i] == others[..i];
        counts := Step(counts, others[i]);
        i := i + 1;
      }
      assert others[..i] == others;
      if count <= 0 {
        counts := HDel(counts, k);
      }
    }

    method OnlineUserIds(project: ProjectId) returns (ids: seq<UserId>)
      ensures NoDuplicates(ids)
      ensures forall u :: u in ids <==> Key(project, u) in counts
    {
      var rest := HKeys(counts, project);
      ids := [];
      while rest != {}
        invariant NoDuplicates(ids)
        invariant forall u :: u in ids ==> u !in rest
        invariant forall u :: u in ids || u in rest <==> Key(project, u) in counts
        decreases |rest|
      {
        var u :| u in rest;
        ids := ids + [u];
        rest := rest - {u};
      }
    }
  }
}
