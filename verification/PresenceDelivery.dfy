/** The presence protocol relays "the next event of the stream" to a connection. This is what the
    socket table and the listener do: a socket registered without a gap is sent exactly the events of
    its project in that stretch of the stream, in order, so its browser folds the same list
    (backend/app/ws/redis_listener.py:36-52, frontend/src/pages/ProjectPage.tsx:147-159). */
module PresenceDelivery {
  import opened Ids
  import opened Presence
  import opened PresenceProtocol
  import opened PresenceGuarantees
  import Channels
  import Registry

  /** An item of the project listener's subscription, as it arrives: on some channel, with a payload
      that parses or not. */
  function Received(waiting: seq<Registry.Op>, isPattern: bool, channel: string, parses: bool): Registry.Message {
    Registry.Message(waiting, isPattern, Channels.ProjectIdFromChannel(channel), parses)
  }

  /** A published event arrives as a pattern message on its project's channel, with its payload intact. */
  function Arriving(waiting: seq<Registry.Op>, project: ProjectId): Registry.Message {
    Received(waiting, true, Channels.ProjectChannel(project), true)
  }

  /** Every published event is relayed: whatever failed before it, the listener attempts every socket of
      its project that is registered when it arrives. */
  lemma PublishedIsRelayed(waiting: seq<Registry.Op>, project: ProjectId, round: Registry.Round,
                           found: set<Registry.Entry>, after: set<Registry.Entry>)
    requires project < Channels.Pow16(32) && Registry.DoneRight(Arriving(waiting, project), round, found, after)
    ensures round.relayed
    ensures forall e :: e in found && e.project == project <==> e in Registry.Targets(project, round.attempts)
  {
    Channels.ListenersReadTheirOwn(project);
  }

  /** What is not a pattern message, or arrives on a notification channel, reaches nobody. */
  lemma OthersAreSkipped(waiting: seq<Registry.Op>, isPattern: bool, user: nat, project: ProjectId, parses: bool,
                         round: Registry.Round, found: set<Registry.Entry>, after: set<Registry.Entry>)
    requires user < Channels.Pow16(32)
    requires exists m ::
               && Registry.DoneRight(m, round, found, after)
               && (|| m == Received(waiting, isPattern, Channels.NotificationChannel(user), parses)
                   || m == Received(waiting, false, Channels.ProjectChannel(project), parses)
                   || m == Received(waiting, isPattern, Channels.ProjectChannel(project), false))
    ensures round.attempts == [] && after == found
  {
    Channels.ListenersReadTheirOwn(user);
  }

  /** The messages a stream of presence events arrives as carry it. */
  lemma PublishedStreamCarries(messages: seq<Registry.Message>, stream: seq<Event>)
    requires |messages| == |stream|
    requires forall i :: 0 <= i < |stream| ==>
               && stream[i].key.project < Channels.Pow16(32)
               && messages[i] == Arriving(messages[i].waiting, stream[i].key.project)
    ensures Carry(messages, stream)
  {
    forall i | 0 <= i < |stream|
      ensures messages[i].isPattern && messages[i].parses && messages[i].project == Some(stream[i].key.project)
    {
      Channels.ListenersReadTheirOwn(stream[i].key.project);
    }
  }

  /** The subscription's messages are the published presence events, all well formed. */
  ghost predicate Carry(messages: seq<Registry.Message>, stream: seq<Event>) {
    && |messages| == |stream|
    && forall i :: 0 <= i < |messages| ==>
         messages[i].isPattern && messages[i].parses && messages[i].project == Some(stream[i].key.project)
  }

  /** The entry was registered at exactly those broadcasts to its project that lie from `from` on and
      before `end`. */
  ghost predicate RegisteredFor(messages: seq<Registry.Message>, before: seq<set<Registry.Entry>>, e: Registry.Entry,
                                from: nat, end: nat)
    requires |messages| == |before|
  {
    forall i :: 0 <= i < |messages| && Own(messages[i], e.project) ==> (e in before[i] <==> from <= i < end)
  }

  predicate Own(m: Registry.Message, project: ProjectId) {
    m.isPattern && m.parses && m.project == Some(project)
  }

  /** The positions of the project's messages from `from` on and before `end`. */
  function OwnIndices(messages: seq<Registry.Message>, project: ProjectId, from: nat, end: nat): (r: seq<nat>)
    requires end <= |messages|
    ensures forall n :: 0 <= n < |r| ==> from <= r[n] < end
    decreases end
  {
    if end <= from then []
    else OwnIndices(messages, project, from, end - 1) + if Own(messages[end - 1], project) then [end - 1] else []
  }

  lemma {:induction false} OwnIndicesOfPrefix(messages: seq<Registry.Message>, project: ProjectId, from: nat,
                                              end: nat, n: nat)
    requires end <= n <= |messages|
    ensures OwnIndices(messages[..n], project, from, end) == OwnIndices(messages, project, from, end)
    decreases end
  {
    if from < end { OwnIndicesOfPrefix(messages, project, from, end - 1, n); }
  }

  function Least(a: nat, b: nat): nat {
    if a < b then a else b
  }

  lemma {:induction false} DueAreOwn(messages: seq<Registry.Message>, before: seq<set<Registry.Entry>>,
                                     e: Registry.Entry,
                                     from: nat, end: nat)
    requires |messages| == |before| && RegisteredFor(messages, before, e, from, end)
    ensures Registry.Due(messages, before, e) == OwnIndices(messages, e.project, from, Least(end, |messages|))
  {
    if messages != [] {
      var n := |messages| - 1;
      DueAreOwn(messages[..n], before[..n], e, from, end);
      OwnIndicesOfPrefix(messages, e.project, from, Least(end, n), n);
    }
  }

  /** With connects, disconnects and failed sends at every await: a socket registered without a gap is
      sent exactly its project's messages of that stretch, each once, in stream order. */
  lemma SentWithoutGap(start: set<Registry.Entry>, messages: seq<Registry.Message>, world: Registry.World,
                       rounds: seq<Registry.Round>, before: seq<set<Registry.Entry>>, after: seq<set<Registry.Entry>>,
                       e: Registry.Entry, from: nat, end: nat)
    requires |rounds| == |before| == |after| == |messages|
    requires Registry.Relayed(start, messages, world, rounds, before, after)
    requires RegisteredFor(messages, before, e, from, end)
    ensures Registry.Deliveries(messages, rounds, e) == OwnIndices(messages, e.project, from, Least(end, |messages|))
  {
    Registry.EachSocketInOrderOnce(start, messages, world, rounds, before, after, e);
    DueAreOwn(messages, before, e, from, end);
  }

  /** In a stream of one project's events they are consecutive from the first one. */
  lemma {:induction false} ConsecutiveInOneProject(messages: seq<Registry.Message>, project: ProjectId, from: nat,
                                                   end: nat)
    requires end <= |messages| && forall i :: 0 <= i < |messages| ==> Own(messages[i], project)
    ensures OwnIndices(messages, project, from, end) == seq(if end <= from then 0 else end - from, n => from + n)
    decreases end
  {
    if from < end { ConsecutiveInOneProject(messages, project, from, end - 1); }
  }

  function Picked(stream: seq<Event>, indices: seq<nat>): seq<Event>
    requires forall n :: 0 <= n < |indices| ==> indices[n] < |stream|
  {
    seq(|indices|, n requires 0 <= n < |indices| => stream[indices[n]])
  }

  function OfProject(events: seq<Event>, project: ProjectId): seq<Event> {
    if events == [] then []
    else
      var last := events[|events| - 1];
      OfProject(events[..|events| - 1], project) + if last.key.project == project then [last] else []
  }

  /** Events of other projects do not touch a browser's list. */
  lemma {:induction false} OthersDoNotMatter(view: seq<UserId>, project: ProjectId, events: seq<Event>)
    ensures Replay(view, project, OfProject(events, project)) == Replay(view, project, events)
  {
    if events != [] {
      var shorter, last := events[..|events| - 1], events[|events| - 1];
      OthersDoNotMatter(view, project, shorter);
      if last.key.project == project {
        assert (OfProject(shorter, project) + [last])[..|OfProject(shorter, project)|] == OfProject(shorter, project);
      } else {
        assert OfProject(events, project) == OfProject(shorter, project);
      }
    }
  }

  lemma PickedAppend(stream: seq<Event>, indices: seq<nat>, i: nat)
    requires i < |stream| && forall n :: 0 <= n < |indices| ==> indices[n] < |stream|
    ensures forall n :: 0 <= n < |indices + [i]| ==> (indices + [i])[n] < |stream|
    ensures Picked(stream, indices + [i]) == Picked(stream, indices) + [stream[i]]
  {
  }

  /** What is delivered are the events of the project in that stretch of the stream. */
  lemma {:induction false} DeliveredAreOwn(messages: seq<Registry.Message>, stream: seq<Event>, project: ProjectId,
                                           from: nat, end: nat)
    requires Carry(messages, stream) && from <= end <= |stream|
    ensures Picked(stream, OwnIndices(messages, project, from, end)) == OfProject(stream[from..end], project)
    decreases end
  {
    if from < end {
      DeliveredAreOwn(messages, stream, project, from, end - 1);
      var events := stream[from..end];
      assert events[..|events| - 1] == stream[from..end - 1] && events[|events| - 1] == stream[end - 1];
      if Own(messages[end - 1], project) {
        PickedAppend(stream, OwnIndices(messages, project, from, end - 1), end - 1);
      }
    }
  }

  lemma {:induction false} SplitAt(messages: seq<Registry.Message>, project: ProjectId, from: nat, middle: nat,
                                   end: nat)
    requires from <= middle <= end <= |messages|
    ensures OwnIndices(messages, project, from, end)
         == OwnIndices(messages, project, from, middle) + OwnIndices(messages, project, middle, end)
    decreases end
  {
    if middle < end { SplitAt(messages, project, from, middle, end - 1); }
  }

  /** The list a browser shows in the protocol is its snapshot with what the listener sent its socket
      after the snapshot folded in, if the socket was registered from its handshake on without a gap. */
  lemma ViewIsFoldOfDeliveries(run: seq<Action>, c: SocketId, from: nat, start: set<Registry.Entry>,
                               messages: seq<Registry.Message>, world: Registry.World, rounds: seq<Registry.Round>,
                               before: seq<set<Registry.Entry>>, after: seq<set<Registry.Entry>>)
    returns (snapshotAt: nat)
    requires IsRun(run) && c in After(run).conns && Snapshotted(After(run).conns[c].stage)
    requires After(run).conns[c].next == |After(run).stream| && Carry(messages, After(run).stream)
    requires |rounds| == |before| == |after| == |messages| && from <= After(run).conns[c].greetedAt
    requires Registry.Relayed(start, messages, world, rounds, before, after)
    requires var me := After(run).conns[c];
             RegisteredFor(messages, before, Registry.Entry(me.key.project, me.key.user, c), from, me.next)
    ensures var me := After(run).conns[c];
            var sent := Registry.Deliveries(messages, rounds, Registry.Entry(me.key.project, me.key.user, c));
            && snapshotAt <= |sent|
            && (forall n :: 0 <= n < snapshotAt ==> sent[n] < me.greetedAt)
            && (forall n :: snapshotAt <= n < |sent| ==> me.greetedAt <= sent[n] < |After(run).stream|)
            && me.view == Replay(me.ids, me.key.project, Picked(After(run).stream, sent[snapshotAt..]))
  {
    var s := After(run);
    var me := s.conns[c];
    var p := me.key.project;
    ViewsAreReplays(run, c);
    SentWithoutGap(start, messages, world, rounds, before, after, Registry.Entry(p, me.key.user, c), from, me.next);
    SplitAt(messages, p, from, me.greetedAt, me.next);
    var earlier, later := OwnIndices(messages, p, from, me.greetedAt), OwnIndices(messages, p, me.greetedAt, me.next);
    snapshotAt := |earlier|;
    assert (earlier + later)[snapshotAt..] == later;
    DeliveredAreOwn(messages, s.stream, p, me.greetedAt, me.next);
    OthersDoNotMatter(me.ids, p, s.stream[me.greetedAt..me.next]);
  }
}
