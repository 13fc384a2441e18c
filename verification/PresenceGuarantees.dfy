/** What the presence protocol guarantees: on every run where a stated guard holds, and, where
    a guarantee can fail, exactly on which runs. */
module PresenceGuarantees {
  import opened Ids
  import opened Presence
  import opened PresenceProtocol

  // ---------------------------------------------------------------- the stored count is exact

  ghost predicate Exact(s: State, k: Key) {
    Value(s.counts, k) == Joined(s, k)
  }

  ghost predicate AlwaysExact(run: seq<Action>, k: Key)
    requires IsRun(run)
  {
    Exact(After(run), k) && (run != [] ==> AlwaysExact(run[..|run| - 1], k))
  }

  /** No delete of this user's field fires while one of the user's connections is joined. */
  ghost predicate CleanDeletes(run: seq<Action>, k: Key)
    requires IsRun(run)
  {
    run != [] ==>
      var before, a := run[..|run| - 1], run[|run| - 1];
      && CleanDeletes(before, k)
      && (a.DeleteField? && KeyOf(After(before), a) == k ==> Joined(After(before), k) == 0)
  }

  /** The count is exact at every moment of a run if and only if every delete was clean. */
  lemma {:induction false} ExactIffCleanDeletes(run: seq<Action>, k: Key)
    requires IsRun(run)
    ensures AlwaysExact(run, k) <==> CleanDeletes(run, k)
  {
    if run != [] {
      ExactIffCleanDeletes(run[..|run| - 1], k);
      LedgerStep(After(run[..|run| - 1]), run[|run| - 1], k);
    }
  }

  /** Then, with no delete outstanding, the listed users are exactly the joined ones. */
  lemma ListedIffJoined(run: seq<Action>, k: Key)
    requires IsRun(run) && CleanDeletes(run, k) && Tally(After(run), k, Remover) == 0
    ensures k in After(run).counts <==> Joined(After(run), k) > 0
  {
    ExactIffCleanDeletes(run, k);
    NeverInflated(run, k);
  }

  // ---------------------------------------------------------------- a guard for clean deletes

  /** Nobody joins as this user between a leaver's decrement and its delete. */
  ghost predicate NoJoinWhileDeleting(run: seq<Action>, k: Key)
    requires IsRun(run)
  {
    run != [] ==>
      var before, a := run[..|run| - 1], run[|run| - 1];
      && NoJoinWhileDeleting(before, k)
      && (a.Join? && KeyOf(After(before), a) == k ==> Tally(After(before), k, Remover) == 0)
  }

  lemma DeletingStep(s: State, a: Action, k: Key)
    requires Enabled(s, a) && Exact(s, k)
    requires Tally(s, k, Remover) > 0 ==> Joined(s, k) == 0
    requires a.Join? && KeyOf(s, a) == k ==> Tally(s, k, Remover) == 0
    ensures Tally(Do(s, a), k, Remover) > 0 ==> Joined(Do(s, a), k) == 0
    ensures a.DeleteField? && KeyOf(s, a) == k ==> Joined(s, k) == 0
  {
    TalliesAfter(s, a, k);
  }

  /** That guard alone makes every delete clean, and so the count exact. */
  lemma {:induction false} NoJoinWhileDeletingSuffices(run: seq<Action>, k: Key)
    requires IsRun(run) && NoJoinWhileDeleting(run, k)
    ensures CleanDeletes(run, k) && AlwaysExact(run, k)
    ensures Tally(After(run), k, Remover) > 0 ==> Joined(After(run), k) == 0
  {
    if run != [] {
      NoJoinWhileDeletingSuffices(run[..|run| - 1], k);
      DeletingStep(After(run[..|run| - 1]), run[|run| - 1], k);
    }
    ExactIffCleanDeletes(run, k);
  }

  // ---------------------------------------------------------------- announcements alternate

  function Published(stream: seq<Event>, e: Event): nat {
    if stream == [] then 0
    else Published(stream[..|stream| - 1], e) + One(stream[|stream| - 1] == e)
  }

  /** In every prefix of the stream at least as many JOINED as LEFT for this user. */
  ghost predicate Balanced(stream: seq<Event>, k: Key) {
    && Published(stream, Event(PresenceLeft, k)) <= Published(stream, Event(PresenceJoined, k))
    && (stream != [] ==> Balanced(stream[..|stream| - 1], k))
  }

  /** Times this user came online, and went offline, by the counter: announced or still owed. */
  function Arrivals(s: State, k: Key): nat {
    Published(s.stream, Event(PresenceJoined, k)) + Tally(s, k, Opener)
  }

  function Departures(s: State, k: Key): nat {
    Published(s.stream, Event(PresenceLeft, k)) + Tally(s, k, Remover) + Tally(s, k, Leaver)
  }

  ghost predicate Alternating(s: State, k: Key) {
    && Tally(s, k, Opener) <= 1
    && Arrivals(s, k) == Departures(s, k) + One(Joined(s, k) > 0)
    && Balanced(s.stream, k)
  }

  lemma PublishedAfter(s: State, a: Action, k: Key)
    requires Enabled(s, a)
    ensures Published(NextStream(s, a), Event(PresenceJoined, k))
         == Published(s.stream, Event(PresenceJoined, k))
            + One(a.EnterLoop? && s.conns[a.c].key == k && s.conns[a.c].stage.count == 1)
    ensures Published(NextStream(s, a), Event(PresenceLeft, k))
         == Published(s.stream, Event(PresenceLeft, k)) + One(a.AnnounceLeft? && s.conns[a.c].key == k)
    ensures NextStream(s, a) == s.stream
         || (NextStream(s, a) != [] && NextStream(s, a)[..|NextStream(s, a)| - 1] == s.stream)
  {
    var stream := NextStream(s, a);
    if stream != s.stream {
      assert stream[..|stream| - 1] == s.stream;
    }
  }

  /** The tallies in the terms of the source: who opens, who stays, who owes what. */
  lemma RolesAfter(s: State, a: Action, k: Key)
    requires Enabled(s, a)
    ensures var mine := KeyOf(s, a) == k;
            var opens := mine && a.Join? && Value(s.counts, k) == 0;
            var announces := mine && a.EnterLoop? && s.conns[a.c].stage.count == 1;
            var last := mine && a.Leave? && Value(s.counts, k) <= 1;
            && Tally(Do(s, a), k, Opener) == Tally(s, k, Opener) + One(opens) - One(announces)
            && Joined(Do(s, a), k) == Joined(s, k) + One(mine && a.Join?) - One(mine && a.Leave?)
            && Tally(Do(s, a), k, Remover) + Tally(Do(s, a), k, Leaver)
               == Tally(s, k, Remover) + Tally(s, k, Leaver) + One(last) - One(mine && a.AnnounceLeft?)
  {
    TalliesAfter(s, a, k);
  }

  lemma SessionsStep(s: State, a: Action, k: Key)
    requires Enabled(s, a) && Exact(s, k)
    requires Tally(s, k, Opener) <= 1 && Arrivals(s, k) == Departures(s, k) + One(Joined(s, k) > 0)
    ensures Tally(Do(s, a), k, Opener) <= 1
    ensures Arrivals(Do(s, a), k) == Departures(Do(s, a), k) + One(Joined(Do(s, a), k) > 0)
  {
    RolesAfter(s, a, k);
    PublishedAfter(s, a, k);
  }

  lemma AlternatingStep(s: State, a: Action, k: Key)
    requires Enabled(s, a) && Exact(s, k) && Alternating(s, k)
    ensures Alternating(Do(s, a), k)
  {
    SessionsStep(s, a, k);
    PublishedAfter(s, a, k);
    assert Published(Do(s, a).stream, Event(PresenceLeft, k)) <= Published(Do(s, a).stream, Event(PresenceJoined, k));
  }

  /** Arrivals and departures strictly alternate: at every moment the arrivals lead by exactly
      one if the user has a joined connection and by zero if not; and each LEFT is published
      after the JOINED of its own session. */
  lemma {:induction false} SessionsAlternate(run: seq<Action>, k: Key)
    requires IsRun(run) && CleanDeletes(run, k)
    ensures Alternating(After(run), k)
  {
    if run != [] {
      SessionsAlternate(run[..|run| - 1], k);
      ExactIffCleanDeletes(run[..|run| - 1], k);
      AlternatingStep(After(run[..|run| - 1]), run[|run| - 1], k);
    }
  }

  // ---------------------------------------------------------------- the stream tells the truth

  function LastKind(stream: seq<Event>, k: Key): Option<Kind> {
    if stream == [] then None
    else if stream[|stream| - 1].key == k then Some(stream[|stream| - 1].kind)
    else LastKind(stream[..|stream| - 1], k)
  }

  /** Once nothing is owed about a user, the last word on the stream is the truth. */
  ghost predicate Truthful(s: State, k: Key) {
    Quiet(s, k) ==> (LastKind(s.stream, k) == Some(PresenceJoined) <==> Joined(s, k) > 0)
  }

  ghost predicate AlwaysTruthful(run: seq<Action>, k: Key)
    requires IsRun(run)
  {
    Truthful(After(run), k) && (run != [] ==> AlwaysTruthful(run[..|run| - 1], k))
  }

  /** No LEFT becomes the last word on a user who has meanwhile joined again. */
  ghost predicate TimelyLefts(run: seq<Action>, k: Key)
    requires IsRun(run)
  {
    run != [] ==>
      var before, a := run[..|run| - 1], run[|run| - 1];
      && TimelyLefts(before, k)
      && (a.AnnounceLeft? && KeyOf(After(before), a) == k && Quiet(After(run), k) ==> Joined(After(before), k) == 0)
  }

  lemma TruthfulStep(s: State, a: Action, k: Key)
    requires Enabled(s, a) && Exact(s, k) && Truthful(s, k)
    requires a.AnnounceLeft? && KeyOf(s, a) == k && Quiet(Do(s, a), k) ==> Joined(s, k) == 0
    ensures Truthful(Do(s, a), k)
  {
    TalliesAfter(s, a, k);
    var stream := NextStream(s, a);
    if stream != s.stream {
      assert stream[..|stream| - 1] == s.stream;
    }
  }

  /** The stream is always truthful if and only if no LEFT comes too late. */
  lemma {:induction false} TruthfulIffTimelyLefts(run: seq<Action>, k: Key)
    requires IsRun(run) && CleanDeletes(run, k)
    ensures AlwaysTruthful(run, k) <==> TimelyLefts(run, k)
  {
    if run != [] {
      var before, a := run[..|run| - 1], run[|run| - 1];
      TruthfulIffTimelyLefts(before, k);
      ExactIffCleanDeletes(before, k);
      if TimelyLefts(run, k) {
        TruthfulStep(After(before), a, k);
      } else if AlwaysTruthful(run, k) {
        TalliesAfter(After(before), a, k);
      }
    }
  }

  // ---------------------------------------------------------------- the guard both follow from

  /** Nobody joins as this user while one of the user's leavers is between the decrement that
      took the count to zero and the end of its handler. */
  ghost predicate NoJoinWhileLeaving(run: seq<Action>, k: Key)
    requires IsRun(run)
  {
    run != [] ==>
      var before, a := run[..|run| - 1], run[|run| - 1];
      && NoJoinWhileLeaving(before, k)
      && (a.Join? && KeyOf(After(before), a) == k ==>
            Tally(After(before), k, Remover) + Tally(After(before), k, Leaver) == 0)
  }

  lemma LeavingStep(s: State, a: Action, k: Key)
    requires Enabled(s, a) && Exact(s, k)
    requires Tally(s, k, Remover) + Tally(s, k, Leaver) > 0 ==> Joined(s, k) == 0
    requires a.Join? && KeyOf(s, a) == k ==> Tally(s, k, Remover) + Tally(s, k, Leaver) == 0
    ensures Tally(Do(s, a), k, Remover) + Tally(Do(s, a), k, Leaver) > 0 ==> Joined(Do(s, a), k) == 0
    ensures (a.DeleteField? || a.AnnounceLeft?) && KeyOf(s, a) == k ==> Joined(s, k) == 0
  {
    TalliesAfter(s, a, k);
  }

  lemma {:induction false} NoJoinWhileLeavingSuffices(run: seq<Action>, k: Key)
    requires IsRun(run) && NoJoinWhileLeaving(run, k)
    ensures CleanDeletes(run, k) && TimelyLefts(run, k)
    ensures Tally(After(run), k, Remover) + Tally(After(run), k, Leaver) > 0 ==> Joined(After(run), k) == 0
  {
    if run != [] {
      NoJoinWhileLeavingSuffices(run[..|run| - 1], k);
      ExactIffCleanDeletes(run[..|run| - 1], k);
      LeavingStep(After(run[..|run| - 1]), run[|run| - 1], k);
    }
  }

  // ---------------------------------------------------------------- what a browser ends up showing

  function Replay(view: seq<UserId>, project: ProjectId, events: seq<Event>): seq<UserId> {
    if events == [] then view
    else Apply(Replay(view, project, events[..|events| - 1]), project, events[|events| - 1])
  }

  /** For each user only the last event counts. */
  lemma {:induction false} ReplayMembers(view: seq<UserId>, project: ProjectId, events: seq<Event>, u: UserId)
    ensures u in Replay(view, project, events) <==>
            match LastKind(events, Key(project, u))
            case None => u in view
            case Some(kind) => kind.PresenceJoined?
    ensures NoDuplicates(view) ==> NoDuplicates(Replay(view, project, events))
  {
    if events != [] {
      ReplayMembers(view, project, events[..|events| - 1], u);
    }
  }

  lemma {:induction false} LastKindOfConcat(xs: seq<Event>, ys: seq<Event>, k: Key)
    ensures LastKind(xs + ys, k) == if LastKind(ys, k).Some? then LastKind(ys, k) else LastKind(xs, k)
  {
    if ys == [] {
      assert xs + ys == xs;
    } else {
      assert (xs + ys)[..|xs + ys| - 1] == xs + ys[..|ys| - 1];
      LastKindOfConcat(xs, ys[..|ys| - 1], k);
    }
  }

  /** Overlap is harmless: a snapshot reflecting the first `r` transitions, followed by every
      transition from any earlier point `s` on, shows each user as all the transitions leave them. */
  lemma OverlapTolerated(history: seq<Event>, s: nat, r: nat, snapshot: seq<UserId>, project: ProjectId, u: UserId)
    requires s <= r <= |history|
    requires u in snapshot <==> LastKind(history[..r], Key(project, u)) == Some(PresenceJoined)
    ensures u in Replay(snapshot, project, history[s..]) <==>
            LastKind(history, Key(project, u)) == Some(PresenceJoined)
  {
    var k := Key(project, u);
    ReplayMembers(snapshot, project, history[s..], u);
    assert history[0..] == history && history[0..r] == history[..r];
    LastKindFrom(history, 0, s, k);
    LastKindFrom(history, 0, r, k);
    LastKindFrom(history, s, r, k);
  }

  lemma LastKindFrom(stream: seq<Event>, i: nat, j: nat, k: Key)
    requires i <= j <= |stream|
    ensures LastKind(stream[i..], k)
         == if LastKind(stream[j..], k).Some? then LastKind(stream[j..], k) else LastKind(stream[i..j], k)
  {
    assert stream[i..] == stream[i..j] + stream[j..];
    LastKindOfConcat(stream[i..j], stream[j..], k);
  }

  ghost predicate Shows(me: Connection, stream: seq<Event>) {
    && me.greetedAt <= me.next <= |stream|
    && me.view == Replay(me.ids, me.key.project, stream[me.greetedAt..me.next])
  }

  ghost predicate ViewOk(me: Connection, stream: seq<Event>) {
    && me.next <= |stream| && NoDuplicates(me.ids) && NoDuplicates(me.view)
    && (Snapshotted(me.stage) ==> Shows(me, stream))
  }

  lemma ShowsNext(me: Connection, stream: seq<Event>)
    requires Shows(me, stream) && me.next < |stream|
    ensures Shows(me.(view := Apply(me.view, me.key.project, stream[me.next]), next := me.next + 1), stream)
  {
    var seen := stream[me.greetedAt..me.next + 1];
    assert seen[..|seen| - 1] == stream[me.greetedAt..me.next];
  }

  lemma ViewStep(s: State, a: Action, c: SocketId)
    requires Enabled(s, a) && c in s.conns && ViewOk(s.conns[c], s.stream)
    ensures ViewOk(Do(s, a).conns[c], Do(s, a).stream)
  {
    var me, stream := s.conns[c], NextStream(s, a);
    assert s.stream <= stream;
    if Snapshotted(me.stage) {
      assert stream[me.greetedAt..me.next] == s.stream[me.greetedAt..me.next];
      if a == Relay(c) { ShowsNext(me, s.stream); }
    }
  }

  lemma {:induction false} ViewsAreReplays(run: seq<Action>, c: SocketId)
    requires IsRun(run) && c in After(run).conns
    ensures ViewOk(After(run).conns[c], After(run).stream)
  {
    if c in After(run[..|run| - 1]).conns {
      ViewsAreReplays(run[..|run| - 1], c);
      ViewStep(After(run[..|run| - 1]), run[|run| - 1], c);
    }
  }

  ghost predicate HasListing(stage: Stage) {
    stage.Listed? || Snapshotted(stage)
  }

  /** The listing is still right about a user nobody owes news of, unless news was published since. */
  ghost predicate ListingCurrent(s: State, me: Connection, k: Key) {
    && me.listedAt <= |s.stream|
    && (Quiet(s, k) && LastKind(s.stream[me.listedAt..], k) == None ==>
          (k.user in me.ids <==> Joined(s, k) > 0))
  }

  lemma ListingStep(s: State, a: Action, me: Connection, k: Key)
    requires Enabled(s, a) && Exact(s, k) && ListingCurrent(s, me, k)
    ensures ListingCurrent(Do(s, a), me, k)
  {
    TalliesAfter(s, a, k);
    var stream := NextStream(s, a);
    if stream != s.stream {
      assert stream[me.listedAt..][..|stream| - 1 - me.listedAt] == s.stream[me.listedAt..];
    }
  }

  lemma ListingTaken(s: State, a: Action, k: Key)
    requires Enabled(s, a) && a.List? && s.conns[a.c].key.project == k.project
    requires Exact(s, k) && NoInflation(s, k)
    ensures ListingCurrent(Do(s, a), Do(s, a).conns[a.c], k)
  {
    TalliesAfter(s, a, k);
  }

  lemma {:induction false} ListingsAreCurrent(run: seq<Action>, c: SocketId, k: Key)
    requires IsRun(run) && CleanDeletes(run, k)
    requires c in After(run).conns && After(run).conns[c].key.project == k.project
    requires HasListing(After(run).conns[c].stage)
    ensures ListingCurrent(After(run), After(run).conns[c], k)
  {
    var before, a := run[..|run| - 1], run[|run| - 1];
    var s := After(before);
    ExactIffCleanDeletes(before, k);
    if a.List? && a.c == c {
      NeverInflated(before, k);
      ListingTaken(s, a, k);
    } else {
      assert HasListing(s.conns[c].stage);
      ListingsAreCurrent(before, c, k);
      ListingStep(s, a, s.conns[c], k);
    }
  }

  /** The snapshot erased the only news about this user that came between the listing and it. */
  ghost predicate Overwritten(me: Connection, stream: seq<Event>, k: Key)
    requires me.greetedAt <= |stream|
  {
    && LastKind(stream[me.greetedAt..], k) == None
    && me.listedAt < me.greetedAt
    && match LastKind(stream[me.listedAt..me.greetedAt], k)
       case None => false
       case Some(kind) => kind.PresenceJoined? != (k.user in me.ids)
  }

  /** A browser that has seen the whole stream is right about a quiet user if and only if its
      snapshot did not overwrite the news about that user. */
  lemma RightIffNotOverwritten(run: seq<Action>, c: SocketId, u: UserId)
    requires IsRun(run) && c in After(run).conns
    requires var me := After(run).conns[c];
             && Snapshotted(me.stage) && me.next == |After(run).stream|
             && CleanDeletes(run, Key(me.key.project, u)) && TimelyLefts(run, Key(me.key.project, u))
             && Quiet(After(run), Key(me.key.project, u))
    ensures var s := After(run); var me := s.conns[c]; var k := Key(me.key.project, u);
            && me.greetedAt <= |s.stream|
            && ((u in me.view <==> Joined(s, k) > 0) <==> !Overwritten(me, s.stream, k))
  {
    var s := After(run);
    var me := s.conns[c];
    var k := Key(me.key.project, u);
    var g, l := me.greetedAt, me.listedAt;
    ViewsAreReplays(run, c);
    TruthfulIffTimelyLefts(run, k);
    ListingsAreCurrent(run, c, k);
    assert s.stream[g..me.next] == s.stream[g..] && s.stream[0..] == s.stream;
    ReplayMembers(me.ids, me.key.project, s.stream[g..], u);
    LastKindFrom(s.stream, 0, g, k);
    if g <= l {
      LastKindFrom(s.stream, g, l, k);
    } else {
      LastKindFrom(s.stream, l, g, k);
      LastKindFrom(s.stream, 0, l, k);
    }
  }

  /** End to end: whatever the interleaving of the project's handlers, if nobody joins while
      leaving and this browser was relayed nothing between its listing and its snapshot, then once
      the announcements owed are out and relayed, its list has no duplicates and is exactly
      the set of users with a joined connection. */
  lemma BrowserConverges(run: seq<Action>, c: SocketId)
    requires IsRun(run) && c in After(run).conns
    requires var me := After(run).conns[c];
             && Snapshotted(me.stage) && me.next == |After(run).stream| && me.greetedAt <= me.listedAt
             && forall u :: NoJoinWhileLeaving(run, Key(me.key.project, u)) && Quiet(After(run), Key(me.key.project, u))
    ensures var s := After(run); var me := s.conns[c];
            NoDuplicates(me.view) && forall u :: u in me.view <==> Joined(s, Key(me.key.project, u)) > 0
  {
    var s := After(run);
    var me := s.conns[c];
    ViewsAreReplays(run, c);
    forall u ensures u in me.view <==> Joined(s, Key(me.key.project, u)) > 0 {
      NoJoinWhileLeavingSuffices(run, Key(me.key.project, u));
      RightIffNotOverwritten(run, c, u);
    }
  }
}
