/** Optimistic status moves with rollback and refetch (frontend/src/pages/ProjectPage.tsx:85-106):
    any number of moves in flight, each remembering the list it found. */
module Moves {
  import opened Board

  /** The `number`-th move begun: card `id` goes to column `to`. */
  datatype Mutation = Mutation(number: nat, id: nat, to: Status)

  datatype Progress = InFlight | Failed | Succeeded

  /** A mutation with its context: the list its onMutate found. */
  datatype Sent = Sent(move: Mutation, previous: seq<Card>, progress: Progress)

  /** The cached list, the mutations so far, and whether a refetch of the list is under way. */
  datatype State = State(shown: seq<Card>, sent: seq<Sent>, fetching: bool)

  /** A refetch starts when a move settles, or when an event on the socket invalidates the list. It
      lands with whatever list the server answered, unless a new move cancels it. */
  datatype Action =
    | Mutate(id: nat, to: Status)
    | Fail(i: nat)
    | Succeed(i: nat)
    | Invalidate
    | Land(list: seq<Card>)

  predicate Enabled(s: State, a: Action) {
    match a
    case Mutate(_, _) => true
    case Fail(i) => i < |s.sent| && s.sent[i].progress.InFlight?
    case Succeed(i) => i < |s.sent| && s.sent[i].progress.InFlight?
    case Invalidate => true
    case Land(_) => s.fetching
  }

  function Do(s: State, a: Action): State
    requires Enabled(s, a)
  {
    match a
    case Mutate(id, to) =>
      State(Move(s.shown, id, to), s.sent + [Sent(Mutation(|s.sent|, id, to), s.shown, InFlight)], false)
    case Fail(i) => State(s.sent[i].previous, s.sent[i := s.sent[i].(progress := Failed)], true)
    case Succeed(i) => s.(sent := s.sent[i := s.sent[i].(progress := Succeeded)], fetching := true)
    case Invalidate => s.(fetching := true)
    case Land(list) => s.(shown := list, fetching := false)
  }

  ghost predicate IsRun(start: State, run: seq<Action>)
    decreases |run|, 1
  {
    run == [] || (IsRun(start, run[..|run| - 1]) && Enabled(After(start, run[..|run| - 1]), run[|run| - 1]))
  }

  ghost function After(start: State, run: seq<Action>): State
    requires IsRun(start, run)
    decreases |run|, 2
  {
    if run == [] then start else Do(After(start, run[..|run| - 1]), run[|run| - 1])
  }

  /** A list just fetched, with nothing in flight. */
  function Fetched(list: seq<Card>): State {
    State(list, [], false)
  }

  lemma {:induction false} Concat(start: State, first: seq<Action>, rest: seq<Action>)
    requires IsRun(start, first) && IsRun(After(start, first), rest)
    ensures IsRun(start, first + rest) && After(start, first + rest) == After(After(start, first), rest)
  {
    if rest == [] {
      assert first + rest == first;
    } else {
      Concat(start, first, rest[..|rest| - 1]);
      assert (first + rest)[..|first + rest| - 1] == first + rest[..|rest| - 1];
    }
  }

  lemma Single(s: State, a: Action)
    requires Enabled(s, a)
    ensures IsRun(s, [a]) && After(s, [a]) == Do(s, a)
  {
    assert IsRun(s, []) && [a][..|[a]| - 1] == [];
  }

  lemma Recorded(start: State, run: seq<Action>, a: Action)
    requires IsRun(start, run) && Enabled(After(start, run), a)
    ensures IsRun(start, run + [a]) && After(start, run + [a]) == Do(After(start, run), a)
  {
    assert (run + [a])[..|run + [a]| - 1] == run;
  }

  // ---------------------------------------------------------------- what is on show

  function Applied(cards: seq<Card>, moves: seq<Mutation>): seq<Card> {
    if moves == [] then cards
    else Move(Applied(cards, moves[..|moves| - 1]), moves[|moves| - 1].id, moves[|moves| - 1].to)
  }

  /** Where a card ends up: the last move on it counts. */
  function Final(card: Card, moves: seq<Mutation>): Status {
    if moves == [] then card.status
    else if moves[|moves| - 1].id == card.id then moves[|moves| - 1].to
    else Final(card, moves[..|moves| - 1])
  }

  lemma {:induction false} AppliedAt(cards: seq<Card>, moves: seq<Mutation>, k: nat)
    requires k < |cards|
    ensures |Applied(cards, moves)| == |cards|
    ensures Applied(cards, moves)[k] == cards[k].(status := Final(cards[k], moves))
  {
    if moves != [] { AppliedAt(cards, moves[..|moves| - 1], k); }
  }

  lemma {:induction false} AppliedLength(cards: seq<Card>, moves: seq<Mutation>)
    ensures |Applied(cards, moves)| == |cards|
  {
    if moves != [] { AppliedLength(cards, moves[..|moves| - 1]); }
  }

  /** A list from the server, the `epoch`-th, and the moves whose effect stands on it. */
  datatype Stand = Stand(epoch: nat, base: seq<Card>, moves: seq<Mutation>)

  /** Bookkeeping of the events alone: the moves begun; those whose numbers failed, and succeeded;
      the server's latest list with its number, and which moves had succeeded when it landed, so that
      it accounts for them; what stands on the screen, and what each move found standing. */
  datatype Track = Track(
    begun: seq<Mutation>, failed: set<nat>, succeeded: set<nat>,
    epoch: nat, latest: seq<Card>, accounted: set<nat>,
    stand: Stand, found: seq<Stand>)

  function Next(t: Track, a: Action): Track {
    match a
    case Mutate(id, to) =>
      var m := Mutation(|t.begun|, id, to);
      t.(begun := t.begun + [m], stand := t.stand.(moves := t.stand.moves + [m]), found := t.found + [t.stand])
    case Fail(i) => if i < |t.found| then t.(stand := t.found[i], failed := t.failed + {i}) else t
    case Succeed(i) => t.(succeeded := t.succeeded + {i})
    case Invalidate => t
    case Land(list) =>
      t.(epoch := t.epoch + 1, latest := list, accounted := t.succeeded, stand := Stand(t.epoch + 1, list, []))
  }

  function TrackOf(initial: seq<Card>, run: seq<Action>): Track {
    if run == [] then Track([], {}, {}, 0, initial, {}, Stand(0, initial, []), [])
    else Next(TrackOf(initial, run[..|run| - 1]), run[|run| - 1])
  }

  /** The moves that have not been dropped, in the order they were begun. */
  function Survivors(begun: seq<Mutation>, dropped: set<nat>): seq<Mutation> {
    if begun == [] then []
    else Survivors(begun[..|begun| - 1], dropped) + if |begun| - 1 in dropped then [] else [begun[|begun| - 1]]
  }

  /** The moves that belong on top of the server's latest list: those that have not failed and had
      not succeeded by the time it landed. */
  function Surviving(t: Track): seq<Mutation> {
    Survivors(t.begun, t.failed + t.accounted)
  }

  /** What should be on the screen. */
  function Expected(t: Track): seq<Card> {
    Applied(t.latest, Surviving(t))
  }

  function Shows(stand: Stand): seq<Card> {
    Applied(stand.base, stand.moves)
  }

  ghost predicate Numbered(t: Track) {
    && |t.found| == |t.begun| && (forall i :: 0 <= i < |t.begun| ==> t.begun[i].number == i)
    && (forall i :: i in t.failed ==> i < |t.begun|)
    && (forall i :: i in t.succeeded ==> i < |t.begun|)
    && t.accounted <= t.succeeded
  }

  ghost predicate Tracks(s: State, t: Track) {
    && Numbered(t) && |s.sent| == |t.begun| && s.shown == Shows(t.stand)
    && forall i :: 0 <= i < |s.sent| ==> TracksAt(s, t, i)
  }

  lemma NumberedStep(t: Track, a: Action)
    requires Numbered(t) && (a.Fail? || a.Succeed? ==> a.i < |t.begun|)
    ensures Numbered(Next(t, a))
  {
  }

  ghost predicate TracksAt(s: State, t: Track, i: nat)
    requires i < |s.sent| && i < |t.begun| && i < |t.found|
  {
    && s.sent[i].move == t.begun[i] && s.sent[i].previous == Shows(t.found[i])
    && (s.sent[i].progress.Failed? <==> i in t.failed)
    && (s.sent[i].progress.Succeeded? <==> i in t.succeeded)
  }

  lemma TracksStepAt(s: State, t: Track, a: Action, i: nat)
    requires Tracks(s, t) && Enabled(s, a) && i < |Do(s, a).sent|
    ensures i < |Next(t, a).begun| == |Next(t, a).found| && TracksAt(Do(s, a), Next(t, a), i)
  {
    if i < |s.sent| { assert TracksAt(s, t, i); }
  }

  lemma TracksStep(s: State, t: Track, a: Action)
    requires Tracks(s, t) && Enabled(s, a)
    ensures Tracks(Do(s, a), Next(t, a))
  {
    NumberedStep(t, a);
    forall i | 0 <= i < |Do(s, a).sent| ensures TracksAt(Do(s, a), Next(t, a), i) { TracksStepAt(s, t, a, i); }
    if a.Mutate? {
      var m := Mutation(|t.begun|, a.id, a.to);
      assert (t.stand.moves + [m])[..|t.stand.moves|] == t.stand.moves;
    }
    if a.Fail? { assert TracksAt(s, t, a.i); }
  }

  /** In every run the list on show, and each list remembered, is the list from the server and the
      moves on it that the events alone say are standing. */
  lemma {:induction false} ShownIsStanding(initial: seq<Card>, run: seq<Action>)
    requires IsRun(Fetched(initial), run)
    ensures Tracks(After(Fetched(initial), run), TrackOf(initial, run))
  {
    if run != [] {
      var before := run[..|run| - 1];
      ShownIsStanding(initial, before);
      TracksStep(After(Fetched(initial), before), TrackOf(initial, before), run[|run| - 1]);
    }
  }

  /** Two lists of moves on two lists of cards look the same exactly if the cards do and, for each, the
      last move on it leads to the same column. */
  lemma SameWhen(a: seq<Card>, moves: seq<Mutation>, b: seq<Card>, others: seq<Mutation>)
    ensures Applied(a, moves) == Applied(b, others) <==>
              && |a| == |b|
              && forall k :: 0 <= k < |a| ==>
                   && a[k].id == b[k].id && a[k].position == b[k].position
                   && Final(a[k], moves) == Final(b[k], others)
  {
    AppliedLength(a, moves);
    AppliedLength(b, others);
    if |a| == |b| {
      forall k | 0 <= k < |a|
        ensures Applied(a, moves)[k] == Applied(b, others)[k] <==>
                  && a[k].id == b[k].id && a[k].position == b[k].position
                  && Final(a[k], moves) == Final(b[k], others)
      {
        AppliedAt(a, moves, k);
        AppliedAt(b, others, k);
      }
    }
  }

  /** After any run the screen shows the server's latest list with the surviving moves, if and only if
      the list standing has the same cards as the latest and, for each card, the last standing move
      and the last surviving one lead to the same column. */
  lemma RightIffLastMovesAgree(initial: seq<Card>, run: seq<Action>)
    requires IsRun(Fetched(initial), run)
    ensures var t := TrackOf(initial, run);
            After(Fetched(initial), run).shown == Expected(t) <==>
              && |t.stand.base| == |t.latest|
              && forall k :: 0 <= k < |t.latest| ==>
                   && t.stand.base[k].id == t.latest[k].id && t.stand.base[k].position == t.latest[k].position
                   && Final(t.stand.base[k], t.stand.moves) == Final(t.latest[k], Surviving(t))
  {
    ShownIsStanding(initial, run);
    var t := TrackOf(initial, run);
    SameWhen(t.stand.base, t.stand.moves, t.latest, Surviving(t));
  }

  lemma TrackNext(initial: seq<Card>, run: seq<Action>, a: Action)
    ensures TrackOf(initial, run + [a]) == Next(TrackOf(initial, run), a)
  {
    assert (run + [a])[..|run + [a]| - 1] == run;
  }

  // ---------------------------------------------------------------- orderly runs

  predicate NothingInFlight(t: Track) {
    forall j :: 0 <= j < |t.begun| ==> j in t.failed || j in t.succeeded
  }

  /** Moves only fail when all begun after them have failed, and refetches only land with nothing in
      flight. */
  ghost predicate Orderly(initial: seq<Card>, run: seq<Action>) {
    run != [] ==>
      var t, a := TrackOf(initial, run[..|run| - 1]), run[|run| - 1];
      && Orderly(initial, run[..|run| - 1])
      && (a.Fail? ==> forall j :: a.i < j < |t.begun| ==> j in t.failed)
      && (a.Land? ==> NothingInFlight(t))
  }

  /** At every moment exactly the surviving moves stand, on the server's latest list. */
  ghost predicate AlwaysInStep(initial: seq<Card>, run: seq<Action>) {
    && InStep(TrackOf(initial, run))
    && (run != [] ==> AlwaysInStep(initial, run[..|run| - 1]))
  }

  ghost predicate InStep(t: Track) {
    t.stand == Stand(t.epoch, t.latest, Surviving(t))
  }

  /** What a move in flight found: the same list, and what still survives of the moves before it. All
      moves begun later are newer than that list. */
  ghost predicate FoundOk(t: Track, i: nat)
    requires i < |t.begun| && i < |t.found|
  {
    && t.found[i] == Stand(t.epoch, t.latest, Survivors(t.begun[..i], t.failed + t.accounted))
    && forall j :: j in t.accounted ==> j < i
  }

  ghost predicate FoundSurvivors(t: Track) {
    && Numbered(t) && InStep(t)
    && forall i :: 0 <= i < |t.begun| && i !in t.failed && i !in t.succeeded ==> FoundOk(t, i)
  }

  lemma {:induction false} SameSurvivors(begun: seq<Mutation>, dropped: set<nat>, others: set<nat>)
    requires forall i :: 0 <= i < |begun| ==> (i in dropped <==> i in others)
    ensures Survivors(begun, dropped) == Survivors(begun, others)
  {
    if begun != [] { SameSurvivors(begun[..|begun| - 1], dropped, others); }
  }

  lemma {:induction false} RestDropped(begun: seq<Mutation>, dropped: set<nat>, i: nat)
    requires i <= |begun| && forall j :: i <= j < |begun| ==> j in dropped
    ensures Survivors(begun, dropped) == Survivors(begun[..i], dropped)
  {
    if i < |begun| {
      RestDropped(begun[..|begun| - 1], dropped, i);
      assert begun[..|begun| - 1][..i] == begun[..i];
    } else {
      assert begun[..i] == begun;
    }
  }

  lemma {:induction false} SurvivorsAre(begun: seq<Mutation>, dropped: set<nat>, m: Mutation)
    requires forall i :: 0 <= i < |begun| ==> begun[i].number == i
    ensures m in Survivors(begun, dropped) <==> m in begun && m.number !in dropped
  {
    if begun != [] {
      SurvivorsAre(begun[..|begun| - 1], dropped, m);
      assert begun == begun[..|begun| - 1] + [begun[|begun| - 1]];
    }
  }

  lemma BeginStep(t: Track, id: nat, to: Status)
    requires FoundSurvivors(t)
    ensures FoundSurvivors(Next(t, Mutate(id, to)))
  {
    var n := Next(t, Mutate(id, to));
    assert n.begun[..|t.begun|] == t.begun;
    forall i | 0 <= i < |n.begun| && i !in n.failed && i !in n.succeeded ensures FoundOk(n, i) {
      if i < |t.begun| {
        assert FoundOk(t, i) && n.begun[..i] == t.begun[..i];
      }
    }
  }

  lemma LastOutKeeps(t: Track, i: nat)
    requires FoundSurvivors(t) && i < |t.begun| && i !in t.failed && i !in t.succeeded
    requires forall j :: i < j < |t.begun| ==> j in t.failed
    ensures FoundSurvivors(Next(t, Fail(i)))
  {
    var n := Next(t, Fail(i));
    var was, now := t.failed + t.accounted, n.failed + n.accounted;
    assert FoundOk(t, i);
    RestDropped(t.begun, now, i);
    SameSurvivors(t.begun[..i], was, now);
    forall k | 0 <= k < |t.begun| && k !in n.failed && k !in n.succeeded ensures FoundOk(n, k) {
      assert FoundOk(t, k);
      SameSurvivors(t.begun[..k], was, now);
    }
  }

  lemma EarlyFailLoses(begun: seq<Mutation>, dropped: set<nat>, i: nat, j: nat)
    requires i < j < |begun| && j !in dropped && forall k :: 0 <= k < |begun| ==> begun[k].number == k
    ensures Survivors(begun[..i], dropped) != Survivors(begun, dropped + {i})
  {
    SurvivorsAre(begun, dropped + {i}, begun[j]);
    SurvivorsAre(begun[..i], dropped, begun[j]);
    assert begun[j] in Survivors(begun, dropped + {i});
    assert begun[j] !in begun[..i];
  }

  lemma FailBreaks(t: Track, i: nat, j: nat)
    requires FoundSurvivors(t) && i < j < |t.begun| && j !in t.failed && i !in t.failed && i !in t.succeeded
    ensures !InStep(Next(t, Fail(i)))
  {
    assert FoundOk(t, i);
    EarlyFailLoses(t.begun, t.failed + t.accounted, i, j);
    assert t.failed + t.accounted + {i} == t.failed + {i} + t.accounted;
  }

  lemma LandStep(t: Track, list: seq<Card>)
    requires Numbered(t)
    ensures NothingInFlight(t) ==> FoundSurvivors(Next(t, Land(list)))
    ensures InStep(Next(t, Land(list))) ==> NothingInFlight(t)
  {
    var dropped := t.failed + t.succeeded;
    if NothingInFlight(t) {
      RestDropped(t.begun, dropped, 0);
    } else {
      var j :| 0 <= j < |t.begun| && j !in t.failed && j !in t.succeeded;
      SurvivorsAre(t.begun, dropped, t.begun[j]);
    }
  }

  lemma InStepNext(s: State, t: Track, a: Action)
    requires Tracks(s, t) && Enabled(s, a) && FoundSurvivors(t)
    ensures var orderly := (a.Fail? ==> forall j :: a.i < j < |t.begun| ==> j in t.failed)
                           && (a.Land? ==> NothingInFlight(t));
            && (orderly ==> FoundSurvivors(Next(t, a)))
            && (InStep(Next(t, a)) ==> orderly)
  {
    match a
    case Mutate(id, to) => BeginStep(t, id, to);
    case Fail(i) =>
      assert TracksAt(s, t, i);
      if j :| i < j < |t.begun| && j !in t.failed { FailBreaks(t, i, j); } else { LastOutKeeps(t, i); }
    case Succeed(i) =>
      forall k | 0 <= k < |t.begun| && k !in t.failed && k !in t.succeeded + {i} ensures FoundOk(Next(t, a), k) {
        assert FoundOk(t, k);
      }
    case Invalidate =>
    case Land(list) => LandStep(t, list);
  }

  lemma {:induction false} InStepIff(initial: seq<Card>, run: seq<Action>)
    requires IsRun(Fetched(initial), run)
    ensures AlwaysInStep(initial, run) <==> Orderly(initial, run)
    ensures Orderly(initial, run) ==> FoundSurvivors(TrackOf(initial, run))
  {
    if run != [] {
      var before := run[..|run| - 1];
      InStepIff(initial, before);
      ShownIsStanding(initial, before);
      if Orderly(initial, before) {
        InStepNext(After(Fetched(initial), before), TrackOf(initial, before), run[|run| - 1]);
      }
    }
  }

  /** At every moment exactly the surviving moves stand on the server's latest list, if and only if
      moves only fail when all begun after them have failed and refetches only land with nothing in
      flight; and then the screen is right. */
  lemma InStepIffOrderly(initial: seq<Card>, run: seq<Action>)
    requires IsRun(Fetched(initial), run)
    ensures AlwaysInStep(initial, run) <==> Orderly(initial, run)
    ensures Orderly(initial, run) ==> After(Fetched(initial), run).shown == Expected(TrackOf(initial, run))
  {
    InStepIff(initial, run);
    ShownIsStanding(initial, run);
  }

  // ---------------------------------------------------------------- refetches put things right

  /** Nothing in flight and no refetch under way: the screen is the server's latest list. */
  ghost predicate AtRestRight(s: State, t: Track) {
    !s.fetching && NothingInFlight(t) ==>
      s.shown == t.latest && forall j :: 0 <= j < |t.begun| ==> j in t.failed + t.accounted
  }

  /** However moves overlapped, failed and were rolled back before: whenever nothing is in flight and
      no refetch is under way, the screen shows exactly the server's latest list, and no move is
      missing from it. What goes wrong lasts only until the next refetch lands. */
  lemma {:induction false} RightAtRest(initial: seq<Card>, run: seq<Action>)
    requires IsRun(Fetched(initial), run)
    ensures AtRestRight(After(Fetched(initial), run), TrackOf(initial, run))
    ensures var s, t := After(Fetched(initial), run), TrackOf(initial, run);
            !s.fetching && NothingInFlight(t) ==> Surviving(t) == [] && s.shown == Expected(t)
  {
    var t := TrackOf(initial, run);
    if run != [] {
      var before, a := run[..|run| - 1], run[|run| - 1];
      RightAtRest(initial, before);
      ShownIsStanding(initial, before);
      if a.Mutate? { assert |t.begun| - 1 !in t.failed && |t.begun| - 1 !in t.succeeded; }
    }
    if !After(Fetched(initial), run).fetching && NothingInFlight(t) {
      RestDropped(t.begun, t.failed + t.accounted, 0);
    }
  }

  /** A refetch that lands shows the server's list alone. That is right if and only if no move in
      flight changes it: an optimistic move whose answer is outstanding is lost from the screen. */
  lemma LandRightIff(initial: seq<Card>, run: seq<Action>, list: seq<Card>)
    requires IsRun(Fetched(initial), run + [Land(list)])
    ensures var t := TrackOf(initial, run + [Land(list)]);
            && After(Fetched(initial), run + [Land(list)]).shown == list
            && (list == Expected(t) <==> forall k :: 0 <= k < |list| ==> Final(list[k], Surviving(t)) == list[k].status)
  {
    assert (run + [Land(list)])[..|run|] == run;
    var t := TrackOf(initial, run + [Land(list)]);
    RightIffLastMovesAgree(initial, run + [Land(list)]);
  }

  /** A rollback puts back the list the move found. If a refetch has landed since, that undoes the
      refetch: what stands is the older list with the moves that stood on it then. It is right only if
      those look the same as the latest list with the moves that survive. */
  lemma RollbackAcrossRefetch(initial: seq<Card>, run: seq<Action>, i: nat)
    requires IsRun(Fetched(initial), run + [Fail(i)])
    ensures var was, t := TrackOf(initial, run), TrackOf(initial, run + [Fail(i)]);
            && i < |was.found| && t.stand == was.found[i] && t.latest == was.latest
            && After(Fetched(initial), run + [Fail(i)]).shown == Shows(was.found[i])
            && (t.stand.epoch < t.epoch ==> !InStep(t))
  {
    assert (run + [Fail(i)])[..|run|] == run;
    ShownIsStanding(initial, run);
    ShownIsStanding(initial, run + [Fail(i)]);
  }

  /** Two moves; the first succeeds and the list is fetched anew; then the second fails. The first,
      successful move is put back on a list from before the refetch, which is right if and only if
      that looks exactly like what the server sent. */
  lemma LateFailureUndoesRefetch(cards: seq<Card>, list: seq<Card>, id1: nat, to1: Status, id2: nat, to2: Status)
    ensures var run := [Mutate(id1, to1), Mutate(id2, to2), Succeed(0), Land(list), Fail(1)];
            && IsRun(Fetched(cards), run)
            && After(Fetched(cards), run).shown == Move(cards, id1, to1)
            && Expected(TrackOf(cards, run)) == list
  {
    var s0 := Fetched(cards);
    Single(s0, Mutate(id1, to1));
    Recorded(s0, [Mutate(id1, to1)], Mutate(id2, to2));
    var two := [Mutate(id1, to1)] + [Mutate(id2, to2)];
    Recorded(s0, two, Succeed(0));
    Recorded(s0, two + [Succeed(0)], Land(list));
    Recorded(s0, two + [Succeed(0)] + [Land(list)], Fail(1));
    var run := two + [Succeed(0)] + [Land(list)] + [Fail(1)];
    assert run == [Mutate(id1, to1), Mutate(id2, to2), Succeed(0), Land(list), Fail(1)];
    LateFailureTracked(cards, list, id1, to1, id2, to2);
  }

  lemma TwoBegun(cards: seq<Card>, id1: nat, to1: Status, id2: nat, to2: Status)
    ensures var m1, m2 := Mutation(0, id1, to1), Mutation(1, id2, to2);
            var base := Stand(0, cards, []);
            TrackOf(cards, [Mutate(id1, to1)] + [Mutate(id2, to2)])
            == Track([m1, m2], {}, {}, 0, cards, {}, Stand(0, cards, [m1, m2]), [base, Stand(0, cards, [m1])])
  {
    var m1, m2 := Mutation(0, id1, to1), Mutation(1, id2, to2);
    TrackNext(cards, [], Mutate(id1, to1));
    TrackNext(cards, [Mutate(id1, to1)], Mutate(id2, to2));
    assert [] + [Mutate(id1, to1)] == [Mutate(id1, to1)];
    assert [] + [m1] == [m1] && [m1] + [m2] == [m1, m2];
    assert [Stand(0, cards, [])] + [Stand(0, cards, [m1])] == [Stand(0, cards, []), Stand(0, cards, [m1])];
  }

  lemma LateFailureTracked(cards: seq<Card>, list: seq<Card>, id1: nat, to1: Status, id2: nat, to2: Status)
    ensures var two := [Mutate(id1, to1)] + [Mutate(id2, to2)];
            Expected(TrackOf(cards, two + [Succeed(0)] + [Land(list)] + [Fail(1)])) == list
  {
    var two := [Mutate(id1, to1)] + [Mutate(id2, to2)];
    TwoBegun(cards, id1, to1, id2, to2);
    TrackNext(cards, two, Succeed(0));
    TrackNext(cards, two + [Succeed(0)], Land(list));
    TrackNext(cards, two + [Succeed(0)] + [Land(list)], Fail(1));
    var t := TrackOf(cards, two + [Succeed(0)] + [Land(list)] + [Fail(1)]);
    assert |t.begun| == 2 && 0 in t.accounted && 1 in t.failed && t.latest == list;
    RestDropped(t.begun, t.failed + t.accounted, 0);
  }

  // ---------------------------------------------------------------- all of them fail

  /** Begin the moves one after the other, then fail them in reverse order. */
  function UpAndDown(first: nat, moves: seq<(nat, Status)>): seq<Action>
    decreases |moves|
  {
    if moves == [] then []
    else [Mutate(moves[0].0, moves[0].1)] + UpAndDown(first + 1, moves[1..]) + [Fail(first)]
  }

  /** From any state, any number of moves that fail in reverse order leave the list as it was. */
  lemma {:induction false} ReverseOrderRestores(s: State, moves: seq<(nat, Status)>)
    ensures IsRun(s, UpAndDown(|s.sent|, moves))
    ensures var t := After(s, UpAndDown(|s.sent|, moves));
            t.shown == s.shown && |t.sent| == |s.sent| + |moves| && t.sent[..|s.sent|] == s.sent
    decreases |moves|
  {
    if moves != [] {
      var n := |s.sent|;
      var a := Mutate(moves[0].0, moves[0].1);
      var begun := Do(s, a);
      var inner := UpAndDown(n + 1, moves[1..]);
      ReverseOrderRestores(begun, moves[1..]);
      Single(s, a);
      Concat(s, [a], inner);
      var t := After(s, [a] + inner);
      assert t.sent[n] == t.sent[..n + 1][n] == begun.sent[n];
      Recorded(s, [a] + inner, Fail(n));
      var u := Do(t, Fail(n));
      assert forall i :: 0 <= i < n ==> u.sent[i] == t.sent[..n + 1][i] == s.sent[i];
    }
  }

  function Begins(moves: seq<(nat, Status)>): seq<Action> {
    seq(|moves|, i requires 0 <= i < |moves| => Mutate(moves[i].0, moves[i].1))
  }

  function Fails(first: nat, count: nat): seq<Action> {
    seq(count, i requires 0 <= i < count => Fail(first + i))
  }

  function Numbering(first: nat, moves: seq<(nat, Status)>): seq<Mutation> {
    seq(|moves|, i requires 0 <= i < |moves| => Mutation(first + i, moves[i].0, moves[i].1))
  }

  ghost predicate BegunAt(s: State, t: State, moves: seq<(nat, Status)>, i: nat, failed: nat)
    requires i < |moves|
  {
    && |s.sent| + i < |t.sent|
    && t.sent[|s.sent| + i].previous == Applied(s.shown, Numbering(|s.sent|, moves)[..i])
    && (failed <= i ==> t.sent[|s.sent| + i].progress.InFlight?)
  }

  /** The moves were begun from s, and of them the first `failed` may have failed since. */
  ghost predicate Begun(s: State, t: State, moves: seq<(nat, Status)>, failed: nat) {
    |t.sent| == |s.sent| + |moves| && forall i :: 0 <= i < |moves| ==> BegunAt(s, t, moves, i, failed)
  }

  lemma {:induction false} AllBegin(s: State, moves: seq<(nat, Status)>)
    ensures IsRun(s, Begins(moves)) && Begun(s, After(s, Begins(moves)), moves, 0)
    ensures After(s, Begins(moves)).shown == Applied(s.shown, Numbering(|s.sent|, moves))
  {
    if moves != [] {
      var shorter := moves[..|moves| - 1];
      AllBegin(s, shorter);
      assert Begins(moves)[..|moves| - 1] == Begins(shorter);
      assert Numbering(|s.sent|, moves)[..|moves| - 1] == Numbering(|s.sent|, shorter);
      forall i | 0 <= i < |moves| ensures BegunAt(s, After(s, Begins(moves)), moves, i, 0) {
        assert Numbering(|s.sent|, moves)[..i] == Numbering(|s.sent|, shorter)[..i];
        if i < |shorter| { assert BegunAt(s, After(s, Begins(shorter)), shorter, i, 0); }
      }
    }
  }

  lemma {:induction false} FailInOrder(s: State, t: State, moves: seq<(nat, Status)>, count: nat)
    requires Begun(s, t, moves, 0) && count <= |moves|
    ensures IsRun(t, Fails(|s.sent|, count)) && Begun(s, After(t, Fails(|s.sent|, count)), moves, count)
    ensures count > 0 ==>
              After(t, Fails(|s.sent|, count)).shown == Applied(s.shown, Numbering(|s.sent|, moves)[..count - 1])
  {
    if count > 0 {
      FailInOrder(s, t, moves, count - 1);
      var run, last := Fails(|s.sent|, count), |s.sent| + (count - 1);
      assert run[..|run| - 1] == Fails(|s.sent|, count - 1) && run[|run| - 1] == Fail(last);
      var u := After(t, run[..|run| - 1]);
      assert BegunAt(s, u, moves, count - 1, count - 1);
      forall i | 0 <= i < |moves| ensures BegunAt(s, Do(u, Fail(last)), moves, i, count) {
        assert BegunAt(s, u, moves, i, count - 1);
      }
    }
  }

  /** From any state, any number of moves that fail in the order they were begun leave all but the
      last on show, though none survives. */
  lemma ForwardOrderKeepsAllButLast(s: State, moves: seq<(nat, Status)>)
    requires moves != []
    ensures var run := Begins(moves) + Fails(|s.sent|, |moves|);
            IsRun(s, run) && After(s, run).shown == Applied(s.shown, Numbering(|s.sent|, moves)[..|moves| - 1])
  {
    AllBegin(s, moves);
    var t := After(s, Begins(moves));
    FailInOrder(s, t, moves, |moves|);
    Concat(s, Begins(moves), Fails(|s.sent|, |moves|));
  }

  lemma FirstOfTwoFails(cards: seq<Card>, id1: nat, to1: Status, id2: nat, to2: Status)
    ensures var run := [Mutate(id1, to1)] + [Mutate(id2, to2)] + [Fail(0)];
            && IsRun(Fetched(cards), run) && After(Fetched(cards), run).shown == cards
            && Surviving(TrackOf(cards, run)) == [Mutation(1, id2, to2)] && TrackOf(cards, run).latest == cards
  {
    var a, b, f := Mutate(id1, to1), Mutate(id2, to2), Fail(0);
    var s := Fetched(cards);
    Single(s, a);
    Recorded(s, [a], b);
    Recorded(s, [a] + [b], f);
    TwoBegun(cards, id1, to1, id2, to2);
    TrackNext(cards, [a] + [b], f);
    var t := TrackOf(cards, [a] + [b] + [f]);
    SecondSurvives(Mutation(0, id1, to1), Mutation(1, id2, to2), t.failed + t.accounted);
  }

  /** The first of two moves fails while the second is in flight: the list from before both is put
      back, which shows the surviving second move only if it changes nothing. */
  lemma RollbackLosesLaterMove(cards: seq<Card>, id1: nat, to1: Status, id2: nat, to2: Status)
    ensures var run := [Mutate(id1, to1)] + [Mutate(id2, to2)] + [Fail(0)];
            && IsRun(Fetched(cards), run) && After(Fetched(cards), run).shown == cards
            && Surviving(TrackOf(cards, run)) == [Mutation(1, id2, to2)]
            && (cards == Expected(TrackOf(cards, run))
                <==> forall k :: 0 <= k < |cards| && cards[k].id == id2 ==> cards[k].status == to2)
  {
    FirstOfTwoFails(cards, id1, to1, id2, to2);
    OneMoveHarmless(cards, [Mutation(1, id2, to2)]);
  }

  lemma OneMoveHarmless(cards: seq<Card>, moves: seq<Mutation>)
    requires |moves| == 1
    ensures cards == Applied(cards, moves)
       <==> forall k :: 0 <= k < |cards| && cards[k].id == moves[0].id ==> cards[k].status == moves[0].to
  {
    SameWhen(cards, moves[..0], cards, moves);
    assert Applied(cards, moves[..0]) == cards;
    forall k | 0 <= k < |cards|
      ensures Final(cards[k], moves[..0]) == cards[k].status
      ensures Final(cards[k], moves) == if cards[k].id == moves[0].id then moves[0].to else cards[k].status
    {
    }
  }

  lemma SecondSurvives(m1: Mutation, m2: Mutation, dropped: set<nat>)
    requires 0 in dropped && 1 !in dropped
    ensures Survivors([m1, m2], dropped) == [m2]
  {
    assert [m1, m2][..1] == [m1] && [m1][..0] == [];
    assert Survivors([m1], dropped) == [];
  }

  // ---------------------------------------------------------------- the cache itself

  /** The cached list, the mutations' contexts and the refetch; the ghost fields record the list first
      fetched and every event since. */
  class TaskCache {
    var cards: seq<Card>
    var sent: seq<Sent>
    var fetching: bool
    ghost var initial: seq<Card>
    ghost var run: seq<Action>

    ghost predicate Valid()
      reads this
    {
      IsRun(Fetched(initial), run) && After(Fetched(initial), run) == State(cards, sent, fetching)
    }

    ghost function Books(): Track
      reads this
    {
      TrackOf(initial, run)
    }

    constructor (fetched: seq<Card>)
      ensures Valid() && cards == initial == fetched && run == []
    {
      cards, sent, fetching, initial, run := fetched, [], false, fetched, [];
    }

    /** onMutate: a refetch under way is cancelled; every copy of the card moves, everything else stays,
        and the move stands. */
    method OnMutate(id: nat, to: Status) returns (i: nat)
      requires Valid()
      modifies this
      ensures Valid() && initial == old(initial) && run == old(run) + [Mutate(id, to)] && !fetching
      ensures i == |old(sent)| && i < |sent| && sent[i].previous == old(cards)
      ensures |cards| == |old(cards)| && forall k :: 0 <= k < |cards| ==>
                cards[k] == if old(cards)[k].id == id then old(cards)[k].(status := to) else old(cards)[k]
      ensures cards == Shows(Books().stand)
    {
      i := |sent|;
      sent := sent + [Sent(Mutation(|sent|, id, to), cards, InFlight)];
      cards := Move(cards, id, to);
      fetching := false;
      run := run + [Mutate(id, to)];
      Recorded(Fetched(initial), old(run), Mutate(id, to));
      ShownIsStanding(initial, run);
    }

    /** onError and onSettled: the remembered list is put back and a refetch starts; the screen shows
        exactly the surviving moves if the run has been orderly. */
    method OnError(i: nat)
      requires Valid() && i < |sent| && sent[i].progress.InFlight?
      modifies this
      ensures Valid() && initial == old(initial) && run == old(run) + [Fail(i)] && fetching
      ensures cards == Shows(Books().stand)
      ensures Orderly(initial, run) ==> cards == Expected(Books())
    {
      cards := sent[i].previous;
      sent := sent[i := sent[i].(progress := Failed)];
      fetching := true;
      run := run + [Fail(i)];
      Recorded(Fetched(initial), old(run), Fail(i));
      ShownIsStanding(initial, run);
      InStepIffOrderly(initial, run);
    }

    /** onSettled after success: the list stays, the move still survives, and a refetch starts. */
    method OnSuccess(i: nat)
      requires Valid() && i < |sent| && sent[i].progress.InFlight?
      modifies this
      ensures Valid() && initial == old(initial) && run == old(run) + [Succeed(i)] && fetching && cards == old(cards)
      ensures Surviving(Books()) == Surviving(old(Books()))
    {
      sent := sent[i := sent[i].(progress := Succeeded)];
      fetching := true;
      run := run + [Succeed(i)];
      Recorded(Fetched(initial), old(run), Succeed(i));
      assert run[..|run| - 1] == old(run);
    }

    method OnInvalidate()
      requires Valid()
      modifies this
      ensures Valid() && initial == old(initial) && run == old(run) + [Invalidate] && fetching && cards == old(cards)
    {
      fetching := true;
      run := run + [Invalidate];
      Recorded(Fetched(initial), old(run), Invalidate);
    }

    /** The refetched list replaces what is shown; with nothing in flight that is right whatever
        happened before. */
    method OnFetched(list: seq<Card>)
      requires Valid() && fetching
      modifies this
      ensures Valid() && initial == old(initial) && run == old(run) + [Land(list)] && !fetching && cards == list
      ensures NothingInFlight(Books()) ==> cards == Expected(Books()) && Surviving(Books()) == []
    {
      cards, fetching := list, false;
      run := run + [Land(list)];
      Recorded(Fetched(initial), old(run), Land(list));
      RightAtRest(initial, run);
    }
  }
}
