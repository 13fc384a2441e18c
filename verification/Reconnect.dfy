/** The reconnecting WebSocket hook within one effect lifetime (frontend/src/ws/useWebSocket.ts).
    Times are in milliseconds; timers may fire late but never early. */
module Reconnect {
  import opened Ids

  type TimerId = nat

  /** A socket whose close event has not arrived; Closing after `close()`. */
  datatype Phase = Connecting | Open | Closing

  /** The hook's closure variables; then what the browser holds for it: every timer pending, with
      when it is due, every socket not yet closed, and how many of each were ever made. `calls` are
      the times of all calls of connect, `lastOpen` the time of the last open event, or of the start. */
  datatype State = State(
    attempt: nat, handle: Option<TimerId>, current: Option<SocketId>, closedByEffect: bool,
    timers: map<TimerId, real>, sockets: map<SocketId, Phase>, timersMade: nat, socketsMade: nat,
    now: real, calls: seq<real>, lastOpen: real)

  /** Events, with what each finds: whether a URL is available, whether the close code is 4401,
      and the random fraction drawn for the jitter. Any pending timer may fire and any socket may
      open, fail or close, whether or not the hook's variables still name it. */
  datatype Event =
    | Elapse(ms: real)
    | TimerFires(timer: TimerId, hasUrl: bool)
    | SocketOpens(socket: SocketId)
    | SocketFails(socket: SocketId)
    | SocketCloses(socket: SocketId, rejected: bool, random: real)
    | CleanUp

  predicate Enabled(s: State, e: Event) {
    match e
    case Elapse(ms) => ms >= 0.0
    case TimerFires(timer, _) => timer in s.timers && s.now >= s.timers[timer]
    case SocketOpens(socket) => socket in s.sockets && s.sockets[socket].Connecting?
    case SocketFails(socket) => socket in s.sockets
    case SocketCloses(socket, _, random) => socket in s.sockets && 0.0 <= random < 1.0
    case CleanUp => !s.closedByEffect
  }

  function Pow2(n: nat): nat {
    if n == 0 then 1 else 2 * Pow2(n - 1)
  }

  /** min(30000, base * 2 ** attempt) */
  function Backoff(base: nat, attempt: nat): nat {
    if base * Pow2(attempt) < 30000 then base * Pow2(attempt) else 30000
  }

  function Delay(rejected: bool, attempt: nat, random: real): real {
    Backoff(if rejected then 5000 else 1000, attempt) as real + random * 500.0
  }

  /** reconnectTimer = setTimeout(connect, ...) */
  function SetTimer(s: State, due: real): State {
    s.(handle := Some(s.timersMade), timers := s.timers[s.timersMade := due], timersMade := s.timersMade + 1)
  }

  /** socket = new WebSocket(url) */
  function OpenSocket(s: State): State {
    s.(current := Some(s.socketsMade), sockets := s.sockets[s.socketsMade := Connecting],
        socketsMade := s.socketsMade + 1)
  }

  /** socket?.close(): closing a closed socket does nothing. */
  function CloseCurrent(s: State): State {
    if s.current.Some? && s.current.value in s.sockets then s.(sockets := s.sockets[s.current.value := Closing]) else s
  }

  /** clearTimeout(reconnectTimer) */
  function ClearTimer(s: State): State {
    if s.handle.Some? then s.(timers := s.timers - {s.handle.value}) else s
  }

  function AfterConnect(s: State, hasUrl: bool): State {
    var called := s.(calls := s.calls + [s.now]);
    if hasUrl then OpenSocket(called) else SetTimer(called, s.now + 1000.0)
  }

  function Start(hasUrl: bool, now: real): State {
    AfterConnect(State(0, None, None, false, map[], map[], 0, 0, now, [], now), hasUrl)
  }

  function Do(s: State, e: Event): State
    requires Enabled(s, e)
  {
    match e
    case Elapse(ms) => s.(now := s.now + ms)
    case TimerFires(timer, hasUrl) => AfterConnect(s.(timers := s.timers - {timer}), hasUrl)
    case SocketOpens(socket) => s.(sockets := s.sockets[socket := Open], attempt := 0, lastOpen := s.now)
    case SocketFails(_) => CloseCurrent(s)
    case SocketCloses(socket, rejected, random) =>
      var closed := s.(sockets := s.sockets - {socket});
      if s.closedByEffect then closed
      else SetTimer(closed.(attempt := s.attempt + 1), s.now + Delay(rejected, s.attempt, random))
    case CleanUp => CloseCurrent(ClearTimer(s.(closedByEffect := true)))
  }

  // ---------------------------------------------------------------- runs

  ghost predicate IsRun(start: State, run: seq<Event>)
    decreases |run|, 1
  {
    run == [] || (IsRun(start, run[..|run| - 1]) && Enabled(After(start, run[..|run| - 1]), run[|run| - 1]))
  }

  ghost function After(start: State, run: seq<Event>): State
    requires IsRun(start, run)
    decreases |run|, 2
  {
    if run == [] then start else Do(After(start, run[..|run| - 1]), run[|run| - 1])
  }

  /** Exactly one timer is pending, the one the handle names, and no socket is left. */
  ghost predicate TimerOnly(s: State) {
    s.handle.Some? && s.timers.Keys == {s.handle.value} && s.sockets == map[]
  }

  /** Exactly one socket is not closed, the one the variable names, and no timer is pending. */
  ghost predicate SocketOnly(s: State) {
    s.current.Some? && s.sockets.Keys == {s.current.value} && s.timers == map[]
  }

  ghost predicate ShuttingDown(s: State) {
    && s.timers == map[] && forall w :: w in s.sockets ==> s.sockets[w].Closing? && s.current == Some(w)
  }

  /** Until cleanup one of the two; afterwards no timer, and no socket but one on its way down. */
  ghost predicate OnePending(s: State) {
    if s.closedByEffect then ShuttingDown(s) else TimerOnly(s) || SocketOnly(s)
  }

  /** Calls of connect lie at least a second apart, and so will the next one. */
  ghost predicate Spaced(s: State) {
    && s.calls != [] && s.calls[|s.calls| - 1] <= s.now
    && (forall t :: t in s.timers ==> s.timers[t] >= s.calls[|s.calls| - 1] + 1000.0)
    && forall i :: 0 < i < |s.calls| ==> s.calls[i] >= s.calls[i - 1] + 1000.0
  }

  /** The least total delay of n failures in a row. */
  function Floor(n: nat): nat {
    if n == 0 then 0 else Floor(n - 1) + Backoff(1000, n - 1)
  }

  /** Having failed `attempt` times since the last open, the hook has waited, or will have before
      it calls connect again, at least the sum of the backoffs. */
  ghost predicate BackedOff(s: State) {
    && s.lastOpen <= s.now
    && (forall t :: t in s.timers ==> s.timers[t] >= s.lastOpen + Floor(s.attempt) as real)
    && (s.sockets != map[] && !s.closedByEffect ==> s.now >= s.lastOpen + Floor(s.attempt) as real)
  }

  ghost predicate Inv(s: State) {
    OnePending(s) && Spaced(s) && BackedOff(s)
  }

  lemma DelayBounds(rejected: bool, attempt: nat, random: real)
    requires 0.0 <= random < 1.0
    ensures 1000.0 <= Backoff(1000, attempt) as real <= Delay(rejected, attempt, random) < 30500.0
  {
    PowPositive(attempt);
  }

  lemma {:induction false} PowPositive(n: nat)
    ensures Pow2(n) >= 1
  {
    if n > 0 { PowPositive(n - 1); }
  }

  lemma PendingStep(s: State, e: Event)
    requires OnePending(s) && Enabled(s, e)
    ensures OnePending(Do(s, e))
  {
  }

  lemma SpacedStep(s: State, e: Event)
    requires OnePending(s) && Spaced(s) && Enabled(s, e)
    ensures Spaced(Do(s, e))
  {
    if e.SocketCloses? && !s.closedByEffect { DelayBounds(e.rejected, s.attempt, e.random); }
  }

  lemma BackedOffStep(s: State, e: Event)
    requires OnePending(s) && BackedOff(s) && Enabled(s, e)
    ensures BackedOff(Do(s, e))
  {
    if e.SocketCloses? && !s.closedByEffect { DelayBounds(e.rejected, s.attempt, e.random); }
  }

  lemma InvStep(s: State, e: Event)
    requires Inv(s) && Enabled(s, e)
    ensures Inv(Do(s, e))
  {
    PendingStep(s, e);
    SpacedStep(s, e);
    BackedOffStep(s, e);
  }

  lemma {:induction false} InvHolds(hasUrl: bool, now: real, run: seq<Event>)
    requires IsRun(Start(hasUrl, now), run)
    ensures Inv(After(Start(hasUrl, now), run))
  {
    if run != [] {
      InvHolds(hasUrl, now, run[..|run| - 1]);
      InvStep(After(Start(hasUrl, now), run[..|run| - 1]), run[|run| - 1]);
    }
  }

  /** In every reachable state before cleanup exactly one thing is pending, a timer or a socket not
      yet closed, and the hook's variable names it. */
  lemma ExactlyOnePending(hasUrl: bool, now: real, run: seq<Event>)
    requires IsRun(Start(hasUrl, now), run) && !After(Start(hasUrl, now), run).closedByEffect
    ensures var s := After(Start(hasUrl, now), run);
            && |s.timers| + |s.sockets| == 1
            && (forall t :: t in s.timers ==> s.handle == Some(t))
            && (forall w :: w in s.sockets ==> s.current == Some(w))
  {
    InvHolds(hasUrl, now, run);
    var s := After(Start(hasUrl, now), run);
    assert |s.timers| == |s.timers.Keys| && |s.sockets| == |s.sockets.Keys|;
  }

  /** So clearing the saved handle and closing the saved socket at cleanup leaves no timer pending
      and no socket that could still open. */
  lemma CleanUpLeavesNothing(hasUrl: bool, now: real, run: seq<Event>)
    requires IsRun(Start(hasUrl, now), run) && !After(Start(hasUrl, now), run).closedByEffect
    ensures ShuttingDown(Do(After(Start(hasUrl, now), run), CleanUp))
  {
    InvHolds(hasUrl, now, run);
    InvStep(After(Start(hasUrl, now), run), CleanUp);
  }

  /** After cleanup the hook never calls connect and never makes a timer or a socket again. */
  lemma {:induction false} QuietAfterCleanUp(hasUrl: bool, now: real, run: seq<Event>, more: seq<Event>)
    requires IsRun(Start(hasUrl, now), run) && After(Start(hasUrl, now), run).closedByEffect
    requires IsRun(Start(hasUrl, now), run + more)
    ensures var s, t := After(Start(hasUrl, now), run), After(Start(hasUrl, now), run + more);
            && t.closedByEffect && ShuttingDown(t) && t.calls == s.calls
            && t.timersMade == s.timersMade && t.socketsMade == s.socketsMade
  {
    InvHolds(hasUrl, now, run + more);
    if more == [] {
      assert run + more == run;
    } else {
      assert (run + more)[..|run + more| - 1] == run + more[..|more| - 1];
      QuietAfterCleanUp(hasUrl, now, run, more[..|more| - 1]);
      InvHolds(hasUrl, now, run + more[..|more| - 1]);
    }
  }

  function ClosesSinceOpen(run: seq<Event>): nat {
    if run == [] then 0
    else match run[|run| - 1]
         case SocketOpens(_) => 0
         case SocketCloses(_, _, _) => ClosesSinceOpen(run[..|run| - 1]) + 1
         case _ => ClosesSinceOpen(run[..|run| - 1])
  }

  lemma {:induction false} ClosedForGood(start: State, run: seq<Event>)
    requires IsRun(start, run) && run != [] && !After(start, run).closedByEffect
    ensures !After(start, run[..|run| - 1]).closedByEffect
  {
  }

  /** The counter is the number of closes since the last open. */
  lemma {:induction false} AttemptCountsCloses(hasUrl: bool, now: real, run: seq<Event>)
    requires IsRun(Start(hasUrl, now), run) && !After(Start(hasUrl, now), run).closedByEffect
    ensures After(Start(hasUrl, now), run).attempt == ClosesSinceOpen(run)
  {
    if run != [] {
      ClosedForGood(Start(hasUrl, now), run);
      AttemptCountsCloses(hasUrl, now, run[..|run| - 1]);
    }
  }

  /** After n closes without an open in between, the next connect comes at least
      min(30000, 1000) + ... + min(30000, 1000 * 2^(n-1)) ms after the last open or the start. */
  lemma FailuresBackOff(hasUrl: bool, now: real, run: seq<Event>, timer: TimerId, nextHasUrl: bool)
    requires IsRun(Start(hasUrl, now), run)
    requires var s := After(Start(hasUrl, now), run); !s.closedByEffect && Enabled(s, TimerFires(timer, nextHasUrl))
    ensures var s := After(Start(hasUrl, now), run);
            s.now - s.lastOpen >= Floor(ClosesSinceOpen(run)) as real
  {
    InvHolds(hasUrl, now, run);
    AttemptCountsCloses(hasUrl, now, run);
  }

  lemma {:induction false} CallsApart(s: State, i: nat, j: nat)
    requires Spaced(s) && i <= j < |s.calls|
    ensures s.calls[j] - s.calls[i] >= 1000.0 * (j - i) as real
    decreases j
  {
    if i < j { CallsApart(s, i, j - 1); }
  }

  /** No window of T milliseconds contains more than floor(T / 1000) + 1 calls of connect. */
  lemma AtMostOneCallPerSecond(hasUrl: bool, now: real, run: seq<Event>, i: nat, j: nat, window: real)
    requires IsRun(Start(hasUrl, now), run)
    requires i <= j < |After(Start(hasUrl, now), run).calls|
    requires var calls := After(Start(hasUrl, now), run).calls; calls[j] - calls[i] <= window
    ensures j - i + 1 <= (window / 1000.0).Floor + 1
  {
    InvHolds(hasUrl, now, run);
    CallsApart(After(Start(hasUrl, now), run), i, j);
    assert window / 1000.0 >= (j - i) as real;
  }

  function Power(base: nat, exponent: nat): nat {
    if exponent == 0 then 1 else base * Power(base, exponent - 1)
  }

  lemma {:induction false} PowersOfTwo(n: nat)
    ensures Pow2(n) == Power(2, n) >= 1
  {
    if n > 0 { PowersOfTwo(n - 1); }
  }

  /** min(30000, base * 2^n) ms from now, and a random part of half a second more. */
  ghost predicate DueAfter(due: real, now: real, base: nat, n: nat, random: real) {
    if base * Power(2, n) < 30000 then due - now == (base * Power(2, n)) as real + 500.0 * random
    else due - now == 30000.0 + 500.0 * random
  }

  lemma DelayIs(rejected: bool, attempt: nat, random: real, now: real)
    requires 0.0 <= random < 1.0
    ensures DueAfter(now + Delay(rejected, attempt, random), now, if rejected then 5000 else 1000, attempt, random)
  {
    PowersOfTwo(attempt);
  }

  /** Over every run: a close sets the one timer to the ordinary backoff for the closes since the last
      open, from a base of one second, or of five after a 4401. */
  lemma CloseWaits(hasUrl: bool, now: real, run: seq<Event>, socket: SocketId, rejected: bool, random: real)
    requires IsRun(Start(hasUrl, now), run + [SocketCloses(socket, rejected, random)])
    requires !After(Start(hasUrl, now), run).closedByEffect
    ensures var s := After(Start(hasUrl, now), run + [SocketCloses(socket, rejected, random)]);
            && s.handle.Some? && s.timers.Keys == {s.handle.value}
            && DueAfter(s.timers[s.handle.value], s.now, if rejected then 5000 else 1000, ClosesSinceOpen(run), random)
  {
    var longer := run + [SocketCloses(socket, rejected, random)];
    assert longer[..|longer| - 1] == run;
    InvHolds(hasUrl, now, run);
    AttemptCountsCloses(hasUrl, now, run);
    CloseLeaves(After(Start(hasUrl, now), run), socket, rejected, random);
  }

  // ---------------------------------------------------------------- the hook itself

  lemma OpenLeaves(s: State, socket: SocketId)
    requires OnePending(s) && Enabled(s, SocketOpens(socket))
    ensures s.timers == map[] && s.sockets[socket := Open] == map[socket := Open] && s.current == Some(socket)
  {
  }

  lemma CloseLeaves(s: State, socket: SocketId, rejected: bool, random: real)
    requires OnePending(s) && Enabled(s, SocketCloses(socket, rejected, random))
    ensures var t := Do(s, SocketCloses(socket, rejected, random));
            && t.sockets == map[]
            && if t.closedByEffect then t.timers == map[]
               else
                 && t.handle.Some? && t.timers.Keys == {t.handle.value} && t.attempt == s.attempt + 1
                 && DueAfter(t.timers[t.handle.value], t.now, if rejected then 5000 else 1000, s.attempt, random)
  {
    DelayIs(rejected, s.attempt, random, s.now);
  }

  /** The hook's variables and the browser's timers and sockets. The ghost fields record how it was
      started and every event since, so what holds after every run holds of the object. */
  class Hook {
    var attempt: nat
    var handle: Option<TimerId>
    var current: Option<SocketId>
    var closedByEffect: bool
    var timers: map<TimerId, real>
    var sockets: map<SocketId, Phase>
    var timersMade: nat
    var socketsMade: nat
    var now: real
    ghost var calls: seq<real>
    ghost var lastOpen: real
    ghost var started: (bool, real)
    ghost var run: seq<Event>

    ghost function Now(): State
      reads this
    {
      State(attempt, handle, current, closedByEffect, timers, sockets, timersMade, socketsMade, now, calls, lastOpen)
    }

    ghost predicate Valid()
      reads this
    {
      IsRun(Start(started.0, started.1), run) && After(Start(started.0, started.1), run) == Now()
    }

    constructor (hasUrl: bool, time: real)
      ensures Valid() && run == [] && |timers| + |sockets| == 1
    {
      attempt, handle, current, closedByEffect := 0, None, None, false;
      timers, sockets, timersMade, socketsMade := map[], map[], 0, 0;
      now, calls, lastOpen, started, run := time, [], time, (hasUrl, time), [];
      new;
      Connect(hasUrl);
      ExactlyOnePending(hasUrl, time, []);
    }

    method SetTimeout(delay: real)
      modifies this
      ensures Now() == SetTimer(old(Now()), old(now) + delay) && run == old(run) && started == old(started)
    {
      timers := timers[timersMade := now + delay];
      handle := Some(timersMade);
      timersMade := timersMade + 1;
    }

    method Connect(hasUrl: bool)
      modifies this
      ensures Now() == AfterConnect(old(Now()), hasUrl) && run == old(run) && started == old(started)
    {
      calls := calls + [now];
      if !hasUrl {
        SetTimeout(1000.0);
        return;
      }
      sockets := sockets[socketsMade := Connecting];
      current := Some(socketsMade);
      socketsMade := socketsMade + 1;
    }

    method ScheduleReconnect(baseDelayMs: nat, random: real)
      modifies this
      ensures Now() == SetTimer(old(Now()).(attempt := old(attempt) + 1),
                                old(now) + (Backoff(baseDelayMs, old(attempt)) as real + random * 500.0))
      ensures run == old(run) && started == old(started)
    {
      var delay := Backoff(baseDelayMs, attempt) as real + random * 500.0;
      attempt := attempt + 1;
      SetTimeout(delay);
    }

    method CloseSocket()
      modifies this`sockets
      ensures Now() == CloseCurrent(old(Now()))
    {
      if current.Some? && current.value in sockets { sockets := sockets[current.value := Closing]; }
    }

    method Wait(ms: real)
      requires Valid() && ms >= 0.0
      modifies this
      ensures Valid() && run == old(run) + [Elapse(ms)] && now == old(now) + ms
      ensures timers == old(timers) && sockets == old(sockets)
    {
      now := now + ms;
      run := run + [Elapse(ms)];
      Recorded(Start(started.0, started.1), old(run), Elapse(ms));
    }

    /** A timer that fires was the only thing pending, and after the call of connect it
        makes there is again exactly one; calls are at least a second apart. */
    method OnTimer(timer: TimerId, hasUrl: bool)
      requires Valid() && Enabled(Now(), TimerFires(timer, hasUrl))
      modifies this
      ensures Valid() && run == old(run) + [TimerFires(timer, hasUrl)]
      ensures old(handle) == Some(timer) && old(timers).Keys == {timer} && old(sockets) == map[]
      ensures if hasUrl then timers == map[] && current.Some? && sockets == map[current.value := Connecting]
              else sockets == map[] && handle.Some? && timers == map[handle.value := now + 1000.0]
      ensures old(calls) != [] && calls == old(calls) + [now] && now >= old(calls)[|old(calls)| - 1] + 1000.0
    {
      InvHolds(started.0, started.1, run);
      timers := timers - {timer};
      Connect(hasUrl);
      run := run + [TimerFires(timer, hasUrl)];
      Recorded(Start(started.0, started.1), old(run), TimerFires(timer, hasUrl));
    }

    /** The socket that opens is the only one and nothing else is pending; the counter restarts. */
    method OnOpen(socket: SocketId)
      requires Valid() && Enabled(Now(), SocketOpens(socket))
      modifies this
      ensures Valid() && run == old(run) + [SocketOpens(socket)]
      ensures attempt == 0 && timers == map[] && sockets == map[socket := Open] && current == Some(socket)
    {
      InvHolds(started.0, started.1, run);
      OpenLeaves(Now(), socket);
      attempt := 0;
      lastOpen := now;
      sockets := sockets[socket := Open];
      run := run + [SocketOpens(socket)];
      Recorded(Start(started.0, started.1), old(run), SocketOpens(socket));
    }

    /** The handler closes whatever socket the variable names; that is the one that failed. */
    method OnError(socket: SocketId)
      requires Valid() && Enabled(Now(), SocketFails(socket))
      modifies this
      ensures Valid() && run == old(run) + [SocketFails(socket)]
      ensures sockets == map[socket := Closing] && timers == map[] && attempt == old(attempt)
    {
      InvHolds(started.0, started.1, run);
      CloseSocket();
      run := run + [SocketFails(socket)];
      Recorded(Start(started.0, started.1), old(run), SocketFails(socket));
    }

    method HandleClose(socket: SocketId, rejected: bool, random: real)
      requires Enabled(Now(), SocketCloses(socket, rejected, random))
      modifies this
      ensures Now() == Do(old(Now()), SocketCloses(socket, rejected, random)) && run == old(run)
                && started == old(started)
    {
      sockets := sockets - {socket};
      if closedByEffect { return; }
      ScheduleReconnect(if rejected then 5000 else 1000, random);
    }

    /** Before cleanup, a close leaves exactly one timer, the one the handle names, due after the
        backoff for the closes since the last open; after cleanup it leaves nothing at all. */
    method OnClose(socket: SocketId, rejected: bool, random: real)
      requires Valid() && Enabled(Now(), SocketCloses(socket, rejected, random))
      modifies this
      ensures Valid() && run == old(run) + [SocketCloses(socket, rejected, random)]
      ensures sockets == map[]
      ensures if closedByEffect then timers == map[]
              else
                && handle.Some? && timers.Keys == {handle.value} && attempt == ClosesSinceOpen(run)
                && attempt == old(attempt) + 1
                && DueAfter(timers[handle.value], now, if rejected then 5000 else 1000, old(attempt), random)
    {
      InvHolds(started.0, started.1, run);
      CloseLeaves(Now(), socket, rejected, random);
      HandleClose(socket, rejected, random);
      run := run + [SocketCloses(socket, rejected, random)];
      Recorded(Start(started.0, started.1), old(run), SocketCloses(socket, rejected, random));
      if !closedByEffect { AttemptCountsCloses(started.0, started.1, run); }
    }

    /** Clearing the one handle leaves no timer pending, and closing the one socket leaves none
        that could still open. */
    method OnCleanUp()
      requires Valid() && Enabled(Now(), CleanUp)
      modifies this
      ensures Valid() && run == old(run) + [CleanUp] && closedByEffect
      ensures timers == map[] && forall w :: w in sockets ==> sockets[w].Closing?
    {
      closedByEffect := true;
      if handle.Some? { timers := timers - {handle.value}; }
      CloseSocket();
      run := run + [CleanUp];
      Recorded(Start(started.0, started.1), old(run), CleanUp);
      InvHolds(started.0, started.1, run);
    }
  }

  lemma Recorded(start: State, run: seq<Event>, e: Event)
    requires IsRun(start, run) && Enabled(After(start, run), e)
    ensures IsRun(start, run + [e]) && After(start, run + [e]) == Do(After(start, run), e)
  {
    assert (run + [e])[..|run + [e]| - 1] == run;
  }
}
