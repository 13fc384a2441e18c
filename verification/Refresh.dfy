/** The browser's API client: concurrent 401 responses share one token refresh
    (frontend/src/api/client.ts). Network answers and promise continuations arrive in any order. */
module Refresh {
  import opened Ids

  /** Where a request is: on the wire, awaiting refresh number `refresh`, or settled. */
  datatype Phase = InFlight | Awaiting(refresh: nat) | Fulfilled | Rejected

  /** `sends` counts transmissions; `awaited` remembers which refresh the request waited for. */
  datatype Request = Request(phase: Phase, retried: bool, sends: nat, awaited: Option<nat>)

  /** A refresh is posted, answered, and then its `finally` runs, which settles the shared promise. */
  datatype Post = Posted | Answered(ok: bool) | Settled(ok: bool)

  datatype State = State(
    requests: seq<Request>, posts: seq<Post>, promise: Option<nat>, hasRefreshToken: bool, redirects: nat)

  datatype Status = Ok | Unauthorized | OtherError

  datatype Action =
    | Send
    | Respond(i: nat, status: Status)
    | AnswerRefresh(ok: bool)
    | RunFinally
    | Resume(i: nat)
    | SetToken(present: bool)

  const INIT := State([], [], None, true, 0)

  ghost predicate Enabled(s: State, a: Action) {
    match a
    case Send => true
    case Respond(i, _) => i < |s.requests| && s.requests[i].phase.InFlight?
    case AnswerRefresh(_) => s.promise.Some? && s.promise.value < |s.posts| && s.posts[s.promise.value].Posted?
    case RunFinally => s.promise.Some? && s.promise.value < |s.posts| && s.posts[s.promise.value].Answered?
    case Resume(i) =>
      && i < |s.requests| && s.requests[i].phase.Awaiting?
      && s.requests[i].phase.refresh < |s.posts| && s.posts[s.requests[i].phase.refresh].Settled?
    case SetToken(_) => true
  }

  function WithRequest(s: State, i: nat, r: Request): State
    requires i < |s.requests|
  {
    s.(requests := s.requests[i := r])
  }

  function Do(s: State, a: Action): State
    requires Enabled(s, a)
  {
    match a
    case Send => s.(requests := s.requests + [Request(InFlight, false, 1, None)])
    case Respond(i, status) =>
      var me := s.requests[i];
      if status.Ok? then WithRequest(s, i, me.(phase := Fulfilled))
      else if status.OtherError? || me.retried || !s.hasRefreshToken then WithRequest(s, i, me.(phase := Rejected))
      else
        var r := if s.promise.Some? then s.promise.value else |s.posts|;
        WithRequest(s, i, me.(phase := Awaiting(r), retried := true, awaited := Some(r)))
          .(posts := if s.promise.Some? then s.posts else s.posts + [Posted], promise := Some(r))
    case AnswerRefresh(ok) => s.(posts := s.posts[s.promise.value := Answered(ok)])
    case RunFinally => s.(posts := s.posts[s.promise.value := Settled(s.posts[s.promise.value].ok)], promise := None)
    case Resume(i) =>
      var me := s.requests[i];
      if s.posts[me.phase.refresh].ok then WithRequest(s, i, me.(phase := InFlight, sends := me.sends + 1))
      else WithRequest(s, i, me.(phase := Rejected)).(hasRefreshToken := false, redirects := s.redirects + 1)
    case SetToken(present) => s.(hasRefreshToken := present)
  }

  // ---------------------------------------------------------------- runs

  ghost predicate IsRun(run: seq<Action>)
    decreases |run|, 1
  {
    run == [] || (IsRun(run[..|run| - 1]) && Enabled(After(run[..|run| - 1]), run[|run| - 1]))
  }

  ghost function After(run: seq<Action>): State
    requires IsRun(run)
    decreases |run|, 2
  {
    if run == [] then INIT else Do(After(run[..|run| - 1]), run[|run| - 1])
  }

  // ---------------------------------------------------------------- single flight

  /** The promise is set exactly while a refresh is in flight, and then it is the latest one;
      every earlier refresh is settled. */
  ghost predicate SingleFlight(s: State) {
    && (s.promise.Some? ==> s.promise.value + 1 == |s.posts| && !s.posts[s.promise.value].Settled?)
    && (forall r :: 0 <= r < |s.posts| && !s.posts[r].Settled? ==> s.promise == Some(r))
  }

  /** A request is sent once, and a second time only if it waited and its refresh succeeded. */
  ghost predicate SentOk(s: State, me: Request) {
    && (me.retried <==> me.awaited.Some?)
    && (me.awaited.None? ==> me.sends == 1 && !me.phase.Awaiting?)
    && (me.awaited.Some? ==>
          && me.awaited.value < |s.posts|
          && if me.phase.Awaiting? then me.phase.refresh == me.awaited.value && me.sends == 1
             else
               && s.posts[me.awaited.value].Settled?
               && me.sends == (if s.posts[me.awaited.value].ok then 2 else 1)
               && (!s.posts[me.awaited.value].ok ==> me.phase.Rejected?))
  }

  ghost predicate Inv(s: State) {
    SingleFlight(s) && forall i :: 0 <= i < |s.requests| ==> SentOk(s, s.requests[i])
  }

  lemma SingleFlightStep(s: State, a: Action)
    requires Inv(s) && Enabled(s, a)
    ensures SingleFlight(Do(s, a))
  {
  }

  lemma OutcomeStep(s: State, a: Action, r: nat)
    requires SingleFlight(s) && Enabled(s, a) && r < |s.posts|
    ensures r < |Do(s, a).posts| && (s.posts[r].Settled? ==> Do(s, a).posts[r] == s.posts[r])
  {
  }

  lemma Unaffected(s: State, a: Action, me: Request)
    requires SingleFlight(s) && Enabled(s, a) && SentOk(s, me)
    ensures SentOk(Do(s, a), me)
  {
    if me.awaited.Some? { OutcomeStep(s, a, me.awaited.value); }
  }

  lemma Affected(s: State, a: Action, i: nat)
    requires SingleFlight(s) && Enabled(s, a) && i < |s.requests| && SentOk(s, s.requests[i])
    requires a == Resume(i) || (a.Respond? && a.i == i)
    ensures SentOk(Do(s, a), Do(s, a).requests[i])
  {
  }

  lemma SentStep(s: State, a: Action, i: nat)
    requires Inv(s) && Enabled(s, a) && i < |Do(s, a).requests|
    ensures SentOk(Do(s, a), Do(s, a).requests[i])
  {
    if i == |s.requests| { return; }
    assert SentOk(s, s.requests[i]);
    if a == Resume(i) || (a.Respond? && a.i == i) {
      Affected(s, a, i);
    } else {
      assert Do(s, a).requests[i] == s.requests[i];
      Unaffected(s, a, s.requests[i]);
    }
  }

  lemma InvStep(s: State, a: Action)
    requires Inv(s) && Enabled(s, a)
    ensures Inv(Do(s, a))
  {
    SingleFlightStep(s, a);
    forall i | 0 <= i < |Do(s, a).requests| ensures SentOk(Do(s, a), Do(s, a).requests[i]) {
      SentStep(s, a, i);
    }
  }

  lemma {:induction false} InvHolds(run: seq<Action>)
    requires IsRun(run)
    ensures Inv(After(run))
  {
    if run != [] {
      InvHolds(run[..|run| - 1]);
      InvStep(After(run[..|run| - 1]), run[|run| - 1]);
    }
  }

  /** At most one refresh is in flight, and no request is sent more than twice. */
  lemma SingleFlightAlways(run: seq<Action>)
    requires IsRun(run)
    ensures SingleFlight(After(run))
    ensures forall i :: 0 <= i < |After(run).requests| ==> 1 <= After(run).requests[i].sends <= 2
  {
    InvHolds(run);
    forall i | 0 <= i < |After(run).requests| ensures 1 <= After(run).requests[i].sends <= 2 {
      assert SentOk(After(run), After(run).requests[i]);
    }
  }

  /** A settled outcome never changes, on any continuation. */
  lemma {:induction false} OutcomesAreFinal(run: seq<Action>, more: seq<Action>, r: nat)
    requires IsRun(run) && IsRun(run + more) && r < |After(run).posts| && After(run).posts[r].Settled?
    ensures r < |After(run + more).posts| && After(run + more).posts[r] == After(run).posts[r]
  {
    if more == [] {
      assert run + more == run;
    } else {
      assert (run + more)[..|run + more| - 1] == run + more[..|more| - 1];
      OutcomesAreFinal(run, more[..|more| - 1], r);
      InvHolds(run + more[..|more| - 1]);
      OutcomeStep(After(run + more[..|more| - 1]), more[|more| - 1], r);
    }
  }

  /** Requests that waited for the same refresh share its outcome: once both are through, either
      both were sent again or both were rejected without being sent again. */
  lemma WaitersShareOutcome(run: seq<Action>, i: nat, j: nat)
    requires IsRun(run) && i < |After(run).requests| && j < |After(run).requests|
    requires var x, y := After(run).requests[i], After(run).requests[j];
             x.awaited.Some? && x.awaited == y.awaited && !x.phase.Awaiting? && !y.phase.Awaiting?
    ensures var x, y := After(run).requests[i], After(run).requests[j];
            x.sends == y.sends && (x.sends == 1 ==> x.phase == y.phase == Rejected)
  {
    InvHolds(run);
    assert SentOk(After(run), After(run).requests[i]) && SentOk(After(run), After(run).requests[j]);
  }

  // ---------------------------------------------------------------- outcomes come from the server's answers

  /** What the server answered, refresh after refresh. */
  function ServerAnswers(run: seq<Action>): seq<bool> {
    if run == [] then []
    else
      ServerAnswers(run[..|run| - 1])
      + match run[|run| - 1]
        case AnswerRefresh(ok) => [ok]
        case _ => []
  }

  /** Refreshes finished so far. */
  function Finished(run: seq<Action>): nat {
    if run == [] then 0 else Finished(run[..|run| - 1]) + if run[|run| - 1].RunFinally? then 1 else 0
  }

  /** Refreshes are numbered as they finish; the n-th takes the n-th answer, and keeps it when it settles. */
  ghost predicate FromAnswers(s: State, answers: seq<bool>, finished: nat) {
    && |s.posts| == finished + (if s.promise.Some? then 1 else 0)
    && (s.promise.Some? ==> s.promise.value == finished)
    && finished <= |answers| <= |s.posts|
    && (forall r :: 0 <= r < |s.posts| ==> (s.posts[r].Posted? <==> r >= |answers|))
    && (forall r :: 0 <= r < |s.posts| ==> (s.posts[r].Settled? <==> r < finished))
    && forall r :: 0 <= r < |answers| ==> s.posts[r].ok == answers[r]
  }

  lemma FromAnswersStep(s: State, a: Action, answers: seq<bool>, finished: nat)
    requires Enabled(s, a) && FromAnswers(s, answers, finished)
    ensures FromAnswers(Do(s, a), if a.AnswerRefresh? then answers + [a.ok] else answers,
                        if a.RunFinally? then finished + 1 else finished)
  {
  }

  /** Over every run: refresh number r is settled as a success exactly if the r-th answer of the server
      was one. */
  lemma {:induction false} OutcomesAreAnswers(run: seq<Action>)
    requires IsRun(run)
    ensures FromAnswers(After(run), ServerAnswers(run), Finished(run))
  {
    if run != [] {
      OutcomesAreAnswers(run[..|run| - 1]);
      var before := run[..|run| - 1];
      FromAnswersStep(After(before), run[|run| - 1], ServerAnswers(before), Finished(before));
    }
  }

  lemma AwaitedStays(s: State, a: Action, i: nat)
    requires Inv(s) && Enabled(s, a) && i < |s.requests| && s.requests[i].awaited.Some?
    ensures i < |Do(s, a).requests| && Do(s, a).requests[i].awaited == s.requests[i].awaited
  {
    assert SentOk(s, s.requests[i]);
  }

  /** A request that meets a 401 and waits, waits for the refresh after those finished by then, and that
      never changes. */
  lemma {:induction false} WaitsForTheNext(run: seq<Action>, more: seq<Action>, i: nat)
    requires IsRun(run + [Respond(i, Unauthorized)]) && IsRun(run + [Respond(i, Unauthorized)] + more)
    requires After(run + [Respond(i, Unauthorized)]).requests[i].phase.Awaiting?
    ensures i < |After(run + [Respond(i, Unauthorized)] + more).requests|
    ensures After(run + [Respond(i, Unauthorized)] + more).requests[i].awaited == Some(Finished(run))
  {
    var first := run + [Respond(i, Unauthorized)];
    if more == [] {
      assert first[..|first| - 1] == run && first + more == first;
      OutcomesAreAnswers(run);
    } else {
      var before := first + more[..|more| - 1];
      assert (first + more)[..|first + more| - 1] == before;
      WaitsForTheNext(run, more[..|more| - 1], i);
      InvHolds(before);
      AwaitedStays(After(before), more[|more| - 1], i);
    }
  }

  /** So a waiter that is through was sent again exactly if the server's answer to its refresh was a
      success: the answer number n, where n refreshes had finished when it met its 401. */
  lemma SentAgainIffServerSaidSo(run: seq<Action>, more: seq<Action>, i: nat)
    requires IsRun(run + [Respond(i, Unauthorized)]) && IsRun(run + [Respond(i, Unauthorized)] + more)
    requires After(run + [Respond(i, Unauthorized)]).requests[i].phase.Awaiting?
    ensures var whole := run + [Respond(i, Unauthorized)] + more;
            && i < |After(whole).requests|
            && var me := After(whole).requests[i];
               !me.phase.Awaiting? ==>
                 && Finished(run) < |ServerAnswers(whole)|
                 && (me.sends == 2 <==> ServerAnswers(whole)[Finished(run)])
                 && (!ServerAnswers(whole)[Finished(run)] ==> me.phase.Rejected? && me.sends == 1)
  {
    var whole := run + [Respond(i, Unauthorized)] + more;
    WaitsForTheNext(run, more, i);
    InvHolds(whole);
    assert SentOk(After(whole), After(whole).requests[i]);
    OutcomesAreAnswers(whole);
  }

  // ---------------------------------------------------------------- how much work there is

  function Sum(xs: seq<nat>): nat {
    if xs == [] then 0 else Sum(xs[..|xs| - 1]) + xs[|xs| - 1]
  }

  lemma {:induction false} SumUpdate(xs: seq<nat>, i: nat, x: nat)
    requires i < |xs|
    ensures Sum(xs[i := x]) == Sum(xs) - xs[i] + x
  {
    var n := |xs| - 1;
    if i < n {
      SumUpdate(xs[..n], i, x);
      assert xs[i := x][..n] == xs[..n][i := x];
    } else {
      assert xs[i := x][..n] == xs[..n];
    }
  }

  lemma SumAppend(xs: seq<nat>, x: nat)
    ensures Sum(xs + [x]) == Sum(xs) + x
  {
    assert (xs + [x])[..|xs|] == xs;
  }

  /** Steps a request may still cost, at most. */
  function Due(r: Request): nat {
    match r.phase
    case InFlight => if r.retried then 1 else 5
    case Awaiting(_) => 2
    case _ => 0
  }

  function PostDue(p: Post): nat {
    match p
    case Posted => 2
    case Answered(_) => 1
    case Settled(_) => 0
  }

  function Dues(requests: seq<Request>): seq<nat> {
    seq(|requests|, i requires 0 <= i < |requests| => Due(requests[i]))
  }

  function PostDues(posts: seq<Post>): seq<nat> {
    seq(|posts|, r requires 0 <= r < |posts| => PostDue(posts[r]))
  }

  function Work(s: State): nat {
    Sum(Dues(s.requests)) + Sum(PostDues(s.posts))
  }

  predicate FromOutside(a: Action) {
    a.Send? || a.SetToken?
  }

  lemma UpdateDues(requests: seq<Request>, i: nat, r: Request)
    requires i < |requests|
    ensures Sum(Dues(requests[i := r])) == Sum(Dues(requests)) - Due(requests[i]) + Due(r)
  {
    assert Dues(requests[i := r]) == Dues(requests)[i := Due(r)];
    SumUpdate(Dues(requests), i, Due(r));
  }

  lemma UpdatePostDues(posts: seq<Post>, i: nat, p: Post)
    requires i < |posts|
    ensures Sum(PostDues(posts[i := p])) == Sum(PostDues(posts)) - PostDue(posts[i]) + PostDue(p)
  {
    assert PostDues(posts[i := p]) == PostDues(posts)[i := PostDue(p)];
    SumUpdate(PostDues(posts), i, PostDue(p));
  }

  lemma RespondWork(s: State, i: nat, status: Status)
    requires Inv(s) && Enabled(s, Respond(i, status))
    ensures Work(Do(s, Respond(i, status))) <= Work(s) - 1
  {
    var t := Do(s, Respond(i, status));
    UpdateDues(s.requests, i, t.requests[i]);
    if t.posts != s.posts {
      assert PostDues(t.posts) == PostDues(s.posts) + [2];
      SumAppend(PostDues(s.posts), 2);
    }
  }

  lemma PostWork(s: State, a: Action)
    requires Enabled(s, a) && (a.AnswerRefresh? || a.RunFinally?)
    ensures Work(Do(s, a)) == Work(s) - 1
  {
    UpdatePostDues(s.posts, s.promise.value, Do(s, a).posts[s.promise.value]);
  }

  /** Every answer and every continuation uses up work; only a new request adds any. */
  lemma WorkStep(s: State, a: Action)
    requires Inv(s) && Enabled(s, a)
    ensures Work(Do(s, a)) <= Work(s) + if a.Send? then 5 else if a.SetToken? then 0 else -1
  {
    match a
    case Send =>
      assert Dues(Do(s, a).requests) == Dues(s.requests) + [5];
      SumAppend(Dues(s.requests), 5);
    case Respond(i, status) => RespondWork(s, i, status);
    case Resume(i) =>
      UpdateDues(s.requests, i, Do(s, a).requests[i]);
      assert SentOk(s, s.requests[i]);
    case SetToken(_) =>
    case _ => PostWork(s, a);
  }

  function Steps(run: seq<Action>): nat {
    if run == [] then 0 else Steps(run[..|run| - 1]) + if FromOutside(run[|run| - 1]) then 0 else 1
  }

  function Sends(run: seq<Action>): nat {
    if run == [] then 0 else Sends(run[..|run| - 1]) + if run[|run| - 1].Send? then 1 else 0
  }

  /** A batch of n requests is over after at most 5n answers and continuations, in any order. */
  lemma {:induction false} BatchBounded(run: seq<Action>)
    requires IsRun(run)
    ensures Steps(run) + Work(After(run)) <= 5 * Sends(run)
  {
    if run != [] {
      BatchBounded(run[..|run| - 1]);
      InvHolds(run[..|run| - 1]);
      WorkStep(After(run[..|run| - 1]), run[|run| - 1]);
    }
  }

  /** And it cannot get stuck: unless every request is settled, some answer or continuation is
      outstanding. */
  lemma NeverStuck(run: seq<Action>, i: nat)
    requires IsRun(run) && i < |After(run).requests|
    requires var phase := After(run).requests[i].phase; phase.InFlight? || phase.Awaiting?
    ensures exists a :: !FromOutside(a) && Enabled(After(run), a)
  {
    InvHolds(run);
    var s := After(run);
    var me := s.requests[i];
    assert SentOk(s, me);
    if me.phase.InFlight? {
      assert Enabled(s, Respond(i, Ok));
    } else if s.posts[me.phase.refresh].Settled? {
      assert Enabled(s, Resume(i));
    } else {
      assert Enabled(s, AnswerRefresh(true)) || Enabled(s, RunFinally);
    }
  }

  function Retried(requests: seq<Request>): nat {
    if requests == [] then 0
    else Retried(requests[..|requests| - 1]) + if requests[|requests| - 1].retried then 1 else 0
  }

  lemma {:induction false} RetriedUpdate(requests: seq<Request>, i: nat, r: Request)
    requires i < |requests|
    ensures Retried(requests[i := r])
         == Retried(requests) - (if requests[i].retried then 1 else 0) + if r.retried then 1 else 0
  {
    var n := |requests| - 1;
    if i < n {
      RetriedUpdate(requests[..n], i, r);
      assert requests[i := r][..n] == requests[..n][i := r];
    } else {
      assert requests[i := r][..n] == requests[..n];
    }
  }

  /** There are never more refreshes than requests that met a first 401. */
  lemma {:induction false} NoExcessRefreshes(run: seq<Action>)
    requires IsRun(run)
    ensures |After(run).posts| <= Retried(After(run).requests)
  {
    if run != [] {
      var before, a := run[..|run| - 1], run[|run| - 1];
      var s, t := After(before), After(run);
      NoExcessRefreshes(before);
      match a
      case Respond(i, _) => RetriedUpdate(s.requests, i, t.requests[i]);
      case Resume(i) => RetriedUpdate(s.requests, i, t.requests[i]);
      case Send => assert t.requests[..|s.requests|] == s.requests;
      case _ =>
    }
  }

  // ---------------------------------------------------------------- what a failed refresh does

  /** The request waited for a refresh that failed, and has been told. */
  predicate ToldOfFailure(r: Request) {
    r.awaited.Some? && r.phase.Rejected? && r.sends == 1
  }

  function Told(requests: seq<Request>): nat {
    if requests == [] then 0
    else Told(requests[..|requests| - 1]) + if ToldOfFailure(requests[|requests| - 1]) then 1 else 0
  }

  lemma {:induction false} ToldUpdate(requests: seq<Request>, i: nat, r: Request)
    requires i < |requests|
    ensures Told(requests[i := r])
         == Told(requests) - (if ToldOfFailure(requests[i]) then 1 else 0) + if ToldOfFailure(r) then 1 else 0
  {
    var n := |requests| - 1;
    if i < n {
      ToldUpdate(requests[..n], i, r);
      assert requests[i := r][..n] == requests[..n][i := r];
    } else {
      assert requests[i := r][..n] == requests[..n];
    }
  }

  lemma RedirectStep(s: State, a: Action)
    requires Inv(s) && Enabled(s, a)
    ensures Told(Do(s, a).requests) == Told(s.requests) + Do(s, a).redirects - s.redirects
  {
    var t := Do(s, a);
    if a.Respond? || a.Resume? {
      assert SentOk(s, s.requests[a.i]);
      ToldUpdate(s.requests, a.i, t.requests[a.i]);
    }
    if a.Send? { assert t.requests[..|s.requests|] == s.requests; }
  }

  /** The browser is sent to the login page exactly once for each waiter of a failed refresh. */
  lemma {:induction false} OneRedirectPerFailure(run: seq<Action>)
    requires IsRun(run)
    ensures After(run).redirects == Told(After(run).requests)
  {
    if run != [] {
      OneRedirectPerFailure(run[..|run| - 1]);
      InvHolds(run[..|run| - 1]);
      RedirectStep(After(run[..|run| - 1]), run[|run| - 1]);
    }
  }

  /** Unless someone signs in or out meanwhile, the tokens are gone exactly from the first such
      time on. */
  lemma {:induction false} FailureSignsOut(run: seq<Action>)
    requires IsRun(run) && forall i :: 0 <= i < |run| ==> !run[i].SetToken?
    ensures After(run).hasRefreshToken <==> Told(After(run).requests) == 0
  {
    OneRedirectPerFailure(run);
    if run != [] {
      var before := run[..|run| - 1];
      assert !run[|run| - 1].SetToken? && forall i :: 0 <= i < |before| ==> before[i] == run[i];
      FailureSignsOut(before);
      OneRedirectPerFailure(before);
    }
  }

  // ---------------------------------------------------------------- the client itself

  /** The refreshes that are not settled yet. */
  function Unsettled(posts: seq<Post>): set<nat> {
    set r | 0 <= r < |posts| && !posts[r].Settled?
  }

  lemma AtMostOneUnsettled(run: seq<Action>)
    requires IsRun(run)
    ensures Unsettled(After(run).posts) == if After(run).promise.Some? then {After(run).promise.value} else {}
  {
    InvHolds(run);
  }

  lemma Recorded(run: seq<Action>, a: Action)
    requires IsRun(run) && Enabled(After(run), a)
    ensures IsRun(run + [a]) && After(run + [a]) == Do(After(run), a)
  {
    assert (run + [a])[..|run|] == run;
  }

  /** The interceptors' variables. The ghost field records every event so far, so what holds after
      every run holds of the object. */
  class ApiClient {
    var requests: seq<Request>
    var posts: seq<Post>
    var refreshPromise: Option<nat>
    var hasRefreshToken: bool
    var redirects: nat
    ghost var run: seq<Action>

    ghost function Now(): State
      reads this
    {
      State(requests, posts, refreshPromise, hasRefreshToken, redirects)
    }

    ghost predicate Valid()
      reads this
    {
      IsRun(run) && After(run) == Now()
    }

    constructor ()
      ensures Valid() && run == []
    {
      requests, posts, refreshPromise, hasRefreshToken, redirects := [], [], None, true, 0;
      run := [];
    }

    /** Sending a request starts no refresh and disturbs no other request. */
    method SendRequest()
      requires Valid()
      modifies this
      ensures Valid() && run == old(run) + [Send]
      ensures |requests| == |old(requests)| + 1 && old(requests) <= requests && posts == old(posts)
      ensures requests[|old(requests)|].phase.InFlight? && requests[|old(requests)|].sends == 1
    {
      requests := requests + [Request(InFlight, false, 1, None)];
      run := run + [Send];
      Recorded(old(run), Send);
    }

    /** A response posts a refresh exactly if it is a first 401, there is a token and every earlier
        refresh is settled; and a request that waits, waits for the only one that is not settled. */
    method OnResponse(i: nat, status: Status)
      requires Valid() && Enabled(Now(), Respond(i, status))
      modifies this
      ensures Valid() && run == old(run) + [Respond(i, status)]
      ensures |requests| == |old(requests)| && forall j :: 0 <= j < |requests| && j != i ==>
                requests[j] == old(requests[j])
      ensures requests[i].phase.Fulfilled? <==> status.Ok?
      ensures requests[i].phase.Awaiting? <==> status.Unauthorized? && old(requests[i]).sends == 1
                                               && old(requests[i]).awaited.None? && old(hasRefreshToken)
      ensures requests[i].phase.Awaiting? ==> Unsettled(posts) == {requests[i].phase.refresh}
      ensures requests[i].phase.Awaiting? || requests[i].phase.Fulfilled? || requests[i].phase.Rejected?
      ensures |posts| == |old(posts)| + if requests[i].phase.Awaiting? && Unsettled(old(posts)) == {} then 1 else 0
    {
      AtMostOneUnsettled(run);
      InvHolds(run);
      assert SentOk(Now(), requests[i]);
      ghost var before := run;
      Intercept(i, status);
      run := run + [Respond(i, status)];
      Recorded(before, Respond(i, status));
      AtMostOneUnsettled(run);
    }

    method Intercept(i: nat, status: Status)
      requires Enabled(Now(), Respond(i, status))
      modifies this
      ensures Now() == Do(old(Now()), Respond(i, status)) && run == old(run)
    {
      var me := requests[i];
      if status.Ok? {
        requests := requests[i := me.(phase := Fulfilled)];
        return;
      }
      if !status.Unauthorized? || me.retried || !hasRefreshToken {
        requests := requests[i := me.(phase := Rejected)];
        return;
      }
      if refreshPromise.None? {
        refreshPromise := Some(|posts|);
        posts := posts + [Posted];
      }
      var r := refreshPromise.value;
      requests := requests[i := me.(phase := Awaiting(r), retried := true, awaited := Some(r))];
    }

    /** The refresh answered is the only one not settled, and nobody is told yet. */
    method OnRefreshAnswer(ok: bool)
      requires Valid() && Enabled(Now(), AnswerRefresh(ok))
      modifies this
      ensures Valid() && run == old(run) + [AnswerRefresh(ok)]
      ensures requests == old(requests) && |posts| == |old(posts)|
      ensures exists r :: Unsettled(posts) == {r} && posts == old(posts)[r := Answered(ok)]
    {
      AtMostOneUnsettled(run);
      posts := posts[refreshPromise.value := Answered(ok)];
      run := run + [AnswerRefresh(ok)];
      Recorded(old(run), AnswerRefresh(ok));
      AtMostOneUnsettled(run);
      assert posts == old(posts)[refreshPromise.value := Answered(ok)];
    }

    /** Once the promise is cleared, every refresh is settled, and every waiter can resume. */
    method OnFinally()
      requires Valid() && Enabled(Now(), RunFinally)
      modifies this
      ensures Valid() && run == old(run) + [RunFinally]
      ensures requests == old(requests) && Unsettled(posts) == {} && refreshPromise.None?
      ensures old(refreshPromise).Some? && old(refreshPromise).value < |old(posts)|
      ensures var r := old(refreshPromise).value;
              old(posts)[r].Answered? && posts == old(posts)[r := Settled(old(posts)[r].ok)]
      ensures forall i :: 0 <= i < |requests| && requests[i].phase.Awaiting? ==> Enabled(Now(), Resume(i))
    {
      var r := refreshPromise.value;
      posts := posts[r := Settled(posts[r].ok)];
      refreshPromise := None;
      run := run + [RunFinally];
      Recorded(old(run), RunFinally);
      InvHolds(run);
      AtMostOneUnsettled(run);
      assert forall i :: 0 <= i < |requests| ==> SentOk(Now(), requests[i]);
    }

    /** A waiter is sent a second and last time if its refresh succeeded; otherwise it is rejected
        without being sent again, the tokens are gone, and there has been one redirect per waiter told. */
    method OnResume(i: nat)
      requires Valid() && Enabled(Now(), Resume(i))
      modifies this
      ensures Valid() && run == old(run) + [Resume(i)]
      ensures |requests| == |old(requests)| && posts == old(posts)
      ensures forall j :: 0 <= j < |requests| && j != i ==> requests[j] == old(requests[j])
      ensures if posts[old(requests[i]).phase.refresh].ok then requests[i].phase.InFlight? && requests[i].sends == 2
              else requests[i].phase.Rejected? && requests[i].sends == 1 && !hasRefreshToken
      ensures redirects == Told(requests)
    {
      InvHolds(run);
      assert SentOk(Now(), requests[i]);
      var me := requests[i];
      if posts[me.phase.refresh].ok {
        requests := requests[i := me.(phase := InFlight, sends := me.sends + 1)];
      } else {
        requests := requests[i := me.(phase := Rejected)];
        hasRefreshToken := false;
        redirects := redirects + 1;
      }
      run := run + [Resume(i)];
      Recorded(old(run), Resume(i));
      OneRedirectPerFailure(run);
    }

    /** Someone signs in or out. */
    method OnTokenChange(present: bool)
      requires Valid()
      modifies this
      ensures Valid() && run == old(run) + [SetToken(present)]
      ensures hasRefreshToken == present && requests == old(requests) && posts == old(posts)
    {
      hasRefreshToken := present;
      run := run + [SetToken(present)];
      Recorded(old(run), SetToken(present));
    }
  }
}
