// The API client's token refresh: one refresh in flight, shared by every request
// that meets a 401 (client/src/services/api.ts), as a state machine over responses
// and continuations.
module TokenRefresh {
  import opened Common

  type Token = nat

  // A request by its place in the retry protocol.  `Waiting` awaits the shared
  // promise of one refresh.
  datatype Phase = Sent | Waiting(refresh: nat) | Resolved | Rejected

  // `retried` and `retriedWithoutAuth` are the flags on the request's config; `auth`
  // the Authorization header it was last sent with; `answer` the refresh it waited
  // on and what that promise gave it; `sends` how often it was sent.
  datatype Request = Request(phase: Phase, isAuth: bool, hasConfig: bool, retried: bool, retriedWithoutAuth: bool,
                             auth: Option<Token>, answer: Option<(nat, Option<Token>)>, sends: nat)

  // A refresh: its call is out; the token is stored but the promise not settled yet;
  // or the promise is settled.
  datatype Refresh = Asked | Answered(result: Option<Token>) | Settled(result: Option<Token>)

  // `inFlight` is refreshInFlight, by the number of the refresh.
  datatype State = State(requests: seq<Request>, refreshes: seq<Refresh>, inFlight: Option<nat>, stored: Option<Token>)

  datatype Status = Success | Unauthorized | OtherError

  datatype Action =
    | Send(isAuth: bool, hasConfig: bool)
    | Respond(i: nat, status: Status)
    | AnswerRefresh(result: Option<Token>)
    | SettleRefresh
    | Resume(i: nat)

  const INITIAL := State([], [], None, None)

  predicate Enabled(s: State, a: Action) {
    match a
    case Send(_, _) => true
    case Respond(i, _) => i < |s.requests| && s.requests[i].phase.Sent?
    case AnswerRefresh(_) => s.inFlight.Some? && s.inFlight.value < |s.refreshes|
      && s.refreshes[s.inFlight.value].Asked?
    case SettleRefresh => s.inFlight.Some? && s.inFlight.value < |s.refreshes|
      && s.refreshes[s.inFlight.value].Answered?
    case Resume(i) =>
      && i < |s.requests| && s.requests[i].phase.Waiting? && s.requests[i].phase.refresh < |s.refreshes|
      && s.refreshes[s.requests[i].phase.refresh].Settled?
  }

  // The request interceptor: a stored token replaces the header.
  function Header(stored: Option<Token>, header: Option<Token>): Option<Token> {
    if stored.Some? then stored else header
  }

  // The response interceptor up to its first await, for a 401.
  function OnUnauthorized(s: State, i: nat): State
    requires i < |s.requests|
  {
    var r := s.requests[i];
    if r.isAuth || !r.hasConfig || r.retried then
      s.(requests := s.requests[i := r.(phase := Rejected)], stored := None)
    else if s.inFlight.Some? then
      s.(requests := s.requests[i := r.(retried := true, phase := Waiting(s.inFlight.value))])
    else
      s.(requests := s.requests[i := r.(retried := true, phase := Waiting(|s.refreshes|))],
         refreshes := s.refreshes + [Asked], inFlight := Some(|s.refreshes|))
  }

  // The rest of it, once the promise has settled.
  function OnSettled(s: State, i: nat, result: Option<Token>): State
    requires i < |s.requests| && s.requests[i].phase.Waiting?
  {
    var r := s.requests[i].(answer := Some((s.requests[i].phase.refresh, result)));
    if result.Some? then
      s.(requests := s.requests[i := r.(phase := Sent, auth := Header(s.stored, result), sends := r.sends + 1)])
    else if !r.retriedWithoutAuth then
      // clearAuthToken runs first, so the interceptor finds no token to add.
      s.(requests := s.requests[i :=
        r.(phase := Sent, retriedWithoutAuth := true, auth := None, sends := r.sends + 1)], stored := None)
    else
      s.(requests := s.requests[i := r.(phase := Rejected)], stored := None)
  }

  function Next(s: State, a: Action): State
    requires Enabled(s, a)
  {
    match a
    case Send(isAuth, hasConfig) =>
      s.(requests := s.requests + [Request(Sent, isAuth, hasConfig, false, false, s.stored, None, 1)])
    case Respond(i, status) =>
      if status == Unauthorized then OnUnauthorized(s, i)
      else s.(requests := s.requests[i := s.requests[i].(phase := if status == Success then Resolved else Rejected)])
    case AnswerRefresh(result) =>
      s.(refreshes := s.refreshes[s.inFlight.value := Answered(result)], stored := result)
    case SettleRefresh =>
      s.(refreshes := s.refreshes[s.inFlight.value := Settled(s.refreshes[s.inFlight.value].result)], inFlight := None)
    case Resume(i) => OnSettled(s, i, s.refreshes[s.requests[i].phase.refresh].result)
  }

  // ---- invariants --------------------------------------------------------

  // A refresh that is not settled is the one in flight.
  ghost predicate OneOutstanding(s: State) {
    && (s.inFlight.Some? ==> s.inFlight.value < |s.refreshes|)
    && forall r :: 0 <= r < |s.refreshes| ==> (!s.refreshes[r].Settled? <==> s.inFlight == Some(r))
  }

  ghost predicate RequestOk(s: State, r: Request) {
    && (r.phase.Waiting? ==>
       r.phase.refresh < |s.refreshes| && r.retried && r.sends == 1 && r.answer.None? && !r.retriedWithoutAuth)
    && (r.phase.Sent? ==> r.sends == if r.retried then 2 else 1)
    && (r.phase.Sent? && r.retried ==>
          && r.answer.Some?
          && (r.retriedWithoutAuth <==> r.answer.value.1.None?)
          && (r.auth.None? <==> r.retriedWithoutAuth))
    && (!r.retried ==> r.answer.None? && !r.retriedWithoutAuth)
    && 1 <= r.sends <= 2
    && (r.answer.Some? ==>
       r.answer.value.0 < |s.refreshes| && s.refreshes[r.answer.value.0] == Settled(r.answer.value.1))
  }

  ghost predicate Inv(s: State) {
    OneOutstanding(s) && forall i :: 0 <= i < |s.requests| ==> RequestOk(s, s.requests[i])
  }

  lemma StepKeepsInv(s: State, a: Action)
    requires Inv(s) && Enabled(s, a)
    ensures Inv(Next(s, a))
  {
    OutstandingStep(s, a);
    hide Next;
    forall i | 0 <= i < |Next(s, a).requests|
      ensures RequestOk(Next(s, a), Next(s, a).requests[i])
    {
      RequestStep(s, a, i);
    }
  }

  lemma RequestStep(s: State, a: Action, i: nat)
    requires Inv(s) && Enabled(s, a) && i < |Next(s, a).requests|
    ensures RequestOk(Next(s, a), Next(s, a).requests[i])
  {
    assert i < |s.requests| ==> RequestOk(s, s.requests[i]);
    assert OneOutstanding(s);
    hide Inv;
  }

  lemma OutstandingStep(s: State, a: Action)
    requires Inv(s) && Enabled(s, a)
    ensures OneOutstanding(Next(s, a))
  {
  }

  // ---- every request comes to an end -------------------------------------

  function Rank(r: Request): nat {
    match r.phase
    case Sent => if r.retried then 1 else 5
    case Waiting(_) => 2
    case _ => 0
  }

  function RanksOf(requests: seq<Request>): nat {
    if requests == [] then 0 else RanksOf(requests[..|requests| - 1]) + Rank(requests[|requests| - 1])
  }

  function RefreshRank(r: Refresh): nat { if r.Asked? then 2 else if r.Answered? then 1 else 0 }

  // Steps that can still follow without another request being made.
  function Measure(s: State): nat {
    RanksOf(s.requests)
    + if s.inFlight.Some? && s.inFlight.value < |s.refreshes| then RefreshRank(s.refreshes[s.inFlight.value]) else 0
  }

  lemma {:induction false} RanksUpdate(requests: seq<Request>, i: nat, r: Request)
    requires i < |requests|
    ensures RanksOf(requests[i := r]) == RanksOf(requests) - Rank(requests[i]) + Rank(r)
    ensures RanksOf(requests) >= Rank(requests[i])
  {
    var n := |requests| - 1;
    if i == n {
      assert requests[i := r][..n] == requests[..n];
    } else {
      RanksUpdate(requests[..n], i, r);
      assert requests[i := r][..n] == requests[..n][i := r];
    }
  }

  lemma RanksSnoc(requests: seq<Request>, r: Request)
    ensures RanksOf(requests + [r]) == RanksOf(requests) + Rank(r)
  {
    assert (requests + [r])[..|requests|] == requests;
  }

  lemma StepDecreases(s: State, a: Action)
    requires Inv(s) && Enabled(s, a)
    ensures !a.Send? ==> Measure(Next(s, a)) < Measure(s)
    ensures a.Send? ==> Measure(Next(s, a)) == Measure(s) + 5
  {
    match a
    case Send(_, _) => RanksSnoc(s.requests, Next(s, a).requests[|s.requests|]);
    case Respond(i, _) => RespondDecreases(s, a, i);
    case AnswerRefresh(_) =>
    case SettleRefresh =>
    case Resume(i) => ResumeDecreases(s, a, i);
  }

  lemma RespondDecreases(s: State, a: Action, i: nat)
    requires Inv(s) && Enabled(s, a) && a.Respond? && a.i == i
    ensures Measure(Next(s, a)) < Measure(s)
  {
    hide RanksOf, Header, OnSettled;
    assert RequestOk(s, s.requests[i]);
    hide RequestOk;
    RanksUpdate(s.requests, i, Next(s, a).requests[i]);
    assert Next(s, a).requests == s.requests[i := Next(s, a).requests[i]];
  }

  lemma ResumeDecreases(s: State, a: Action, i: nat)
    requires Inv(s) && Enabled(s, a) && a.Resume? && a.i == i
    ensures Measure(Next(s, a)) < Measure(s)
  {
    hide RanksOf, Header, OnUnauthorized;
    assert RequestOk(s, s.requests[i]);
    hide RequestOk;
    RanksUpdate(s.requests, i, Next(s, a).requests[i]);
    assert Next(s, a).requests == s.requests[i := Next(s, a).requests[i]];
  }

  // A request that is neither resolved nor rejected never leaves the client stuck:
  // its response, the refresh's answer, or a continuation is due.
  lemma SomethingIsDue(s: State, i: nat) returns (a: Action)
    requires Inv(s) && i < |s.requests| && (s.requests[i].phase.Sent? || s.requests[i].phase.Waiting?)
    ensures Enabled(s, a) && !a.Send?
  {
    assert RequestOk(s, s.requests[i]);
    var p := s.requests[i].phase;
    if p.Sent? {
      a := Respond(i, OtherError);
    } else if s.refreshes[p.refresh].Settled? {
      a := Resume(i);
    } else if s.refreshes[p.refresh].Asked? {
      a := AnswerRefresh(None);
    } else {
      a := SettleRefresh;
    }
  }

  // ---- every run ---------------------------------------------------------

  function RunFrom(s: State, actions: seq<Action>): Option<State>
    decreases |actions|
  {
    if actions == [] then Some(s)
    else if !Enabled(s, actions[0]) then None
    else RunFrom(Next(s, actions[0]), actions[1..])
  }

  function Sends(actions: seq<Action>): nat {
    if actions == [] then 0 else (if actions[0].Send? then 1 else 0) + Sends(actions[1..])
  }

  lemma {:induction false} RunIsBounded(s: State, actions: seq<Action>)
    requires Inv(s)
    ensures RunFrom(s, actions).Some? ==>
              && Inv(RunFrom(s, actions).value)
              && |actions| - Sends(actions) + Measure(RunFrom(s, actions).value) <= Measure(s) + 5 * Sends(actions)
    decreases |actions|
  {
    hide Inv, Measure, Next, Enabled;
    if actions != [] && Enabled(s, actions[0]) {
      StepKeepsInv(s, actions[0]);
      StepDecreases(s, actions[0]);
      RunIsBounded(Next(s, actions[0]), actions[1..]);
    }
  }

  ghost predicate Reachable(s: State) { exists actions: seq<Action> :: RunFrom(INITIAL, actions) == Some(s) }

  // Over every interleaving: at most one refresh is outstanding; callers that waited
  // on the same refresh were given the same token; no request is sent more than
  // twice, and a repeated request carries a token exactly when its refresh gave one.
  lemma RefreshIsSingleFlight(s: State)
    requires Reachable(s)
    ensures forall q, r :: 0 <= q < r < |s.refreshes| ==> s.refreshes[q].Settled? || s.refreshes[r].Settled?
    ensures forall i, j :: 0 <= i < |s.requests| && 0 <= j < |s.requests|
                           && s.requests[i].answer.Some? && s.requests[j].answer.Some?
                           && s.requests[i].answer.value.0 == s.requests[j].answer.value.0 ==>
              s.requests[i].answer == s.requests[j].answer
    ensures forall i :: 0 <= i < |s.requests| ==> s.requests[i].sends <= 2
    ensures forall i :: 0 <= i < |s.requests| && s.requests[i].phase.Sent? && s.requests[i].sends == 2 ==>
              s.requests[i].answer.Some? && (s.requests[i].auth.Some? <==> s.requests[i].answer.value.1.Some?)
  {
    var actions: seq<Action> :| RunFrom(INITIAL, actions) == Some(s);
    RunIsBounded(INITIAL, actions);
    assert forall i :: 0 <= i < |s.requests| ==> RequestOk(s, s.requests[i]);
  }

  // A run with n requests takes at most 5n further steps, and when no further step
  // is possible every request has been resolved or rejected.
  lemma EveryRequestEnds(actions: seq<Action>, s: State)
    requires RunFrom(INITIAL, actions) == Some(s)
    ensures |actions| <= 6 * Sends(actions)
    ensures (forall a: Action :: Enabled(s, a) ==> a.Send?) ==>
              forall i :: 0 <= i < |s.requests| ==> s.requests[i].phase.Resolved? || s.requests[i].phase.Rejected?
  {
    RunIsBounded(INITIAL, actions);
    forall i | 0 <= i < |s.requests| && !(s.requests[i].phase.Resolved? || s.requests[i].phase.Rejected?)
      ensures exists a: Action :: Enabled(s, a) && !a.Send?
    {
      var a := SomethingIsDue(s, i);
    }
  }
}
