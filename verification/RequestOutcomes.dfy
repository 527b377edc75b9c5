// How each request of the API client ends, told from the responses alone, and which
// tokens it carries (client/src/services/api.ts).
module RequestOutcomes {
  import opened Common
  import opened TokenRefresh

  // ---- what the actions of a run say about request i ---------------------

  // The requests in the order they were made.
  function Requested(actions: seq<Action>): seq<Action> {
    if actions == [] then []
    else
      var n := |actions| - 1;
      Requested(actions[..n]) + if actions[n].Send? then [actions[n]] else []
  }

  // The last response to request i.
  function LastStatus(actions: seq<Action>, i: nat): Option<Status> {
    if actions == [] then None
    else
      var n := |actions| - 1;
      if actions[n].Respond? && actions[n].i == i then Some(actions[n].status) else LastStatus(actions[..n], i)
  }

  function Responses(actions: seq<Action>, i: nat): nat {
    if actions == [] then 0
    else
      var n := |actions| - 1;
      Responses(actions[..n], i) + if actions[n].Respond? && actions[n].i == i then 1 else 0
  }

  lemma {:induction false} RunSnoc(s: State, actions: seq<Action>, a: Action)
    ensures var before := RunFrom(s, actions);
            RunFrom(s, actions + [a]) ==
            if before.Some? && Enabled(before.value, a) then Some(Next(before.value, a)) else None
    decreases |actions|
  {
    hide Next, Enabled;
    if actions == [] {
      assert [] + [a] == [a];
      if Enabled(s, a) { assert RunFrom(Next(s, a), []) == Some(Next(s, a)); }
    } else {
      assert (actions + [a])[0] == actions[0] && (actions + [a])[1..] == actions[1..] + [a];
      if Enabled(s, actions[0]) { RunSnoc(Next(s, actions[0]), actions[1..], a); }
    }
  }

  // Where request i stands, from the last response and the number of responses.
  ghost predicate Told(r: Request, send: Action, last: Option<Status>, count: nat)
    requires send.Send?
  {
    var repeatable := !send.isAuth && send.hasConfig;
    && r.isAuth == send.isAuth && r.hasConfig == send.hasConfig && count <= 2
    && (r.retried ==> repeatable && count >= 1)
    && match last
       case None => r.phase.Sent? && count == 0
       case Some(Success) => r.phase.Resolved?
       case Some(OtherError) => r.phase.Rejected?
       case Some(Unauthorized) =>
         if repeatable && count == 1 then r.retried && (r.phase.Waiting? || r.phase.Sent?)
         else count >= 1 && r.phase.Rejected?
  }

  ghost predicate AllTold(s: State, actions: seq<Action>) {
    && |s.requests| == |Requested(actions)|
    && (forall i :: 0 <= i < |s.requests| ==>
          && Requested(actions)[i].Send?
          && Told(s.requests[i], Requested(actions)[i], LastStatus(actions, i), Responses(actions, i)))
    && forall i: nat :: i >= |s.requests| ==> LastStatus(actions, i) == None && Responses(actions, i) == 0
  }

  lemma SameStory(front: seq<Action>, a: Action, i: nat)
    ensures var actions := front + [a];
            && Responses(actions, i) == Responses(front, i) + (if a.Respond? && a.i == i then 1 else 0)
            && LastStatus(actions, i) == (if a.Respond? && a.i == i then Some(a.status) else LastStatus(front, i))
            && Requested(actions) == Requested(front) + (if a.Send? then [a] else [])
  {
    assert (front + [a])[..|front|] == front;
  }

  lemma ToldStep(s: State, a: Action, i: nat, send: Action, last: Option<Status>, count: nat)
    requires Inv(s) && Enabled(s, a) && i < |s.requests|
    requires send.Send? && Told(s.requests[i], send, last, count)
    ensures i < |Next(s, a).requests|
    ensures var mine := a.Respond? && a.i == i;
            Told(Next(s, a).requests[i], send, if mine then Some(a.status) else last, if mine then count + 1 else count)
  {
    assert RequestOk(s, s.requests[i]);
    hide Inv, Header;
  }

  lemma {:induction false} EveryRequestIsTold(actions: seq<Action>, s: State)
    requires RunFrom(INITIAL, actions) == Some(s)
    ensures Inv(s) && AllTold(s, actions)
    decreases |actions|
  {
    if actions != [] {
      var n := |actions| - 1;
      var front, a := actions[..n], actions[n];
      assert actions == front + [a];
      RunSnoc(INITIAL, front, a);
      var before := RunFrom(INITIAL, front).value;
      EveryRequestIsTold(front, before);
      StepKeepsInv(before, a);
      RequestsGrow(before, a);
      SameStory(front, a, 0);
      hide Told, Inv, Next, Enabled, Requested, LastStatus, Responses, RunFrom;
      forall i: nat
        ensures i < |s.requests| ==>
                  && Requested(actions)[i].Send?
                  && Told(s.requests[i], Requested(actions)[i], LastStatus(actions, i), Responses(actions, i))
        ensures i >= |s.requests| ==> LastStatus(actions, i) == None && Responses(actions, i) == 0
      {
        SameStory(front, a, i);
        if i < |before.requests| {
          ToldStep(before, a, i, Requested(front)[i], LastStatus(front, i), Responses(front, i));
        } else if a.Send? && i == |before.requests| {
          NewRequestIsTold(before, a);
        } else {
          NotForOthers(before, a, i);
        }
      }
    }
  }

  lemma RequestsGrow(s: State, a: Action)
    requires Enabled(s, a)
    ensures |Next(s, a).requests| == |s.requests| + if a.Send? then 1 else 0
  {
  }

  lemma NewRequestIsTold(s: State, a: Action)
    requires Enabled(s, a) && a.Send?
    ensures Told(Next(s, a).requests[|s.requests|], a, None, 0)
  {
  }

  lemma NotForOthers(s: State, a: Action, i: nat)
    requires Enabled(s, a) && i >= |s.requests|
    ensures !(a.Respond? && a.i == i)
  {
  }

  // The requests are as many as were made.
  lemma {:induction false} SendsAreRequested(actions: seq<Action>)
    ensures Sends(actions) == |Requested(actions)|
    decreases |actions|
  {
    if actions != [] {
      var n := |actions| - 1;
      SendsAreRequested(actions[..n]);
      SendsSnoc(actions[..n], actions[n]);
      assert actions == actions[..n] + [actions[n]];
    }
  }

  lemma {:induction false} SendsSnoc(actions: seq<Action>, a: Action)
    ensures Sends(actions + [a]) == Sends(actions) + if a.Send? then 1 else 0
  {
    if actions == [] {
      assert [] + [a] == [a] && [a][1..] == [] && Sends([]) == 0;
    } else {
      assert (actions + [a])[1..] == actions[1..] + [a];
      SendsSnoc(actions[1..], a);
    }
  }

  // Over every run: a request is resolved exactly when its last response was a
  // success.  It is rejected exactly when that was another error, or a 401 that is
  // not followed by a repeat: to an authentication request, to one without a config,
  // or to a request that had been repeated already.
  lemma HowRequestsEnd(actions: seq<Action>, s: State, i: nat)
    requires RunFrom(INITIAL, actions) == Some(s) && i < |Requested(actions)|
    ensures i < |s.requests| == |Requested(actions)| && Requested(actions)[i].Send?
    ensures var phase, last, send := s.requests[i].phase, LastStatus(actions, i), Requested(actions)[i];
            && (phase.Resolved? <==> last == Some(Success))
            && (phase.Rejected? <==>
                || last == Some(OtherError)
                || (last == Some(Unauthorized) && (send.isAuth || !send.hasConfig || Responses(actions, i) == 2)))
            && Responses(actions, i) <= 2
  {
    EveryRequestIsTold(actions, s);
    hide Inv, RunFrom;
    assert Told(s.requests[i], Requested(actions)[i], LastStatus(actions, i), Responses(actions, i));
  }

  // ---- tokens ------------------------------------------------------------

  ghost predicate Given(actions: seq<Action>, token: Option<Token>) {
    token.Some? ==> AnswerRefresh(token) in actions
  }

  ghost predicate AllGiven(s: State, actions: seq<Action>) {
    && Given(actions, s.stored)
    && (forall r :: 0 <= r < |s.refreshes| && !s.refreshes[r].Asked? ==> Given(actions, s.refreshes[r].result))
    && forall i :: 0 <= i < |s.requests| ==> Given(actions, s.requests[i].auth)
  }

  // Every token that is stored or sent along was the answer of a refresh of the run.
  lemma {:induction false} TokensComeFromRefreshes(actions: seq<Action>, s: State)
    requires RunFrom(INITIAL, actions) == Some(s)
    ensures AllGiven(s, actions)
    decreases |actions|
  {
    if actions != [] {
      var n := |actions| - 1;
      var front, a := actions[..n], actions[n];
      assert actions == front + [a];
      RunSnoc(INITIAL, front, a);
      TokensComeFromRefreshes(front, RunFrom(INITIAL, front).value);
      GivenStep(front, RunFrom(INITIAL, front).value, a);
    }
  }

  lemma GivenStep(front: seq<Action>, s: State, a: Action)
    requires AllGiven(s, front) && Enabled(s, a)
    ensures AllGiven(Next(s, a), front + [a])
  {
  }

  // What a request is sent with, and what is stored after each step.  A repeat is sent
  // with the stored token, or with the refreshed one when none is stored any more.  A
  // failed refresh, or a 401 that ends a request, leaves nothing stored.
  lemma WhatIsSentAndStored(s: State, a: Action)
    requires Inv(s) && Enabled(s, a)
    ensures var s' := Next(s, a);
            && (a.Send? ==> s'.requests[|s.requests|].auth == s.stored)
            && (a.Resume? && s'.requests[a.i].answer.value.1.Some? ==>
                  s'.requests[a.i].auth == if s.stored.Some? then s.stored else s'.requests[a.i].answer.value.1)
            && (a.Resume? && s'.requests[a.i].answer.value.1.None? ==> s'.requests[a.i].auth == None)
            && s'.stored == match a
                            case AnswerRefresh(result) => result
                            case Respond(i, status) =>
                              if status == Unauthorized && s'.requests[i].phase.Rejected? then None else s.stored
                            case Resume(i) => if s'.requests[i].answer.value.1.None? then None else s.stored
                            case _ => s.stored
  {
    if a.Resume? { assert RequestOk(s, s.requests[a.i]); }
  }

  // ---- a run with a shared refresh ---------------------------------------

  lemma OneMore(actions: seq<Action>, s: State, a: Action)
    requires RunFrom(INITIAL, actions) == Some(s) && Enabled(s, a)
    ensures RunFrom(INITIAL, actions + [a]) == Some(Next(s, a))
  {
    hide Next, Enabled;
    RunSnoc(INITIAL, actions, a);
  }

  // Two requests have met a 401 and wait on one refresh.
  lemma TwoWait() returns (run: seq<Action>, s: State)
    ensures RunFrom(INITIAL, run) == Some(s)
    ensures s.refreshes == [Asked] && s.inFlight == Some(0) && |s.requests| == 2
    ensures forall i :: 0 <= i < 2 ==>
              s.requests[i] == Request(Waiting(0), false, true, true, false, None, None, 1)
  {
    hide RunFrom;
    RunOfNothing();
    var a, b, c, d := Send(false, true), Send(false, true), Respond(0, Unauthorized), Respond(1, Unauthorized);
    OneMore([], INITIAL, a);
    var s1 := Next(INITIAL, a);
    OneMore([] + [a], s1, b);
    var s2 := Next(s1, b);
    OneMore([] + [a] + [b], s2, c);
    var s3 := Next(s2, c);
    OneMore([] + [a] + [b] + [c], s3, d);
    s := Next(s3, d);
    run := [] + [a] + [b] + [c] + [d];
  }

  lemma RunOfNothing()
    ensures RunFrom(INITIAL, []) == Some(INITIAL)
  {
  }

  // The refresh gives token 7, and both are sent again with it.
  lemma SharedRefreshExample() returns (run: seq<Action>, s: State)
    ensures RunFrom(INITIAL, run) == Some(s)
    ensures |s.refreshes| == 1 && |s.requests| == 2 && s.inFlight == None && s.stored == Some(7)
    ensures forall i :: 0 <= i < 2 ==>
              s.requests[i].phase == Sent && s.requests[i].auth == Some(7) && s.requests[i].sends == 2
  {
    hide RunFrom;
    var before, s4 := TwoWait();
    var e, f, g, h := AnswerRefresh(Some(7)), SettleRefresh, Resume(0), Resume(1);
    OneMore(before, s4, e);
    var s5 := Next(s4, e);
    OneMore(before + [e], s5, f);
    var s6 := Next(s5, f);
    OneMore(before + [e] + [f], s6, g);
    var s7 := Next(s6, g);
    OneMore(before + [e] + [f] + [g], s7, h);
    s := Next(s7, h);
    run := before + [e] + [f] + [g] + [h];
  }
}
