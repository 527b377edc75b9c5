// Whole runs of the image stage: the state a script of events leads to
// (scripts/generate_images.py).
module StageRun {
  import opened Common
  import opened Providers
  import opened FrameExposer
  import opened QualityScore
  import opened SceneAsset
  import opened QualityRetry
  import opened StageModel
  import Casting

  // What can happen while the main thread waits.  Attempt and Raise are steps of a
  // worker thread; WaitReturns is wait() handing back some finished futures (none
  // of them when the poll times out).
  datatype Event =
    | Attempt(scene: nat, ok: set<Provider>)
    | Raise(scene: nat)
    | WaitReturns(done: set<nat>)
    | Deadline

  predicate Busy(s: Snapshot, i: nat) { i in s.pending && s.pending[i].Working? }

  // Scenes are submitted until the pool is full or none is left.
  function Fill(c: StageConfig, s: Snapshot): Snapshot
    decreases |c.scenes| - s.sched
  {
    if Schedulable(c, s) then Fill(c, ScheduleStep(c, s)) else s
  }

  // The futures among `done` that are in the pool and finished.
  function Ready(c: StageConfig, s: Snapshot, done: set<nat>): set<nat> {
    set i | i in done && i in s.pending && !s.pending[i].Working? && i < |c.scenes|
  }

  function Got(c: StageConfig, s: Snapshot, done: set<nat>): (got: map<nat, Payload>)
    ensures got.Keys == Ready(c, s, done)
  {
    map i | i in Ready(c, s, done) :: Payload(i, c.scenes[i], ResultOf(s.pending[i]))
  }

  // All of them are taken out at once; the order does not matter.
  function CollectAll(c: StageConfig, s: Snapshot, done: set<nat>): Snapshot {
    var got := Got(c, s, done);
    s.(pending := s.pending - got.Keys, completed := s.completed + got, payloads := s.payloads + got)
  }

  // Scenes are finalised in timeline order up to the first one that is missing.
  function Drain(c: StageConfig, s: Snapshot): Snapshot
    decreases |c.scenes| - s.fin
  {
    if s.fin >= |c.scenes| then s
    else if c.scenes[s.fin].prompt == "" then Drain(c, SkipStep(s))
    else if s.fin in s.completed then Drain(c, FinaliseStep(c, s))
    else s
  }

  function After(c: StageConfig, s: Snapshot, e: Event): Snapshot {
    match e
    case Attempt(i, ok) => if Busy(s, i) && i < |c.scenes| then AttemptStep(c, s, i, ok) else s
    case Raise(i) => if Busy(s, i) then RaiseStep(s, i) else s
    case WaitReturns(done) => if Ready(c, s, done) == {} then s else Drain(c, CollectAll(c, s, done))
    case Deadline => s
  }

  // The state before the main thread waits again: the pool has just been filled.
  // The loop is over when nothing is pending, or at the deadline.
  function Play(c: StageConfig, start: Snapshot, events: seq<Event>): Snapshot
    decreases |events|
  {
    if events == [] then Fill(c, start)
    else
      var s := Play(c, start, events[..|events| - 1]);
      if s.pending == map[] || Deadline in events then s else Fill(c, After(c, s, events[|events| - 1]))
  }

  function History(c: StageConfig, events: seq<Event>): Snapshot { Play(c, Initial(c), events) }

  lemma {:induction false} PlayStops(c: StageConfig, start: Snapshot, events: seq<Event>, k: nat)
    requires k <= |events|
    requires k == |events| || Play(c, start, events[..k]).pending == map[] || events[k] == Deadline
    ensures Play(c, start, events) == Play(c, start, events[..k])
    decreases |events|
  {
    hide Fill, After;
    if k == |events| {
      assert events[..k] == events;
    } else {
      var front := events[..|events| - 1];
      assert front[..k] == events[..k];
      if k == |front| { assert front == events[..k]; }
      PlayStops(c, start, front, k);
    }
  }

  // ---- every state of every run ------------------------------------------

  lemma {:induction false} FillKeeps(c: StageConfig, s: Snapshot)
    requires Inv(c, s) && Drained(c, s)
    ensures Inv(c, Fill(c, s)) && Drained(c, Fill(c, s)) && !Schedulable(c, Fill(c, s))
    decreases |c.scenes| - s.sched
  {
    hide Inv, Drained, ScheduleStep;
    if Schedulable(c, s) {
      ScheduleKeeps(c, s);
      SchedAdvances(c, s);
      FillKeeps(c, ScheduleStep(c, s));
    }
  }

  lemma SchedAdvances(c: StageConfig, s: Snapshot)
    ensures ScheduleStep(c, s).sched == s.sched + 1
  {
  }

  lemma {:induction false} DrainKeeps(c: StageConfig, s: Snapshot)
    requires Inv(c, s)
    ensures Inv(c, Drain(c, s)) && Drained(c, Drain(c, s))
    decreases |c.scenes| - s.fin
  {
    if s.fin < |c.scenes| && c.scenes[s.fin].prompt == "" {
      hide Inv, Drained;
      SkipKeeps(c, s);
      DrainKeeps(c, SkipStep(s));
    } else if s.fin < |c.scenes| && s.fin in s.completed {
      hide Inv, Drained, FinaliseStep;
      FinaliseKeeps(c, s);
      FinAdvances(c, s);
      DrainKeeps(c, FinaliseStep(c, s));
    } else {
      hide WorkersOk, PayloadsOk, Refines, BudgetOk;
    }
  }

  lemma FinAdvances(c: StageConfig, s: Snapshot)
    requires s.fin in s.completed
    ensures FinaliseStep(c, s).fin == s.fin + 1
  {
    hide Casting.Decide, ImageOf, FrameOf;
  }

  lemma GotOneMore(c: StageConfig, s: Snapshot, taken: set<nat>, i: nat)
    requires i !in taken && i in Ready(c, s, {i})
    ensures i !in Ready(c, s, taken)
    ensures Got(c, s, taken + {i}) == Got(c, s, taken)[i := Payload(i, c.scenes[i], ResultOf(s.pending[i]))]
  {
    hide ResultOf;
    assert Ready(c, s, taken + {i}) == Ready(c, s, taken) + {i};
  }

  // Taking one more future after the others is taking them all.
  lemma CollectOneMore(c: StageConfig, s: Snapshot, taken: set<nat>, i: nat)
    requires i !in taken && i in Ready(c, s, {i})
    ensures var s' := CollectAll(c, s, taken);
            && i in s'.pending && s'.pending[i] == s.pending[i]
            && CollectStep(c, s', i) == CollectAll(c, s, taken + {i})
  {
    GotOneMore(c, s, taken, i);
    hide ResultOf, Got;
    var got, p := Got(c, s, taken), Payload(i, c.scenes[i], ResultOf(s.pending[i]));
    OneMore(s.pending, s.completed, got, i, p);
    OneMore(s.pending, s.payloads, got, i, p);
  }

  lemma OneMore(pending: map<nat, Worker>, buffer: map<nat, Payload>, got: map<nat, Payload>, i: nat, p: Payload)
    ensures (pending - got.Keys) - {i} == pending - got[i := p].Keys
    ensures (buffer + got)[i := p] == buffer + got[i := p]
  {
  }

  lemma CollectNone(c: StageConfig, s: Snapshot)
    ensures CollectAll(c, s, {}) == s
  {
    assert Ready(c, s, {}) == {};
    assert s.pending - {} == s.pending;
  }

  lemma CollectReady(c: StageConfig, s: Snapshot, done: set<nat>)
    ensures CollectAll(c, s, Ready(c, s, done)) == CollectAll(c, s, done)
  {
    assert Ready(c, s, Ready(c, s, done)) == Ready(c, s, done);
  }

  lemma {:induction false} CollectAllKeeps(c: StageConfig, s: Snapshot, done: set<nat>)
    requires Inv(c, s) && done <= Ready(c, s, done)
    ensures Inv(c, CollectAll(c, s, done))
    decreases done
  {
    hide Inv, CollectStep;
    if done == {} {
      CollectNone(c, s);
    } else {
      var i :| i in done;
      var rest := done - {i};
      CollectAllKeeps(c, s, rest);
      CollectOneMore(c, s, rest, i);
      assert rest + {i} == done;
      CollectKeeps(c, CollectAll(c, s, rest), i);
    }
  }

  lemma AfterKeeps(c: StageConfig, s: Snapshot, e: Event)
    requires Inv(c, s) && Drained(c, s)
    ensures Inv(c, After(c, s, e)) && Drained(c, After(c, s, e))
  {
    hide Inv, Drained, AttemptStep, RaiseStep, CollectAll, Drain;
    match e
    case Attempt(i, ok) => if Busy(s, i) && i < |c.scenes| { AttemptKeeps(c, s, i, ok); }
    case Raise(i) => if Busy(s, i) { RaiseKeeps(c, s, i); }
    case WaitReturns(done) =>
      if Ready(c, s, done) != {} {
        CollectReady(c, s, done);
        CollectAllKeeps(c, s, Ready(c, s, done));
        DrainKeeps(c, CollectAll(c, s, done));
      }
    case Deadline =>
  }

  // Whatever happens and however long, the stage is in a sound state when it waits:
  // nothing that could be finalised is waiting, and the pool is full or every scene
  // has been scheduled.
  lemma {:induction false} HistoryIsSound(c: StageConfig, events: seq<Event>)
    requires 1 <= c.maxWorkers && 1 <= c.maxAttempts
    ensures var s := History(c, events); Inv(c, s) && Drained(c, s) && !Schedulable(c, s)
    decreases |events|
  {
    hide Inv, Drained, Fill, After, Initial;
    if events == [] {
      InitialOk(c);
      FillKeeps(c, Initial(c));
    } else {
      HistoryIsSound(c, events[..|events| - 1]);
      var s := History(c, events[..|events| - 1]);
      AfterKeeps(c, s, events[|events| - 1]);
      FillKeeps(c, After(c, s, events[|events| - 1]));
    }
  }

  // ---- retries, granted and lost -----------------------------------------

  // Retries scene i has been granted: its attempts after which the budget had moved.
  function Grants(c: StageConfig, events: seq<Event>, i: nat): nat
    decreases |events|
  {
    if events == [] then 0
    else
      var front, e := events[..|events| - 1], events[|events| - 1];
      var granted := e.Attempt? && e.scene == i && History(c, events).used > History(c, front).used;
      Grants(c, front, i) + if granted then 1 else 0
  }

  // Event j is an exception in a worker that has been granted a retry.
  predicate LosesRetry(c: StageConfig, events: seq<Event>, j: nat)
    requires j < |events|
  {
    && events[j].Raise? && Deadline !in events[..j]
    && Busy(History(c, events[..j]), events[j].scene)
    && Grants(c, events[..j], events[j].scene) > 0
  }

  // Retries granted to workers that raised afterwards.
  function LostRetries(c: StageConfig, events: seq<Event>): nat
    decreases |events|
  {
    if events == [] then 0
    else
      var front, e := events[..|events| - 1], events[|events| - 1];
      LostRetries(c, front)
      + if e.Raise? && Deadline !in front && Busy(History(c, front), e.scene) then Grants(c, front, e.scene) else 0
  }

  // Scheduling touches no scene that has been scheduled, and no account.
  lemma {:induction false} FillFrame(c: StageConfig, s: Snapshot)
    requires forall i :: i in s.pending ==> i < s.sched
    ensures var s' := Fill(c, s);
            && s'.lost == s.lost && s'.used == s.used && s'.sched >= s.sched
            && (forall i :: i in s.pending ==> i in s'.pending && s'.pending[i] == s.pending[i])
            && (forall i :: i in s'.pending && i !in s.pending ==> i >= s.sched && s'.pending[i] == Start(c.provider))
            && (forall i :: i in s'.pending ==> i < s'.sched)
    decreases |c.scenes| - s.sched
  {
    if Schedulable(c, s) { FillFrame(c, ScheduleStep(c, s)); }
  }

  lemma {:induction false} DrainFrame(c: StageConfig, s: Snapshot)
    ensures var s' := Drain(c, s);
            s'.lost == s.lost && s'.used == s.used && s'.sched == s.sched && s'.pending == s.pending
    decreases |c.scenes| - s.fin
  {
    hide Casting.Decide, ImageOf, FrameOf;
    if s.fin < |c.scenes| && c.scenes[s.fin].prompt == "" {
      DrainFrame(c, SkipStep(s));
    } else if s.fin < |c.scenes| && s.fin in s.completed {
      DrainFrame(c, FinaliseStep(c, s));
    }
  }

  // Retries a worker has been granted, while it works.
  function Held(s: Snapshot, i: nat): nat
    requires Busy(s, i)
  {
    |s.pending[i].trace|
  }

  lemma AfterFrame(c: StageConfig, s: Snapshot, e: Event)
    requires forall i :: i in s.pending ==> i < s.sched
    ensures var s' := After(c, s, e);
            && s'.sched == s.sched && s'.used >= s.used
            && s'.lost == s.lost + (if e.Raise? && Busy(s, e.scene) then Held(s, e.scene) else 0)
            && (forall i :: i in s'.pending ==> i in s.pending)
            && (forall i: nat :: Busy(s', i) ==>
                  && Busy(s, i)
                  && Held(s', i) == Held(s, i) + (if e.Attempt? && e.scene == i && s'.used > s.used then 1 else 0))
  {
    hide Drain, EntryOf, NextProvider, Unwind, CollectAll;
    match e
    case Attempt(i, ok) =>
    case Raise(i) =>
    case Deadline =>
    case WaitReturns(done) =>
      DrainFrame(c, CollectAll(c, s, done));
      CollectFrame(c, s, done);
  }

  lemma CollectFrame(c: StageConfig, s: Snapshot, done: set<nat>)
    ensures var s' := CollectAll(c, s, done);
            && s'.lost == s.lost && s'.used == s.used && s'.sched == s.sched
            && forall i :: i in s'.pending ==> i in s.pending && s'.pending[i] == s.pending[i]
  {
  }

  // Event e grants scene i a retry.
  predicate GrantedBy(e: Event, i: nat, before: Snapshot, after: Snapshot) {
    e.Attempt? && e.scene == i && after.used > before.used
  }

  // One event and the scheduling after it, seen from the accounts.
  ghost predicate AccountsMove(s: Snapshot, e: Event, s': Snapshot) {
    && s'.sched >= s.sched
    && s'.lost == s.lost + (if e.Raise? && Busy(s, e.scene) then Held(s, e.scene) else 0)
    && (forall i :: i in s'.pending ==> i < s'.sched)
    && (s'.used > s.used && e.Attempt? ==> e.scene < s.sched)
    && (forall i: nat :: Busy(s', i) ==>
          if i < s.sched then Busy(s, i) && Held(s', i) == Held(s, i) + (if GrantedBy(e, i, s, s') then 1 else 0)
          else Held(s', i) == 0)
  }

  lemma AccountsStep(c: StageConfig, s: Snapshot, e: Event)
    requires forall i :: i in s.pending ==> i < s.sched
    ensures AccountsMove(s, e, Fill(c, After(c, s, e)))
  {
    AfterFrame(c, s, e);
    FillFrame(c, After(c, s, e));
    hide Fill, After;
  }

  // What the accounts of a run say about its events.
  ghost predicate Accounted(c: StageConfig, events: seq<Event>) {
    var s := History(c, events);
    && s.lost == LostRetries(c, events)
    && (forall i :: i in s.pending ==> i < s.sched)
    && (forall i: nat :: i >= s.sched ==> Grants(c, events, i) == 0)
    && (forall i: nat :: Busy(s, i) ==> Held(s, i) == Grants(c, events, i))
  }

  // A working worker holds the retries its scene has been granted, and `lost` counts
  // those of workers that raised.
  lemma {:induction false} RunIsAccounted(c: StageConfig, events: seq<Event>)
    ensures Accounted(c, events)
    decreases |events|
  {
    if events == [] {
      FillFrame(c, Initial(c));
    } else {
      var front, e := events[..|events| - 1], events[|events| - 1];
      RunIsAccounted(c, front);
      AccountsStep(c, History(c, front), e);
      hide *;
      AccountedStep(c, events);
    }
  }

  lemma AccountedStep(c: StageConfig, events: seq<Event>)
    requires events != [] && Accounted(c, events[..|events| - 1])
    requires var s, e := History(c, events[..|events| - 1]), events[|events| - 1];
             AccountsMove(s, e, Fill(c, After(c, s, e)))
    ensures Accounted(c, events)
  {
    hide Fill, After, Initial, Busy, Held, Grants;
    var front, e := events[..|events| - 1], events[|events| - 1];
    var s, s' := History(c, front), History(c, events);
    assert events == front + [e];
    GrantsStep(c, events);
    if s.pending == map[] || Deadline in events {
      assert s' == s;
      IdleIsNotBusy(s);
    } else {
      assert s' == Fill(c, After(c, s, e));
    }
  }

  lemma GrantsStep(c: StageConfig, events: seq<Event>)
    requires events != []
    ensures var front, e := events[..|events| - 1], events[|events| - 1];
            forall i: nat :: Grants(c, events, i) ==
              Grants(c, front, i) + if GrantedBy(e, i, History(c, front), History(c, events)) then 1 else 0
  {
    hide History;
  }

  lemma IdleIsNotBusy(s: Snapshot)
    ensures s.pending == map[] ==> forall i: nat :: !Busy(s, i)
  {
  }

  // Retries are lost exactly when some event is an exception in a worker that has
  // been granted one.
  lemma {:induction false} LostIff(c: StageConfig, events: seq<Event>)
    ensures History(c, events).lost == LostRetries(c, events)
    ensures LostRetries(c, events) > 0 <==> exists j :: 0 <= j < |events| && LosesRetry(c, events, j)
    decreases |events|
  {
    RunIsAccounted(c, events);
    hide History, LosesRetry, LostRetries;
    if events == [] {
      NothingLost(c);
    } else {
      var n := |events| - 1;
      LostIff(c, events[..n]);
      LostStep(c, events);
      forall j | 0 <= j < n
        ensures LosesRetry(c, events, j) <==> LosesRetry(c, events[..n], j)
      {
        SameLoss(c, events, j);
      }
    }
  }

  lemma NothingLost(c: StageConfig)
    ensures LostRetries(c, []) == 0
  {
  }

  lemma SameLoss(c: StageConfig, events: seq<Event>, j: nat)
    requires j < |events| - 1
    ensures LosesRetry(c, events, j) <==> LosesRetry(c, events[..|events| - 1], j)
  {
    hide History, Grants, Busy;
    assert events[..|events| - 1][..j] == events[..j];
  }

  lemma LostStep(c: StageConfig, events: seq<Event>)
    requires events != []
    ensures LostRetries(c, events) >= LostRetries(c, events[..|events| - 1])
    ensures LostRetries(c, events) > LostRetries(c, events[..|events| - 1]) <==> LosesRetry(c, events, |events| - 1)
  {
    hide History, Grants, Busy;
  }

  // On every finished run the used retries are those the images report and the lost
  // ones, so both agree exactly when no worker that was granted a retry raised.
  lemma ReportedIsUsedIff(c: StageConfig, events: seq<Event>)
    requires 1 <= c.maxWorkers && 1 <= c.maxAttempts && AllScheduled(c, History(c, events))
    ensures var s := History(c, events);
            && (forall i: nat :: HasPrompt(c.scenes, i) ==> i in s.payloads)
            && var reported := ReportedRetries(InOrder(c.scenes, s.payloads, |c.scenes|));
               && s.used == reported + LostRetries(c, events) <= c.configured
               && (reported == s.used <==> forall j :: 0 <= j < |events| ==> !LosesRetry(c, events, j))
  {
    hide Inv, Drained, LosesRetry, LostRetries, History;
    HistoryIsSound(c, events);
    LostIff(c, events);
    FinishedIsSequential(c, History(c, events));
    RetriesAddUp(c, History(c, events));
  }

  // ---- a run that loses a retry ------------------------------------------

  // One scene on ComfyUI with one retry in the budget.
  const ONE_SCENE := Scene("x", "", Narrative, NO_CUES, NO_TRAITS)
  const NO_CUES := Cues(false, false, false, false, false, false, false, false, false, false, false, false, false)
  const NO_TRAITS := Traits(false, false, false, false, false, false)
  const FAILOVER_ENV := Env(false, false, false, false, [Pollinations], true, 55.0)

  function OneScene(cfg: Casting.Config): StageConfig {
    StageConfig(cfg, FAILOVER_ENV, [ONE_SCENE], Comfyui, 1, 2, 1)
  }

  // ComfyUI fails and Pollinations steps in; the poor result is granted a retry, and
  // the retry raises.  The image reports no retry, and the budget is spent.
  const LOSING_RUN := [Attempt(0, {Pollinations}), Raise(0), WaitReturns({0})]

  lemma FirstAttempt(c: StageConfig)
    requires c == OneScene(c.cfg)
    ensures StepNext(c.env, NO_TRAITS, Comfyui, 2, Start(Comfyui), {Pollinations}) == Some(Comfyui)
  {
  }

  // A run in which one more thing happens.
  lemma OneMoreEvent(c: StageConfig, events: seq<Event>, e: Event)
    requires Deadline !in events && !e.Deadline? && History(c, events).pending != map[]
    ensures History(c, events + [e]) == Fill(c, After(c, History(c, events), e))
    ensures Grants(c, events + [e], 0) ==
            Grants(c, events, 0) + if GrantedBy(e, 0, History(c, events), History(c, events + [e])) then 1 else 0
    ensures LostRetries(c, events + [e]) ==
            var loses := e.Raise? && Busy(History(c, events), e.scene);
            LostRetries(c, events) + if loses then Grants(c, events, e.scene) else 0
  {
    hide Fill, After, Initial, Busy;
    assert (events + [e])[..|events + [e]| - 1] == events;
  }

  // The pool holds the scene from the beginning, so filling it changes nothing.
  lemma NothingToFill(c: StageConfig, s: Snapshot)
    requires s.sched >= |c.scenes|
    ensures Fill(c, s) == s
  {
  }

  lemma Beginning(c: StageConfig)
    requires c == OneScene(c.cfg)
    ensures History(c, []) == Initial(c).(pending := map[0 := Start(Comfyui)], sched := 1)
  {
    var s := ScheduleStep(c, Initial(c));
    NothingToFill(c, s);
    assert Fill(c, Initial(c)) == Fill(c, s);
  }

  lemma Granted(c: StageConfig)
    requires c == OneScene(c.cfg)
    ensures var s := History(c, [Attempt(0, {Pollinations})]);
            && Busy(s, 0) && s.sched == 1 && s.used == 1 && s.payloads == s.completed == map[] && s.fin == 0
            && Grants(c, [Attempt(0, {Pollinations})], 0) == 1 && LostRetries(c, [Attempt(0, {Pollinations})]) == 0
  {
    var e := Attempt(0, {Pollinations});
    Beginning(c);
    FirstAttempt(c);
    hide Fill, StepNext, EntryOf, NextProvider, Unwind;
    var s := History(c, []);
    OneMoreEvent(c, [], e);
    NothingToFill(c, After(c, s, e));
    assert [] + [e] == [e];
  }

  // Collecting the placeholder of a worker that raised ends the run.
  lemma Collected(c: StageConfig, s: Snapshot)
    requires c == OneScene(c.cfg) && s.pending == map[0 := Raised] && s.sched == 1 && s.fin == 0
    ensures var s' := After(c, s, WaitReturns({0}));
            s'.pending == map[] && s'.sched == 1 && s'.used == s.used && 0 in s'.payloads
              && s'.payloads[0].result == EXCEPTION_RESULT
  {
    assert Ready(c, s, {0}) == {0};
    var collected := CollectAll(c, s, {0});
    assert collected.pending == map[] && collected.payloads[0].result == EXCEPTION_RESULT;
    assert collected.sched == 1 && collected.used == s.used;
    hide Drain, CollectAll;
    DrainFrame(c, collected);
    DrainKeepsPayloads(c, collected);
  }

  lemma {:induction false} DrainKeepsPayloads(c: StageConfig, s: Snapshot)
    ensures Drain(c, s).payloads == s.payloads
    decreases |c.scenes| - s.fin
  {
    hide Casting.Decide, ImageOf, FrameOf;
    if s.fin < |c.scenes| && c.scenes[s.fin].prompt == "" {
      DrainKeepsPayloads(c, SkipStep(s));
    } else if s.fin < |c.scenes| && s.fin in s.completed {
      DrainKeepsPayloads(c, FinaliseStep(c, s));
    }
  }

  lemma LosingRunExample(cfg: Casting.Config)
    ensures var c, s := OneScene(cfg), History(OneScene(cfg), LOSING_RUN);
            && AllScheduled(c, s) && s.used == 1 && LostRetries(c, LOSING_RUN) == 1
            && 0 in s.payloads && s.payloads[0].result.retryCount == 0
  {
    var c := OneScene(cfg);
    var first, second := [Attempt(0, {Pollinations})], [Attempt(0, {Pollinations})] + [Raise(0)];
    Granted(c);
    assert LOSING_RUN == second + [WaitReturns({0})];
    hide Fill, Grants, LostRetries, History, OneScene;
    var s1 := History(c, first);
    PendingIsTheScene(c, first);
    OneMoreEvent(c, first, Raise(0));
    NothingToFill(c, RaiseStep(s1, 0));
    var s2 := History(c, second);
    assert s2 == RaiseStep(s1, 0) && s2.pending == map[0 := Raised];
    OneMoreEvent(c, second, WaitReturns({0}));
    Collected(c, s2);
    NothingToFill(c, After(c, s2, WaitReturns({0})));
  }

  lemma PendingIsTheScene(c: StageConfig, events: seq<Event>)
    requires |c.scenes| == 1 && 1 <= c.maxWorkers && 1 <= c.maxAttempts
    ensures History(c, events).pending.Keys <= {0}
  {
    hide *;
    HistoryIsSound(c, events);
    forall i | i in History(c, events).pending.Keys
      ensures i == 0
    {
      PendingIsNew(c, History(c, events), i);
    }
  }
}
