// The scheduler loop of the image stage and finalize_scene, proved against the runs
// of StageRun (scripts/generate_images.py).
module ImageStage {
  import opened Common
  import opened FrameExposer
  import opened Providers
  import opened QualityScore
  import opened SceneAsset
  import opened QualityRetry
  import opened StageModel
  import opened StageRun
  import opened StageImages
  import Casting

  datatype Outcome = Finished | TimedOut | EventsExhausted

  class Stage {
    const c: StageConfig
    const budget: RetryBudget

    var pending: map<nat, Worker>
    var completed: map<nat, Payload>
    var nextSchedule: nat
    var nextFinalize: nat
    var generated: seq<Image>
    var protagonistBase: Option<string>
    var castingSkips: nat

    ghost var payloads: map<nat, Payload>
    ghost var lost: nat

    ghost function Snap(): Snapshot
      reads this, budget
    {
      Snapshot(pending, completed, nextSchedule, nextFinalize, generated,
               Casting.State(protagonistBase, castingSkips), budget.remaining, budget.used, payloads, lost)
    }

    ghost predicate Valid()
      reads this, budget
    {
      Inv(c, Snap())
    }

    constructor (c: StageConfig)
      requires 1 <= c.maxWorkers && 1 <= c.maxAttempts
      ensures this.c == c && fresh(budget)
      ensures Snap() == Initial(c) && Valid() && Drained(c, Snap())
    {
      this.c := c;
      this.budget := new RetryBudget(c.configured);
      pending, completed, payloads := map[], map[], map[];
      nextSchedule, nextFinalize, lost := 0, 0, 0;
      generated, protagonistBase, castingSkips := [], None, 0;
      new;
      InitialOk(c);
    }

    // The fill loop: submits scenes in timeline order, skipping those without a
    // prompt, until the pool is full or no scene is left.
    method FillWorkerQueue()
      requires Valid() && Drained(c, Snap())
      modifies this`pending, this`nextSchedule
      ensures Valid() && Drained(c, Snap())
      ensures Snap() == Fill(c, old(Snap()))
      ensures !Schedulable(c, Snap())
      ensures nextSchedule >= old(nextSchedule)
      ensures WorkLeft(c, Snap()) == old(WorkLeft(c, Snap()))
      ensures forall i :: i in pending ==>
              if i in old(pending) then pending[i] == old(pending)[i] else pending[i] == Start(c.provider)
      ensures old(pending).Keys <= pending.Keys
    {
      hide Inv, Drained, WorkLeft;
      while nextSchedule < |c.scenes| && |pending| < c.maxWorkers
        invariant Valid() && Drained(c, Snap())
        invariant Fill(c, Snap()) == Fill(c, old(Snap()))
        invariant nextSchedule >= old(nextSchedule)
        invariant WorkLeft(c, Snap()) == old(WorkLeft(c, Snap()))
        invariant forall i :: i in pending ==>
                  if i in old(pending) then pending[i] == old(pending)[i] else pending[i] == Start(c.provider)
        invariant old(pending).Keys <= pending.Keys
      {
        ghost var before := Snap();
        ScheduleKeeps(c, before);
        ScheduledOnce(c, before);
        var i := nextSchedule;
        nextSchedule := nextSchedule + 1;
        if c.scenes[i].prompt != "" {
          pending := pending[i := Start(c.provider)];
        }
        assert Snap() == ScheduleStep(c, before);
      }
    }

    // A worker thread ends an attempt; the budget request runs under its lock.
    method WorkerAttempt(i: nat, ok: set<Provider>)
      requires Valid() && i in pending && pending[i].Working? && i < |c.scenes|
      modifies this`pending, budget
      ensures Snap() == old(AttemptStep(c, Snap(), i, ok))
    {
      hide Inv, EntryOf, NextProvider, Unwind;
      var w := pending[i];
      var t := c.scenes[i].traits;
      var granted := false;
      var next := StepNext(c.env, t, c.provider, c.maxAttempts, w, ok);
      if next.Some? {
        granted := budget.Consume();
      }
      pending := pending[i := Step(c.env, t, c.provider, c.maxAttempts, w, ok, granted)];
    }

    method WorkerRaise(i: nat)
      requires Valid() && i in pending && pending[i].Working?
      modifies this`pending, this`lost
      ensures Snap() == old(RaiseStep(Snap(), i))
    {
      hide Inv;
      lost := lost + |pending[i].trace|;
      pending := pending[i := Raised];
    }

    // for future in done: pop the task, take the result or wrap the exception.
    method CollectDone(done: set<nat>)
      requires Valid() && done == Ready(c, Snap(), done)
      modifies this`pending, this`completed, this`payloads
      ensures Valid() && Snap() == CollectAll(c, old(Snap()), done)
      ensures WorkLeft(c, Snap()) + |done| <= old(WorkLeft(c, Snap()))
    {
      hide *;
      ghost var before := Snap();
      var rest := done;
      ghost var taken: set<nat> := {};
      CollectNone(c, before);
      while rest != {}
        invariant taken + rest == done && taken !! rest && Valid()
        invariant Snap() == CollectAll(c, before, taken)
        invariant WorkLeft(c, Snap()) + |taken| <= WorkLeft(c, before)
        decreases rest
      {
        var i :| i in rest;
        ReadyAlone(c, before, done, i);
        CollectOneMore(c, before, taken, i);
        CollectOne(i);
        rest, taken := rest - {i}, taken + {i};
      }
      assert taken == done;
    }

    method CollectOne(i: nat)
      requires Valid() && i in Snap().pending && !Snap().pending[i].Working? && i < |c.scenes|
      modifies this`pending, this`completed, this`payloads
      ensures Valid() && Snap() == CollectStep(c, old(Snap()), i)
      ensures WorkLeft(c, Snap()) < old(WorkLeft(c, Snap()))
    {
      hide Inv, WorkLeft, ResultOf;
      CollectKeeps(c, Snap(), i);
      var payload := Payload(i, c.scenes[i], ResultOf(pending[i]));
      pending := pending - {i};
      completed := completed[i := payload];
      payloads := payloads[i := payload];
    }

    // finalize_scene: exposure, anchor, skip counter, quality, image.
    method FinalizeScene(payload: Payload)
      modifies this`generated, this`protagonistBase, this`castingSkips
      ensures var (d, cast) :=
              Casting.Decide(c.cfg, old(Casting.State(protagonistBase, castingSkips)), FrameOf(payload));
              && generated == old(generated) + [ImageOf(payload, d)]
              && Casting.State(protagonistBase, castingSkips) == cast
    {
      var f := FrameOf(payload);
      var shouldExpose := true;
      var mode: Option<Mode>, score: Option<int> := None, None;
      if c.cfg.exposer && f.provider == Comfyui {
        var base := if protagonistBase.Some? then protagonistBase.value else "";
        var e := FullExposureCheck(f.prompt, f.verse, f.cues, base, c.cfg.threshold);
        shouldExpose := e.expose;
        var setAsAnchor := e.setAsAnchor;
        mode, score := Some(e.mode), Some(e.score);
        if !shouldExpose && protagonistBase.None? && !f.error && e.mode == FrameExposer.Casting
           && castingSkips >= c.cfg.forceAfterSkips && e.score >= c.cfg.forceMinScore {
          shouldExpose, setAsAnchor := true, true;
        }
        if setAsAnchor && protagonistBase.None? {
          protagonistBase := Some(f.prompt);
        }
        if protagonistBase.None? && e.mode == FrameExposer.Casting {
          castingSkips := castingSkips + 1;
        } else {
          castingSkips := 0;
        }
      }
      hide FullExposureCheck, Mixed, Quality, Hundredths;
      var r := payload.result;
      var final := ComputeSceneQualityScore(payload.scene.traits, r.strict, r.provider, r.error, r.error,
        Some(shouldExpose), score);
      assert final == Quality(payload.scene.traits, r.strict, r.provider, r.error, !shouldExpose, score);
      var quality := Clamp(r.score as real / 100.0 * 0.5 + final * 0.5);
      generated := generated
        + [Image(payload.index, r.provider, shouldExpose, r.error, quality, r.retryCount, r.trace)];
    }

    // The finalise loop: strictly in timeline order, up to the first scene that is
    // not there yet.
    method DrainInOrder()
      requires Valid()
      modifies this`completed, this`nextFinalize, this`generated, this`protagonistBase, this`castingSkips
      ensures Valid() && Drained(c, Snap())
      ensures Snap() == Drain(c, old(Snap()))
      ensures WorkLeft(c, Snap()) == old(WorkLeft(c, Snap()))
      ensures old(generated) <= generated
    {
      hide Inv, WorkLeft, Casting.Decide, ImageOf, FrameOf;
      while nextFinalize < |c.scenes|
        invariant Valid()
        invariant Drain(c, Snap()) == Drain(c, old(Snap()))
        invariant WorkLeft(c, Snap()) == old(WorkLeft(c, Snap()))
        invariant old(generated) <= generated
        decreases |c.scenes| - nextFinalize
      {
        ghost var before := Snap();
        if c.scenes[nextFinalize].prompt == "" {
          SkipKeeps(c, before);
          nextFinalize := nextFinalize + 1;
          assert Snap() == SkipStep(before);
        } else if nextFinalize !in completed {
          return;
        } else {
          FinaliseKeeps(c, before);
          var payload := completed[nextFinalize];
          completed := completed - {nextFinalize};
          FinalizeScene(payload);
          nextFinalize := nextFinalize + 1;
          assert Snap() == FinaliseStep(c, before);
        }
      }
      FinalisedAll(c, Snap());
    }

    // One event while the main thread waits.  `effective` says whether it did
    // anything: an event for a scene that is not in the right state does not.
    method Handle(e: Event) returns (effective: bool)
      requires Valid() && Drained(c, Snap()) && !e.Deadline?
      modifies this`pending, this`completed, this`payloads, this`lost,
               this`nextFinalize, this`generated, this`protagonistBase, this`castingSkips, budget
      ensures Valid() && Drained(c, Snap())
      ensures Snap() == After(c, old(Snap()), e)
      ensures WorkLeft(c, Snap()) + (if effective then 1 else 0) <= old(WorkLeft(c, Snap()))
      ensures effective <==>
              match e
              case Attempt(i, _) => Busy(old(Snap()), i)
              case Raise(i) => Busy(old(Snap()), i)
              case WaitReturns(done) => Ready(c, old(Snap()), done) != {}
              case Deadline => false
      ensures old(generated) <= generated
    {
      hide Inv, WorkLeft, AttemptStep, RaiseStep, CollectAll, Drain;
      effective := false;
      ghost var before := Snap();
      match e {
        case Attempt(i, ok) =>
          if i in pending && pending[i].Working? {
            AttemptKeeps(c, before, i, ok);
            WorkerAttempt(i, ok);
            effective := true;
          }
        case Raise(i) =>
          if i in pending && pending[i].Working? {
            RaiseKeeps(c, before, i);
            WorkerRaise(i);
            effective := true;
          }
        case WaitReturns(done) =>
          var finished := set i | i in done && i in pending && !pending[i].Working?;
          FinishedIsReady(c, before, done, finished);
          if finished != {} {
            CollectDone(finished);
            DrainInOrder();
            effective := true;
          }
      }
    }

    // The scheduler loop under an arbitrary script of events.  `effective` counts
    // the events that did something.
    method Run(events: seq<Event>) returns (outcome: Outcome, effective: nat)
      requires Valid() && Drained(c, Snap())
      modifies this, budget
      ensures Valid() && Drained(c, Snap())
      ensures Snap() == Play(c, old(Snap()), events)
      ensures outcome == Finished <==> AllScheduled(c, Snap())
      ensures outcome == TimedOut ==> Deadline in events
      ensures effective <= old(WorkLeft(c, Snap()))
      ensures outcome == EventsExhausted ==> effective < old(WorkLeft(c, Snap()))
      ensures old(generated) <= generated
    {
      hide Inv, Drained, WorkLeft, Fill, After;
      effective := 0;
      var k := 0;
      ghost var start := Snap();
      while nextSchedule < |c.scenes| || pending != map[]
        invariant k <= |events|
        invariant Valid() && Drained(c, Snap())
        invariant Deadline !in events[..k] && Fill(c, Snap()) == Play(c, start, events[..k])
        invariant WorkLeft(c, Snap()) + effective <= old(WorkLeft(c, Snap()))
        invariant old(generated) <= generated
        decreases |events| - k, |c.scenes| - nextSchedule
      {
        FillWorkerQueue();
        FillTwice(c, Snap());
        if pending == map[] {
          PoolEmpty(c, Snap());
          continue;
        }
        UnfinishedHasWork(c, Snap());
        if k == |events| {
          PlayStops(c, start, events, k);
          return EventsExhausted, effective;
        }
        if events[k].Deadline? {
          PlayStops(c, start, events, k);
          return TimedOut, effective;
        }
        assert events[..k + 1] == events[..k] + [events[k]];
        PlayGoesOn(c, start, events[..k], events[k]);
        var did := Handle(events[k]);
        if did { effective := effective + 1; }
        k := k + 1;
      }
      FinishedAt(c, Snap());
      FillTwice(c, Snap());
      PlayStops(c, start, events, k);
      return Finished, effective;
    }
  }

  lemma FillTwice(c: StageConfig, s: Snapshot)
    ensures !Schedulable(c, s) ==> Fill(c, s) == s
  {
  }

  lemma PlayGoesOn(c: StageConfig, start: Snapshot, events: seq<Event>, e: Event)
    requires Play(c, start, events).pending != map[] && Deadline !in events && !e.Deadline?
    ensures Play(c, start, events + [e]) == Fill(c, After(c, Play(c, start, events), e))
  {
    hide Fill, After;
    assert (events + [e])[..|events + [e]| - 1] == events;
  }

  lemma FinishedIsReady(c: StageConfig, s: Snapshot, done: set<nat>, finished: set<nat>)
    requires Inv(c, s) && finished == set i | i in done && i in s.pending && !s.pending[i].Working?
    ensures finished == Ready(c, s, done) == Ready(c, s, finished)
    ensures CollectAll(c, s, finished) == CollectAll(c, s, done)
  {
    hide WorkersOk, PayloadsOk, Refines, BudgetOk;
    assert finished == Ready(c, s, done);
    CollectReady(c, s, done);
  }

  lemma ReadyAlone(c: StageConfig, s: Snapshot, done: set<nat>, i: nat)
    requires done == Ready(c, s, done) && i in done
    ensures i in Ready(c, s, {i}) && i in s.pending && !s.pending[i].Working? && i < |c.scenes|
  {
  }

  lemma PoolEmpty(c: StageConfig, s: Snapshot)
    requires Inv(c, s) && !Schedulable(c, s) && s.pending == map[]
    ensures s.sched == |c.scenes|
  {
    hide WorkersOk, PayloadsOk, Refines, BudgetOk;
  }

  lemma FinishedAt(c: StageConfig, s: Snapshot)
    requires Inv(c, s) && s.sched >= |c.scenes| && s.pending == map[]
    ensures AllScheduled(c, s)
  {
    hide WorkersOk, PayloadsOk, Refines, BudgetOk;
  }

  // What a stage returns that passes its deadline before any image is finalised.  It
  // carries no quality, retries or trace; zeros stand for them.
  const TIMEOUT_IMAGE := Image(0, Mock, true, true, 0.0, 0, [])

  // Generates the images of a project from nothing, under any script of events.
  // `payloads` is what the workers delivered, `returned` the list that goes out.
  method GenerateImages(c: StageConfig, events: seq<Event>)
      returns (outcome: Outcome, images: seq<Image>, returned: seq<Image>, anchor: Option<string>,
               used: int, effective: nat, ghost payloads: map<nat, Payload>)
    requires 1 <= c.maxWorkers && 1 <= c.maxAttempts
    ensures var s := History(c, events);
            images == s.generated && anchor == s.cast.anchor && used == s.used && payloads == s.payloads
    ensures forall i: nat :: i in payloads ==> PayloadOk(c, i, payloads[i])
    // A run that finishes is the plain in-order loop over its payloads, and its
    // images report every retry the budget granted except those of workers that
    // raised after being granted one.
    ensures outcome == Finished ==>
              && (forall i: nat :: i in payloads <==> HasPrompt(c.scenes, i))
              && (forall i: nat :: HasPrompt(c.scenes, i) <==> HasImage(images, i))
              && var ps := InOrder(c.scenes, payloads, |c.scenes|);
                 && images == Images(c.cfg, ps) && anchor == CastAfter(c.cfg, ps).anchor
                 && used == RetriesOf(images) + LostRetries(c, events)
                 && (used == RetriesOf(images) <==> forall j :: 0 <= j < |events| ==> !LosesRetry(c, events, j))
    // Each image reports what its worker delivered, in timeline order, exposed as the
    // frames alone say.
    ensures Reports(c.cfg, images, payloads) && AnchorOf(c.cfg, Delivered(images, payloads), anchor)
    // In particular when no worker raises.
    ensures (forall j :: 0 <= j < |events| ==> !events[j].Raise?) ==> LostRetries(c, events) == 0
    // What goes out is never empty at the deadline, and otherwise the finalised images.
    ensures returned == if outcome == TimedOut && images == [] then [Image(0, Mock, true, true, 0.0, 0, [])] else images
    // In any run, one cut by the deadline included, the images are a prefix of those.
    ensures forall full: map<nat, Payload> :: Completes(c, payloads, full) ==>
              images <= Images(c.cfg, InOrder(c.scenes, full, |c.scenes|))
    ensures 0 <= used <= c.configured
    // Without a deadline, enough effective events always bring the run to its end.
    ensures outcome == TimedOut ==> Deadline in events
    ensures outcome == EventsExhausted ==> effective < |c.scenes| * (c.maxAttempts + 1)
  {
    InitialOk(c);
    var stage := new Stage(c);
    outcome, effective := stage.Run(events);
    images, anchor, used, payloads := stage.generated, stage.protagonistBase, stage.budget.used, stage.payloads;
    returned := images;
    if outcome == TimedOut && images == [] { returned := [TIMEOUT_IMAGE]; }
    ghost var s := stage.Snap();
    NoRaiseNoLoss(c, events);
    if outcome == Finished {
      FinishedIsSequential(c, s);
      ReportedIsUsedIff(c, events);
      FinishedImages(c, s);
    }
    ImagesReport(c, s);
    AnchorReports(c, s);
    forall full: map<nat, Payload> | Completes(c, payloads, full)
      ensures images <= Images(c.cfg, InOrder(c.scenes, full, |c.scenes|))
    {
      ImagesArePrefix(c, s, full);
    }
  }

  lemma NoRaiseNoLoss(c: StageConfig, events: seq<Event>)
    ensures (forall j :: 0 <= j < |events| ==> !events[j].Raise?) ==> LostRetries(c, events) == 0
  {
    LostIff(c, events);
  }

  lemma ScheduledOnce(c: StageConfig, s: Snapshot)
    requires Inv(c, s)
    ensures s.sched !in s.pending
  {
    hide WorkersOk, PayloadsOk, Refines, BudgetOk;
  }

  lemma FinalisedAll(c: StageConfig, s: Snapshot)
    requires Inv(c, s) && s.fin >= |c.scenes|
    ensures s.fin == |c.scenes|
  {
    hide WorkersOk, PayloadsOk, Refines, BudgetOk;
  }
}
