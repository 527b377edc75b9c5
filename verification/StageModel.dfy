// The states of the image stage and what every step keeps: a bounded pool of
// workers, a buffer of finished scenes, and finalisation strictly in timeline
// order (scripts/generate_images.py).
module StageModel {
  import opened Common
  import opened FrameExposer
  import opened Providers
  import opened QualityScore
  import opened SceneAsset
  import opened QualityRetry
  import Casting

  // ---- scenes, payloads, images -----------------------------------------

  // `steering` is the suffix live steering appends when the scene is scheduled.
  datatype Scene = Scene(prompt: string, steering: string, verse: VerseType, cues: Cues, traits: Traits)

  // What a completed worker leaves for finalisation.
  datatype Payload = Payload(index: nat, scene: Scene, result: Result)

  datatype Image = Image(sceneIndex: nat, provider: Provider, exposed: bool, isFallback: bool, quality: real,
                         retryCount: nat, trace: seq<Entry>)

  predicate HasPrompt(scenes: seq<Scene>, i: int) { 0 <= i < |scenes| && scenes[i].prompt != "" }

  function FrameOf(p: Payload): Casting.Frame {
    Casting.Frame(p.scene.prompt + p.scene.steering, p.scene.verse, p.scene.cues, p.result.provider, p.result.error)
  }

  function Frames(ps: seq<Payload>): (fs: seq<Casting.Frame>)
    ensures |fs| == |ps| && forall k :: 0 <= k < |ps| ==> fs[k] == FrameOf(ps[k])
    ensures forall k :: 0 <= k < |ps| ==>
              var scene, r := ps[k].scene, ps[k].result;
              fs[k] == Casting.Frame(scene.prompt + scene.steering, scene.verse, scene.cues, r.provider, r.error)
  {
    seq(|ps|, k requires 0 <= k < |ps| => FrameOf(ps[k]))
  }

  function ImageOf(p: Payload, d: Casting.Decision): Image {
    var final := Quality(p.scene.traits, p.result.strict, p.result.provider, p.result.error, !d.exposed, d.score);
    Image(p.index, p.result.provider, d.exposed, p.result.error,
          Clamp(p.result.score as real / 100.0 * 0.5 + final * 0.5), p.result.retryCount, p.result.trace)
  }

  // The reference: a plain loop that finalises the payloads one after another.
  function Images(cfg: Casting.Config, ps: seq<Payload>): (images: seq<Image>)
    ensures |images| == |ps|
    ensures forall k :: 0 <= k < |ps| ==> images[k] == ImageOf(ps[k], Casting.DecisionAt(cfg, Frames(ps), k))
  {
    seq(|ps|, k requires 0 <= k < |ps| => ImageOf(ps[k], Casting.DecisionAt(cfg, Frames(ps), k)))
  }

  function CastAfter(cfg: Casting.Config, ps: seq<Payload>): Casting.State {
    Casting.StateAt(cfg, Frames(ps), |ps|)
  }

  // The payloads of the first n scenes that have a prompt, in timeline order.
  function InOrder(scenes: seq<Scene>, payloads: map<nat, Payload>, n: nat): seq<Payload>
    requires n <= |scenes|
    requires forall i: nat :: i < n && HasPrompt(scenes, i) ==> i in payloads
  {
    if n == 0 then []
    else if !HasPrompt(scenes, n - 1) then InOrder(scenes, payloads, n - 1)
    else InOrder(scenes, payloads, n - 1) + [payloads[n - 1]]
  }

  lemma SameStates(cfg: Casting.Config, ps: seq<Payload>, more: seq<Payload>, k: nat)
    requires k <= |ps|
    ensures Casting.StateAt(cfg, Frames(ps + more), k) == Casting.StateAt(cfg, Frames(ps), k)
  {
    hide Casting.StateAt, FrameOf;
    assert Frames(ps + more) == Frames(ps) + Frames(more);
    Casting.StateAtPrefix(cfg, Frames(ps), Frames(more), k);
  }

  // Finalising more payloads leaves the images so far as they are.
  lemma ImagesGrow(cfg: Casting.Config, ps: seq<Payload>, more: seq<Payload>)
    ensures Images(cfg, ps + more)[..|ps|] == Images(cfg, ps)
  {
    hide FrameOf, ImageOf, Casting.Decide, Casting.StateAt;
    forall k | 0 <= k < |ps|
      ensures Images(cfg, ps + more)[k] == Images(cfg, ps)[k]
    {
      SameStates(cfg, ps, more, k);
    }
  }

  lemma SnocCast(cfg: Casting.Config, ps: seq<Payload>, p: Payload)
    ensures Casting.StateAt(cfg, Frames(ps + [p]), |ps|) == CastAfter(cfg, ps)
    ensures Frames(ps + [p])[|ps|] == FrameOf(p)
    ensures CastAfter(cfg, ps + [p]) == Casting.Decide(cfg, CastAfter(cfg, ps), FrameOf(p)).1
  {
    hide FrameOf, Casting.Decide;
    SameStates(cfg, ps, [p], |ps|);
  }

  lemma Snoc(cfg: Casting.Config, ps: seq<Payload>, p: Payload)
    ensures Images(cfg, ps + [p])
            == Images(cfg, ps) + [ImageOf(p, Casting.Decide(cfg, CastAfter(cfg, ps), FrameOf(p)).0)]
    ensures CastAfter(cfg, ps + [p]) == Casting.Decide(cfg, CastAfter(cfg, ps), FrameOf(p)).1
  {
    SnocCast(cfg, ps, p);
    ImagesGrow(cfg, ps, [p]);
    hide FrameOf, ImageOf, Casting.Decide, Casting.StateAt, Frames, Images, CastAfter;
    var images := Images(cfg, ps + [p]);
    assert images[|ps|] == ImageOf((ps + [p])[|ps|], Casting.DecisionAt(cfg, Frames(ps + [p]), |ps|));
    assert images == images[..|ps|] + [images[|ps|]];
  }

  lemma {:induction false} InOrderGrows(scenes: seq<Scene>, payloads: map<nat, Payload>, full: map<nat, Payload>,
                                        n: nat, m: nat)
    requires n <= m <= |scenes|
    requires forall i: nat :: i < n && HasPrompt(scenes, i) ==> i in payloads && i in full && payloads[i] == full[i]
    requires forall i: nat :: i < m && HasPrompt(scenes, i) ==> i in full
    ensures InOrder(scenes, payloads, n) <= InOrder(scenes, full, m)
    decreases m
  {
    if m == n {
      SameInOrder(scenes, payloads, full, n);
    } else {
      InOrderGrows(scenes, payloads, full, n, m - 1);
    }
  }

  lemma {:induction false} SameInOrder(scenes: seq<Scene>, payloads: map<nat, Payload>, other: map<nat, Payload>,
                                       n: nat)
    requires n <= |scenes|
    requires forall i: nat :: i < n && HasPrompt(scenes, i) ==> i in payloads && i in other && payloads[i] == other[i]
    ensures InOrder(scenes, payloads, n) == InOrder(scenes, other, n)
  {
    if n > 0 { SameInOrder(scenes, payloads, other, n - 1); }
  }

  lemma {:induction false} NoPromptsLeft(scenes: seq<Scene>, payloads: map<nat, Payload>, n: nat, m: nat)
    requires n <= m <= |scenes|
    requires forall i: nat :: i < n && HasPrompt(scenes, i) ==> i in payloads
    requires forall i: nat :: n <= i < m ==> !HasPrompt(scenes, i)
    ensures InOrder(scenes, payloads, m) == InOrder(scenes, payloads, n)
    decreases m
  {
    if m > n { NoPromptsLeft(scenes, payloads, n, m - 1); }
  }

  // ---- counting retries -------------------------------------------------

  // Retries a scene has been granted so far and that its result reports or will report.
  function Retries(pending: map<nat, Worker>, payloads: map<nat, Payload>, i: nat): nat {
    if i in pending then
      match pending[i]
      case Working(_, trace) => |trace|
      case Done(r) => r.retryCount
      case Raised => 0
    else if i in payloads then payloads[i].result.retryCount
    else 0
  }

  function TotalRetries(pending: map<nat, Worker>, payloads: map<nat, Payload>, n: nat): nat {
    if n == 0 then 0 else TotalRetries(pending, payloads, n - 1) + Retries(pending, payloads, n - 1)
  }

  // Attempts and collections a scene still has to go through.
  function Remaining(scenes: seq<Scene>, maxAttempts: nat, pending: map<nat, Worker>, sched: nat, i: nat): nat {
    if i in pending then
      if pending[i].Working? then Max(0, maxAttempts - |pending[i].trace|) + 1 else 1
    else if sched <= i && HasPrompt(scenes, i) then maxAttempts + 1
    else 0
  }

  function TotalRemaining(scenes: seq<Scene>, maxAttempts: nat, pending: map<nat, Worker>, sched: nat, n: nat): nat {
    if n == 0 then 0
    else TotalRemaining(scenes, maxAttempts, pending, sched, n - 1)
         + Remaining(scenes, maxAttempts, pending, sched, n - 1)
  }

  lemma {:induction false} RetriesChangeAt(p1: map<nat, Worker>, q1: map<nat, Payload>, p2: map<nat, Worker>,
                                           q2: map<nat, Payload>,
                                           i: nat, n: nat)
    requires i < n
    requires forall j: nat :: j != i ==> Retries(p1, q1, j) == Retries(p2, q2, j)
    ensures TotalRetries(p2, q2, n) - TotalRetries(p1, q1, n) == Retries(p2, q2, i) - Retries(p1, q1, i)
  {
    if i == n - 1 {
      SameRetries(p1, q1, p2, q2, i);
    } else {
      RetriesChangeAt(p1, q1, p2, q2, i, n - 1);
    }
  }

  lemma {:induction false} SameRetries(p1: map<nat, Worker>, q1: map<nat, Payload>, p2: map<nat, Worker>,
                                       q2: map<nat, Payload>, n: nat)
    requires forall j: nat :: j < n ==> Retries(p1, q1, j) == Retries(p2, q2, j)
    ensures TotalRetries(p2, q2, n) == TotalRetries(p1, q1, n)
  {
    if n > 0 { SameRetries(p1, q1, p2, q2, n - 1); }
  }

  lemma {:induction false} RemainingChangesAt(scenes: seq<Scene>, a: nat, p1: map<nat, Worker>, p2: map<nat, Worker>,
                                              sched: nat,
                                              i: nat, n: nat)
    requires i < n
    requires forall j: nat :: j != i ==> Remaining(scenes, a, p1, sched, j) == Remaining(scenes, a, p2, sched, j)
    ensures TotalRemaining(scenes, a, p2, sched, n) - TotalRemaining(scenes, a, p1, sched, n)
         == Remaining(scenes, a, p2, sched, i) - Remaining(scenes, a, p1, sched, i)
  {
    if i == n - 1 {
      SameRemaining(scenes, a, p1, p2, sched, sched, i);
    } else {
      RemainingChangesAt(scenes, a, p1, p2, sched, i, n - 1);
    }
  }

  lemma {:induction false} SameRemaining(scenes: seq<Scene>, a: nat, p1: map<nat, Worker>, p2: map<nat, Worker>,
                                         s1: nat, s2: nat, n: nat)
    requires forall j: nat :: j < n ==> Remaining(scenes, a, p1, s1, j) == Remaining(scenes, a, p2, s2, j)
    ensures TotalRemaining(scenes, a, p2, s2, n) == TotalRemaining(scenes, a, p1, s1, n)
  {
    if n > 0 { SameRemaining(scenes, a, p1, p2, s1, s2, n - 1); }
  }

  lemma {:induction false} RemainingAtMost(scenes: seq<Scene>, a: nat, n: nat)
    ensures TotalRemaining(scenes, a, map[], 0, n) <= n * (a + 1)
  {
    if n > 0 { RemainingAtMost(scenes, a, n - 1); }
  }

  lemma {:induction false} RemainingPositive(scenes: seq<Scene>, a: nat, pending: map<nat, Worker>, sched: nat, i: nat,
                                             n: nat)
    requires i < n && i in pending
    ensures TotalRemaining(scenes, a, pending, sched, n) >= 1
  {
    if i < n - 1 { RemainingPositive(scenes, a, pending, sched, i, n - 1); }
  }

  // On a finished run the retries left in the payloads are those the images report.
  function ReportedRetries(ps: seq<Payload>): nat {
    if ps == [] then 0 else ReportedRetries(ps[..|ps| - 1]) + ps[|ps| - 1].result.retryCount
  }

  lemma {:induction false} ReportedIsTotal(scenes: seq<Scene>, payloads: map<nat, Payload>, n: nat)
    requires n <= |scenes|
    requires forall i: nat :: i < n && HasPrompt(scenes, i) ==> i in payloads
    requires forall i: nat :: i in payloads ==> HasPrompt(scenes, i)
    ensures TotalRetries(map[], payloads, n) == ReportedRetries(InOrder(scenes, payloads, n))
  {
    if n > 0 { ReportedIsTotal(scenes, payloads, n - 1); }
  }

  // ---- concurrency ------------------------------------------------------

  // resolve_generation_concurrency; `requested` is IMAGE_GENERATION_CONCURRENCY
  // when it parses as an integer.
  function ResolveConcurrency(provider: Provider, requested: Option<int>, totalScenes: nat): (workers: int)
    ensures 1 <= workers <= 8
    ensures totalScenes > 0 ==> workers <= totalScenes
  {
    var byProvider := match provider
      case Replicate => 3
      case Gemini => 2
      case Picsum => 6
      case Mock => 8
      case _ => 4;
    var capped := Max(1, Min(if requested.Some? then requested.value else byProvider, 8));
    if totalScenes > 0 then Min(capped, totalScenes) else 1
  }

  // A requested number is taken as far as the limits allow; without one the number
  // depends on the provider.
  lemma ConcurrencyIs(provider: Provider, requested: int, totalScenes: nat)
    requires totalScenes >= 8
    ensures ResolveConcurrency(provider, Some(requested), totalScenes) ==
            if requested < 1 then 1 else if requested > 8 then 8 else requested
    ensures ResolveConcurrency(Replicate, None, totalScenes) == 3 && ResolveConcurrency(Gemini, None, totalScenes) == 2
    ensures ResolveConcurrency(Picsum, None, totalScenes) == 6 && ResolveConcurrency(Mock, None, totalScenes) == 8
    ensures provider == Pollinations || provider == Artic || provider == Comfyui ==>
              ResolveConcurrency(provider, None, totalScenes) == 4
  {
  }

  // Fewer scenes than that leave one worker a scene; no scenes leave one worker.
  lemma FewScenes(provider: Provider, requested: Option<int>, totalScenes: nat, enough: nat)
    requires enough >= 8
    ensures ResolveConcurrency(provider, requested, totalScenes) ==
            if totalScenes == 0 then 1 else Min(totalScenes, ResolveConcurrency(provider, requested, enough))
  {
  }

  lemma {:induction false} NothingSpent(n: nat)
    ensures TotalRetries(map[], map[], n) == 0
  {
    if n > 0 { NothingSpent(n - 1); }
  }

  // ---- states -----------------------------------------------------------

  datatype StageConfig = StageConfig(cfg: Casting.Config, env: Env, scenes: seq<Scene>, provider: Provider,
                                     maxWorkers: nat, maxAttempts: nat, configured: nat)

  // `payloads` and `lost` are history: everything the workers have delivered, and
  // the retries granted to workers that raised afterwards.
  datatype Snapshot = Snapshot(pending: map<nat, Worker>, completed: map<nat, Payload>, sched: nat, fin: nat,
                               generated: seq<Image>, cast: Casting.State, remaining: int, used: int,
                               payloads: map<nat, Payload>, lost: nat)

  // Scheduled scenes with a prompt are pending, waiting or finalised: exactly one
  // of the three.  The finalise cursor may be ahead of the schedule cursor, but
  // only over scenes without a prompt.
  ghost predicate Partition(c: StageConfig, pending: set<nat>, waiting: set<nat>, sched: nat, fin: nat) {
    && sched <= |c.scenes| && fin <= |c.scenes|
    && |pending| <= c.maxWorkers
    && (forall i :: i in pending ==> i < sched && HasPrompt(c.scenes, i) && fin <= i && i !in waiting)
    && (forall i :: i in waiting ==> i < sched && HasPrompt(c.scenes, i) && fin <= i)
    && (forall i: nat :: fin <= i < sched && HasPrompt(c.scenes, i) ==> i in pending || i in waiting)
    && (forall i: nat :: sched <= i < fin ==> !HasPrompt(c.scenes, i))
  }

  ghost predicate WorkersOk(c: StageConfig, pending: map<nat, Worker>) {
    forall i :: i in pending ==> WorkerFor(c, i, pending[i])
  }

  // A worker of scene i: on its way through the recursion for that scene, done with
  // a result of it, or stopped by an exception.
  ghost predicate WorkerFor(c: StageConfig, i: nat, w: Worker) {
    && i < |c.scenes| && WorkerOk(w, c.maxAttempts)
    && match w
       case Working(_, _) => Grown(c.env, c.scenes[i].traits, c.provider, c.maxAttempts, w)
       case Done(r) => Generated(c.env, c.scenes[i].traits, c.provider, c.maxAttempts, r)
       case Raised => true
  }

  // A result for scene i: what generate_scene_asset returns for it under some
  // outcomes, or the placeholder for an exception.
  ghost predicate ResultFor(c: StageConfig, i: nat, r: Result) {
    && i < |c.scenes| && WellFormed(r, 1, c.maxAttempts)
    && (r == EXCEPTION_RESULT || Generated(c.env, c.scenes[i].traits, c.provider, c.maxAttempts, r))
  }

  ghost predicate PayloadOk(c: StageConfig, i: nat, p: Payload) {
    p.index == i && HasPrompt(c.scenes, i) && p.scene == c.scenes[i] && ResultFor(c, i, p.result)
  }

  ghost predicate PayloadsOk(c: StageConfig, completed: map<nat, Payload>, payloads: map<nat, Payload>, fin: nat) {
    && (forall i :: i in completed ==> i in payloads && completed[i] == payloads[i])
    && (forall i: nat :: i in payloads <==> i in completed || (i < fin && HasPrompt(c.scenes, i)))
    && (forall i :: i in payloads ==> PayloadOk(c, i, payloads[i]))
  }

  // The state is what the in-order loop makes of the finalised scenes.
  ghost predicate Refines(c: StageConfig, payloads: map<nat, Payload>, fin: nat, generated: seq<Image>,
                          cast: Casting.State) {
    && fin <= |c.scenes|
    && (forall i: nat :: i < fin && HasPrompt(c.scenes, i) ==> i in payloads)
    && var ps := InOrder(c.scenes, payloads, fin);
       generated == Images(c.cfg, ps) && cast == CastAfter(c.cfg, ps)
  }

  // No retry is granted beyond the budget, and every one is accounted for.
  ghost predicate BudgetOk(c: StageConfig, pending: map<nat, Worker>, payloads: map<nat, Payload>,
                           remaining: int, used: int, lost: nat) {
    && remaining >= 0 && remaining + used == c.configured
    && used == TotalRetries(pending, payloads, |c.scenes|) + lost
  }

  ghost predicate Inv(c: StageConfig, s: Snapshot) {
    && 1 <= c.maxWorkers && 1 <= c.maxAttempts
    && Partition(c, s.pending.Keys, s.completed.Keys, s.sched, s.fin)
    && WorkersOk(c, s.pending)
    && PayloadsOk(c, s.completed, s.payloads, s.fin)
    && Refines(c, s.payloads, s.fin, s.generated, s.cast)
    && BudgetOk(c, s.pending, s.payloads, s.remaining, s.used, s.lost)
  }

  // Nothing that could be finalised is waiting.
  ghost predicate Drained(c: StageConfig, s: Snapshot) {
    || s.completed == map[] || s.fin == |c.scenes|
    || (HasPrompt(c.scenes, s.fin) && s.fin !in s.completed)
  }

  function WorkLeft(c: StageConfig, s: Snapshot): nat {
    TotalRemaining(c.scenes, c.maxAttempts, s.pending, s.sched, |c.scenes|)
  }

  function Initial(c: StageConfig): Snapshot {
    Snapshot(map[], map[], 0, 0, [], Casting.INITIAL, c.configured, 0, map[], 0)
  }

  lemma InitialOk(c: StageConfig)
    requires 1 <= c.maxWorkers && 1 <= c.maxAttempts
    ensures Inv(c, Initial(c)) && Drained(c, Initial(c))
    ensures WorkLeft(c, Initial(c)) <= |c.scenes| * (c.maxAttempts + 1)
  {
    RefinesNothing(c);
    hide TotalRetries, TotalRemaining, Refines, WorkerFor, PayloadOk;
    NothingSpent(|c.scenes|);
    RemainingAtMost(c.scenes, c.maxAttempts, |c.scenes|);
  }

  lemma RefinesNothing(c: StageConfig)
    ensures Refines(c, map[], 0, [], Casting.INITIAL)
  {
  }

  // ---- steps: who holds a scene -----------------------------------------

  lemma PartitionSchedule(c: StageConfig, pending: set<nat>, waiting: set<nat>, sched: nat, fin: nat)
    requires sched < |c.scenes| && |pending| < c.maxWorkers
    ensures Partition(c, pending, waiting, sched, fin) ==>
              && sched !in pending && sched !in waiting
              && var now := if HasPrompt(c.scenes, sched) then pending + {sched} else pending;
                 Partition(c, now, waiting, sched + 1, fin)
  {
  }

  lemma PartitionCollect(c: StageConfig, pending: set<nat>, waiting: set<nat>, sched: nat, fin: nat, i: nat)
    requires i in pending
    ensures Partition(c, pending, waiting, sched, fin) ==> Partition(c, pending - {i}, waiting + {i}, sched, fin)
  {
  }

  lemma PartitionAdvance(c: StageConfig, pending: set<nat>, waiting: set<nat>, sched: nat, fin: nat)
    requires fin < |c.scenes| && (fin in waiting || !HasPrompt(c.scenes, fin))
    ensures Partition(c, pending, waiting, sched, fin) ==> Partition(c, pending, waiting - {fin}, sched, fin + 1)
  {
  }

  lemma PayloadsCollect(c: StageConfig, completed: map<nat, Payload>, payloads: map<nat, Payload>, fin: nat, i: nat,
                        p: Payload)
    requires i !in payloads
    ensures PayloadsOk(c, completed, payloads, fin) && PayloadOk(c, i, p) ==>
              PayloadsOk(c, completed[i := p], payloads[i := p], fin)
  {
    hide PayloadOk;
  }

  lemma PayloadsAdvance(c: StageConfig, completed: map<nat, Payload>, payloads: map<nat, Payload>, fin: nat)
    requires fin in completed <==> HasPrompt(c.scenes, fin)
    ensures PayloadsOk(c, completed, payloads, fin) ==> PayloadsOk(c, completed - {fin}, payloads, fin + 1)
  {
    hide PayloadOk;
  }

  // What the partition says about single scenes.
  lemma PendingIsNew(c: StageConfig, s: Snapshot, i: nat)
    requires i in s.pending
    ensures Inv(c, s) ==> i < s.sched && i < |c.scenes| && HasPrompt(c.scenes, i) && i !in s.payloads && s.fin <= i
  {
    hide WorkersOk, Refines, BudgetOk, PayloadOk;
  }

  lemma CompletedIsNext(c: StageConfig, s: Snapshot)
    ensures Inv(c, s) && s.fin in s.completed ==>
              && s.fin < |c.scenes| && HasPrompt(c.scenes, s.fin)
              && s.fin in s.payloads && s.completed[s.fin] == s.payloads[s.fin]
    ensures Inv(c, s) && !HasPrompt(c.scenes, s.fin) ==> s.fin !in s.completed
  {
    hide WorkersOk, Refines, BudgetOk, PayloadOk;
  }

  // ---- steps ------------------------------------------------------------

  function ScheduleStep(c: StageConfig, s: Snapshot): Snapshot {
    s.(sched := s.sched + 1,
       pending := if HasPrompt(c.scenes, s.sched) then s.pending[s.sched := Start(c.provider)] else s.pending)
  }

  predicate Schedulable(c: StageConfig, s: Snapshot) { s.sched < |c.scenes| && |s.pending| < c.maxWorkers }

  lemma ScheduleKeeps(c: StageConfig, s: Snapshot)
    requires Inv(c, s) && Drained(c, s) && Schedulable(c, s)
    ensures Inv(c, ScheduleStep(c, s)) && Drained(c, ScheduleStep(c, s))
    ensures WorkLeft(c, ScheduleStep(c, s)) == WorkLeft(c, s)
  {
    hide PayloadsOk, Refines, WorkerFor, TotalRetries, TotalRemaining, Partition;
    var s' := ScheduleStep(c, s);
    PartitionSchedule(c, s.pending.Keys, s.completed.Keys, s.sched, s.fin);
    assert HasPrompt(c.scenes, s.sched) ==> s'.pending.Keys == s.pending.Keys + {s.sched};
    StartIsOk(c, s.sched);
    ScheduleCounts(c, s);
  }

  lemma ScheduleCounts(c: StageConfig, s: Snapshot)
    requires PayloadsOk(c, s.completed, s.payloads, s.fin)
    requires Partition(c, s.pending.Keys, s.completed.Keys, s.sched, s.fin)
    requires s.sched < |c.scenes| && s.sched !in s.pending && s.sched !in s.completed
    ensures var s' := ScheduleStep(c, s);
            && TotalRetries(s'.pending, s'.payloads, |c.scenes|) == TotalRetries(s.pending, s.payloads, |c.scenes|)
            && WorkLeft(c, s') == WorkLeft(c, s)
  {
    hide PayloadOk, TotalRetries, TotalRemaining;
    var s' := ScheduleStep(c, s);
    SameRetries(s.pending, s.payloads, s'.pending, s.payloads, |c.scenes|);
    SameRemaining(c.scenes, c.maxAttempts, s.pending, s'.pending, s.sched, s'.sched, |c.scenes|);
  }

  lemma StartIsOk(c: StageConfig, i: nat)
    requires 1 <= c.maxAttempts && i < |c.scenes|
    ensures WorkerFor(c, i, Start(c.provider))
  {
    StartIsGrown(c.env, c.scenes[i].traits, c.provider, c.maxAttempts);
  }

  // A worker finishes an attempt and, if it wants a retry, asks the budget.
  function AttemptStep(c: StageConfig, s: Snapshot, i: nat, ok: set<Provider>): Snapshot
    requires i in s.pending && s.pending[i].Working? && i < |c.scenes|
  {
    var t := c.scenes[i].traits;
    var asks := StepNext(c.env, t, c.provider, c.maxAttempts, s.pending[i], ok).Some?;
    var granted := asks && s.remaining > 0;
    s.(pending := s.pending[i := Step(c.env, t, c.provider, c.maxAttempts, s.pending[i], ok, granted)],
       remaining := s.remaining - (if granted then 1 else 0),
       used := s.used + (if granted then 1 else 0))
  }

  lemma AttemptKeeps(c: StageConfig, s: Snapshot, i: nat, ok: set<Provider>)
    requires Inv(c, s) && i in s.pending && s.pending[i].Working?
    ensures i < |c.scenes|
    ensures Inv(c, AttemptStep(c, s, i, ok))
    ensures Drained(c, s) ==> Drained(c, AttemptStep(c, s, i, ok))
    ensures WorkLeft(c, AttemptStep(c, s, i, ok)) < WorkLeft(c, s)
  {
    hide Refines, PayloadsOk, TotalRetries, TotalRemaining, Step, StepNext, WorkerFor;
    PendingIsNew(c, s, i);
    hide Partition;
    var t := c.scenes[i].traits;
    var s' := AttemptStep(c, s, i, ok);
    AttemptKeepsWorker(c, i, s.pending[i], ok, s'.used > s.used);
    assert s'.pending.Keys == s.pending.Keys;
    RetriesChangeAt(s.pending, s.payloads, s'.pending, s.payloads, i, |c.scenes|);
    RemainingChangesAt(c.scenes, c.maxAttempts, s.pending, s'.pending, s.sched, i, |c.scenes|);
  }

  lemma AttemptKeepsWorker(c: StageConfig, i: nat, w: Worker, ok: set<Provider>, granted: bool)
    requires i < |c.scenes| && w.Working? && WorkerFor(c, i, w)
    ensures var w' := Step(c.env, c.scenes[i].traits, c.provider, c.maxAttempts, w, ok, granted);
            && WorkerFor(c, i, w') && !w'.Raised?
            && |w.trace| < c.maxAttempts
            && (w'.Working? ==> granted && StepNext(c.env, c.scenes[i].traits, c.provider, c.maxAttempts, w, ok).Some?
                                && |w'.trace| == |w.trace| + 1 && |w'.trace| < c.maxAttempts)
            && (w'.Done? ==> w'.result.retryCount == |w.trace|
                             && !(granted
                                  && StepNext(c.env, c.scenes[i].traits, c.provider, c.maxAttempts, w, ok).Some?))
  {
    hide EntryOf, NextProvider, Unwind, WellFormed, Numbered, ComfyErrorFree, Generated, Grown;
    var t := c.scenes[i].traits;
    StepKeepsWorkerOk(c.env, t, c.provider, c.maxAttempts, w, ok, granted);
    StepGrows(c.env, t, c.provider, c.maxAttempts, w, ok, granted);
  }

  // A worker raises: its future carries the exception.
  function RaiseStep(s: Snapshot, i: nat): Snapshot
    requires i in s.pending && s.pending[i].Working?
  {
    s.(pending := s.pending[i := Raised], lost := s.lost + |s.pending[i].trace|)
  }

  lemma RaiseKeeps(c: StageConfig, s: Snapshot, i: nat)
    requires Inv(c, s) && i in s.pending && s.pending[i].Working?
    ensures Inv(c, RaiseStep(s, i))
    ensures Drained(c, s) ==> Drained(c, RaiseStep(s, i))
    ensures WorkLeft(c, RaiseStep(s, i)) < WorkLeft(c, s)
  {
    hide Refines, PayloadsOk, TotalRetries, TotalRemaining, WellFormed, Generated, Grown;
    var s' := RaiseStep(s, i);
    assert s'.pending.Keys == s.pending.Keys;
    RetriesChangeAt(s.pending, s.payloads, s'.pending, s.payloads, i, |c.scenes|);
    RemainingChangesAt(c.scenes, c.maxAttempts, s.pending, s'.pending, s.sched, i, |c.scenes|);
  }

  // What a worker exception is turned into when it is collected.
  const EXCEPTION_RESULT := Result(Mock, true, false, 0, [Entry(1, Mock, true, false, 0)], 0)

  function ResultOf(w: Worker): Result
    requires !w.Working?
  {
    if w.Done? then w.result else EXCEPTION_RESULT
  }

  lemma ResultOfIsFor(c: StageConfig, i: nat, w: Worker)
    requires !w.Working? && WorkerFor(c, i, w) && 1 <= c.maxAttempts
    ensures ResultFor(c, i, ResultOf(w))
  {
    SingleIsWellFormed(Entry(1, Mock, true, false, 0), 1, c.maxAttempts);
  }

  // The main thread takes a finished future out of the pool.
  function CollectStep(c: StageConfig, s: Snapshot, i: nat): Snapshot
    requires i in s.pending && !s.pending[i].Working? && i < |c.scenes|
  {
    var p := Payload(i, c.scenes[i], ResultOf(s.pending[i]));
    s.(pending := s.pending - {i}, completed := s.completed[i := p], payloads := s.payloads[i := p])
  }

  lemma CollectKeeps(c: StageConfig, s: Snapshot, i: nat)
    requires Inv(c, s) && i in s.pending && !s.pending[i].Working?
    ensures i < |c.scenes|
    ensures Inv(c, CollectStep(c, s, i))
    ensures WorkLeft(c, CollectStep(c, s, i)) < WorkLeft(c, s)
  {
    hide Partition, PayloadsOk, Refines, ResultFor, WorkerFor, TotalRetries, WorkLeft;
    PendingIsNew(c, s, i);
    var s' := CollectStep(c, s, i);
    PartitionCollect(c, s.pending.Keys, s.completed.Keys, s.sched, s.fin, i);
    assert s'.pending.Keys == s.pending.Keys - {i} && s'.completed.Keys == s.completed.Keys + {i};
    ResultOfIsFor(c, i, s.pending[i]);
    PayloadsCollect(c, s.completed, s.payloads, s.fin, i, s'.payloads[i]);
    CollectRefines(c, s, i);
    CollectCounts(c, s, i);
  }

  lemma CollectRefines(c: StageConfig, s: Snapshot, i: nat)
    requires i in s.pending && !s.pending[i].Working? && s.fin <= i < |c.scenes|
    ensures Refines(c, s.payloads, s.fin, s.generated, s.cast) ==>
              Refines(c, CollectStep(c, s, i).payloads, s.fin, s.generated, s.cast)
  {
    hide Images, CastAfter, InOrder;
    if Refines(c, s.payloads, s.fin, s.generated, s.cast) {
      SameInOrder(c.scenes, s.payloads, CollectStep(c, s, i).payloads, s.fin);
    }
  }

  lemma CollectCounts(c: StageConfig, s: Snapshot, i: nat)
    requires i in s.pending && !s.pending[i].Working? && i < |c.scenes| && i !in s.payloads
    requires i < s.sched
    ensures var s' := CollectStep(c, s, i);
            && TotalRetries(s'.pending, s'.payloads, |c.scenes|) == TotalRetries(s.pending, s.payloads, |c.scenes|)
            && WorkLeft(c, s') < WorkLeft(c, s)
  {
    hide TotalRetries, TotalRemaining;
    var s' := CollectStep(c, s, i);
    RetriesChangeAt(s.pending, s.payloads, s'.pending, s'.payloads, i, |c.scenes|);
    RemainingChangesAt(c.scenes, c.maxAttempts, s.pending, s'.pending, s.sched, i, |c.scenes|);
  }

  // The finalise cursor passes a scene without a prompt.
  function SkipStep(s: Snapshot): Snapshot { s.(fin := s.fin + 1) }

  lemma SkipKeeps(c: StageConfig, s: Snapshot)
    requires Inv(c, s) && s.fin < |c.scenes| && !HasPrompt(c.scenes, s.fin)
    ensures Inv(c, SkipStep(s)) && WorkLeft(c, SkipStep(s)) == WorkLeft(c, s)
  {
    hide Refines, WorkersOk, BudgetOk, Partition, PayloadsOk;
    CompletedIsNext(c, s);
    PartitionAdvance(c, s.pending.Keys, s.completed.Keys, s.sched, s.fin);
    PayloadsAdvance(c, s.completed, s.payloads, s.fin);
    assert s.completed - {s.fin} == s.completed && s.completed.Keys - {s.fin} == s.completed.Keys;
    SkipRefines(c, s);
  }

  lemma SkipRefines(c: StageConfig, s: Snapshot)
    requires s.fin < |c.scenes| && !HasPrompt(c.scenes, s.fin)
    ensures Refines(c, s.payloads, s.fin, s.generated, s.cast) ==>
            Refines(c, s.payloads, s.fin + 1, s.generated, s.cast)
  {
    hide Images, CastAfter;
  }

  // The next scene of the timeline is finalised.
  function FinaliseStep(c: StageConfig, s: Snapshot): Snapshot
    requires s.fin in s.completed
  {
    var p := s.completed[s.fin];
    var (d, cast) := Casting.Decide(c.cfg, s.cast, FrameOf(p));
    s.(completed := s.completed - {s.fin}, fin := s.fin + 1, generated := s.generated + [ImageOf(p, d)], cast := cast)
  }

  lemma FinaliseKeeps(c: StageConfig, s: Snapshot)
    requires Inv(c, s) && s.fin in s.completed
    ensures Inv(c, FinaliseStep(c, s)) && WorkLeft(c, FinaliseStep(c, s)) == WorkLeft(c, s)
  {
    hide Refines, WorkersOk, BudgetOk, Partition, PayloadsOk, Casting.Decide, ImageOf, FrameOf;
    CompletedIsNext(c, s);
    var s' := FinaliseStep(c, s);
    assert s'.completed.Keys == s.completed.Keys - {s.fin};
    PartitionAdvance(c, s.pending.Keys, s.completed.Keys, s.sched, s.fin);
    PayloadsAdvance(c, s.completed, s.payloads, s.fin);
    FinaliseRefines(c, s);
  }

  lemma FinaliseRefines(c: StageConfig, s: Snapshot)
    requires s.fin < |c.scenes| && HasPrompt(c.scenes, s.fin)
    requires s.fin in s.completed && s.fin in s.payloads && s.completed[s.fin] == s.payloads[s.fin]
    requires Refines(c, s.payloads, s.fin, s.generated, s.cast)
    ensures var s' := FinaliseStep(c, s); Refines(c, s'.payloads, s'.fin, s'.generated, s'.cast)
  {
    hide Images, CastAfter, Casting.Decide, ImageOf, FrameOf;
    Snoc(c.cfg, InOrder(c.scenes, s.payloads, s.fin), s.completed[s.fin]);
  }

  // ---- what the invariant says ------------------------------------------

  predicate AllScheduled(c: StageConfig, s: Snapshot) { s.sched == |c.scenes| && s.pending == map[] }

  // When the loop ends, every scene with a prompt has been finalised once, in
  // timeline order, with the images and the casting state of the plain loop.
  lemma FinishedIsSequential(c: StageConfig, s: Snapshot)
    requires Inv(c, s) && Drained(c, s) && AllScheduled(c, s)
    ensures s.completed == map[]
    ensures forall i: nat :: i in s.payloads <==> HasPrompt(c.scenes, i)
    ensures s.generated == Images(c.cfg, InOrder(c.scenes, s.payloads, |c.scenes|))
    ensures s.cast == CastAfter(c.cfg, InOrder(c.scenes, s.payloads, |c.scenes|))
  {
    hide WorkersOk, BudgetOk, PayloadOk, Images, CastAfter, InOrder;
    if i :| i in s.completed {
      assert i !in s.pending && s.fin <= i < |c.scenes|;
      assert HasPrompt(c.scenes, s.fin) ==> s.fin in s.pending || s.fin in s.completed;
    }
    assert forall i: nat :: s.fin <= i < |c.scenes| && HasPrompt(c.scenes, i) ==> i in s.pending || i in s.completed;
    NoPromptsLeft(c.scenes, s.payloads, s.fin, |c.scenes|);
  }

  // `full` adds the payloads of the scenes that have not been delivered yet.
  ghost predicate Completes(c: StageConfig, payloads: map<nat, Payload>, full: map<nat, Payload>) {
    && (forall i: nat :: HasPrompt(c.scenes, i) ==> i in full)
    && forall i: nat :: i in payloads ==> i in full && full[i] == payloads[i]
  }

  // At any moment, a timeout included, the images are a prefix of the images the
  // plain loop produces from any completion of the payloads delivered so far.
  lemma ImagesArePrefix(c: StageConfig, s: Snapshot, full: map<nat, Payload>)
    requires Inv(c, s) && Completes(c, s.payloads, full)
    ensures s.generated <= Images(c.cfg, InOrder(c.scenes, full, |c.scenes|))
  {
    hide Partition, WorkersOk, PayloadOk, BudgetOk, Images, CastAfter;
    var ps, all := InOrder(c.scenes, s.payloads, s.fin), InOrder(c.scenes, full, |c.scenes|);
    InOrderGrows(c.scenes, s.payloads, full, s.fin, |c.scenes|);
    assert all == ps + all[|ps|..];
    ImagesGrow(c.cfg, ps, all[|ps|..]);
  }

  // A finished run has used the retries its images report, plus those of workers
  // that raised after being granted one.  Reported and used agree exactly when no
  // such retry was lost.
  lemma RetriesAddUp(c: StageConfig, s: Snapshot)
    requires Inv(c, s) && Drained(c, s) && AllScheduled(c, s)
    requires forall i: nat :: HasPrompt(c.scenes, i) ==> i in s.payloads
    ensures var reported := ReportedRetries(InOrder(c.scenes, s.payloads, |c.scenes|));
            && s.used == reported + s.lost
            && reported <= s.used <= c.configured
            && (reported == s.used <==> s.lost == 0)
  {
    hide Images, CastAfter, Partition, WorkersOk, Refines;
    ReportedIsTotal(c.scenes, s.payloads, |c.scenes|);
  }

  // How a retry is lost: a worker that raises after a granted retry is collected as
  // a placeholder that reports none.
  lemma RaiseLosesRetries(c: StageConfig, s: Snapshot, i: nat)
    requires Inv(c, s) && i in s.pending && s.pending[i].Working? && s.pending[i].trace != []
    ensures i < |c.scenes|
    ensures var s' := CollectStep(c, RaiseStep(s, i), i);
            s'.lost > s.lost && s'.used == s.used >= 1 && s'.payloads[i].result.retryCount == 0
  {
    PendingIsNew(c, s, i);
    hide Partition, WorkersOk, PayloadsOk, Refines, TotalRetries;
    RetriesAtLeast(s.pending, s.payloads, i, |c.scenes|);
  }

  // What a worker that raises leaves behind: a placeholder with an error, the lowest
  // score, no retry and one entry.
  lemma RaisedIsPlaceholder(c: StageConfig, s: Snapshot, i: nat)
    requires Inv(c, s) && i in s.pending && s.pending[i].Working?
    ensures i < |c.scenes|
    ensures var p := CollectStep(c, RaiseStep(s, i), i).payloads[i];
            && p.index == i && p.scene == c.scenes[i]
            && p.result.provider == Mock && p.result.error && p.result.score == 0 && p.result.retryCount == 0
            && |p.result.trace| == 1 && p.result.trace[0].error && p.result.trace[0].provider == Mock
  {
    PendingIsNew(c, s, i);
    hide Inv;
  }

  lemma {:induction false} RetriesAtLeast(pending: map<nat, Worker>, payloads: map<nat, Payload>, i: nat, n: nat)
    requires i < n
    ensures TotalRetries(pending, payloads, n) >= Retries(pending, payloads, i)
  {
    if i < n - 1 { RetriesAtLeast(pending, payloads, i, n - 1); }
  }

  lemma {:induction false} InOrderMember(scenes: seq<Scene>, payloads: map<nat, Payload>, n: nat, k: nat)
    requires n <= |scenes|
    requires forall i: nat :: i < n && HasPrompt(scenes, i) ==> i in payloads
    requires k < |InOrder(scenes, payloads, n)|
    ensures exists i: nat :: i < n && HasPrompt(scenes, i) && InOrder(scenes, payloads, n)[k] == payloads[i]
  {
    if k < |InOrder(scenes, payloads, n - 1)| {
      InOrderMember(scenes, payloads, n - 1, k);
      var i: nat :| i < n - 1 && HasPrompt(scenes, i) && InOrder(scenes, payloads, n - 1)[k] == payloads[i];
      assert InOrder(scenes, payloads, n)[k] == payloads[i];
    } else {
      assert HasPrompt(scenes, n - 1);
    }
  }

  // In every reachable state the finalised frames have a prompt, and those from
  // ComfyUI carry no error: the casting results apply to every run.
  lemma FramesAreCastable(c: StageConfig, s: Snapshot)
    requires Inv(c, s)
    ensures var fs := Frames(InOrder(c.scenes, s.payloads, s.fin));
            && Casting.Prompted(fs)
            && forall k :: 0 <= k < |fs| && fs[k].provider == Comfyui ==> !fs[k].error
  {
    hide Partition, WorkersOk, BudgetOk, Images, CastAfter, InOrder, WellFormed;
    var ps := InOrder(c.scenes, s.payloads, s.fin);
    forall k | 0 <= k < |ps|
      ensures FrameOf(ps[k]).prompt != "" && (FrameOf(ps[k]).provider == Comfyui ==> !FrameOf(ps[k]).error)
    {
      InOrderMember(c.scenes, s.payloads, s.fin, k);
      var i: nat :| i < s.fin && HasPrompt(c.scenes, i) && ps[k] == s.payloads[i];
      assert PayloadOk(c, i, s.payloads[i]);
      WellFormedComfy(ps[k].result, 1, c.maxAttempts);
    }
  }

  // In every reachable state an image's quality is the mean of the quality of its
  // attempt before exposure and after it; a worker that raised counts as zero before.
  lemma ImageQualityIsTheMean(c: StageConfig, s: Snapshot, i: nat, d: Casting.Decision)
    requires Inv(c, s) && i in s.payloads
    ensures var p := s.payloads[i];
            var r, t := p.result, p.scene.traits;
            var before := if r == EXCEPTION_RESULT then 0.0
              else Quality(t, r.strict, r.provider, r.error || r.provider == Mock, false, None);
            ImageOf(p, d).quality == (before + Quality(t, r.strict, r.provider, r.error, !d.exposed, d.score)) / 2.0
  {
    hide Partition, WorkersOk, BudgetOk, Refines, WellFormed, Quality, Generate;
    var p := s.payloads[i];
    assert PayloadOk(c, i, p);
    var r, t := p.result, p.scene.traits;
    QualityInRange(t, r.strict, r.provider, r.error || r.provider == Mock, false, None);
    QualityInRange(t, r.strict, r.provider, r.error, !d.exposed, d.score);
    if r != EXCEPTION_RESULT {
      var oks: seq<set<Provider>>, grants: seq<bool> :|
        1 <= c.maxAttempts == |oks| == |grants|
          && r == Generate(c.env, t, c.provider, c.maxAttempts, c.provider, 1, oks, grants);
      GenerateIsScored(c.env, t, c.provider, c.maxAttempts, c.provider, 1, oks, grants);
    }
  }

  lemma QualityInRange(t: Traits, strict: bool, p: Provider, fallback: bool, refused: bool, score: Option<int>)
    ensures 0.0 <= Quality(t, strict, p, fallback, refused, score) <= 1.0
  {
  }

  // No reachable run keeps its intro frozen: once as many solo frames in a row as
  // the skip limit allows have been refused, a solo ComfyUI frame that scores the
  // forced minimum leaves the run with an anchor.
  lemma NoRunStaysFrozen(c: StageConfig, s: Snapshot, k: nat)
    requires Inv(c, s)
    requires var fs := Frames(InOrder(c.scenes, s.payloads, s.fin));
             && k < |fs| && Casting.Solo(c.cfg, fs[k])
             && Casting.SoloRun(c.cfg, fs, k) >= c.cfg.forceAfterSkips
             && Casting.FrameScore(fs[k]) >= c.cfg.forceMinScore
    ensures s.cast.anchor.Some?
  {
    var fs := Frames(InOrder(c.scenes, s.payloads, s.fin));
    FramesAreCastable(c, s);
    hide *;
    Casting.IntroCannotStayFrozen(c.cfg, fs, k);
    Casting.AnchorStays(c.cfg, fs, k + 1, |fs|);
    CastIsLast(c, s);
  }

  lemma CastIsLast(c: StageConfig, s: Snapshot)
    requires Inv(c, s)
    ensures var fs := Frames(InOrder(c.scenes, s.payloads, s.fin)); s.cast == Casting.StateAt(c.cfg, fs, |fs|)
  {
    hide Partition, WorkersOk, PayloadOk, BudgetOk, Images, InOrder, Casting.StateAt;
  }

  // While the run is not over, some worker event makes progress.
  lemma UnfinishedHasWork(c: StageConfig, s: Snapshot)
    requires Inv(c, s) && s.pending != map[]
    ensures WorkLeft(c, s) >= 1
  {
    hide WorkersOk, PayloadsOk, Refines, BudgetOk;
    var i :| i in s.pending;
    RemainingPositive(c.scenes, c.maxAttempts, s.pending, s.sched, i, |c.scenes|);
  }
}
