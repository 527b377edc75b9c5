// Serialised and paced Gemini calls over the threads of several processes
// (scripts/generate_images.py, call_gemini_serialized; scripts/gemini_semaphore.py,
// gemini_global_slot and call_with_gemini_guard), as a state machine.
module GeminiPacing {
  import opened Common

  // call_gemini_serialized keeps its process lock over the whole body;
  // call_with_gemini_guard keeps its lock only while it paces.
  datatype Kind = Serialized | Guarded

  datatype Thread = Thread(proc: nat, kind: Kind, id: nat)

  // The lock and the timestamp are shared by the threads of one kind in a process.
  datatype Domain = Domain(proc: nat, kind: Kind)

  function DomainOf(t: Thread): Domain { Domain(t.proc, t.kind) }

  datatype Phase =
    | Idle
    | Seeking(slot: nat)                // about to lock this slot's file
    | Holding(slot: nat)                // slot acquired, waiting for the lock
    | Checking(slot: nat)               // lock acquired
    | Sleeping(slot: nat, until: real)  // pacing
    | Body(slot: nat, start: real)      // the Gemini call itself
    | Ended(slot: nat)                  // timestamp written
    | Leaving(slot: nat)                // lock released

  // A finished body.
  datatype Call = Call(domain: Domain, start: real, end: real)

  // GEMINI_GLOBAL_CONCURRENCY and GEMINI_MIN_INTERVAL_SECONDS.
  datatype Config = Config(maxSlots: nat, minInterval: real)

  // `lockFailed` remembers whether locking a slot file ever raised an OSError.
  datatype State = State(clock: real, phases: map<Thread, Phase>, slots: map<nat, Thread>, locks: map<Domain, Thread>,
                         last: map<Domain, real>, log: seq<Call>, lockFailed: bool)

  function PhaseOf(s: State, t: Thread): Phase { if t in s.phases then s.phases[t] else Idle }

  // The timestamps start at zero.
  function Last(s: State, d: Domain): real { if d in s.last then s.last[d] else 0.0 }

  predicate HasSlot(p: Phase) { !p.Idle? && !p.Seeking? }

  predicate HasLock(k: Kind, p: Phase) {
    p.Checking? || p.Sleeping? || (k == Serialized && (p.Body? || p.Ended?))
  }

  datatype Action =
    | Start(t: Thread)
    | LockSlot(t: Thread)
    | LockSlotFails(t: Thread)
    | TakeLock(t: Thread)
    | Pace(t: Thread)
    | Begin(t: Thread)
    | End(t: Thread)
    | FreeLock(t: Thread)
    | FreeSlot(t: Thread)
    | Tick(elapsed: real)

  predicate Enabled(c: Config, s: State, a: Action) {
    match a
    case Start(t) => PhaseOf(s, t).Idle?
    // Locking the file blocks while another thread holds it.
    case LockSlot(t) => PhaseOf(s, t).Seeking? && PhaseOf(s, t).slot !in s.slots
    case LockSlotFails(t) => PhaseOf(s, t).Seeking?
    case TakeLock(t) => PhaseOf(s, t).Holding? && DomainOf(t) !in s.locks
    case Pace(t) => PhaseOf(s, t).Checking?
    case Begin(t) => PhaseOf(s, t).Sleeping? && s.clock >= PhaseOf(s, t).until
    case End(t) => PhaseOf(s, t).Body? && (t.kind == Guarded ==> DomainOf(t) !in s.locks)
    case FreeLock(t) => PhaseOf(s, t).Ended?
    case FreeSlot(t) => PhaseOf(s, t).Leaving?
    case Tick(d) => d >= 0.0
  }

  function Move(s: State, t: Thread, p: Phase): State { s.(phases := s.phases[t := p]) }

  // When the pacing check lets a body start.
  function PaceUntil(c: Config, s: State, t: Thread): real {
    var last := Last(s, DomainOf(t));
    var elapsed := if t.kind == Serialized && last <= 0.0 then c.minInterval else s.clock - last;
    if c.minInterval > 0.0 && elapsed < c.minInterval then s.clock + (c.minInterval - elapsed) else s.clock
  }

  function Next(c: Config, s: State, a: Action): State
    requires Enabled(c, s, a)
  {
    match a
    case Start(t) => Move(s, t, Seeking(0))
    case LockSlot(t) =>
      var k := PhaseOf(s, t).slot;
      Move(s, t, Holding(k)).(slots := s.slots[k := t])
    case LockSlotFails(t) =>
      // The next slot, or from the first again after a short sleep.
      var k := PhaseOf(s, t).slot;
      Move(s, t, Seeking(if k + 1 < c.maxSlots then k + 1 else 0)).(lockFailed := true)
    case TakeLock(t) => Move(s, t, Checking(PhaseOf(s, t).slot)).(locks := s.locks[DomainOf(t) := t])
    case Pace(t) => Move(s, t, Sleeping(PhaseOf(s, t).slot, PaceUntil(c, s, t)))
    case Begin(t) =>
      var s' := Move(s, t, Body(PhaseOf(s, t).slot, s.clock));
      if t.kind == Guarded then s'.(locks := s.locks - {DomainOf(t)}) else s'
    case End(t) =>
      var p := PhaseOf(s, t);
      Move(s, t, Ended(p.slot)).(last := s.last[DomainOf(t) := s.clock],
                                 log := s.log + [Call(DomainOf(t), p.start, s.clock)])
    case FreeLock(t) =>
      var s' := Move(s, t, Leaving(PhaseOf(s, t).slot));
      if t.kind == Serialized then s'.(locks := s.locks - {DomainOf(t)}) else s'
    case FreeSlot(t) => Move(s, t, Idle).(slots := s.slots - {PhaseOf(s, t).slot})
    case Tick(d) => s.(clock := s.clock + d)
  }

  // ---- invariants --------------------------------------------------------

  // Slots and their holders correspond one to one.
  ghost predicate HoldersOk(s: State) {
    forall t: Thread :: HasSlot(PhaseOf(s, t)) ==> PhaseOf(s, t).slot in s.slots && s.slots[PhaseOf(s, t).slot] == t
  }

  ghost predicate SlotsHeld(c: Config, s: State) {
    forall k :: k in s.slots ==> k < c.maxSlots && HasSlot(PhaseOf(s, s.slots[k])) && PhaseOf(s, s.slots[k]).slot == k
  }

  ghost predicate SeekersOk(c: Config, s: State) {
    forall t: Thread :: PhaseOf(s, t).Seeking? ==> PhaseOf(s, t).slot < c.maxSlots
  }

  ghost predicate SlotsOk(c: Config, s: State) { HoldersOk(s) && SlotsHeld(c, s) && SeekersOk(c, s) }

  ghost predicate LocksOk(s: State) {
    forall t: Thread :: HasLock(t.kind, PhaseOf(s, t)) ==> DomainOf(t) in s.locks && s.locks[DomainOf(t)] == t
  }

  // Only slot 0 is in use: there is one slot, or blocking locks never failed over.
  predicate OneSlot(c: Config, s: State) { c.maxSlots == 1 || !s.lockFailed }

  ghost predicate SlotZero(c: Config, s: State) {
    OneSlot(c, s) ==>
      && (forall k :: k in s.slots ==> k == 0)
      && forall t: Thread :: PhaseOf(s, t).Seeking? ==> PhaseOf(s, t).slot == 0
  }

  // Bodies of this domain exclude each other.
  predicate Exclusive(c: Config, s: State, d: Domain) { d.kind == Serialized || OneSlot(c, s) }

  predicate LoggedOk(s: State, call: Call) {
    0.0 < call.end <= Last(s, call.domain) && call.start <= call.end
  }

  ghost predicate TimesOk(s: State) {
    && s.clock > 0.0
    && (forall d: Domain :: 0.0 <= Last(s, d) <= s.clock)
    && (forall t: Thread :: PhaseOf(s, t).Body? ==> PhaseOf(s, t).start <= s.clock)
    && (forall i :: 0 <= i < |s.log| ==> LoggedOk(s, s.log[i]))
  }

  // x is late enough after the last body of domain d.
  predicate LateEnough(c: Config, s: State, d: Domain, x: real) {
    Last(s, d) > 0.0 ==> x >= Last(s, d) + c.minInterval
  }

  ghost predicate PacedOk(c: Config, s: State) {
    forall t: Thread :: Exclusive(c, s, DomainOf(t)) ==>
      match PhaseOf(s, t)
      case Sleeping(_, until) => LateEnough(c, s, DomainOf(t), until)
      case Body(_, start) => LateEnough(c, s, DomainOf(t), start)
      case _ => true
  }

  // Bodies of one domain follow each other with the minimum gap.
  ghost predicate Spaced(c: Config, s: State) {
    forall i, j :: 0 <= i < j < |s.log| && s.log[i].domain == s.log[j].domain && Exclusive(c, s, s.log[j].domain) ==>
      s.log[j].start >= s.log[i].end + c.minInterval
  }

  ghost predicate Inv(c: Config, s: State) {
    && c.maxSlots >= 1 && c.minInterval >= 0.0
    && SlotsOk(c, s) && LocksOk(s) && SlotZero(c, s) && TimesOk(s) && PacedOk(c, s) && Spaced(c, s)
  }

  function Initial(now: real): State { State(now, map[], map[], map[], map[], [], false) }

  // A step changes the phase of its own thread only, and timestamps only when a
  // body ends.
  lemma StepFrame(c: Config, s: State, a: Action)
    requires Enabled(c, s, a)
    ensures forall u: Thread {:trigger PhaseOf(Next(c, s, a), u)} :: a.Tick? || u != a.t ==>
            PhaseOf(Next(c, s, a), u) == PhaseOf(s, u)
    ensures forall d: Domain {:trigger Last(Next(c, s, a), d)} ::
              Last(Next(c, s, a), d) == if a.End? && d == DomainOf(a.t) then s.clock else Last(s, d)
  {
  }

  lemma HoldersStep(c: Config, s: State, a: Action)
    requires HoldersOk(s) && Enabled(c, s, a)
    ensures HoldersOk(Next(c, s, a))
  {
    StepFrame(c, s, a);
    hide DomainOf, PaceUntil, Last;
  }

  predicate HeldOk(c: Config, s: State, k: nat)
    requires k in s.slots
  {
    k < c.maxSlots && HasSlot(PhaseOf(s, s.slots[k])) && PhaseOf(s, s.slots[k]).slot == k
  }

  lemma SlotsHeldStep(c: Config, s: State, a: Action)
    requires SlotsHeld(c, s) && SeekersOk(c, s) && Enabled(c, s, a)
    ensures SlotsHeld(c, Next(c, s, a))
  {
    hide SeekersOk, Next, Enabled;
    forall k | k in Next(c, s, a).slots
      ensures HeldOk(c, Next(c, s, a), k)
    {
      HeldStep(c, s, a, k);
    }
  }

  lemma HeldStep(c: Config, s: State, a: Action, k: nat)
    requires SlotsHeld(c, s) && SeekersOk(c, s) && Enabled(c, s, a) && k in Next(c, s, a).slots
    ensures HeldOk(c, Next(c, s, a), k)
  {
    HeldAt(c, s, k);
    SlotsFrame(c, s, a, k);
    var s' := Next(c, s, a);
    if a.LockSlot? && k == PhaseOf(s, a.t).slot {
      hide DomainOf, PaceUntil, Last, SlotsHeld;
      assert PhaseOf(s', a.t) == Holding(k);
    } else {
      hide SlotsHeld, SeekersOk, Next, Enabled;
      StepKeepsSlot(c, s, a, s.slots[k]);
    }
  }

  // A slot that is held afterwards has been locked by this step, or has the holder it
  // had and is not being freed.
  lemma SlotsFrame(c: Config, s: State, a: Action, k: nat)
    requires Enabled(c, s, a) && k in Next(c, s, a).slots
    ensures || (a.LockSlot? && k == PhaseOf(s, a.t).slot)
            || (k in s.slots && Next(c, s, a).slots[k] == s.slots[k] && !(a.FreeSlot? && k == PhaseOf(s, a.t).slot))
  {
    hide DomainOf, PaceUntil, Last;
  }

  // A holder keeps its slot until it frees it.
  lemma StepKeepsSlot(c: Config, s: State, a: Action, u: Thread)
    requires Enabled(c, s, a) && HasSlot(PhaseOf(s, u)) && !(a.FreeSlot? && a.t == u)
    ensures HasSlot(PhaseOf(Next(c, s, a), u)) && PhaseOf(Next(c, s, a), u).slot == PhaseOf(s, u).slot
  {
    hide DomainOf, PaceUntil, Last;
    if !a.Tick? && a.t == u {
      assert HasSlot(PhaseOf(Next(c, s, a), a.t));
    } else {
      assert PhaseOf(Next(c, s, a), u) == PhaseOf(s, u);
    }
  }

  lemma HeldAt(c: Config, s: State, k: nat)
    requires SlotsHeld(c, s)
    ensures k in s.slots ==> HeldOk(c, s, k)
  {
  }

  lemma SeekersStep(c: Config, s: State, a: Action)
    requires c.maxSlots >= 1 && SeekersOk(c, s) && Enabled(c, s, a)
    ensures SeekersOk(c, Next(c, s, a))
  {
    StepFrame(c, s, a);
    hide DomainOf, PaceUntil, Last;
  }

  lemma SlotsStep(c: Config, s: State, a: Action)
    requires c.maxSlots >= 1 && SlotsOk(c, s) && Enabled(c, s, a)
    ensures SlotsOk(c, Next(c, s, a))
  {
    hide HoldersOk, SlotsHeld, SeekersOk, Next, Enabled;
    HoldersStep(c, s, a);
    SlotsHeldStep(c, s, a);
    SeekersStep(c, s, a);
  }

  lemma SlotZeroStep(c: Config, s: State, a: Action)
    requires c.maxSlots >= 1 && SlotsOk(c, s) && SlotZero(c, s) && Enabled(c, s, a)
    ensures SlotZero(c, Next(c, s, a))
  {
    StepFrame(c, s, a);
    hide DomainOf, PaceUntil, Last;
  }

  lemma LocksStep(c: Config, s: State, a: Action)
    requires LocksOk(s) && Enabled(c, s, a)
    ensures LocksOk(Next(c, s, a))
  {
    StepFrame(c, s, a);
  }

  lemma TimesStep(c: Config, s: State, a: Action)
    requires TimesOk(s) && Enabled(c, s, a)
    ensures TimesOk(Next(c, s, a))
  {
    StepFrame(c, s, a);
    hide DomainOf, PaceUntil;
    var s' := Next(c, s, a);
    forall i | 0 <= i < |s'.log|
      ensures LoggedOk(s', s'.log[i])
    {
      LoggedStep(c, s, a, i);
    }
    hide LoggedOk;
  }

  lemma LoggedStep(c: Config, s: State, a: Action, i: nat)
    requires TimesOk(s) && Enabled(c, s, a) && i < |Next(c, s, a).log|
    ensures LoggedOk(Next(c, s, a), Next(c, s, a).log[i])
  {
    StepFrame(c, s, a);
    if i < |s.log| { assert LoggedOk(s, s.log[i]); }
    hide PaceUntil, HasSlot, HasLock;
  }

  // Threads of an exclusive domain past the pacing check are alone.
  lemma Alone(c: Config, s: State, t: Thread, u: Thread)
    requires SlotsOk(c, s) && LocksOk(s) && SlotZero(c, s) && Exclusive(c, s, DomainOf(t))
    requires DomainOf(t) == DomainOf(u) && PhaseOf(s, t).Body?
    requires PhaseOf(s, u).Body? || PhaseOf(s, u).Sleeping?
    ensures t == u
  {
    if t.kind == Serialized {
      assert HasLock(t.kind, PhaseOf(s, t)) && HasLock(u.kind, PhaseOf(s, u));
    } else {
      assert HasSlot(PhaseOf(s, t)) && HasSlot(PhaseOf(s, u));
    }
  }

  lemma PaceWaits(c: Config, s: State, t: Thread)
    requires TimesOk(s) && c.minInterval >= 0.0
    ensures LateEnough(c, s, DomainOf(t), PaceUntil(c, s, t))
  {
  }

  lemma PacedStep(c: Config, s: State, a: Action)
    requires Inv(c, s) && Enabled(c, s, a)
    ensures PacedOk(c, Next(c, s, a))
  {
    StepFrame(c, s, a);
    var s' := Next(c, s, a);
    hide SlotsOk, LocksOk, SlotZero, TimesOk, Spaced, PaceUntil, Next;
    forall t: Thread | Exclusive(c, s', DomainOf(t))
      ensures PhaseOf(s', t).Sleeping? ==> LateEnough(c, s', DomainOf(t), PhaseOf(s', t).until)
      ensures PhaseOf(s', t).Body? ==> LateEnough(c, s', DomainOf(t), PhaseOf(s', t).start)
    {
      PacedStepOne(c, s, a, t);
    }
  }

  lemma PacedStepOne(c: Config, s: State, a: Action, t: Thread)
    requires Inv(c, s) && Enabled(c, s, a)
    requires Exclusive(c, Next(c, s, a), DomainOf(t))
    ensures var s' := Next(c, s, a);
            && (PhaseOf(s', t).Sleeping? ==> LateEnough(c, s', DomainOf(t), PhaseOf(s', t).until))
            && (PhaseOf(s', t).Body? ==> LateEnough(c, s', DomainOf(t), PhaseOf(s', t).start))
  {
    StepFrame(c, s, a);
    hide SlotsOk, LocksOk, SlotZero, Spaced, PaceUntil;
    if a.Pace? && a.t == t { PaceWaits(c, s, t); }
    if a.End? && a.t != t && DomainOf(a.t) == DomainOf(t) && (PhaseOf(s, t).Sleeping? || PhaseOf(s, t).Body?) {
      Alone(c, s, a.t, t);
    }
  }

  lemma SpacedStep(c: Config, s: State, a: Action)
    requires Inv(c, s) && Enabled(c, s, a)
    ensures Spaced(c, Next(c, s, a))
  {
    hide SlotsOk, LocksOk, SlotZero, PaceUntil;
    var s' := Next(c, s, a);
    if a.End? && Exclusive(c, s, DomainOf(a.t)) {
      forall i | 0 <= i < |s.log| && s.log[i].domain == DomainOf(a.t)
        ensures PhaseOf(s, a.t).start >= s.log[i].end + c.minInterval
      {
        assert LoggedOk(s, s.log[i]);
      }
    }
  }

  lemma StepKeepsInv(c: Config, s: State, a: Action)
    requires Inv(c, s) && Enabled(c, s, a)
    ensures Inv(c, Next(c, s, a))
  {
    hide SlotsOk, LocksOk, SlotZero, TimesOk, PacedOk, Spaced, Next, Enabled;
    SlotsStep(c, s, a);
    SlotZeroStep(c, s, a);
    LocksStep(c, s, a);
    TimesStep(c, s, a);
    PacedStep(c, s, a);
    SpacedStep(c, s, a);
  }

  // ---- every run ---------------------------------------------------------

  // The state after the actions, if each of them is possible in turn.
  function RunFrom(c: Config, s: State, actions: seq<Action>): Option<State>
    decreases |actions|
  {
    if actions == [] then Some(s)
    else if !Enabled(c, s, actions[0]) then None
    else RunFrom(c, Next(c, s, actions[0]), actions[1..])
  }

  lemma {:induction false} RunKeepsInv(c: Config, s: State, actions: seq<Action>)
    requires Inv(c, s)
    ensures RunFrom(c, s, actions).Some? ==> Inv(c, RunFrom(c, s, actions).value)
    decreases |actions|
  {
    hide Inv, Next, Enabled;
    if actions != [] && Enabled(c, s, actions[0]) {
      StepKeepsInv(c, s, actions[0]);
      RunKeepsInv(c, Next(c, s, actions[0]), actions[1..]);
    }
  }

  ghost predicate Reachable(c: Config, s: State) {
    exists now: real, actions: seq<Action> :: now > 0.0 && RunFrom(c, Initial(now), actions) == Some(s)
  }

  lemma ReachableOk(c: Config, s: State)
    requires c.maxSlots >= 1 && c.minInterval >= 0.0 && Reachable(c, s)
    ensures Inv(c, s)
  {
    var now: real, actions: seq<Action> :| now > 0.0 && RunFrom(c, Initial(now), actions) == Some(s);
    RunKeepsInv(c, Initial(now), actions);
  }

  // Two threads in one process never run serialised bodies at the same time, and
  // every serialised body starts at least the minimum interval after the one before
  // it ended, the running one included.
  lemma SerializedBodiesArePaced(c: Config, s: State, t: Thread, u: Thread)
    requires c.maxSlots >= 1 && c.minInterval >= 0.0 && Reachable(c, s)
    requires t.kind == Serialized && DomainOf(t) == DomainOf(u) && PhaseOf(s, t).Body?
    ensures PhaseOf(s, u).Body? ==> t == u
    ensures forall i :: 0 <= i < |s.log| && s.log[i].domain == DomainOf(t) ==>
              PhaseOf(s, t).start >= s.log[i].end + c.minInterval
    ensures forall i, j :: 0 <= i < j < |s.log| && s.log[i].domain == s.log[j].domain == DomainOf(t) ==>
              s.log[j].start >= s.log[i].end + c.minInterval
  {
    ReachableOk(c, s);
    if PhaseOf(s, u).Body? { Alone(c, s, t, u); }
    forall i | 0 <= i < |s.log| && s.log[i].domain == DomainOf(t)
      ensures PhaseOf(s, t).start >= s.log[i].end + c.minInterval
    {
      assert LoggedOk(s, s.log[i]);
    }
  }

  // Across all processes no more slots are held than there are, and a slot has one
  // holder.
  lemma SlotsAreBounded(c: Config, s: State)
    requires c.maxSlots >= 1 && c.minInterval >= 0.0 && Reachable(c, s)
    ensures |s.slots| <= c.maxSlots
    ensures forall t: Thread, u: Thread ::
              HasSlot(PhaseOf(s, t)) && HasSlot(PhaseOf(s, u)) && PhaseOf(s, t).slot == PhaseOf(s, u).slot ==> t == u
  {
    ReachableOk(c, s);
    KeysBelow(s.slots.Keys, c.maxSlots);
  }

  lemma {:induction false} KeysBelow(keys: set<nat>, n: nat)
    requires forall k :: k in keys ==> k < n
    ensures |keys| <= n
  {
    if n > 0 {
      KeysBelow(keys - {n - 1}, n - 1);
      assert |keys| <= |keys - {n - 1}| + 1;
    } else {
      assert keys == {};
    }
  }

  // With one slot no two bodies overlap in any process, and bodies of either kind
  // keep the gap within their process.  The same holds for any number of slots as
  // long as locking a slot file never fails: the blocking lock waits at slot 0 and
  // never tries the next one.
  lemma OneSlotMeansOneBody(c: Config, s: State, t: Thread, u: Thread)
    requires c.maxSlots >= 1 && c.minInterval >= 0.0 && Reachable(c, s) && OneSlot(c, s)
    ensures HasSlot(PhaseOf(s, t)) && HasSlot(PhaseOf(s, u)) ==> t == u
    ensures |s.slots| <= 1
    ensures Spaced(c, s) && forall i, j :: 0 <= i < j < |s.log| && s.log[i].domain == s.log[j].domain ==>
              s.log[j].start >= s.log[i].end + c.minInterval
  {
    ReachableOk(c, s);
    KeysBelow(s.slots.Keys, 1);
    hide LocksOk, TimesOk, PacedOk;
    assert forall d: Domain :: Exclusive(c, s, d);
  }

  // More than one body at a time needs more than one slot and a failed file lock.
  lemma OverlapNeedsAFailedLock(c: Config, s: State, t: Thread, u: Thread)
    requires c.maxSlots >= 1 && c.minInterval >= 0.0 && Reachable(c, s)
    requires t != u && PhaseOf(s, t).Body? && PhaseOf(s, u).Body?
    ensures c.maxSlots > 1 && s.lockFailed
  {
    if OneSlot(c, s) { OneSlotMeansOneBody(c, s, t, u); }
  }

  ghost predicate Overlap(s: State) {
    exists t: Thread, u: Thread :: t != u && PhaseOf(s, t).Body? && PhaseOf(s, u).Body?
  }

  lemma {:induction false} RunAppend(c: Config, s: State, a: seq<Action>, b: seq<Action>)
    requires RunFrom(c, s, a).Some?
    ensures RunFrom(c, s, a + b) == RunFrom(c, RunFrom(c, s, a).value, b)
    decreases |a|
  {
    hide Next, Enabled;
    if a == [] {
      assert a + b == b;
    } else {
      assert (a + b)[0] == a[0] && (a + b)[1..] == a[1..] + b;
      RunAppend(c, Next(c, s, a[0]), a[1..], b);
    }
  }

  lemma RunOne(c: Config, s: State, a: Action)
    requires Enabled(c, s, a)
    ensures RunFrom(c, s, [a]) == Some(Next(c, s, a))
  {
    hide Next, Enabled;
    assert RunFrom(c, Next(c, s, a), []) == Some(Next(c, s, a));
  }

  // From a free slot to the body, for a thread that need not wait.
  lemma RunToBody(c: Config, s: State, t: Thread) returns (run: seq<Action>, s': State)
    requires DomainOf(t) !in s.locks && PaceUntil(c, s, t) == s.clock
    requires PhaseOf(s, t).Seeking? && PhaseOf(s, t).slot !in s.slots
    ensures RunFrom(c, s, run) == Some(s') && PhaseOf(s', t) == Body(PhaseOf(s, t).slot, s.clock)
    ensures forall u: Thread :: u != t ==> PhaseOf(s', u) == PhaseOf(s, u)
    ensures s'.slots == s.slots[PhaseOf(s, t).slot := t] && s'.last == s.last && s'.log == s.log && s'.clock == s.clock
    ensures s'.locks == if t.kind == Serialized then s.locks[DomainOf(t) := t] else s.locks
  {
    var s1, s2, s3;
    s1, s2, s3, s' := FourSteps(c, s, t);
    hide *;
    RunOne(c, s, LockSlot(t));
    RunOne(c, s1, TakeLock(t));
    RunOne(c, s2, Pace(t));
    RunOne(c, s3, Begin(t));
    RunAppend(c, s, [LockSlot(t)], [TakeLock(t)]);
    RunAppend(c, s, [LockSlot(t)] + [TakeLock(t)], [Pace(t)]);
    RunAppend(c, s, [LockSlot(t)] + [TakeLock(t)] + [Pace(t)], [Begin(t)]);
    run := [LockSlot(t)] + [TakeLock(t)] + [Pace(t)] + [Begin(t)];
  }

  lemma FourSteps(c: Config, s: State, t: Thread) returns (s1: State, s2: State, s3: State, s4: State)
    requires DomainOf(t) !in s.locks && PaceUntil(c, s, t) == s.clock
    requires PhaseOf(s, t).Seeking? && PhaseOf(s, t).slot !in s.slots
    ensures Enabled(c, s, LockSlot(t)) && s1 == Next(c, s, LockSlot(t))
    ensures Enabled(c, s1, TakeLock(t)) && s2 == Next(c, s1, TakeLock(t))
    ensures Enabled(c, s2, Pace(t)) && s3 == Next(c, s2, Pace(t))
    ensures Enabled(c, s3, Begin(t)) && s4 == Next(c, s3, Begin(t))
    ensures PhaseOf(s4, t) == Body(PhaseOf(s, t).slot, s.clock)
    ensures forall u: Thread :: u != t ==> PhaseOf(s4, u) == PhaseOf(s, u)
    ensures s4.slots == s.slots[PhaseOf(s, t).slot := t] && s4.last == s.last && s4.log == s.log && s4.clock == s.clock
    ensures s4.locks == if t.kind == Serialized then s.locks[DomainOf(t) := t] else s.locks
  {
    s1 := Next(c, s, LockSlot(t));
    s2 := Next(c, s1, TakeLock(t));
    s3 := Next(c, s2, Pace(t));
    s4 := Next(c, s3, Begin(t));
    assert s.locks[DomainOf(t) := t] - {DomainOf(t)} == s.locks;
  }

  // Locking a slot file fails once, and two threads are in their bodies at once: two
  // that do not share a process lock, at a time when neither has to wait.
  lemma BothInBody(c: Config, now: real, t: Thread, u: Thread) returns (run: seq<Action>, s: State)
    requires c.maxSlots > 1 && now > 0.0 && t != u
    requires t.kind == Guarded || DomainOf(t) != DomainOf(u)
    requires PaceUntil(c, Initial(now), t) == PaceUntil(c, Initial(now), u) == now
    ensures RunFrom(c, Initial(now), run) == Some(s)
    ensures PhaseOf(s, t) == Body(0, now) && PhaseOf(s, u) == Body(1, now)
    ensures s.clock == now && s.log == [] && (t.kind == u.kind == Guarded ==> s.locks == map[])
  {
    var s0 := Initial(now);
    var s1 := Next(c, s0, Start(t));
    RunOne(c, s0, Start(t));
    var toBody, s2 := RunToBody(c, s1, t);
    var s3 := Next(c, s2, Start(u));
    RunOne(c, s2, Start(u));
    var s4 := Next(c, s3, LockSlotFails(u));
    RunOne(c, s3, LockSlotFails(u));
    assert DomainOf(u) !in s4.locks && PaceUntil(c, s4, u) == s4.clock;
    var toSecond;
    toSecond, s := RunToBody(c, s4, u);
    hide *;
    RunAppend(c, s0, [Start(t)], toBody);
    RunAppend(c, s0, [Start(t)] + toBody, [Start(u)]);
    RunAppend(c, s0, [Start(t)] + toBody + [Start(u)], [LockSlotFails(u)]);
    RunAppend(c, s0, [Start(t)] + toBody + [Start(u)] + [LockSlotFails(u)], toSecond);
    run := [Start(t)] + toBody + [Start(u)] + [LockSlotFails(u)] + toSecond;
  }

  // The bodies of two processes overlap.
  lemma OverlapRun(c: Config) returns (s: State)
    requires c.maxSlots > 1
    ensures Reachable(c, s) && Overlap(s)
  {
    var t, u := Thread(0, Serialized, 0), Thread(1, Serialized, 0);
    var run;
    run, s := BothInBody(c, 1.0, t, u);
    hide RunFrom, PhaseOf;
    ReachedBy(c, s, 1.0, run);
    OverlapOf(s, t, u);
  }

  lemma ReachedBy(c: Config, s: State, now: real, actions: seq<Action>)
    requires now > 0.0 && RunFrom(c, Initial(now), actions) == Some(s)
    ensures Reachable(c, s)
  {
  }

  lemma OverlapOf(s: State, t: Thread, u: Thread)
    requires t != u && PhaseOf(s, t).Body? && PhaseOf(s, u).Body?
    ensures Overlap(s)
  {
  }

  // Some run makes bodies overlap exactly when more than one slot is configured, and
  // every run that does has failed to lock a slot file.
  lemma OverlapIff(c: Config)
    requires c.maxSlots >= 1 && c.minInterval >= 0.0
    ensures (exists s :: Reachable(c, s) && Overlap(s)) <==> c.maxSlots > 1
    ensures forall s :: Reachable(c, s) && Overlap(s) ==> s.lockFailed
  {
    hide PhaseOf, Reachable;
    forall s | Reachable(c, s) && Overlap(s)
      ensures c.maxSlots > 1 && s.lockFailed
    {
      var t: Thread, u: Thread :| t != u && PhaseOf(s, t).Body? && PhaseOf(s, u).Body?;
      OverlapNeedsAFailedLock(c, s, t, u);
    }
    if c.maxSlots > 1 { var s := OverlapRun(c); }
  }

  // Two finished bodies of one process and kind, the second of which began less than
  // the interval after the first had ended.
  predicate TooClose(c: Config, s: State, i: nat, j: nat) {
    i < j < |s.log| && s.log[i].domain == s.log[j].domain && s.log[j].start < s.log[i].end + c.minInterval
  }

  ghost predicate BreaksGap(c: Config, s: State) { exists i: nat, j: nat :: TooClose(c, s, i, j) }

  // Two guarded bodies of one process run side by side, the first for a second.
  lemma GapRun(c: Config) returns (s: State)
    requires c.maxSlots > 1 && c.minInterval >= 0.0
    ensures Reachable(c, s) && BreaksGap(c, s)
  {
    var t, u, now := Thread(0, Guarded, 0), Thread(0, Guarded, 1), c.minInterval + 1.0;
    var run, s1 := BothInBody(c, now, t, u);
    var s2 := Next(c, s1, Tick(1.0));
    var s3 := Next(c, s2, End(t));
    s := Next(c, s3, End(u));
    RunOne(c, s1, Tick(1.0));
    RunOne(c, s2, End(t));
    RunOne(c, s3, End(u));
    assert s.log == [Call(DomainOf(t), now, now + 1.0), Call(DomainOf(u), now, now + 1.0)];
    assert TooClose(c, s, 0, 1);
    hide *;
    RunAppend(c, Initial(now), run, [Tick(1.0)]);
    RunAppend(c, Initial(now), run + [Tick(1.0)], [End(t)]);
    RunAppend(c, Initial(now), run + [Tick(1.0)] + [End(t)], [End(u)]);
    ReachedBy(c, s, now, run + [Tick(1.0)] + [End(t)] + [End(u)]);
    BreaksGapAt(c, s, 0, 1);
  }

  lemma BreaksGapAt(c: Config, s: State, i: nat, j: nat)
    requires TooClose(c, s, i, j)
    ensures BreaksGap(c, s)
  {
  }

  // Some run breaks the gap within a process exactly when more than one slot is
  // configured; the bodies that do are guarded, and a file lock has failed.
  lemma GapBrokenIff(c: Config)
    requires c.maxSlots >= 1 && c.minInterval >= 0.0
    ensures (exists s :: Reachable(c, s) && BreaksGap(c, s)) <==> c.maxSlots > 1
    ensures forall s, i: nat, j: nat :: Reachable(c, s) && TooClose(c, s, i, j) ==>
            s.lockFailed && s.log[i].domain.kind == Guarded
  {
    forall s, i: nat, j: nat | Reachable(c, s) && TooClose(c, s, i, j)
      ensures c.maxSlots > 1 && s.lockFailed && s.log[i].domain.kind == Guarded
    {
      GapNeedsAFailedLock(c, s, i, j);
    }
    if c.maxSlots > 1 { var s := GapRun(c); }
  }

  lemma GapNeedsAFailedLock(c: Config, s: State, i: nat, j: nat)
    requires c.maxSlots >= 1 && c.minInterval >= 0.0 && Reachable(c, s) && TooClose(c, s, i, j)
    ensures c.maxSlots > 1 && s.lockFailed && s.log[i].domain.kind == Guarded
  {
    ReachableOk(c, s);
    hide SlotsOk, LocksOk, SlotZero, TimesOk, PacedOk, Reachable;
    assert !Exclusive(c, s, s.log[j].domain);
  }

  // The pacing check waits no longer than it has to: not at all when the interval has
  // passed, or before the first serialised body, and else until it has.
  lemma PaceIsTight(c: Config, s: State, t: Thread)
    requires c.maxSlots >= 1 && c.minInterval >= 0.0 && Reachable(c, s)
    ensures var last := Last(s, DomainOf(t));
            PaceUntil(c, s, t) ==
            if (t.kind == Serialized && last <= 0.0) || s.clock >= last + c.minInterval then s.clock
            else last + c.minInterval
  {
    ReachableOk(c, s);
    hide SlotsOk, LocksOk, SlotZero, PacedOk, Spaced, Reachable;
  }

  // ---- no deadlock -------------------------------------------------------

  // A lock that is taken is held by a thread of its domain that is in a phase with it.
  ghost predicate LocksHeld(s: State) {
    forall d :: d in s.locks ==> DomainOf(s.locks[d]) == d && HasLock(s.locks[d].kind, PhaseOf(s, s.locks[d]))
  }

  lemma LocksHeldStep(c: Config, s: State, a: Action)
    requires LocksHeld(s) && LocksOk(s) && Enabled(c, s, a)
    ensures LocksHeld(Next(c, s, a))
  {
    hide Next, Enabled;
    forall d | d in Next(c, s, a).locks
      ensures LockHeld(Next(c, s, a), d)
    {
      LockHeldStep(c, s, a, d);
    }
  }

  predicate LockHeld(s: State, d: Domain)
    requires d in s.locks
  {
    DomainOf(s.locks[d]) == d && HasLock(s.locks[d].kind, PhaseOf(s, s.locks[d]))
  }

  lemma LockHeldStep(c: Config, s: State, a: Action, d: Domain)
    requires LocksHeld(s) && LocksOk(s) && Enabled(c, s, a) && d in Next(c, s, a).locks
    ensures LockHeld(Next(c, s, a), d)
  {
    assert d in s.locks ==> LockHeld(s, d);
    LocksFrame(c, s, a, d);
    if a.TakeLock? && d == DomainOf(a.t) {
      assert PhaseOf(Next(c, s, a), a.t).Checking?;
    } else {
      hide LocksHeld, LocksOk, Next, Enabled;
      StepKeepsLock(c, s, a, s.locks[d]);
    }
  }

  // The step gives the lock up: guarded threads when their body begins, serialised ones
  // after it.
  predicate GivesUp(a: Action) { (a.Begin? && a.t.kind == Guarded) || (a.FreeLock? && a.t.kind == Serialized) }

  lemma LocksFrame(c: Config, s: State, a: Action, d: Domain)
    requires Enabled(c, s, a) && d in Next(c, s, a).locks
    ensures if a.TakeLock? && d == DomainOf(a.t) then Next(c, s, a).locks[d] == a.t
            else d in s.locks && Next(c, s, a).locks[d] == s.locks[d] && !(GivesUp(a) && d == DomainOf(a.t))
  {
    hide PaceUntil, Last;
  }

  lemma StepKeepsLock(c: Config, s: State, a: Action, u: Thread)
    requires Enabled(c, s, a) && HasLock(u.kind, PhaseOf(s, u)) && !(GivesUp(a) && a.t == u)
    ensures HasLock(u.kind, PhaseOf(Next(c, s, a), u))
  {
    hide DomainOf, PaceUntil, Last;
    if !a.Tick? && a.t == u {
      assert HasLock(a.t.kind, PhaseOf(Next(c, s, a), a.t));
    } else {
      assert PhaseOf(Next(c, s, a), u) == PhaseOf(s, u);
    }
  }

  lemma {:induction false} RunKeepsLocksHeld(c: Config, s: State, actions: seq<Action>)
    requires Inv(c, s) && LocksHeld(s)
    ensures RunFrom(c, s, actions).Some? ==> LocksHeld(RunFrom(c, s, actions).value)
    decreases |actions|
  {
    if actions != [] && Enabled(c, s, actions[0]) {
      StepKeepsInv(c, s, actions[0]);
      LocksHeldStep(c, s, actions[0]);
      hide Inv, Next, Enabled, LocksHeld;
      RunKeepsLocksHeld(c, Next(c, s, actions[0]), actions[1..]);
    }
  }

  // A thread goes on: it locks a slot, takes a lock, paces, begins, ends or lets go.
  predicate GoesOn(a: Action) { !a.Tick? && !a.Start? && !a.LockSlotFails? }

  // Unless every thread is idle, some thread can go on, or one is waiting out the
  // interval: slots and locks never block each other for good.
  lemma NoDeadlock(c: Config, s: State, t: Thread) returns (u: Thread)
    requires c.maxSlots >= 1 && c.minInterval >= 0.0 && Reachable(c, s) && !PhaseOf(s, t).Idle?
    ensures PhaseOf(s, u).Sleeping? || exists a: Action :: GoesOn(a) && a.t == u && Enabled(c, s, a)
  {
    var now: real, actions: seq<Action> :| now > 0.0 && RunFrom(c, Initial(now), actions) == Some(s);
    RunKeepsInv(c, Initial(now), actions);
    RunKeepsLocksHeld(c, Initial(now), actions);
    hide Reachable, RunFrom, TimesOk, PacedOk, Spaced, SlotZero;
    u := t;
    if PhaseOf(s, u).Seeking? && PhaseOf(s, u).slot in s.slots { u := s.slots[PhaseOf(s, u).slot]; }
    if (PhaseOf(s, u).Holding? || (PhaseOf(s, u).Body? && u.kind == Guarded)) && DomainOf(u) in s.locks {
      u := s.locks[DomainOf(u)];
    }
    Ready(c, s, u);
  }

  lemma Ready(c: Config, s: State, u: Thread)
    requires PhaseOf(s, u).Seeking? ==> PhaseOf(s, u).slot !in s.slots
    requires PhaseOf(s, u).Holding? || (PhaseOf(s, u).Body? && u.kind == Guarded) ==> DomainOf(u) !in s.locks
    requires !PhaseOf(s, u).Idle?
    ensures PhaseOf(s, u).Sleeping? || exists a: Action :: GoesOn(a) && a.t == u && Enabled(c, s, a)
  {
    var a := match PhaseOf(s, u)
      case Seeking(_) => LockSlot(u)
      case Holding(_) => TakeLock(u)
      case Checking(_) => Pace(u)
      case Body(_, _) => End(u)
      case Ended(_) => FreeLock(u)
      case _ => FreeSlot(u);
    assert PhaseOf(s, u).Sleeping? || (GoesOn(a) && a.t == u && Enabled(c, s, a));
  }

  // `lockFailed` says that the run contains a failed lock.
  lemma {:induction false} LockFailedIff(c: Config, s: State, actions: seq<Action>)
    requires RunFrom(c, s, actions).Some?
    ensures RunFrom(c, s, actions).value.lockFailed <==>
            s.lockFailed || exists k :: 0 <= k < |actions| && actions[k].LockSlotFails?
    decreases |actions|
  {
    if actions != [] {
      var s', rest := Next(c, s, actions[0]), actions[1..];
      FailureStep(c, s, actions[0]);
      hide Next, Enabled;
      LockFailedIff(c, s', rest);
      assert forall k :: 0 < k < |actions| ==> actions[k] == rest[k - 1];
      if k :| 0 <= k < |rest| && rest[k].LockSlotFails? { assert actions[k + 1].LockSlotFails?; }
    }
  }

  lemma FailureStep(c: Config, s: State, a: Action)
    requires Enabled(c, s, a)
    ensures Next(c, s, a).lockFailed <==> s.lockFailed || a.LockSlotFails?
  {
    hide DomainOf, PaceUntil, Last;
  }

  lemma NothingFailedYet(now: real)
    ensures !Initial(now).lockFailed && Initial(now).slots == map[] && Initial(now).locks == map[]
            && Initial(now).log == []
    ensures forall t: Thread :: PhaseOf(Initial(now), t).Idle?
  {
  }
}
