/** The effect worker registry and its shutdown protocol (`action.rs`). Runners,
    obligation cleaners and finishing calls interleave at every lock section
    and atomic access. `finish_worker` is split at its reads, as in the source,
    so the results name the interference they have to exclude. */
module WorkerShutdown {
  import opened Prelude

  type WorkerId = nat
  type Actor = nat

  /** A staging cleanup obligation: was the object prepared, and is the
      registered helper attached. */
  datatype Obligation = Obligation(prepared: bool, control: bool)

  datatype Handle = Handle(
    slot: Option<Obligation>, stagingReaped: bool, finalizing: bool, reaped: bool)

  const NEW_HANDLE := Handle(None, true, false, false)

  // ------------------------------------------------ the registry's sections

  datatype Registry = Registry(closing: bool, nextId: nat, workers: set<WorkerId>, handles: map<WorkerId, Handle>) {

    function Put(w: WorkerId, handle: Handle): Registry {
      this.(handles := handles[w := handle])
    }

    /** The registering section of `spawn_registered`. */
    function Spawn(): Registry {
      if closing then this
      else Registry(closing, nextId + 1, workers + {nextId}, handles[nextId := NEW_HANDLE])
    }

    /** `register_staging_obligation`. */
    function Oblige(w: WorkerId): Registry
      requires w in handles
    {
      if handles[w].slot.Some? then this else Put(w, handles[w].(slot := Some(Obligation(false, false))))
    }

    predicate HelperInstalls(w: WorkerId)
      requires w in handles
    {
      !closing && handles[w].slot.Some?
    }

    /** The section of `spawn_staging_helper` that attaches the helper. */
    function InstallHelper(w: WorkerId): Registry
      requires w in handles
    {
      if HelperInstalls(w) then
        Put(w, handles[w].(slot := Some(handles[w].slot.value.(control := true)), stagingReaped := false))
      else this
    }

    function StagingReaped(w: WorkerId): Registry
      requires w in handles
    {
      Put(w, handles[w].(stagingReaped := true))
    }

    function Reaped(w: WorkerId): Registry
      requires w in handles
    {
      Put(w, handles[w].(reaped := true))
    }

    function WithSlot(w: WorkerId, slot: Option<Obligation>): Registry
      requires w in handles
    {
      Put(w, handles[w].(slot := slot))
    }

    /** The helper answered that the object is prepared. */
    function Prepared(w: WorkerId): Registry
      requires w in handles
    {
      if handles[w].slot.Some? then WithSlot(w, Some(handles[w].slot.value.(prepared := true))) else this
    }

    function Finalizing(w: WorkerId, on: bool): Registry
      requires w in handles
    {
      Put(w, handles[w].(finalizing := on))
    }

    function Removed(w: WorkerId): Registry {
      this.(workers := workers - {w})
    }

    /** `finish_worker` as one atomic step. */
    function Finished(w: WorkerId): Registry {
      if w in handles && !handles[w].finalizing && handles[w].slot.None? && handles[w].reaped &&
          handles[w].stagingReaped
      then Removed(w)
      else this
    }

    /** `verify_shutdown` succeeds. */
    predicate ShutDown() { workers == {} }
  }

  // -------------------------------------------------- who is doing what

  /** Where the runner of a worker stands. */
  datatype Runner =
    | Fresh                  // registered, nothing staged yet
    | Obliged                // obligation registered, helper not attached
    | HelperUp               // helper attached, preparation not answered
    | HelperDown             // helper stopped after a failure
    | Ready                  // prepared, the worker may run
    | Failed                 // preparation failed, the child still runs
    | Stopped                // the child is reaped and nothing was staged
    | Waited                 // the child was waited for, staging not finished
    | Finished(clean: bool)  // staging helper stopped, with its verdict
    | Gone                   // returned, or cancelled
  {
    predicate Starting() {
      Fresh? || Obliged? || HelperUp? || HelperDown? || Ready? || Failed?
    }
  }

  /** A call of `settle_worker_obligation`, or one round of the loop of
      `finalize_shutdown_inner`, after it won the `finalizing` flag. */
  datatype Cleaner =
    | Claimed(worker: WorkerId)
    | Holding(worker: WorkerId, obligation: Obligation)
    | PuttingBack(worker: WorkerId, obligation: Obligation)
    | Releasing(worker: WorkerId)
  {
    predicate InHand() { Holding? || PuttingBack? }
  }

  /** A call of `finish_worker` between its reads. */
  datatype Finisher = SawIdle(worker: WorkerId) | SawEmpty(worker: WorkerId) | SawReaped(worker: WorkerId)

  /** How a cleanup by path ended: object removed, none found, or an error. */
  datatype Cleanup = ObjectRemoved | ObjectAbsent | CleanupFailed

  datatype World = World(
    reg: Registry, runners: map<WorkerId, Runner>, cleaners: map<Actor, Cleaner>, finishers: map<Actor, Finisher>,
    owed: set<WorkerId>, discharged: set<WorkerId>, abandoned: set<WorkerId>, stopping: set<WorkerId>)

  const START := World(Registry(false, 0, {}, map[]), map[], map[], map[], {}, {}, {}, {})

  datatype RunnerStep =
    | RegisterObligation
    | AttachHelper
    | HelperNotStarted
    | HelperAnswered
    | HelperStopped
    | HelperReported(retained: bool)
    | ChildReaped
    | ChildWaitFailed
    | StagingFinished(clean: bool)
    | SlotCleared
    | RunnerGone
    | StopRead
    | StopDone

  datatype CleanerStep = Claim(w: WorkerId) | Take | CleanedUp(outcome: Cleanup) | PutBack | Release | Cancelled

  datatype FinisherStep = Call(w: WorkerId) | ReadSlot | ReadReaped | Remove

  datatype Event =
    | SpawnWorker
    | CloseAdmission
    | OnWorker(w: WorkerId, step: RunnerStep)
    | ByCleaner(a: Actor, clean: CleanerStep)
    | ByFinisher(a: Actor, finish: FinisherStep)

  function Moved(s: World, reg: Registry, w: WorkerId, to: Runner): World {
    s.(reg := reg, runners := s.runners[w := to])
  }

  function SpawnNext(s: World): World {
    if s.reg.closing then s else Moved(s, s.reg.Spawn(), s.reg.nextId, Fresh)
  }

  /** The steps of a worker's runner, and the hard stop of its helper by shutdown:
      its control is read, and the helper marked once the stop has been awaited. A
      step that is not possible in this state changes nothing. */
  function RunnerNext(s: World, w: WorkerId, step: RunnerStep): World {
    if w !in s.reg.handles || w !in s.runners then s
    else
      var at, slot := s.runners[w], s.reg.handles[w].slot;
      match step
      case RegisterObligation =>
        if !at.Fresh? then s
        else if slot.Some? then Moved(s, s.reg, w, Gone)
        else Moved(s, s.reg.Oblige(w), w, Obliged).(owed := s.owed + {w})
      case AttachHelper =>
        if !at.Obliged? then s
        else if s.reg.HelperInstalls(w) then Moved(s, s.reg.InstallHelper(w), w, HelperUp)
        else Moved(s, s.reg.StagingReaped(w), w, Failed)
      case HelperNotStarted => if at.Obliged? then Moved(s, s.reg, w, Failed) else s
      case HelperAnswered => if at.HelperUp? then Moved(s, s.reg.Prepared(w), w, Ready) else s
      case HelperStopped => if at.HelperUp? then Moved(s, s.reg.StagingReaped(w), w, HelperDown) else s
      case HelperReported(retained) =>
        if !at.HelperDown? then s
        else if retained then Moved(s, s.reg, w, Failed)
        else Moved(s, s.reg.WithSlot(w, None), w, Failed).(discharged := s.discharged + {w})
      case ChildReaped =>
        (match at
         case Fresh => Moved(s, s.reg.Reaped(w), w, Stopped)
         case Failed => Moved(s, s.reg.Reaped(w), w, Gone)
         case Ready => Moved(s, s.reg.Reaped(w), w, Waited)
         case _ => s)
      case ChildWaitFailed => if at.Ready? then Moved(s, s.reg, w, Waited) else s
      case StagingFinished(clean) =>
        if !at.Waited? then s
        else Moved(s, s.reg.StagingReaped(w), w, Finished(clean)).(discharged := if clean then s.discharged + {w}
                                                                   else s.discharged)
      case SlotCleared => if at == Finished(true) then Moved(s, s.reg.WithSlot(w, None), w, Gone) else s
      case RunnerGone => Moved(s, s.reg, w, Gone)
      case StopRead => if slot.Some? && slot.value.control then s.(stopping := s.stopping + {w}) else s
      case StopDone => if w in s.stopping then s.(reg := s.reg.StagingReaped(w), stopping := s.stopping - {w}) else s
  }

  function CleanerNext(s: World, a: Actor, step: CleanerStep): World {
    if step.Claim? then
      if a in s.cleaners || step.w !in s.reg.handles || s.reg.handles[step.w].finalizing then s
      else s.(reg := s.reg.Finalizing(step.w, true), cleaners := s.cleaners[a := Claimed(step.w)])
    else if a !in s.cleaners || s.cleaners[a].worker !in s.reg.handles then s
    else
      var at, w := s.cleaners[a], s.cleaners[a].worker;
      var slot := s.reg.handles[w].slot;
      match step
      case Take =>
        if !at.Claimed? then s
        else s.(reg := s.reg.WithSlot(w, None),
                cleaners := s.cleaners[a := if slot.Some? then Holding(w, slot.value) else Releasing(w)])
      case CleanedUp(outcome) =>
        if !at.Holding? then s
        else if outcome.ObjectRemoved? || (outcome.ObjectAbsent? && !at.obligation.prepared) then
          s.(cleaners := s.cleaners[a := Releasing(w)], discharged := s.discharged + {w})
        else s.(cleaners := s.cleaners[a := PuttingBack(w, at.obligation)])
      case PutBack =>
        if !at.PuttingBack? then s
        else s.(reg := s.reg.WithSlot(w, Some(at.obligation)), cleaners := s.cleaners[a := Releasing(w)])
      case Release =>
        if !at.Releasing? then s
        else s.(reg := s.reg.Finalizing(w, false), cleaners := s.cleaners - {a})
      case Cancelled =>
        s.(cleaners := s.cleaners - {a}, abandoned := if at.InHand() then s.abandoned + {w} else s.abandoned)
      case Claim(_) => s
  }

  /** The steps of `finish_worker`, which anyone may call on any handle. */
  function FinisherNext(s: World, a: Actor, step: FinisherStep): World {
    if step.Call? then
      if a in s.finishers || step.w !in s.reg.handles || s.reg.handles[step.w].finalizing then s
      else s.(finishers := s.finishers[a := SawIdle(step.w)])
    else if a !in s.finishers || s.finishers[a].worker !in s.reg.handles then s
    else
      var at, w := s.finishers[a], s.finishers[a].worker;
      var handle := s.reg.handles[w];
      match step
      case ReadSlot =>
        if !at.SawIdle? then s
        else s.(finishers := if handle.slot.Some? then s.finishers - {a} else s.finishers[a := SawEmpty(w)])
      case ReadReaped =>
        if !at.SawEmpty? then s
        else s.(finishers := if handle.reaped && handle.stagingReaped then s.finishers[a := SawReaped(w)]
                else s.finishers - {a})
      case Remove =>
        if !at.SawReaped? then s
        else s.(reg := s.reg.Removed(w), finishers := s.finishers - {a})
      case Call(_) => s
  }

  function Next(s: World, e: Event): World {
    match e
    case SpawnWorker => SpawnNext(s)
    case CloseAdmission => s.(reg := s.reg.(closing := true))
    case OnWorker(w, step) => RunnerNext(s, w, step)
    case ByCleaner(a, step) => CleanerNext(s, a, step)
    case ByFinisher(a, step) => FinisherNext(s, a, step)
  }

  function Run(s: World, events: seq<Event>): World
    decreases |events|
  {
    if events == [] then s else Run(Next(s, events[0]), events[1..])
  }

  /** The interference that `finish_worker` does not exclude: at the removal
      its earlier reads no longer hold, because the worker has been claimed or
      has an obligation again. */
  predicate Disturbs(s: World, e: Event) {
    match e
    case ByFinisher(a, Remove) =>
      && Next(s, e) != s
      && (s.reg.handles[s.finishers[a].worker].finalizing || s.reg.handles[s.finishers[a].worker].slot.Some?)
    case _ => false
  }

  ghost predicate Undisturbed(s: World, events: seq<Event>)
    decreases |events|
  {
    events == [] || (!Disturbs(s, events[0]) && Undisturbed(Next(s, events[0]), events[1..]))
  }

  /** A disturbed removal of a worker whose obligation is not discharged. */
  predicate Loses(s: World, e: Event) {
    Disturbs(s, e) && s.finishers[e.a].worker in s.owed && s.finishers[e.a].worker !in s.discharged
  }

  ghost predicate Lossless(s: World, events: seq<Event>)
    decreases |events|
  {
    events == [] || (!Loses(s, events[0]) && Lossless(Next(s, events[0]), events[1..]))
  }

  // --------------------------------------------------------- the invariant

  ghost predicate HeldBy(s: World, a: Actor, w: WorkerId) {
    a in s.cleaners && s.cleaners[a].InHand() && s.cleaners[a].worker == w
  }

  /** Where the obligation of a worker can be: discharged, in its slot, in the
      hand of a cleaner, or stuck in the hand of a cancelled one. */
  ghost predicate Accounted(s: World, w: WorkerId)
    requires w in s.reg.handles
  {
    w in s.discharged || s.reg.handles[w].slot.Some? || w in s.abandoned || exists a :: HeldBy(s, a, w)
  }

  /** What holds of a worker whatever the removals have read: its process is
      reaped only once its runner is past starting, and it is removed only once
      its process and its helper are reaped. */
  ghost predicate WorkerBase(s: World, w: WorkerId)
    requires w in s.reg.handles
  {
    var handle := s.reg.handles[w];
    && w < s.reg.nextId
    && w in s.runners
    && (handle.reaped ==> !s.runners[w].Starting())
    && (w !in s.reg.workers ==> handle.reaped && handle.stagingReaped)
  }

  ghost predicate WorkerInv(s: World, w: WorkerId)
    requires w in s.reg.handles
  {
    var handle := s.reg.handles[w];
    && WorkerBase(s, w)
    && (s.runners[w].Fresh? ==> w !in s.owed && handle.slot.None?)
    && (s.runners[w] == Finished(true) ==> w in s.discharged)
    && (handle.slot.Some? ==> w in s.owed)
    && (w in s.owed ==> Accounted(s, w))
    && (w !in s.reg.workers && w in s.owed ==> w in s.discharged)
    && (w in s.abandoned ==> handle.finalizing && w in s.owed)
  }

  ghost predicate IsClaimed(s: World, a: Actor)
    requires a in s.cleaners
  {
    s.cleaners[a].worker in s.reg.handles && s.reg.handles[s.cleaners[a].worker].finalizing
  }

  /** No two cleaners work on one worker. */
  ghost predicate Exclusive(s: World) {
    forall a, b :: a in s.cleaners && b in s.cleaners && s.cleaners[a].worker == s.cleaners[b].worker ==> a == b
  }

  ghost predicate CleanerInv(s: World, a: Actor)
    requires a in s.cleaners
  {
    var w := s.cleaners[a].worker;
    && IsClaimed(s, a) && w !in s.abandoned
    && (s.cleaners[a].InHand() ==> w in s.owed)
  }

  ghost predicate FinisherInv(s: World, a: Actor)
    requires a in s.finishers
  {
    var w := s.finishers[a].worker;
    && w in s.reg.handles
    && (s.finishers[a].SawReaped? ==> s.reg.handles[w].reaped && s.reg.handles[w].stagingReaped)
  }

  ghost predicate Inv(s: World) {
    && s.reg.workers <= s.reg.handles.Keys
    && s.owed + s.abandoned <= s.reg.handles.Keys
    && (forall w :: w in s.reg.handles ==> WorkerInv(s, w))
    && (forall a :: a in s.cleaners ==> CleanerInv(s, a))
    && Exclusive(s)
    && (forall a :: a in s.finishers ==> FinisherInv(s, a))
  }

  /** The part of the invariant that every interleaving keeps. */
  ghost predicate Base(s: World) {
    && s.reg.workers <= s.reg.handles.Keys
    && (forall w :: w in s.reg.handles ==> WorkerBase(s, w))
    && (forall a :: a in s.cleaners ==> IsClaimed(s, a))
    && Exclusive(s)
    && (forall a :: a in s.finishers ==> FinisherInv(s, a))
  }

  lemma InvIsBase(s: World)
    requires Inv(s)
    ensures Base(s)
  {
    forall w | w in s.reg.handles ensures WorkerBase(s, w) {
      assert WorkerInv(s, w);
    }
    forall a | a in s.cleaners ensures IsClaimed(s, a) {
      assert CleanerInv(s, a);
    }
  }

  /** `next` differs from `s` only in the handle and the runner of `w`, and in
      what is owed and discharged for it. */
  ghost predicate OnlyWorker(s: World, next: World, w: WorkerId) {
    && w in s.reg.handles && w in next.reg.handles
    && next.reg.workers == s.reg.workers && next.reg.nextId == s.reg.nextId
    && next.reg.handles.Keys == s.reg.handles.Keys
    && (forall v :: v in s.reg.handles && v != w ==> next.reg.handles[v] == s.reg.handles[v])
    && next.cleaners == s.cleaners && next.finishers == s.finishers && next.abandoned == s.abandoned
    && (forall v :: v in s.runners && v != w ==> v in next.runners && next.runners[v] == s.runners[v])
    && s.owed <= next.owed <= s.owed + {w} && s.discharged <= next.discharged
  }

  /** What a step on one worker has to respect for the others' sake. */
  ghost predicate HandleKept(s: World, next: World, w: WorkerId)
    requires w in s.reg.handles && w in next.reg.handles
  {
    var was, now := s.reg.handles[w], next.reg.handles[w];
    now.finalizing == was.finalizing && (was.reaped ==> now.reaped && (was.stagingReaped ==> now.stagingReaped))
  }

  lemma OneWorkerStep(s: World, next: World, w: WorkerId)
    requires Inv(s) && OnlyWorker(s, next, w) && HandleKept(s, next, w) && WorkerInv(next, w)
    ensures Inv(next)
  {
    forall v | v in next.reg.handles ensures WorkerInv(next, v) {
      if v != w {
        assert WorkerInv(s, v);
        if a :| HeldBy(s, a, v) {
          assert HeldBy(next, a, v);
        }
      }
    }
    forall a | a in next.cleaners ensures CleanerInv(next, a) {
      assert CleanerInv(s, a);
    }
    forall a | a in next.finishers ensures FinisherInv(next, a) {
      assert FinisherInv(s, a);
    }
  }

  lemma StillHeld(s: World, next: World, w: WorkerId)
    requires next.cleaners == s.cleaners
    ensures (exists a :: HeldBy(s, a, w)) <==> (exists a :: HeldBy(next, a, w))
  {
    if a :| HeldBy(s, a, w) {
      assert HeldBy(next, a, w);
    }
    if a :| HeldBy(next, a, w) {
      assert HeldBy(s, a, w);
    }
  }

  predicate IsPreparing(step: RunnerStep) {
    step.RegisterObligation? || step.AttachHelper? || step.HelperNotStarted? || step.HelperAnswered?
  }

  predicate IsHelperEnd(step: RunnerStep) {
    step.HelperStopped? || step.HelperReported?
  }

  predicate IsChildEnd(step: RunnerStep) {
    step.ChildReaped? || step.ChildWaitFailed?
  }

  ghost predicate LocalStep(s: World, next: World, w: WorkerId) {
    OnlyWorker(s, next, w) && HandleKept(s, next, w)
  }

  lemma PreparingIsLocal(s: World, w: WorkerId, step: RunnerStep)
    requires w in s.reg.handles && WorkerBase(s, w) && IsPreparing(step)
    ensures LocalStep(s, RunnerNext(s, w, step), w)
  {
  }

  lemma HelperEndIsLocal(s: World, w: WorkerId, step: RunnerStep)
    requires w in s.reg.handles && IsHelperEnd(step)
    ensures LocalStep(s, RunnerNext(s, w, step), w)
  {
  }

  lemma ReapedIsLocal(s: World, w: WorkerId)
    requires w in s.reg.handles
    ensures LocalStep(s, RunnerNext(s, w, ChildReaped), w)
  {
    var reaped := s.reg.Reaped(w);
    assert forall to :: OnlyWorker(s, Moved(s, reaped, w, to), w);
  }

  lemma WaitFailedIsLocal(s: World, w: WorkerId)
    requires w in s.reg.handles
    ensures LocalStep(s, RunnerNext(s, w, ChildWaitFailed), w)
  {
  }

  lemma FinishingIsLocal(s: World, w: WorkerId, step: RunnerStep)
    requires w in s.reg.handles && !IsPreparing(step) && !IsHelperEnd(step) && !IsChildEnd(step)
    ensures LocalStep(s, RunnerNext(s, w, step), w)
  {
  }

  /** Every runner step on a worker keeps that worker's part of the invariant. */
  lemma PreparingStep(s: World, w: WorkerId, step: RunnerStep)
    requires Inv(s) && w in s.reg.handles
    requires IsPreparing(step)
    ensures w in RunnerNext(s, w, step).reg.handles && WorkerInv(RunnerNext(s, w, step), w)
  {
    assert WorkerInv(s, w);
    StillHeld(s, RunnerNext(s, w, step), w);
  }

  lemma HelperEndStep(s: World, w: WorkerId, step: RunnerStep)
    requires Inv(s) && w in s.reg.handles
    requires IsHelperEnd(step)
    ensures w in RunnerNext(s, w, step).reg.handles && WorkerInv(RunnerNext(s, w, step), w)
  {
    assert WorkerInv(s, w);
    StillHeld(s, RunnerNext(s, w, step), w);
  }

  lemma ChildEndStep(s: World, w: WorkerId, step: RunnerStep)
    requires Inv(s) && w in s.reg.handles
    requires IsChildEnd(step)
    ensures w in RunnerNext(s, w, step).reg.handles && WorkerInv(RunnerNext(s, w, step), w)
  {
    assert WorkerInv(s, w);
    StillHeld(s, RunnerNext(s, w, step), w);
  }

  lemma FinishingStep(s: World, w: WorkerId, step: RunnerStep)
    requires Inv(s) && w in s.reg.handles
    requires !IsPreparing(step) && !IsHelperEnd(step) && !IsChildEnd(step)
    ensures w in RunnerNext(s, w, step).reg.handles && WorkerInv(RunnerNext(s, w, step), w)
  {
    assert WorkerInv(s, w);
    StillHeld(s, RunnerNext(s, w, step), w);
  }

  lemma RunnerStepOnWorker(s: World, w: WorkerId, step: RunnerStep)
    requires Inv(s) && w in s.reg.handles
    ensures w in RunnerNext(s, w, step).reg.handles && WorkerInv(RunnerNext(s, w, step), w)
  {
    if IsPreparing(step) {
      PreparingStep(s, w, step);
    } else if IsHelperEnd(step) {
      HelperEndStep(s, w, step);
    } else if IsChildEnd(step) {
      ChildEndStep(s, w, step);
    } else {
      FinishingStep(s, w, step);
    }
  }

  lemma RunnerIsLocal(s: World, w: WorkerId, step: RunnerStep)
    requires Base(s) && RunnerNext(s, w, step) != s
    ensures LocalStep(s, RunnerNext(s, w, step), w)
  {
    assert WorkerBase(s, w);
    if IsPreparing(step) {
      PreparingIsLocal(s, w, step);
    } else if IsHelperEnd(step) {
      HelperEndIsLocal(s, w, step);
    } else if step.ChildReaped? {
      ReapedIsLocal(s, w);
    } else if step.ChildWaitFailed? {
      WaitFailedIsLocal(s, w);
    } else {
      FinishingIsLocal(s, w, step);
    }
  }

  lemma RunnerKeeps(s: World, w: WorkerId, step: RunnerStep)
    requires Inv(s)
    ensures Inv(RunnerNext(s, w, step))
  {
    var next := RunnerNext(s, w, step);
    if next != s {
      InvIsBase(s);
      RunnerIsLocal(s, w, step);
      RunnerStepOnWorker(s, w, step);
      OneWorkerStep(s, next, w);
    }
  }

  lemma SpawnKeeps(s: World)
    requires Inv(s)
    ensures Inv(SpawnNext(s))
  {
    var next := SpawnNext(s);
    forall v | v in s.reg.handles ensures v < s.reg.nextId {
      assert WorkerInv(s, v);
    }
    forall v | v in next.reg.handles ensures WorkerInv(next, v) {
      StillHeld(s, next, v);
      if v in s.reg.handles {
        assert WorkerInv(s, v);
      }
    }
    forall a | a in next.cleaners ensures CleanerInv(next, a) {
      assert CleanerInv(s, a) && WorkerInv(s, s.cleaners[a].worker);
    }
    forall a | a in next.finishers ensures FinisherInv(next, a) {
      assert FinisherInv(s, a) && WorkerInv(s, s.finishers[a].worker);
    }
  }

  lemma CloseKeeps(s: World)
    requires Inv(s)
    ensures Inv(s.(reg := s.reg.(closing := true)))
  {
    var next := s.(reg := s.reg.(closing := true));
    forall v | v in next.reg.handles ensures WorkerInv(next, v) {
      assert WorkerInv(s, v);
      StillHeld(s, next, v);
    }
    forall a | a in next.cleaners ensures CleanerInv(next, a) {
      assert CleanerInv(s, a);
    }
    forall a | a in next.finishers ensures FinisherInv(next, a) {
      assert FinisherInv(s, a);
    }
  }

  // The cleaners' steps, one by one. In each, `w` is the worker at hand.

  lemma OthersHold(s: World, next: World, a: Actor, v: WorkerId)
    requires forall b :: b != a ==>
               (b in s.cleaners <==> b in next.cleaners) && (b in s.cleaners ==> next.cleaners[b] == s.cleaners[b])
    requires a in s.cleaners ==> s.cleaners[a].worker != v
    ensures (exists b :: HeldBy(s, b, v)) ==> (exists b :: HeldBy(next, b, v))
  {
    if b :| HeldBy(s, b, v) {
      assert HeldBy(next, b, v);
    }
  }

  /** Only the cleaner `a` and the handle of its worker `w` change. */
  ghost predicate OnlyCleaner(s: World, next: World, a: Actor, w: WorkerId) {
    && w in s.reg.handles && w in next.reg.handles
    && next.reg.workers == s.reg.workers && next.reg.nextId == s.reg.nextId
    && next.reg.handles.Keys == s.reg.handles.Keys
    && (forall v :: v in s.reg.handles && v != w ==> next.reg.handles[v] == s.reg.handles[v])
    && next.reg.handles[w].reaped == s.reg.handles[w].reaped &&
       next.reg.handles[w].stagingReaped == s.reg.handles[w].stagingReaped
    && next.runners == s.runners && next.finishers == s.finishers && next.owed == s.owed
    && s.discharged <= next.discharged && s.abandoned <= next.abandoned <= s.abandoned + {w}
    && (forall b :: b != a ==>
          (b in s.cleaners <==> b in next.cleaners) && (b in s.cleaners ==> next.cleaners[b] == s.cleaners[b]))
    && (a in s.cleaners ==> s.cleaners[a].worker == w) && (a in next.cleaners ==> next.cleaners[a].worker == w)
  }

  lemma OneCleanerStep(s: World, next: World, a: Actor, w: WorkerId)
    requires Inv(s) && OnlyCleaner(s, next, a, w) && WorkerInv(next, w)
    requires a in next.cleaners ==> CleanerInv(next, a)
    requires a !in s.cleaners ==> forall b :: b in s.cleaners ==> s.cleaners[b].worker != w
    ensures Inv(next)
  {
    forall v | v in next.reg.handles ensures WorkerInv(next, v) {
      if v != w {
        assert WorkerInv(s, v);
        OthersHold(s, next, a, v);
      }
    }
    forall b | b in next.cleaners ensures CleanerInv(next, b) {
      if b != a {
        assert CleanerInv(s, b);
        assert a in s.cleaners ==> s.cleaners[b].worker != w;
      }
    }
    forall f | f in next.finishers ensures FinisherInv(next, f) {
      assert FinisherInv(s, f);
    }
  }

  lemma ClaimKeeps(s: World, a: Actor, w: WorkerId)
    requires Inv(s)
    ensures Inv(CleanerNext(s, a, Claim(w)))
  {
    var next := CleanerNext(s, a, Claim(w));
    if next != s {
      assert WorkerInv(s, w);
      forall b | b in s.cleaners ensures s.cleaners[b].worker != w {
        assert CleanerInv(s, b);
      }
      OneCleanerStep(s, next, a, w);
    }
  }

  lemma HeldOnlyBy(s: World, a: Actor, w: WorkerId)
    requires Inv(s) && a in s.cleaners && s.cleaners[a].worker == w
    ensures (exists b :: HeldBy(s, b, w)) ==> HeldBy(s, a, w)
  {
  }

  lemma TakeKeeps(s: World, a: Actor)
    requires Inv(s)
    ensures Inv(CleanerNext(s, a, Take))
  {
    var next := CleanerNext(s, a, Take);
    if next != s {
      var w := s.cleaners[a].worker;
      assert CleanerInv(s, a) && WorkerInv(s, w);
      HeldOnlyBy(s, a, w);
      if s.reg.handles[w].slot.Some? {
        assert HeldBy(next, a, w);
      }
      OneCleanerStep(s, next, a, w);
    }
  }

  lemma CleanedUpKeeps(s: World, a: Actor, outcome: Cleanup)
    requires Inv(s)
    ensures Inv(CleanerNext(s, a, CleanedUp(outcome)))
  {
    var next := CleanerNext(s, a, CleanedUp(outcome));
    if next != s {
      var w := s.cleaners[a].worker;
      assert CleanerInv(s, a) && WorkerInv(s, w);
      if next.cleaners[a].PuttingBack? {
        assert HeldBy(next, a, w);
      }
      OneCleanerStep(s, next, a, w);
    }
  }

  lemma PutBackKeeps(s: World, a: Actor)
    requires Inv(s)
    ensures Inv(CleanerNext(s, a, PutBack))
  {
    var next := CleanerNext(s, a, PutBack);
    if next != s {
      var w := s.cleaners[a].worker;
      assert CleanerInv(s, a) && WorkerInv(s, w);
      OneCleanerStep(s, next, a, w);
    }
  }

  lemma ReleaseKeeps(s: World, a: Actor)
    requires Inv(s)
    ensures Inv(CleanerNext(s, a, Release))
  {
    var next := CleanerNext(s, a, Release);
    if next != s {
      var w := s.cleaners[a].worker;
      assert CleanerInv(s, a) && WorkerInv(s, w);
      HeldOnlyBy(s, a, w);
      OneCleanerStep(s, next, a, w);
    }
  }

  lemma CancelKeeps(s: World, a: Actor)
    requires Inv(s)
    ensures Inv(CleanerNext(s, a, Cancelled))
  {
    var next := CleanerNext(s, a, Cancelled);
    if next != s {
      var w := s.cleaners[a].worker;
      assert CleanerInv(s, a) && WorkerInv(s, w);
      HeldOnlyBy(s, a, w);
      OneCleanerStep(s, next, a, w);
    }
  }

  lemma CleanerKeeps(s: World, a: Actor, step: CleanerStep)
    requires Inv(s)
    ensures Inv(CleanerNext(s, a, step))
  {
    match step
    case Claim(w) => ClaimKeeps(s, a, w);
    case Take => TakeKeeps(s, a);
    case CleanedUp(outcome) => CleanedUpKeeps(s, a, outcome);
    case PutBack => PutBackKeeps(s, a);
    case Release => ReleaseKeeps(s, a);
    case Cancelled => CancelKeeps(s, a);
  }

  lemma FinisherMovesKeep(s: World, next: World)
    requires Inv(s) && next == s.(finishers := next.finishers)
    requires forall a :: a in next.finishers ==> FinisherInv(next, a)
    ensures Inv(next)
  {
    forall w | w in next.reg.handles ensures WorkerInv(next, w) {
      assert WorkerInv(s, w);
      StillHeld(s, next, w);
    }
    forall a | a in next.cleaners ensures CleanerInv(next, a) {
      assert CleanerInv(s, a);
    }
  }

  /** A removal that loses nothing keeps the accounting of every worker. */
  lemma RemoveKeeps(s: World, a: Actor)
    requires Inv(s) && !Loses(s, ByFinisher(a, Remove))
    ensures Inv(FinisherNext(s, a, Remove))
  {
    var next := FinisherNext(s, a, Remove);
    if next != s {
      var w := s.finishers[a].worker;
      assert FinisherInv(s, a);
      assert WorkerInv(s, w);
      forall b | HeldBy(s, b, w) ensures s.reg.handles[w].finalizing {
        assert CleanerInv(s, b);
      }
      assert w in s.owed ==> w in s.discharged;
      forall v | v in next.reg.handles ensures WorkerInv(next, v) {
        assert WorkerInv(s, v);
        StillHeld(s, next, v);
      }
      forall b | b in next.cleaners ensures CleanerInv(next, b) {
        assert CleanerInv(s, b);
      }
      forall b | b in next.finishers ensures FinisherInv(next, b) {
        assert FinisherInv(s, b);
      }
    }
  }

  lemma FinisherKeeps(s: World, a: Actor, step: FinisherStep)
    requires Inv(s) && !Loses(s, ByFinisher(a, step))
    ensures Inv(FinisherNext(s, a, step))
  {
    if step.Remove? {
      RemoveKeeps(s, a);
    } else {
      var next := FinisherNext(s, a, step);
      forall b | b in next.finishers ensures FinisherInv(next, b) {
        if b in s.finishers {
          assert FinisherInv(s, b);
        }
      }
      FinisherMovesKeep(s, next);
    }
  }

  lemma StepKeeps(s: World, e: Event)
    requires Inv(s) && !Loses(s, e)
    ensures Inv(Next(s, e))
  {
    match e
    case SpawnWorker => SpawnKeeps(s);
    case CloseAdmission => CloseKeeps(s);
    case OnWorker(w, step) => RunnerKeeps(s, w, step);
    case ByCleaner(a, step) => CleanerKeeps(s, a, step);
    case ByFinisher(a, step) => FinisherKeeps(s, a, step);
  }

  lemma {:induction false} InvHolds(s: World, events: seq<Event>)
    requires Inv(s) && Lossless(s, events)
    ensures Inv(Run(s, events))
    decreases |events|
  {
    if events != [] {
      StepKeeps(s, events[0]);
      InvHolds(Next(s, events[0]), events[1..]);
    }
  }

  // ---------------------------------------------- what every step keeps

  lemma PreparingBase(s: World, w: WorkerId, step: RunnerStep)
    requires w in s.reg.handles && WorkerBase(s, w) && IsPreparing(step)
    ensures w in RunnerNext(s, w, step).reg.handles && WorkerBase(RunnerNext(s, w, step), w)
  {
  }

  lemma EndingBase(s: World, w: WorkerId, step: RunnerStep)
    requires w in s.reg.handles && WorkerBase(s, w) && !IsPreparing(step)
    ensures w in RunnerNext(s, w, step).reg.handles && WorkerBase(RunnerNext(s, w, step), w)
  {
  }

  lemma RunnerBaseAt(s: World, w: WorkerId, step: RunnerStep)
    requires Base(s) && w in s.reg.handles
    ensures w in RunnerNext(s, w, step).reg.handles && WorkerBase(RunnerNext(s, w, step), w)
  {
    if IsPreparing(step) {
      PreparingBase(s, w, step);
    } else {
      EndingBase(s, w, step);
    }
  }

  lemma RunnerBase(s: World, w: WorkerId, step: RunnerStep)
    requires Base(s)
    ensures Base(RunnerNext(s, w, step))
  {
    var next := RunnerNext(s, w, step);
    if next != s {
      RunnerIsLocal(s, w, step);
      RunnerBaseAt(s, w, step);
      forall v | v in next.reg.handles ensures WorkerBase(next, v) {
        assert WorkerBase(s, v);
      }
      forall a | a in next.cleaners ensures IsClaimed(next, a) {
        assert IsClaimed(s, a);
      }
      forall a | a in next.finishers ensures FinisherInv(next, a) {
        assert FinisherInv(s, a);
      }
    }
  }

  /** A cleaner changes only the slot and the flag of its worker. */
  lemma CleanerTouches(s: World, a: Actor, step: CleanerStep, w: WorkerId)
    requires w in s.reg.handles
    ensures var next := CleanerNext(s, a, step);
            && next.runners == s.runners && next.finishers == s.finishers && next.reg.nextId == s.reg.nextId
            && w in next.reg.handles
            && var was, now := s.reg.handles[w], next.reg.handles[w];
               now == was.(slot := now.slot, finalizing := now.finalizing)
  {
  }

  lemma CleanerClaims(s: World, a: Actor, step: CleanerStep)
    requires Base(s)
    ensures var next := CleanerNext(s, a, step);
            Exclusive(next) && forall b :: b in next.cleaners ==> IsClaimed(next, b)
  {
    var next := CleanerNext(s, a, step);
    forall b | b in s.cleaners ensures IsClaimed(s, b) {
    }
    forall b | b in next.cleaners ensures IsClaimed(next, b) {
      assert b != a ==> b in s.cleaners && next.cleaners[b] == s.cleaners[b];
    }
  }

  lemma CleanerBase(s: World, a: Actor, step: CleanerStep)
    requires Base(s)
    ensures Base(CleanerNext(s, a, step))
  {
    var next := CleanerNext(s, a, step);
    CleanerKeepsWorkers(s, a, step);
    CleanerClaims(s, a, step);
    forall w | w in next.reg.handles ensures WorkerBase(next, w) {
      assert WorkerBase(s, w);
      CleanerTouches(s, a, step, w);
    }
    forall b | b in next.finishers ensures FinisherInv(next, b) {
      assert b in s.finishers ==> FinisherInv(s, b);
      if b in s.finishers && s.finishers[b].worker in s.reg.handles {
        CleanerTouches(s, a, step, s.finishers[b].worker);
      }
    }
  }

  lemma FinisherBase(s: World, a: Actor, step: FinisherStep)
    requires Base(s)
    ensures Base(FinisherNext(s, a, step))
  {
    var next := FinisherNext(s, a, step);
    forall b | b in next.finishers ensures FinisherInv(next, b) {
      if b in s.finishers {
        assert FinisherInv(s, b);
      }
    }
    forall w | w in next.reg.handles ensures WorkerBase(next, w) {
      assert WorkerBase(s, w);
      if w in s.reg.workers && w !in next.reg.workers {
        assert FinisherInv(s, a);
      }
    }
    forall b | b in next.cleaners ensures IsClaimed(next, b) {
      assert IsClaimed(s, b);
    }
  }

  lemma OpeningBase(s: World, e: Event)
    requires Base(s) && (e.SpawnWorker? || e.CloseAdmission?)
    ensures Base(Next(s, e))
  {
    var next := Next(s, e);
    forall w | w in s.reg.handles ensures w < s.reg.nextId {
      assert WorkerBase(s, w);
    }
    forall w | w in next.reg.handles ensures WorkerBase(next, w) {
      assert w in s.reg.handles ==> WorkerBase(s, w);
    }
    forall a | a in next.cleaners ensures IsClaimed(next, a) {
      assert IsClaimed(s, a);
    }
    forall a | a in next.finishers ensures FinisherInv(next, a) {
      assert FinisherInv(s, a);
    }
  }

  lemma BaseKept(s: World, e: Event)
    requires Base(s)
    ensures Base(Next(s, e))
  {
    match e
    case OnWorker(w, step) => RunnerBase(s, w, step);
    case ByCleaner(a, step) => CleanerBase(s, a, step);
    case ByFinisher(a, step) => FinisherBase(s, a, step);
    case _ => OpeningBase(s, e);
  }

  lemma {:induction false} BaseHolds(s: World, events: seq<Event>)
    requires Base(s)
    ensures Base(Run(s, events))
    decreases |events|
  {
    if events != [] {
      BaseKept(s, events[0]);
      BaseHolds(Next(s, events[0]), events[1..]);
    }
  }

  // --------------------------------------- nothing left of a removed worker

  /** A worker that is not registered has an empty slot and no obligation in
      anyone's hand. */
  ghost predicate Tidy(s: World) {
    forall w :: w in s.reg.handles && w !in s.reg.workers ==> IsClear(s, w)
  }

  ghost predicate IsClear(s: World, w: WorkerId)
    requires w in s.reg.handles
  {
    s.reg.handles[w].slot.None? && w !in s.abandoned && forall a :: !HeldBy(s, a, w)
  }

  lemma RunnerTidy(s: World, v: WorkerId, step: RunnerStep, w: WorkerId)
    requires Inv(s) && w in s.reg.handles && w !in s.reg.workers && IsClear(s, w)
    ensures w in RunnerNext(s, v, step).reg.handles && IsClear(RunnerNext(s, v, step), w)
  {
    var next := RunnerNext(s, v, step);
    if next != s {
      InvIsBase(s);
      RunnerIsLocal(s, v, step);
      if v == w { SlotStaysEmpty(s, w, step); }
      assert forall a :: HeldBy(next, a, w) ==> HeldBy(s, a, w);
    }
  }

  lemma SlotStaysEmpty(s: World, w: WorkerId, step: RunnerStep)
    requires Inv(s) && w in s.reg.handles && w !in s.reg.workers && s.reg.handles[w].slot.None?
    ensures w in RunnerNext(s, w, step).reg.handles && RunnerNext(s, w, step).reg.handles[w].slot.None?
  {
    assert WorkerInv(s, w);
  }

  lemma RunnerKeepsWorkers(s: World, v: WorkerId, step: RunnerStep)
    ensures RunnerNext(s, v, step).reg.workers == s.reg.workers
    ensures RunnerNext(s, v, step).reg.handles.Keys == s.reg.handles.Keys
  {
  }

  lemma CleanerTidy(s: World, a: Actor, step: CleanerStep, w: WorkerId)
    requires Inv(s) && w in s.reg.handles && w !in s.reg.workers && IsClear(s, w)
    ensures w in CleanerNext(s, a, step).reg.handles && IsClear(CleanerNext(s, a, step), w)
  {
    assert !HeldBy(s, a, w);
    forall b ensures !HeldBy(CleanerNext(s, a, step), b, w) {
      assert !HeldBy(s, b, w);
    }
  }

  lemma CleanerKeepsWorkers(s: World, a: Actor, step: CleanerStep)
    ensures CleanerNext(s, a, step).reg.workers == s.reg.workers
    ensures CleanerNext(s, a, step).reg.handles.Keys == s.reg.handles.Keys
  {
  }

  lemma FinisherTidy(s: World, a: Actor, step: FinisherStep)
    requires Inv(s) && Tidy(s) && !Disturbs(s, ByFinisher(a, step))
    ensures Tidy(FinisherNext(s, a, step))
  {
    var next := FinisherNext(s, a, step);
    forall w | w in next.reg.handles && w !in next.reg.workers ensures IsClear(next, w) {
      assert WorkerInv(s, w);
      if w in s.reg.workers {
        forall b | b in s.cleaners ensures !HeldBy(next, b, w) {
          assert CleanerInv(s, b);
        }
      } else {
        assert IsClear(s, w);
        assert forall b :: HeldBy(next, b, w) ==> HeldBy(s, b, w);
      }
    }
  }

  lemma OpeningTidy(s: World, e: Event)
    requires Inv(s) && Tidy(s) && (e.SpawnWorker? || e.CloseAdmission?)
    ensures Tidy(Next(s, e))
  {
    var next := Next(s, e);
    forall w | w in next.reg.handles && w !in next.reg.workers ensures IsClear(next, w) {
      assert IsClear(s, w);
      assert forall b :: HeldBy(next, b, w) ==> HeldBy(s, b, w);
    }
  }

  lemma TidyKept(s: World, e: Event)
    requires Inv(s) && Tidy(s) && !Disturbs(s, e)
    ensures Tidy(Next(s, e))
  {
    match e
    case OnWorker(v, step) =>
      RunnerKeepsWorkers(s, v, step);
      forall w | w in s.reg.handles && w !in s.reg.workers
        ensures w in Next(s, e).reg.handles && IsClear(Next(s, e), w)
      {
        RunnerTidy(s, v, step, w);
      }
    case ByCleaner(a, step) =>
      CleanerKeepsWorkers(s, a, step);
      forall w | w in s.reg.handles && w !in s.reg.workers
        ensures w in Next(s, e).reg.handles && IsClear(Next(s, e), w)
      {
        CleanerTidy(s, a, step, w);
      }
    case ByFinisher(a, step) => FinisherTidy(s, a, step);
    case _ => OpeningTidy(s, e);
  }

  lemma {:induction false} UndisturbedKeeps(s: World, events: seq<Event>)
    requires Inv(s) && Undisturbed(s, events)
    ensures Lossless(s, events)
    ensures Tidy(s) ==> Tidy(Run(s, events))
    decreases |events|
  {
    if events != [] {
      StepKeeps(s, events[0]);
      if Tidy(s) { TidyKept(s, events[0]); }
      UndisturbedKeeps(Next(s, events[0]), events[1..]);
    }
  }

  // ------------------------------------------------------- the main results

  /** Where a registered obligation can be found: discharged, in the slot of a
      registered worker, or in hand, or stuck with a cancelled cleaner, of a worker
      that stays registered and `finalizing`. */
  ghost predicate Kept(s: World, w: WorkerId) {
    && w in s.reg.handles
    && (|| w in s.discharged
        || (s.reg.handles[w].slot.Some? && w in s.reg.workers)
        || (w in s.reg.workers && s.reg.handles[w].finalizing && (w in s.abandoned || exists a :: HeldBy(s, a, w))))
  }

  lemma OwedIsKept(s: World, w: WorkerId)
    requires Inv(s) && w in s.owed
    ensures Kept(s, w)
  {
    assert WorkerInv(s, w);
    if a :| HeldBy(s, a, w) {
      assert CleanerInv(s, a);
    }
  }

  /** No cleanup obligation is lost in an interleaving in which no removal finds
      its reads outdated and the obligation undischarged. */
  lemma NoObligationLost(events: seq<Event>, w: WorkerId)
    requires Lossless(START, events)
    requires w in Run(START, events).owed
    ensures Kept(Run(START, events), w)
  {
    InvHolds(START, events);
    OwedIsKept(Run(START, events), w);
  }

  /** No obligation is lost at any point of the interleaving. */
  ghost predicate NeverLost(s: World, events: seq<Event>) {
    forall n, w :: 0 <= n <= |events| && w in Run(s, events[..n]).owed ==> Kept(Run(s, events[..n]), w)
  }

  /** Exactly when a removal loses an obligation: when a second look at the flag
      and the slot would have refused it, and the obligation is undischarged. */
  lemma RemovalLosesIff(s: World, a: Actor)
    requires Inv(s) && a in s.finishers && s.finishers[a].SawReaped?
    ensures var e, w := ByFinisher(a, Remove), s.finishers[a].worker;
            w in s.owed && !Kept(Next(s, e), w) <==> Disturbs(s, e) && w in s.owed && w !in s.discharged
  {
    var w := s.finishers[a].worker;
    assert FinisherInv(s, a) && WorkerInv(s, w);
    if w in s.owed && w !in s.discharged {
      if b :| HeldBy(s, b, w) {
        assert CleanerInv(s, b);
      }
    }
  }

  lemma {:induction false} LosslessPrefix(s: World, events: seq<Event>, n: nat)
    requires Lossless(s, events) && n <= |events|
    ensures Lossless(s, events[..n])
    decreases |events|
  {
    if n > 0 {
      LosslessPrefix(Next(s, events[0]), events[1..], n - 1);
      assert events[..n][1..] == events[1..][..n - 1];
    }
  }

  lemma NeverLostTail(s: World, events: seq<Event>)
    requires NeverLost(s, events) && events != []
    ensures NeverLost(Next(s, events[0]), events[1..])
  {
    var next := Next(s, events[0]);
    forall n, w | 0 <= n <= |events[1..]| && w in Run(next, events[1..][..n]).owed
      ensures Kept(Run(next, events[1..][..n]), w)
    {
      assert events[..n + 1][1..] == events[1..][..n];
      assert Run(s, events[..n + 1]) == Run(next, events[1..][..n]);
    }
  }

  lemma FirstStepKept(s: World, events: seq<Event>)
    requires NeverLost(s, events) && events != []
    ensures forall w :: w in Next(s, events[0]).owed ==> Kept(Next(s, events[0]), w)
  {
    assert events[..1] == [events[0]] && [events[0]][1..] == [];
    assert Run(s, events[..1]) == Run(Next(s, events[0]), []);
    forall w | w in Run(s, events[..1]).owed ensures Kept(Run(s, events[..1]), w) {
    }
  }

  lemma LossShows(s: World, e: Event)
    requires Inv(s) && Loses(s, e)
    ensures exists w :: w in Next(s, e).owed && !Kept(Next(s, e), w)
  {
    RemovalLosesIff(s, e.a);
  }

  lemma {:induction false} NeverLostIsLossless(s: World, events: seq<Event>)
    requires Inv(s) && NeverLost(s, events)
    ensures Lossless(s, events)
    decreases |events|
  {
    if events != [] {
      var e := events[0];
      FirstStepKept(s, events);
      assert !Loses(s, e) by {
        if Loses(s, e) { LossShows(s, e); }
      }
      StepKeeps(s, e);
      NeverLostTail(s, events);
      NeverLostIsLossless(Next(s, e), events[1..]);
    }
  }

  /** Over any interleaving of the split `finish_worker`: no obligation is ever
      lost if and only if no removal has outdated reads and the worker's
      obligation undischarged. */
  lemma NeverLostIff(events: seq<Event>)
    ensures NeverLost(START, events) <==> Lossless(START, events)
  {
    if Lossless(START, events) {
      forall n, w | 0 <= n <= |events| && w in Run(START, events[..n]).owed ensures Kept(Run(START, events[..n]), w) {
        LosslessPrefix(START, events, n);
        NoObligationLost(events[..n], w);
      }
    }
    if NeverLost(START, events) {
      NeverLostIsLossless(START, events);
    }
  }

  /** When shutdown verifies, in any interleaving, every worker ever registered and
      its staging helper were reaped; and when nothing was lost, every obligation
      ever registered is discharged. */
  lemma VerifiedShutdown(events: seq<Event>)
    requires Run(START, events).reg.ShutDown()
    ensures var s := Run(START, events);
            && (forall w :: w in s.reg.handles ==> s.reg.handles[w].reaped && s.reg.handles[w].stagingReaped)
            && (Lossless(START, events) ==> s.owed <= s.discharged)
  {
    var s := Run(START, events);
    BaseHolds(START, events);
    forall w | w in s.reg.handles ensures s.reg.handles[w].reaped && s.reg.handles[w].stagingReaped {
      assert WorkerBase(s, w);
    }
    if Lossless(START, events) {
      InvHolds(START, events);
      forall w | w in s.owed ensures w in s.discharged {
        assert WorkerInv(s, w);
      }
    }
  }

  /** With all removals undisturbed no slot is left filled and no cleaner was
      cancelled with an obligation in hand either. */
  lemma VerifiedShutdownIsClean(events: seq<Event>)
    requires Undisturbed(START, events)
    requires Run(START, events).reg.ShutDown()
    ensures var s := Run(START, events);
            && (forall w :: w in s.reg.handles ==>
                  s.reg.handles[w].reaped && s.reg.handles[w].stagingReaped && s.reg.handles[w].slot.None?)
            && s.owed <= s.discharged
            && s.abandoned == {}
  {
    UndisturbedKeeps(START, events);
    VerifiedShutdown(events);
    InvHolds(START, events);
    var s := Run(START, events);
    assert forall w :: w in s.reg.handles ==> IsClear(s, w);
  }

  /** At most one cleaner works on a worker at a time, in any interleaving. */
  lemma CleanersExclude(events: seq<Event>, a: Actor, b: Actor)
    ensures var s := Run(START, events);
            a in s.cleaners && b in s.cleaners && s.cleaners[a].worker == s.cleaners[b].worker ==> a == b
  {
    BaseHolds(START, events);
  }

  /** Only a cancelled cleaner leaves an obligation nowhere but in its hand. */
  lemma {:induction false} NothingAbandoned(s: World, events: seq<Event>)
    requires s.abandoned == {}
    requires forall e :: e in events && e.ByCleaner? ==> !e.clean.Cancelled?
    ensures Run(s, events).abandoned == {}
    decreases |events|
  {
    if events != [] {
      NotAbandonedBy(s, events[0]);
      NothingAbandoned(Next(s, events[0]), events[1..]);
    }
  }

  lemma NotAbandonedBy(s: World, e: Event)
    requires e.ByCleaner? ==> !e.clean.Cancelled?
    ensures Next(s, e).abandoned == s.abandoned
  {
  }

  /** No worker is registered after admission closed, in any interleaving. */
  lemma {:induction false} NoneRegisteredAfterClosing(s: World, events: seq<Event>)
    requires s.reg.closing
    ensures Run(s, events).reg.closing && Run(s, events).reg.workers <= s.reg.workers
    decreases |events|
  {
    if events != [] {
      ClosingStep(s, events[0]);
      NoneRegisteredAfterClosing(Next(s, events[0]), events[1..]);
    }
  }

  lemma ClosingStep(s: World, e: Event)
    requires s.reg.closing
    ensures Next(s, e).reg.closing && Next(s, e).reg.workers <= s.reg.workers
  {
  }

  // ------------------------------------------------ an atomic finish_worker

  /** An interleaving in which every `finish_worker` call is one step. */
  datatype AtomicEvent = Plain(e: Event) | Finish(w: WorkerId)

  predicate IsAtomic(e: AtomicEvent) {
    e.Plain? ==> !e.e.ByFinisher?
  }

  function AtomicNext(s: World, e: AtomicEvent): World {
    match e
    case Plain(event) => Next(s, event)
    case Finish(w) => s.(reg := s.reg.Finished(w))
  }

  function AtomicRun(s: World, events: seq<AtomicEvent>): World
    decreases |events|
  {
    if events == [] then s else AtomicRun(AtomicNext(s, events[0]), events[1..])
  }

  /** The steps of a call of `finish_worker`. */
  function FinishSteps(w: WorkerId): seq<Event> {
    [ByFinisher(0, Call(w)), ByFinisher(0, ReadSlot), ByFinisher(0, ReadReaped), ByFinisher(0, Remove)]
  }

  function Expand(e: AtomicEvent): seq<Event> {
    match e
    case Plain(event) => [event]
    case Finish(w) => FinishSteps(w)
  }

  function ExpandAll(events: seq<AtomicEvent>): seq<Event> {
    if events == [] then [] else Expand(events[0]) + ExpandAll(events[1..])
  }

  lemma RunFour(s: World, a: Event, b: Event, c: Event, d: Event)
    ensures Run(s, [a, b, c, d]) == Next(Next(Next(Next(s, a), b), c), d)
    ensures (!Disturbs(s, a) && !Disturbs(Next(s, a), b) && !Disturbs(Next(Next(s, a), b), c)
             && !Disturbs(Next(Next(Next(s, a), b), c), d)) ==> Undisturbed(s, [a, b, c, d])
  {
    var s1 := Next(s, a);
    var s2 := Next(s1, b);
    var s3 := Next(s2, c);
    assert [a, b, c, d][1..] == [b, c, d] && [b, c, d][1..] == [c, d] && [c, d][1..] == [d] && [d][1..] == [];
    assert Run(s3, [d]) == Run(Next(s3, d), []) == Next(s3, d);
    assert Run(s2, [c, d]) == Run(s3, [d]);
    assert Run(s1, [b, c, d]) == Run(s2, [c, d]);
    assert Undisturbed(s3, [d]) <==> !Disturbs(s3, d);
    assert Undisturbed(s2, [c, d]) <==> !Disturbs(s2, c) && Undisturbed(s3, [d]);
    assert Undisturbed(s1, [b, c, d]) <==> !Disturbs(s1, b) && Undisturbed(s2, [c, d]);
  }

  /** A call of `finish_worker` with nothing in between is the atomic step, and it
      is never disturbed. */
  lemma AtomicFinishUndisturbed(s: World, w: WorkerId)
    requires s.finishers == map[]
    ensures Undisturbed(s, FinishSteps(w)) && Run(s, FinishSteps(w)) == AtomicNext(s, Finish(w))
  {
    var events := FinishSteps(w);
    RunFour(s, events[0], events[1], events[2], events[3]);
    if w in s.reg.handles && !s.reg.handles[w].finalizing {
      var s1 := Next(s, events[0]);
      assert s1 == s.(finishers := map[0 := SawIdle(w)]);
      var s2 := Next(s1, events[1]);
      assert s2 == s.(finishers := if s.reg.handles[w].slot.Some? then map[] else map[0 := SawEmpty(w)]);
    } else {
      assert Next(s, events[0]) == s;
    }
  }

  lemma {:induction false} UndisturbedConcat(s: World, first: seq<Event>, second: seq<Event>)
    requires Undisturbed(s, first) && Undisturbed(Run(s, first), second)
    ensures Undisturbed(s, first + second) && Run(s, first + second) == Run(Run(s, first), second)
    decreases |first|
  {
    if first == [] {
      assert first + second == second;
    } else {
      assert (first + second)[1..] == first[1..] + second;
      UndisturbedConcat(Next(s, first[0]), first[1..], second);
    }
  }

  lemma ExpandStep(s: World, e: AtomicEvent)
    requires s.finishers == map[] && IsAtomic(e)
    ensures Undisturbed(s, Expand(e)) && Run(s, Expand(e)) == AtomicNext(s, e)
    ensures AtomicNext(s, e).finishers == map[]
  {
    match e
    case Plain(event) =>
      assert [event][1..] == [];
      assert Run(s, [event]) == Run(Next(s, event), []);
      assert Undisturbed(s, [event]) <==> !Disturbs(s, event) && Undisturbed(Next(s, event), []);
    case Finish(w) => AtomicFinishUndisturbed(s, w);
  }

  /** A run with atomic calls is an undisturbed run of their steps. */
  lemma {:induction false} AtomicRunExpands(s: World, events: seq<AtomicEvent>)
    requires s.finishers == map[] && forall e :: e in events ==> IsAtomic(e)
    ensures Undisturbed(s, ExpandAll(events)) && Run(s, ExpandAll(events)) == AtomicRun(s, events)
    decreases |events|
  {
    if events != [] {
      ExpandStep(s, events[0]);
      AtomicRunExpands(AtomicNext(s, events[0]), events[1..]);
      UndisturbedConcat(s, Expand(events[0]), ExpandAll(events[1..]));
    }
  }

  /** With an atomic `finish_worker` no obligation is lost in any interleaving. */
  lemma AtomicNoObligationLost(events: seq<AtomicEvent>, w: WorkerId)
    requires forall e :: e in events ==> IsAtomic(e)
    requires w in AtomicRun(START, events).owed
    ensures Kept(AtomicRun(START, events), w)
  {
    AtomicRunExpands(START, events);
    UndisturbedKeeps(START, ExpandAll(events));
    NoObligationLost(ExpandAll(events), w);
  }

  /** With an atomic `finish_worker`, in any interleaving: when shutdown verifies,
      every worker and helper was reaped, every obligation is discharged, no slot
      is filled and nothing is stuck with a cancelled cleaner. */
  lemma AtomicShutdownIsClean(events: seq<AtomicEvent>)
    requires forall e :: e in events ==> IsAtomic(e)
    requires AtomicRun(START, events).reg.ShutDown()
    ensures var s := AtomicRun(START, events);
            && (forall w :: w in s.reg.handles ==>
                  s.reg.handles[w].reaped && s.reg.handles[w].stagingReaped && s.reg.handles[w].slot.None?)
            && s.owed <= s.discharged
            && s.abandoned == {}
  {
    AtomicRunExpands(START, events);
    VerifiedShutdownIsClean(ExpandAll(events));
  }

  // -------------------------------------------- what discharges an obligation

  /** The only ways in which the obligation of `w` is discharged: the runner
      finished staging cleanly, the helper reported that it retains nothing, or a
      cleanup by path removed the object, or found none although the obligation in
      hand was never prepared. */
  predicate Releases(s: World, e: Event, w: WorkerId) {
    match e
    case OnWorker(v, StagingFinished(clean)) => v == w && clean && w in s.runners && s.runners[w].Waited?
    case OnWorker(v, HelperReported(retained)) => v == w && !retained && w in s.runners && s.runners[w].HelperDown?
    case ByCleaner(a, CleanedUp(outcome)) =>
      && a in s.cleaners && s.cleaners[a].Holding? && s.cleaners[a].worker == w
      && (outcome.ObjectRemoved? || (outcome.ObjectAbsent? && !s.cleaners[a].obligation.prepared))
    case _ => false
  }

  lemma RunnerReleases(s: World, v: WorkerId, step: RunnerStep, w: WorkerId)
    requires Base(s) && w in s.reg.handles
    ensures w in RunnerNext(s, v, step).discharged <==> w in s.discharged || Releases(s, OnWorker(v, step), w)
  {
    assert WorkerBase(s, w);
  }

  /** Nothing else discharges it, and nothing takes the discharge back. */
  lemma DischargedIff(s: World, e: Event, w: WorkerId)
    requires Base(s) && w in s.reg.handles
    ensures w in Next(s, e).discharged <==> w in s.discharged || Releases(s, e, w)
  {
    match e
    case OnWorker(v, step) => RunnerReleases(s, v, step, w);
    case ByCleaner(a, _) =>
      if a in s.cleaners { assert IsClaimed(s, a); }
    case _ =>
  }

  /** An obligation is owed from its registration on. */
  lemma OwedIff(s: World, e: Event, w: WorkerId)
    requires Base(s) && w in s.reg.handles
    ensures w in Next(s, e).owed <==>
              w in s.owed
              || (e == OnWorker(w, RegisterObligation) && s.runners[w].Fresh? && s.reg.handles[w].slot.None?)
  {
    assert WorkerBase(s, w);
  }

  /** What happens to a filled slot: it stays, possibly marked, or its obligation
      is discharged, or a cleaner takes it out and has it in hand. */
  lemma SlotFate(s: World, e: Event, w: WorkerId)
    requires Inv(s) && w in s.reg.handles && s.reg.handles[w].slot.Some?
    ensures w in Next(s, e).reg.handles
    ensures Next(s, e).reg.handles[w].slot.None? && w !in Next(s, e).discharged ==>
              && e.ByCleaner? && e.clean.Take?
              && e.a in Next(s, e).cleaners && Next(s, e).cleaners[e.a] == Holding(w, s.reg.handles[w].slot.value)
  {
    assert WorkerInv(s, w);
    match e
    case OnWorker(v, step) => RunnerSlotFate(s, v, step, w);
    case ByCleaner(a, step) => CleanerSlotFate(s, a, step, w);
    case _ => OtherSlotFate(s, e, w);
  }

  lemma CleanerSlotFate(s: World, a: Actor, step: CleanerStep, w: WorkerId)
    requires w in s.reg.handles && s.reg.handles[w].slot.Some?
    ensures var next := CleanerNext(s, a, step);
            && w in next.reg.handles
            && (next.reg.handles[w].slot.None? ==>
                  step.Take? && a in next.cleaners && next.cleaners[a] == Holding(w, s.reg.handles[w].slot.value))
  {
  }

  lemma OtherSlotFate(s: World, e: Event, w: WorkerId)
    requires !e.OnWorker? && !e.ByCleaner? && w in s.reg.handles && w < s.reg.nextId
    ensures w in Next(s, e).reg.handles && Next(s, e).reg.handles[w].slot == s.reg.handles[w].slot
  {
  }

  lemma RunnerSlotFate(s: World, v: WorkerId, step: RunnerStep, w: WorkerId)
    requires w in s.reg.handles && WorkerInv(s, w) && s.reg.handles[w].slot.Some?
    ensures var next := RunnerNext(s, v, step);
            w in next.reg.handles && (next.reg.handles[w].slot.None? ==> w in next.discharged)
  {
  }

  /** The slot is emptied by the report that nothing is retained, by the runner once
      staging finished cleanly, and by the cleaner that takes the obligation. */
  predicate Empties(s: World, e: Event, w: WorkerId) {
    match e
    case OnWorker(v, HelperReported(retained)) => v == w && !retained && w in s.runners && s.runners[w].HelperDown?
    case OnWorker(v, SlotCleared) => v == w && w in s.runners && s.runners[w] == Finished(true)
    case ByCleaner(a, Take) => a in s.cleaners && s.cleaners[a] == Claimed(w)
    case _ => false
  }

  /** It is filled by the registration and by the cleaner that puts the obligation
      back. */
  predicate Fills(s: World, e: Event, w: WorkerId) {
    match e
    case OnWorker(v, RegisterObligation) => v == w && w in s.runners && s.runners[w].Fresh?
    case ByCleaner(a, PutBack) => a in s.cleaners && s.cleaners[a].PuttingBack? && s.cleaners[a].worker == w
    case _ => false
  }

  lemma SlotIff(s: World, e: Event, w: WorkerId)
    requires Base(s) && w in s.reg.handles
    ensures w in Next(s, e).reg.handles
    ensures Next(s, e).reg.handles[w].slot.Some?
            <==> (s.reg.handles[w].slot.Some? && !Empties(s, e, w)) || Fills(s, e, w)
  {
    assert WorkerBase(s, w);
    match e
    case OnWorker(v, step) => RunnerSlotIff(s, v, step, w);
    case ByCleaner(a, _) => if a in s.cleaners { assert IsClaimed(s, a); }
    case _ =>
  }

  lemma RunnerSlotIff(s: World, v: WorkerId, step: RunnerStep, w: WorkerId)
    requires w in s.reg.handles && w in s.runners
    ensures var next, e := RunnerNext(s, v, step), OnWorker(v, step);
            && w in next.reg.handles
            && (next.reg.handles[w].slot.Some?
                <==> (s.reg.handles[w].slot.Some? && !Empties(s, e, w)) || Fills(s, e, w))
  {
  }

  /** What happens to an obligation in hand: it stays there, is discharged, goes
      back to the slot as it was, or is stuck with its cancelled cleaner. */
  lemma HandFate(s: World, e: Event, a: Actor)
    requires Inv(s) && a in s.cleaners && s.cleaners[a].InHand()
    ensures var next, w := Next(s, e), s.cleaners[a].worker;
            || (a in next.cleaners && next.cleaners[a].InHand() && next.cleaners[a].worker == w
                && next.cleaners[a].obligation == s.cleaners[a].obligation)
            || w in next.discharged
            || (w in next.reg.handles && next.reg.handles[w].slot == Some(s.cleaners[a].obligation))
            || w in next.abandoned
  {
    assert CleanerInv(s, a);
    match e
    case ByCleaner(b, step) => CleanerHandFate(s, b, step, a);
    case _ => CleanersStay(s, e);
  }

  lemma CleanersStay(s: World, e: Event)
    requires !e.ByCleaner?
    ensures Next(s, e).cleaners == s.cleaners
  {
  }

  lemma CleanerHandFate(s: World, b: Actor, step: CleanerStep, a: Actor)
    requires a in s.cleaners && s.cleaners[a].InHand() && s.cleaners[a].worker in s.reg.handles
    ensures var next, w := CleanerNext(s, b, step), s.cleaners[a].worker;
            || (a in next.cleaners && next.cleaners[a] == s.cleaners[a])
            || (a in next.cleaners && next.cleaners[a] == PuttingBack(w, s.cleaners[a].obligation))
            || w in next.discharged
            || (w in next.reg.handles && next.reg.handles[w].slot == Some(s.cleaners[a].obligation))
            || w in next.abandoned
  {
  }

  /** The obligation of `w`, in the slot or in hand, is marked as prepared. */
  ghost predicate IsPrepared(s: World, w: WorkerId) {
    || (w in s.reg.handles && s.reg.handles[w].slot.Some? && s.reg.handles[w].slot.value.prepared)
    || exists a :: HeldBy(s, a, w) && s.cleaners[a].obligation.prepared
  }

  /** An obligation becomes prepared only when the helper answers so while it is in
      the slot. */
  lemma PreparedOnlyByAnswer(s: World, e: Event, w: WorkerId)
    requires Inv(s) && w in s.reg.handles && IsPrepared(Next(s, e), w) && !IsPrepared(s, w)
    ensures e == OnWorker(w, HelperAnswered) && s.runners[w].HelperUp? && s.reg.handles[w].slot.Some?
  {
    match e
    case OnWorker(v, step) =>
      assert WorkerInv(s, w);
      RunnerPrepares(s, v, step, w);
    case ByCleaner(a, step) => CleanerPrepares(s, a, step, w);
    case _ => OthersPrepareNothing(s, e, w);
  }

  lemma OthersPrepareNothing(s: World, e: Event, w: WorkerId)
    requires Inv(s) && w in s.reg.handles && !e.OnWorker? && !e.ByCleaner?
    ensures IsPrepared(Next(s, e), w) ==> IsPrepared(s, w)
  {
    var next := Next(s, e);
    assert next.cleaners == s.cleaners;
    if a :| HeldBy(next, a, w) && next.cleaners[a].obligation.prepared {
      assert HeldBy(s, a, w);
    }
    assert WorkerInv(s, w);
  }

  lemma RunnerPrepares(s: World, v: WorkerId, step: RunnerStep, w: WorkerId)
    requires w in s.reg.handles && WorkerInv(s, w)
    requires IsPrepared(RunnerNext(s, v, step), w) && !IsPrepared(s, w)
    ensures v == w && step.HelperAnswered? && s.runners[w].HelperUp? && s.reg.handles[w].slot.Some?
  {
    var next := RunnerNext(s, v, step);
    CleanersStay(s, OnWorker(v, step));
    assert forall a :: HeldBy(next, a, w) ==> HeldBy(s, a, w);
    RunnerMarks(s, v, step, w);
  }

  lemma RunnerMarks(s: World, v: WorkerId, step: RunnerStep, w: WorkerId)
    requires w in s.reg.handles && w in s.runners && (s.runners[w].Fresh? ==> s.reg.handles[w].slot.None?)
    ensures var next := RunnerNext(s, v, step);
            && w in next.reg.handles
            && (next.reg.handles[w].slot.Some? && next.reg.handles[w].slot.value.prepared ==>
                  || (s.reg.handles[w].slot.Some? && s.reg.handles[w].slot.value.prepared)
                  || (v == w && step.HelperAnswered? && s.runners[w].HelperUp? && s.reg.handles[w].slot.Some?))
  {
  }

  lemma CleanerPrepares(s: World, a: Actor, step: CleanerStep, w: WorkerId)
    requires w in s.reg.handles && IsPrepared(CleanerNext(s, a, step), w)
    ensures IsPrepared(s, w)
  {
    var next := CleanerNext(s, a, step);
    if b :| HeldBy(next, b, w) && next.cleaners[b].obligation.prepared {
      PreparedHand(s, a, step, w, b);
    } else {
      PreparedSlot(s, a, step, w);
    }
  }

  /** An obligation in hand was in hand before or taken out of the slot. */
  lemma PreparedHand(s: World, a: Actor, step: CleanerStep, w: WorkerId, b: Actor)
    requires w in s.reg.handles && HeldBy(CleanerNext(s, a, step), b, w)
    ensures var held := CleanerNext(s, a, step).cleaners[b].obligation;
            || (HeldBy(s, b, w) && s.cleaners[b].obligation == held)
            || s.reg.handles[w].slot == Some(held)
  {
  }

  /** An obligation in the slot was there before or put back. */
  lemma PreparedSlot(s: World, a: Actor, step: CleanerStep, w: WorkerId)
    requires w in s.reg.handles
    ensures w in CleanerNext(s, a, step).reg.handles
    ensures var slot := CleanerNext(s, a, step).reg.handles[w].slot;
            slot.Some? ==> slot == s.reg.handles[w].slot || (HeldBy(s, a, w) && s.cleaners[a].obligation == slot.value)
  {
  }

  lemma AnswerPrepares(s: World, w: WorkerId)
    requires w in s.reg.handles && w in s.runners && s.runners[w].HelperUp? && s.reg.handles[w].slot.Some?
    ensures IsPrepared(Next(s, OnWorker(w, HelperAnswered)), w)
  {
  }

  /** Over any interleaving, a discharged obligation was discharged by such a step,
      taken in the state the run had reached. */
  lemma {:induction false} DischargeInRun(s: World, events: seq<Event>, w: WorkerId) returns (n: nat)
    requires Base(s) && w in Run(s, events).discharged && w !in s.discharged
    ensures n < |events| && Releases(Run(s, events[..n]), events[n], w)
    decreases |events|
  {
    var next := Next(s, events[0]);
    BaseKept(s, events[0]);
    if w in next.discharged {
      DischargedOnlyKnown(s, events[0], w);
      DischargedIff(s, events[0], w);
      n := 0;
    } else {
      var m := DischargeInRun(next, events[1..], w);
      n := m + 1;
      assert events[..n][1..] == events[1..][..m];
    }
  }

  lemma DischargedOnlyKnown(s: World, e: Event, w: WorkerId)
    requires Base(s) && w in Next(s, e).discharged && w !in s.discharged
    ensures w in s.reg.handles
  {
    if e.ByCleaner? && e.a in s.cleaners { assert IsClaimed(s, e.a); }
  }

  /** With an atomic `finish_worker`: when shutdown verifies, the run contains for
      every obligation ever registered the step that discharged it. */
  lemma ShutdownDischargedEach(events: seq<AtomicEvent>, w: WorkerId) returns (n: nat)
    requires forall e :: e in events ==> IsAtomic(e)
    requires AtomicRun(START, events).reg.ShutDown() && w in AtomicRun(START, events).owed
    ensures n < |ExpandAll(events)| && Releases(Run(START, ExpandAll(events)[..n]), ExpandAll(events)[n], w)
  {
    AtomicShutdownIsClean(events);
    AtomicRunExpands(START, events);
    n := DischargeInRun(START, ExpandAll(events), w);
  }

  // ------------------------------------------------ what reaps and what stops

  /** The child of `w` was waited for and reaped. */
  predicate ReapsChild(s: World, e: Event, w: WorkerId) {
    && e == OnWorker(w, ChildReaped) && w in s.runners
    && (s.runners[w].Fresh? || s.runners[w].Failed? || s.runners[w].Ready?)
  }

  /** A helper of `w` is attached. */
  predicate StartsHelper(s: World, e: Event, w: WorkerId) {
    && e == OnWorker(w, AttachHelper) && w in s.runners && s.runners[w].Obliged?
    && w in s.reg.handles && s.reg.handles[w].slot.Some? && !s.reg.closing
  }

  /** A helper of `w` is known to have ended: it could not be attached and was stopped
      at once, it was stopped after a failure or at the end of staging, or shutdown
      stopped it. */
  predicate StopsHelper(s: World, e: Event, w: WorkerId) {
    match e
    case OnWorker(v, AttachHelper) =>
      && v == w && w in s.runners && s.runners[w].Obliged?
      && w in s.reg.handles && (s.reg.handles[w].slot.None? || s.reg.closing)
    case OnWorker(v, HelperStopped) => v == w && w in s.runners && s.runners[w].HelperUp?
    case OnWorker(v, StagingFinished(_)) => v == w && w in s.runners && s.runners[w].Waited?
    case OnWorker(v, StopDone) => v == w && w in s.runners && w in s.stopping
    case _ => false
  }

  /** The process counts as reaped from its reaping on, the helper from its stop until
      another one is attached. */
  lemma ReapedIff(s: World, e: Event, w: WorkerId)
    requires Base(s) && w in s.reg.handles
    ensures w in Next(s, e).reg.handles
    ensures var was, now := s.reg.handles[w], Next(s, e).reg.handles[w];
            && (now.reaped <==> was.reaped || ReapsChild(s, e, w))
            && (now.stagingReaped <==> StopsHelper(s, e, w) || (was.stagingReaped && !StartsHelper(s, e, w)))
  {
    assert WorkerBase(s, w);
    match e
    case OnWorker(v, step) =>
      RunnerReapsChild(s, v, step, w);
      RunnerStopsHelper(s, v, step, w);
    case _ =>
  }

  lemma RunnerReapsChild(s: World, v: WorkerId, step: RunnerStep, w: WorkerId)
    requires w in s.reg.handles && w in s.runners
    ensures var next := RunnerNext(s, v, step);
            && w in next.reg.handles
            && (next.reg.handles[w].reaped <==> s.reg.handles[w].reaped || ReapsChild(s, OnWorker(v, step), w))
  {
  }

  lemma RunnerStopsHelper(s: World, v: WorkerId, step: RunnerStep, w: WorkerId)
    requires w in s.reg.handles && w in s.runners
    ensures var next, e := RunnerNext(s, v, step), OnWorker(v, step);
            && w in next.reg.handles
            && (next.reg.handles[w].stagingReaped
                <==> StopsHelper(s, e, w) || (s.reg.handles[w].stagingReaped && !StartsHelper(s, e, w)))
  {
  }

  /** Shutdown stops a helper that it found attached. */
  lemma StoppingIff(s: World, e: Event, w: WorkerId)
    requires Base(s) && w in s.reg.handles
    ensures w in Next(s, e).stopping
            <==> (w in s.stopping && e != OnWorker(w, StopDone))
                 || (e == OnWorker(w, StopRead) && s.reg.handles[w].slot.Some? && s.reg.handles[w].slot.value.control)
  {
    assert WorkerBase(s, w);
  }

  /** The way of a runner: where each step takes it from where it stands. */
  predicate Leads(from: Runner, step: RunnerStep, to: Runner, filled: bool, closing: bool) {
    match step
    case RegisterObligation => from.Fresh? && to == (if filled then Gone else Obliged)
    case AttachHelper => from.Obliged? && to == (if filled && !closing then HelperUp else Failed)
    case HelperNotStarted => from.Obliged? && to.Failed?
    case HelperAnswered => from.HelperUp? && to.Ready?
    case HelperStopped => from.HelperUp? && to.HelperDown?
    case HelperReported(_) => from.HelperDown? && to.Failed?
    case ChildReaped => (from.Fresh? && to.Stopped?) || (from.Failed? && to.Gone?) || (from.Ready? && to.Waited?)
    case ChildWaitFailed => from.Ready? && to.Waited?
    case StagingFinished(clean) => from.Waited? && to == Finished(clean)
    case SlotCleared => from == Finished(true) && to.Gone?
    case RunnerGone => to.Gone?
    case _ => false
  }

  /** A runner moves in no other way. */
  lemma RunnerMoves(s: World, w: WorkerId, step: RunnerStep, to: Runner)
    requires w in s.reg.handles && w in s.runners && to != s.runners[w]
    ensures var next := RunnerNext(s, w, step);
            w in next.runners && (next.runners[w] == to
                                  <==> Leads(s.runners[w], step, to, s.reg.handles[w].slot.Some?, s.reg.closing))
  {
  }

  lemma {:induction false} ReapedInRun(s: World, events: seq<Event>, w: WorkerId) returns (n: nat)
    requires Base(s) && w in Run(s, events).reg.handles && Run(s, events).reg.handles[w].reaped
    requires w in s.reg.handles ==> !s.reg.handles[w].reaped
    ensures n < |events| && ReapsChild(Run(s, events[..n]), events[n], w)
    decreases |events|
  {
    var next := Next(s, events[0]);
    BaseKept(s, events[0]);
    NotYetReaped(s, events[0], w);
    if w in next.reg.handles && next.reg.handles[w].reaped {
      n := 0;
    } else {
      var m := ReapedInRun(next, events[1..], w);
      n := m + 1;
      assert events[..n][1..] == events[1..][..m];
    }
  }

  lemma NotYetReaped(s: World, e: Event, w: WorkerId)
    requires Base(s) && (w in s.reg.handles ==> !s.reg.handles[w].reaped)
    ensures w in Next(s, e).reg.handles && Next(s, e).reg.handles[w].reaped ==> ReapsChild(s, e, w)
  {
    if w in s.reg.handles {
      ReapedIff(s, e, w);
    }
  }

  lemma {:induction false} StoppedInRun(s: World, events: seq<Event>, w: WorkerId) returns (n: nat)
    requires Base(s) && w in s.reg.handles && !s.reg.handles[w].stagingReaped
    requires w in Run(s, events).reg.handles && Run(s, events).reg.handles[w].stagingReaped
    ensures n < |events| && StopsHelper(Run(s, events[..n]), events[n], w)
    decreases |events|
  {
    BaseKept(s, events[0]);
    ReapedIff(s, events[0], w);
    if Next(s, events[0]).reg.handles[w].stagingReaped {
      n := 0;
    } else {
      var m := StoppedInRun(Next(s, events[0]), events[1..], w);
      n := m + 1;
      assert events[..n][1..] == events[1..][..m];
    }
  }

  /** When shutdown verifies, in any interleaving, the run contains for every worker
      the step that reaped its child. */
  lemma ShutdownReapedEach(events: seq<Event>, w: WorkerId) returns (n: nat)
    requires Run(START, events).reg.ShutDown() && w in Run(START, events).reg.handles
    ensures n < |events| && ReapsChild(Run(START, events[..n]), events[n], w)
  {
    VerifiedShutdown(events);
    n := ReapedInRun(START, events, w);
  }

  lemma StoppedBehind(s: World, events: seq<Event>, w: WorkerId) returns (k: nat)
    requires Base(s) && events != [] && StartsHelper(s, events[0], w)
    requires w in Run(s, events).reg.handles && Run(s, events).reg.handles[w].stagingReaped
    ensures 0 < k < |events| && StopsHelper(Run(s, events[..k]), events[k], w)
  {
    BaseKept(s, events[0]);
    ReapedIff(s, events[0], w);
    var m := StoppedInRun(Next(s, events[0]), events[1..], w);
    k := m + 1;
    assert events[..k][1..] == events[1..][..m];
  }

  /** And behind every helper that was attached, the step that ended it. */
  lemma ShutdownStoppedEach(events: seq<Event>, m: nat, w: WorkerId) returns (n: nat)
    requires Run(START, events).reg.ShutDown() && m < |events|
    requires StartsHelper(Run(START, events[..m]), events[m], w)
    ensures m < n < |events| && StopsHelper(Run(START, events[..n]), events[n], w)
  {
    var s, rest := Run(START, events[..m]), events[m..];
    BaseHolds(START, events[..m]);
    KnownStays(s, rest, w);
    VerifiedShutdown(events);
    RunAt(START, events, m);
    var k := StoppedBehind(s, rest, w);
    n := m + k;
    RunWithin(START, events, m, k);
  }

  lemma RunAt(s: World, events: seq<Event>, m: nat)
    requires m <= |events|
    ensures Run(s, events) == Run(Run(s, events[..m]), events[m..])
  {
    assert events == events[..m] + events[m..];
    RunConcat(s, events[..m], events[m..]);
  }

  lemma RunWithin(s: World, events: seq<Event>, m: nat, k: nat)
    requires m + k <= |events|
    ensures Run(s, events[..m + k]) == Run(Run(s, events[..m]), events[m..][..k])
  {
    assert events[..m + k] == events[..m] + events[m..][..k];
    RunConcat(s, events[..m], events[m..][..k]);
  }

  lemma {:induction false} KnownStays(s: World, events: seq<Event>, w: WorkerId)
    requires Base(s) && w in s.reg.handles
    ensures w in Run(s, events).reg.handles
    decreases |events|
  {
    if events != [] {
      BaseKept(s, events[0]);
      ReapedIff(s, events[0], w);
      KnownStays(Next(s, events[0]), events[1..], w);
    }
  }

  // ------------------------------------------------------- that it can end

  /** A worker that stages nothing is registered, reaped and removed. */
  lemma PlainWorkerEnds()
    ensures var s := AtomicRun(START, [Plain(SpawnWorker), Plain(OnWorker(0, ChildReaped)), Finish(0)]);
            s.reg.ShutDown() && 0 in s.reg.handles && s.owed == {}
  {
    var events := [Plain(SpawnWorker), Plain(OnWorker(0, ChildReaped)), Finish(0)];
    var s1 := AtomicNext(START, events[0]);
    assert s1 == World(Registry(false, 1, {0}, map[0 := NEW_HANDLE]), map[0 := Fresh], map[], map[], {}, {}, {}, {});
    var s2 := AtomicNext(s1, events[1]);
    assert s2.reg.handles[0] == NEW_HANDLE.(reaped := true);
    assert AtomicRun(START, events) == AtomicRun(s1, events[1..]) == AtomicRun(s2, events[2..]);
    assert AtomicRun(s2, events[2..]) == AtomicRun(AtomicNext(s2, Finish(0)), events[2..][1..]);
  }

  // The run that the source does not exclude: shutdown closes admission and stops
  // the helper, a `finish_worker` call reads `finalizing`, shutdown claims the
  // worker and takes its obligation, the call goes on to find the slot empty and removes the worker,
  // and the obligation is put back where nobody looks.
  const LOST_START: seq<Event> := [SpawnWorker, OnWorker(0, RegisterObligation), OnWorker(0, AttachHelper)]
  const LOST_WORK: seq<Event> :=
    [OnWorker(0, HelperAnswered), OnWorker(0, ChildReaped), OnWorker(0, StagingFinished(false))]
  const LOST_STOP: seq<Event> := [CloseAdmission, OnWorker(0, StopRead), OnWorker(0, StopDone)]
  const LOST_CLAIM: seq<Event> := [ByFinisher(1, Call(0)), ByCleaner(2, Claim(0)), ByCleaner(2, Take)]
  const LOST_FINISH: seq<Event> := [ByFinisher(1, ReadSlot), ByFinisher(1, ReadReaped), ByFinisher(1, Remove)]
  const LOST_END: seq<Event> := [ByCleaner(2, CleanedUp(CleanupFailed)), ByCleaner(2, PutBack), ByCleaner(2, Release)]

  const OBLIGATION := Obligation(true, true)

  /** A world with one worker, 0, that owes an undischarged obligation. */
  function OneWorker(closing: bool, workers: set<WorkerId>, handle: Handle, runner: Runner,
                     cleaners: map<Actor, Cleaner>, finishers: map<Actor, Finisher>): World {
    World(Registry(closing, 1, workers, map[0 := handle]), map[0 := runner], cleaners, finishers, {0}, {}, {}, {})
  }

  lemma RunThree(s: World, a: Event, b: Event, c: Event)
    ensures Run(s, [a, b, c]) == Next(Next(Next(s, a), b), c)
  {
    var s1, s2 := Next(s, a), Next(Next(s, a), b);
    assert [a, b, c][1..] == [b, c] && [b, c][1..] == [c] && [c][1..] == [];
    assert Run(s, [a, b, c]) == Run(s1, [b, c]);
    assert Run(s1, [b, c]) == Run(s2, [c]);
    assert Run(s2, [c]) == Run(Next(s2, c), []);
  }

  const STARTED :=
    OneWorker(false, {0}, Handle(Some(Obligation(false, true)), false, false, false), HelperUp, map[], map[])
  const WORKED := OneWorker(false, {0}, Handle(Some(OBLIGATION), true, false, true), Finished(false), map[], map[])
  const STOPPED := WORKED.(reg := WORKED.reg.(closing := true))
  const TAKEN := OneWorker(true, {0}, Handle(None, true, true, true), Finished(false),
                           map[2 := Holding(0, OBLIGATION)], map[1 := SawIdle(0)])
  const REMOVED := OneWorker(true, {}, Handle(None, true, true, true), Finished(false),
                             map[2 := Holding(0, OBLIGATION)], map[])
  const LOST := OneWorker(true, {}, Handle(Some(OBLIGATION), true, false, true), Finished(false), map[], map[])

  lemma LostStart()
    ensures Run(START, LOST_START) == STARTED
  {
    RunThree(START, LOST_START[0], LOST_START[1], LOST_START[2]);
    var spawned := Next(START, LOST_START[0]);
    assert spawned == World(Registry(false, 1, {0}, map[0 := NEW_HANDLE]), map[0 := Fresh], map[], map[], {}, {}, {},
                            {});
    assert Next(spawned, LOST_START[1]) ==
           OneWorker(false, {0}, Handle(Some(Obligation(false, false)), true, false, false), Obliged, map[], map[]);
  }

  lemma LostWork()
    ensures Run(STARTED, LOST_WORK) == WORKED
  {
    RunThree(STARTED, LOST_WORK[0], LOST_WORK[1], LOST_WORK[2]);
    assert Next(STARTED, LOST_WORK[0])
           == OneWorker(false, {0}, Handle(Some(OBLIGATION), false, false, false), Ready, map[], map[]);
    assert Next(Next(STARTED, LOST_WORK[0]), LOST_WORK[1]) ==
           OneWorker(false, {0}, Handle(Some(OBLIGATION), false, false, true), Waited, map[], map[]);
  }

  lemma LostStop()
    ensures Run(WORKED, LOST_STOP) == STOPPED
  {
    RunThree(WORKED, LOST_STOP[0], LOST_STOP[1], LOST_STOP[2]);
    assert Next(WORKED, LOST_STOP[0]) == STOPPED;
    assert Next(STOPPED, LOST_STOP[1]) == STOPPED.(stopping := {0});
    assert Next(STOPPED.(stopping := {0}), LOST_STOP[2]) == STOPPED;
  }

  lemma LostClaim()
    ensures Run(STOPPED, LOST_CLAIM) == TAKEN
  {
    RunThree(STOPPED, LOST_CLAIM[0], LOST_CLAIM[1], LOST_CLAIM[2]);
    assert Next(STOPPED, LOST_CLAIM[0]) == STOPPED.(finishers := map[1 := SawIdle(0)]);
    assert Next(Next(STOPPED, LOST_CLAIM[0]), LOST_CLAIM[1])
        == OneWorker(true, {0}, Handle(Some(OBLIGATION), true, true, true), Finished(false),
                     map[2 := Claimed(0)], map[1 := SawIdle(0)]);
  }

  lemma LostFinish()
    ensures Run(TAKEN, LOST_FINISH) == REMOVED
  {
    RunThree(TAKEN, LOST_FINISH[0], LOST_FINISH[1], LOST_FINISH[2]);
    assert Next(TAKEN, LOST_FINISH[0]) == TAKEN.(finishers := map[1 := SawEmpty(0)]);
    assert Next(Next(TAKEN, LOST_FINISH[0]), LOST_FINISH[1]) == TAKEN.(finishers := map[1 := SawReaped(0)]);
  }

  lemma LostEnd()
    ensures Run(REMOVED, LOST_END) == LOST
  {
    RunThree(REMOVED, LOST_END[0], LOST_END[1], LOST_END[2]);
    assert Next(REMOVED, LOST_END[0]) == REMOVED.(cleaners := map[2 := PuttingBack(0, OBLIGATION)]);
    assert Next(Next(REMOVED, LOST_END[0]), LOST_END[1])
        == OneWorker(true, {}, Handle(Some(OBLIGATION), true, true, true), Finished(false), map[2 := Releasing(0)],
                     map[]);
  }

  lemma {:induction false} RunConcat(s: World, first: seq<Event>, second: seq<Event>)
    ensures Run(s, first + second) == Run(Run(s, first), second)
    decreases |first|
  {
    if first == [] {
      assert first + second == second;
    } else {
      assert (first + second)[1..] == first[1..] + second;
      RunConcat(Next(s, first[0]), first[1..], second);
    }
  }

  /** Without atomicity the claim is false: shutdown verifies although the only
      obligation was never discharged and nobody holds it. */
  lemma DisturbedFinishLosesObligation()
    ensures var s := Run(START, LOST_START + LOST_WORK + LOST_STOP + LOST_CLAIM + LOST_FINISH + LOST_END);
            s.reg.ShutDown() && s.reg.closing && s.owed == {0} && s.discharged == {} && s.cleaners == map[]
  {
    RunConcat(START, LOST_START, LOST_WORK);
    RunConcat(START, LOST_START + LOST_WORK, LOST_STOP);
    RunConcat(START, LOST_START + LOST_WORK + LOST_STOP, LOST_CLAIM);
    RunConcat(START, LOST_START + LOST_WORK + LOST_STOP + LOST_CLAIM, LOST_FINISH);
    RunConcat(START, LOST_START + LOST_WORK + LOST_STOP + LOST_CLAIM + LOST_FINISH, LOST_END);
    LostStart();
    LostWork();
    LostStop();
    LostClaim();
    LostFinish();
    LostEnd();
  }

  // ------------------------------------------------------- the shared object

  /** Whether a cleanup by path discharges what the slot holds. */
  predicate Discharges(slot: Option<Obligation>, outcome: Cleanup) {
    slot.None? || outcome.ObjectRemoved? || (outcome.ObjectAbsent? && !slot.value.prepared)
  }

  /** What one round of cleaning leaves of a handle that was not claimed. */
  function CleanedHandle(handle: Handle, outcome: Cleanup): Handle {
    if Discharges(handle.slot, outcome) then handle.(slot := None) else handle
  }

  /** Whether that round also removes the worker. */
  predicate Settles(handle: Handle, outcome: Cleanup) {
    Discharges(handle.slot, outcome) && handle.reaped && handle.stagingReaped
  }

  /** The steps of one cleaning with nothing in between leave what
      `SettleWorkerObligation` and `FinalizeShutdown` promise of a worker. */
  lemma CleaningAlone(s: World, a: Actor, w: WorkerId, outcome: Cleanup)
    requires a !in s.cleaners && w in s.reg.handles && !s.reg.handles[w].finalizing
    ensures var released := AfterCleaning(s, a, w, outcome);
            && released.cleaners == s.cleaners && w in released.reg.handles
            && released.reg.handles[w] == CleanedHandle(s.reg.handles[w], outcome)
            && released.reg.Finished(w).workers
               == s.reg.workers - (if Settles(s.reg.handles[w], outcome) then {w} else {})
  {
    var released := AfterCleaning(s, a, w, outcome);
    StepsAlone(s, a, w, outcome);
    FinishedAlone(released.reg, w, s.reg.handles[w], outcome);
  }

  /** The steps of one cleaning. */
  function AfterCleaning(s: World, a: Actor, w: WorkerId, outcome: Cleanup): World {
    var taken := CleanerNext(CleanerNext(s, a, Claim(w)), a, Take);
    CleanerNext(CleanerNext(CleanerNext(taken, a, CleanedUp(outcome)), a, PutBack), a, Release)
  }

  lemma StepsAlone(s: World, a: Actor, w: WorkerId, outcome: Cleanup)
    requires a !in s.cleaners && w in s.reg.handles && !s.reg.handles[w].finalizing
    ensures var released := AfterCleaning(s, a, w, outcome);
            && released.cleaners == s.cleaners && w in released.reg.handles
            && released.reg.handles[w] == CleanedHandle(s.reg.handles[w], outcome)
            && released.reg.workers == s.reg.workers
  {
    var taken := CleanerNext(CleanerNext(s, a, Claim(w)), a, Take);
    TakenAlone(s, a, w);
    PutBackAlone(taken, a, w, outcome);
    NoCleanerLeft(s.cleaners, a, taken.cleaners[a]);
  }

  lemma PutBackAlone(t: World, a: Actor, w: WorkerId, outcome: Cleanup)
    requires a in t.cleaners && w in t.reg.handles && t.reg.handles[w].slot.None?
    requires t.cleaners[a] == Releasing(w) || (t.cleaners[a].Holding? && t.cleaners[a].worker == w)
    ensures var released := CleanerNext(CleanerNext(CleanerNext(t, a, CleanedUp(outcome)), a, PutBack), a, Release);
            var held := if t.cleaners[a].Holding? then Some(t.cleaners[a].obligation) else None;
            && released.cleaners == t.cleaners - {a}
            && released.reg.workers == t.reg.workers && w in released.reg.handles
            && released.reg.handles[w] == CleanedHandle(t.reg.handles[w].(slot := held), outcome).(finalizing := false)
  {
    CleanedAlone(t, a, w, outcome);
    ReleasedAlone(CleanerNext(CleanerNext(t, a, CleanedUp(outcome)), a, PutBack), a, w);
    assert t.cleaners[a := Releasing(w)] - {a} == t.cleaners - {a};
  }

  lemma NoCleanerLeft(cleaners: map<Actor, Cleaner>, a: Actor, cleaner: Cleaner)
    requires a !in cleaners
    ensures cleaners[a := cleaner] - {a} == cleaners
  {
  }

  lemma FinishedAlone(reg: Registry, w: WorkerId, was: Handle, outcome: Cleanup)
    requires w in reg.handles && !was.finalizing && reg.handles[w] == CleanedHandle(was, outcome)
    ensures reg.Finished(w).workers == reg.workers - (if Settles(was, outcome) then {w} else {})
  {
  }

  lemma CleanedAlone(t: World, a: Actor, w: WorkerId, outcome: Cleanup)
    requires a in t.cleaners && w in t.reg.handles && t.reg.handles[w].slot.None?
    requires t.cleaners[a] == Releasing(w) || (t.cleaners[a].Holding? && t.cleaners[a].worker == w)
    ensures var back := CleanerNext(CleanerNext(t, a, CleanedUp(outcome)), a, PutBack);
            var held := if t.cleaners[a].Holding? then Some(t.cleaners[a].obligation) else None;
            && back.cleaners == t.cleaners[a := Releasing(w)]
            && back.reg.workers == t.reg.workers && w in back.reg.handles
            && back.reg.handles[w] == CleanedHandle(t.reg.handles[w].(slot := held), outcome)
  {
    assert t.cleaners[a] == Releasing(w) ==> t.cleaners[a := Releasing(w)] == t.cleaners;
  }

  lemma ReleasedAlone(t: World, a: Actor, w: WorkerId)
    requires a in t.cleaners && w in t.reg.handles && t.cleaners[a] == Releasing(w)
    ensures var released := CleanerNext(t, a, Release);
            && released.cleaners == t.cleaners - {a} && released.reg.workers == t.reg.workers
            && w in released.reg.handles && released.reg.handles[w] == t.reg.handles[w].(finalizing := false)
  {
  }

  lemma TakenAlone(s: World, a: Actor, w: WorkerId)
    requires a !in s.cleaners && w in s.reg.handles && !s.reg.handles[w].finalizing
    ensures var taken, slot := CleanerNext(CleanerNext(s, a, Claim(w)), a, Take), s.reg.handles[w].slot;
            && taken.cleaners == s.cleaners[a := if slot.Some? then Holding(w, slot.value) else Releasing(w)]
            && taken.reg.handles.Keys == s.reg.handles.Keys && taken.reg.workers == s.reg.workers
            && taken.reg.handles[w] == s.reg.handles[w].(slot := None, finalizing := true)
  {
  }

  datatype FinishOutcome = Removed | InProgress | CleanupPending | LiveProcess

  class WorkerRegistry {
    var closing: bool
    var nextId: nat
    var workers: set<WorkerId>
    var handles: map<WorkerId, Handle>

    function View(): Registry
      reads this
    {
      Registry(closing, nextId, workers, handles)
    }

    ghost predicate Valid()
      reads this
    {
      workers <= handles.Keys
    }

    constructor ()
      ensures Valid() && View() == START.reg
    {
      closing, nextId, workers, handles := false, 0, {}, map[];
    }

    method SpawnRegistered() returns (id: Option<WorkerId>)
      requires Valid()
      modifies this
      ensures Valid() && View() == old(View()).Spawn()
      ensures id == if old(closing) then None else Some(old(nextId))
    {
      if closing {
        return None;
      }
      id := Some(nextId);
      nextId := nextId + 1;
      handles := handles[id.value := NEW_HANDLE];
      workers := workers + {id.value};
    }

    method RegisterStagingObligation(w: WorkerId) returns (ok: bool)
      requires Valid() && w in handles
      modifies this`handles
      ensures Valid() && View() == old(View()).Oblige(w) && ok == old(handles[w]).slot.None?
    {
      if handles[w].slot.Some? {
        return false;
      }
      handles := handles[w := handles[w].(slot := Some(Obligation(false, false)))];
      return true;
    }

    method CloseAdmission()
      modifies this`closing
      ensures View() == old(View()).(closing := true)
    {
      closing := true;
    }

    method VerifyShutdown() returns (ok: bool)
      ensures ok == View().ShutDown()
    {
      ok := |workers| == 0;
    }

    /** `finish_worker` without interference. */
    method FinishWorker(w: WorkerId) returns (outcome: FinishOutcome)
      requires Valid() && w in handles
      modifies this`workers
      ensures Valid() && View() == old(View()).Finished(w)
      ensures View() == if outcome.Removed? then old(View()).Removed(w) else old(View())
      ensures outcome ==
              if handles[w].finalizing then InProgress
              else if handles[w].slot.Some? then CleanupPending
              else if !handles[w].reaped || !handles[w].stagingReaped then LiveProcess
              else Removed
    {
      if handles[w].finalizing {
        return InProgress;
      }
      if handles[w].slot.Some? {
        return CleanupPending;
      }
      if !handles[w].reaped || !handles[w].stagingReaped {
        return LiveProcess;
      }
      workers := workers - {w};
      return Removed;
    }

    /** `settle_worker_obligation` without interference, and the body of the
        loop of `finalize_shutdown_inner`: a claimed worker is left alone; else
        the obligation is discharged or put back, never dropped. */
    method SettleWorkerObligation(w: WorkerId, outcome: Cleanup) returns (ok: bool)
      requires Valid() && w in handles
      modifies this`handles, this`workers
      ensures Valid()
      ensures old(handles[w]).finalizing ==> ok && View() == old(View())
      ensures !old(handles[w]).finalizing ==>
                && ok == Discharges(old(handles[w]).slot, outcome)
                && handles == old(handles)[w := CleanedHandle(old(handles[w]), outcome)]
                && workers == old(workers) - (if Settles(old(handles[w]), outcome) then {w} else {})
    {
      if handles[w].finalizing {
        return true;
      }
      handles := handles[w := handles[w].(finalizing := true)];
      var obligation := handles[w].slot;
      handles := handles[w := handles[w].(slot := None)];
      var failed := false;
      if obligation.Some? {
        match outcome {
          case ObjectRemoved =>
          case ObjectAbsent =>
            if obligation.value.prepared {
              failed := true;
              handles := handles[w := handles[w].(slot := obligation)];
            }
          case CleanupFailed =>
            failed := true;
            handles := handles[w := handles[w].(slot := obligation)];
        }
      }
      handles := handles[w := handles[w].(finalizing := false)];
      if failed {
        return false;
      }
      var finish := FinishWorker(w);
      return finish.Removed? || finish.LiveProcess?;
    }

    /** `finalize_shutdown_inner` without interference: exactly the workers that
        were claimed, kept an obligation or still have a live process stay, and
        it reports success exactly when no obligation is left. */
    method FinalizeShutdown(outcome: map<WorkerId, Cleanup>) returns (ok: bool)
      requires Valid() && workers <= outcome.Keys
      modifies this`handles, this`workers
      ensures Valid() && handles.Keys == old(handles).Keys
      ensures forall w :: w in old(workers) ==>
                (w in workers <==> old(handles[w]).finalizing || !Settles(old(handles[w]), outcome[w]))
      ensures forall w :: w in old(workers) && !old(handles[w]).finalizing ==>
                handles[w] == CleanedHandle(old(handles[w]), outcome[w])
      ensures ok <==> forall w :: w in old(workers) ==>
                if old(handles[w]).finalizing then old(handles[w]).slot.None?
                    else Discharges(old(handles[w]).slot, outcome[w])
    {
      ghost var before := View();
      var left := workers;
      var unresolved := false;
      while left != {}
        invariant left <= before.workers && Valid() && handles.Keys == before.handles.Keys
        invariant workers <= before.workers
        invariant forall w :: w in before.workers ==>
                    if w in left || before.handles[w].finalizing then handles[w] == before.handles[w] && w in workers
                    else handles[w] == CleanedHandle(before.handles[w], outcome[w]) &&
                         (w in workers <==> !Settles(before.handles[w], outcome[w]))
        invariant unresolved <==> exists w :: w in before.workers && w !in left && !before.handles[w].finalizing &&
                                              !Discharges(before.handles[w].slot, outcome[w])
        decreases |left|
      {
        var w :| w in left;
        var settled := SettleWorkerObligation(w, outcome[w]);
        unresolved := unresolved || !settled;
        left := left - {w};
      }
      var remaining := Remaining();
      ok := !unresolved && remaining == 0;
    }

    /** How many registered workers still have an obligation in their slot. */
    method Remaining() returns (remaining: nat)
      requires workers <= handles.Keys
      ensures remaining == 0 <==> forall w :: w in workers ==> handles[w].slot.None?
    {
      var kept := set w | w in workers && handles[w].slot.Some?;
      remaining := |kept|;
      assert forall w :: w in workers && handles[w].slot.Some? ==> w in kept;
    }
  }
}
