/** The coordinator as a concurrent step system: requests from any context, input producers
    that push and then request, power setters and the single handler, interleaved at their
    lock boundaries.

    A step is one critical section of the scheduling or ring spinlock, or a stretch under the
    matrix mutex that nobody else can observe.
  */
module Coordinator {
  import Arith
  import opened Options
  import opened Scheduling

  const RING_CAPACITY := 15
  const MAX_DELIVERIES := 16

  datatype Activity = Active | Idle | Sleep

  datatype KeyEvent = KeyEvent(position: nat, pressed: bool, timestamp: int)

  datatype Config = Config(hasLeds: bool, maxBrightness: nat, idleBrightness: nat, tick: nat)

  datatype Submission = Nothing | Black | Coloured

  /** A strip update, and intent, activity and inhibition when it was made. */
  datatype Transfer = Transfer(what: Submission, power: Power)

  function Last(submissions: seq<Transfer>): Submission {
    if submissions == [] then Nothing else submissions[|submissions| - 1].what
  }

  /** What a power setter came to store. */
  datatype Intent =
    | SetUser(on: bool)
    | Toggle
    | SetInhibited(inhibited: bool)
    | SetActivity(activity: Activity)
    | Initialise(activity: Activity)

  datatype Setter =
    | Free
    | Reconciling(intent: Intent, oldCap: nat)     // intent stored, permission not yet recomputed
    | Purged(intent: Intent, oldCap: nat)          // permission flipped and ring emptied
    | Settling(intent: Intent, oldCap: nat)        // permission published

  datatype Handler =
    | Asleep
    | Entered                                      // dequeued, before its first section
    | Evaluating(epoch: nat, began: nat)           // sampling conditions, no lock held
    | AwaitingMatrix
    | Passing(paint: bool, changed: bool, left: nat, startedAt: int)
    | Closing
    | Finishing(scene: Option<int>)
    | Releasing                                    // pass finished, matrix mutex still held

  /** Intent, activity, inhibition and the permission derived from them. */
  datatype Power = Power(userOn: bool, inhibited: bool, activity: Activity, ready: bool, allowed: bool)

  /** Observations about the run; no step reads them. */
  datatype History = History(
    step: nat,
    controlAt: nat,                                // step of the last CONTROL request
    evaluationAt: nat,                             // step at which the accepted evaluation began
    submissions: seq<Transfer>)                    // every strip update, in order

  datatype System = System(
    schedule: Schedule,
    power: Power,
    ring: seq<KeyEvent>,
    producers: nat,                                // pushed, request still to come
    nextFrame: Option<int>,
    animating: bool,
    blackPending: bool,
    handler: Handler,
    setter: Setter,
    now: int,
    history: History)

  datatype Action =
    | Wait(ms: nat)
    | Ask(reasons: Reasons)
    | StartControl
    | Push(event: KeyEvent)
    | Announce
    | TakePower(intent: Intent)
    | Reconcile
    | Publish
    | Settle
    | Dispatch
    | BeginPass
    | EndEvaluation
    | Admit
    | Pop(changed: bool)
    | EndInput(animating: bool)
    | Close
    | FinishPass
    | Release

  const Invalidate := Reasons(true, true, false, false)   // CONTROL | REPAINT
  const Blackout := Reasons(false, true, false, true)     // OUTPUT | REPAINT
  const Repaint := Reasons(false, true, false, false)
  const Input := Reasons(false, false, true, false)

  predicate LogicalOn(cfg: Config, p: Power) {
    p.userOn && (p.activity == Active || (p.activity == Idle && cfg.idleBrightness != 0))
  }

  function Cap(cfg: Config, activity: Activity): nat {
    if activity == Active || cfg.maxBrightness < cfg.idleBrightness then cfg.maxBrightness else cfg.idleBrightness
  }

  predicate Permitted(cfg: Config, p: Power) {
    p.ready && cfg.hasLeds && LogicalOn(cfg, p) && !p.inhibited
  }

  /** Nobody holds the matrix mutex. */
  predicate MatrixFree(s: System) {
    s.setter.Free? && (s.handler.Asleep? || s.handler.Entered? || s.handler.Evaluating? || s.handler.AwaitingMatrix?)
  }

  function Requests(s: System, reasons: Reasons): System {
    var t := s.(schedule := Requested(s.schedule, reasons, s.now));
    if reasons.control then t.(history := s.history.(controlAt := s.history.step)) else t
  }

  function Submitted(s: System, what: Submission): System {
    s.(history := s.history.(submissions := s.history.submissions + [Transfer(what, s.power)]))
  }

  /** The animation frame grid: the least grid point after completion. */
  function NextFrame(next: Option<int>, startedAt: int, finishedAt: int, period: nat): int
    requires period > 0
  {
    var base := if next.Some? then next.value else startedAt;
    if base <= finishedAt then base + ((finishedAt - base) / period + 1) * period else base
  }

  predicate Enabled(cfg: Config, s: System, a: Action) {
    match a
    case Wait(_) => true
    case Ask(_) => true
    case StartControl => true
    case Push(_) => true
    case Announce => s.producers > 0
    case TakePower(intent) => MatrixFree(s) && (intent.Initialise? ==> !s.power.ready)
    case Reconcile => s.setter.Reconciling?
    case Publish => s.setter.Purged?
    case Settle => s.setter.Settling?
    case Dispatch => s.handler.Asleep? && QueuedNow(s.schedule, s.now)
    case BeginPass => s.handler.Entered?
    case EndEvaluation => s.handler.Evaluating?
    case Admit => s.handler.AwaitingMatrix? && s.setter.Free?
    case Pop(_) => s.handler.Passing? && s.handler.left > 0 && s.ring != []
    case EndInput(_) => s.handler.Passing? && (s.handler.left == 0 || s.ring == [])
    case Close => s.handler.Closing?
    case FinishPass => s.handler.Finishing?
    case Release => s.handler.Releasing?
  }

  function StoreIntent(cfg: Config, s: System, intent: Intent): System {
    var next := Reconciling(intent, Cap(cfg, s.power.activity));
    match intent
    case SetUser(on) => s.(power := s.power.(userOn := on), setter := next)
    case Toggle => s.(power := s.power.(userOn := !s.power.userOn), setter := next)
    case SetInhibited(b) =>
      if b == s.power.inhibited then s else s.(power := s.power.(inhibited := b), setter := next)
    case SetActivity(a) =>
      if a == s.power.activity then s else s.(power := s.power.(activity := a), setter := next)
    case Initialise(a) =>
      var t := s.(power := s.power.(activity := a, ready := true), setter := next);
      if cfg.hasLeds then Submitted(t.(blackPending := false), Black) else t
  }

  function PublishPower(cfg: Config, s: System): System
    requires s.setter.Purged?
  {
    var next := Settling(s.setter.intent, s.setter.oldCap);
    if s.power.allowed then Requests(s.(nextFrame := None, setter := next, blackPending := false), Invalidate)
    else
      var black := s.blackPending || (s.power.ready && cfg.hasLeds);
      Requests(s.(nextFrame := None, setter := next, animating := false, blackPending := black), Blackout)
  }

  function SettlePower(cfg: Config, s: System): System
    requires s.setter.Settling?
  {
    var t := s.(setter := Free);
    if !s.setter.intent.SetActivity? then t
    else if s.power.activity == Sleep && s.power.ready && cfg.hasLeds then
      Submitted(t.(blackPending := false), Black)
    else if s.power.allowed && s.setter.oldCap != Cap(cfg, s.power.activity) then Requests(t, Repaint)
    else t
  }

  function AdmitPass(cfg: Config, s: System): System {
    var paint := s.schedule.reasons.repaint || (s.nextFrame.Some? && s.now >= s.nextFrame.value);
    var t := if s.blackPending then Submitted(s, Black) else s;
    t.(schedule := Admitted(s.schedule),
       blackPending := false,
       handler := if Fresh(s.schedule) then Passing(paint, false, MAX_DELIVERIES, s.now) else Closing)
  }

  /** Paint and submit, if anything asked for it. */
  function Compose(cfg: Config, s: System, animating: bool): System
    requires s.handler.Passing? && cfg.tick > 0
  {
    if s.power.allowed && (s.handler.paint || s.handler.changed) then
      var next := if animating then Some(NextFrame(s.nextFrame, s.handler.startedAt, s.now, cfg.tick)) else None;
      Submitted(s.(animating := animating, nextFrame := next, handler := Closing), Coloured)
    else s.(handler := Closing)
  }

  function Ticked(s: System): System {
    s.(history := s.history.(step := s.history.step + 1))
  }

  function Step(cfg: Config, before: System, a: Action): System
    requires Enabled(cfg, before, a) && cfg.tick > 0
  {
    var s := Ticked(before);
    match a
    case Wait(ms) => s.(now := s.now + ms)
    case Ask(reasons) => Requests(s, reasons)
    case StartControl =>
      var t := s.(schedule := Started(s.schedule, s.now));
      if s.schedule.enabled then t else t.(history := s.history.(controlAt := s.history.step))
    case Push(event) =>
      if s.power.allowed && |s.ring| < RING_CAPACITY then s.(ring := s.ring + [event], producers := s.producers + 1)
      else s
    case Announce => Requests(s.(producers := s.producers - 1), Input)
    case TakePower(intent) => StoreIntent(cfg, s, intent)
    case Reconcile =>
      var allowed := Permitted(cfg, s.power);
      if allowed == s.power.allowed then s.(setter := Settling(s.setter.intent, s.setter.oldCap))
      else s.(power := s.power.(allowed := allowed), ring := [], setter := Purged(s.setter.intent, s.setter.oldCap))
    case Publish => PublishPower(cfg, s)
    case Settle => SettlePower(cfg, s)
    case Dispatch => s.(handler := Entered, schedule := s.schedule.(work := None))
    case BeginPass =>
      s.(schedule := Begun(s.schedule),
         handler := if TakesControl(s.schedule) then Evaluating(s.schedule.controlEpoch, s.history.step)
                    else AwaitingMatrix)
    case EndEvaluation =>
      var accepted := s.handler.epoch == s.schedule.controlEpoch && !s.schedule.reasons.control;
      var at := if accepted then s.handler.began else s.history.evaluationAt;
      s.(schedule := Evaluated(s.schedule, s.handler.epoch),
         history := s.history.(evaluationAt := at),
         handler := AwaitingMatrix)
    case Admit => AdmitPass(cfg, s)
    case Pop(changed) =>
      s.(ring := s.ring[1..],
         handler := s.handler.(changed := s.handler.changed || changed, left := s.handler.left - 1))
    case EndInput(animating) => Compose(cfg, s, animating)
    case Close =>
      s.(handler := Finishing(if s.power.allowed && s.ring != [] then Some(s.now)
                              else if s.power.allowed then s.nextFrame else None))
    case FinishPass => s.(schedule := Finished(s.schedule, s.handler.scene, s.now), handler := Releasing)
    case Release => s.(handler := Asleep)
  }

  predicate Initial(s: System) {
    && s.schedule == Boot && !s.power.ready && !s.power.allowed && s.ring == [] && s.producers == 0
    && s.nextFrame.None? && !s.animating && !s.blackPending && s.handler.Asleep? && s.setter.Free?
    && s.history.step == 0 && s.history.controlAt == 0 && s.history.evaluationAt == 0 && s.history.submissions == []
  }

  // ----- Invariants -----

  predicate HandlerActive(h: Handler) {
    h.Evaluating? || h.AwaitingMatrix? || h.Passing? || h.Closing? || h.Finishing?
  }

  /** Control freshness: an unevaluated request is either still pending or being evaluated. */
  predicate ControlInv(s: System) {
    var c := s.schedule;
    && (c.active <==> HandlerActive(s.handler))
    && (c.evaluated ==> c.enabled && c.evaluatedEpoch <= c.controlEpoch)
    && (c.evaluated && c.reasons.control ==> c.evaluatedEpoch < c.controlEpoch)
    && (s.handler.Evaluating? ==>
          c.enabled && s.handler.epoch <= c.controlEpoch && s.handler.began <= s.history.step &&
          (c.reasons.control <==> s.handler.epoch < c.controlEpoch))
    && (s.handler.Passing? ==> c.enabled)
    && (c.enabled && !Fresh(c) ==> c.reasons.control || s.handler.Evaluating?)
  }

  /** The accepted evaluation began after the last request it answers. */
  predicate EpochInv(s: System) {
    var c := s.schedule;
    && s.history.controlAt <= s.history.step
    && (c.evaluated && c.evaluatedEpoch == c.controlEpoch ==>
          s.history.controlAt < s.history.evaluationAt <= s.history.step)
    && (s.handler.Evaluating? && s.handler.epoch == c.controlEpoch ==> s.history.controlAt < s.handler.began)
  }

  /** Anything that can be served is on its way to be served. */
  predicate WakeInv(s: System) {
    !s.schedule.active && Runnable(s.schedule) ==> s.handler.Entered? || QueuedNow(s.schedule, s.now)
  }

  predicate Underway(s: System) {
    s.handler.Entered? || s.handler.Evaluating? || s.handler.AwaitingMatrix? || s.handler.Passing? || s.handler.Closing?
  }

  predicate RingInv(s: System) {
    && |s.ring| <= RING_CAPACITY
    && (s.ring != [] ==> s.power.allowed)
    && (s.ring != [] && s.schedule.enabled ==>
          s.producers > 0 || s.schedule.reasons.input || s.schedule.reasons.control || Underway(s) ||
          (s.handler.Finishing? && s.handler.scene.Some? && s.handler.scene.value <= s.now) ||
          (!s.schedule.active && QueuedNow(s.schedule, s.now)))
  }

  predicate FrameInv(s: System) {
    s.nextFrame.Some? ==>
      && s.schedule.enabled
      && (s.power.allowed || s.setter.Purged?)
      && (|| s.schedule.reasons.control || Underway(s)
          || (s.handler.Finishing? && s.handler.scene.Some? &&
              s.handler.scene.value <= Arith.Max(s.nextFrame.value, s.now))
          || (!s.schedule.active && s.schedule.work.Some? &&
              s.schedule.work.value <= Arith.Max(s.nextFrame.value, s.now)))
  }

  predicate OutputInv(cfg: Config, s: System) {
    && (s.blackPending ==>
          s.schedule.reasons.output && s.power.ready && cfg.hasLeds && (!s.power.allowed || s.setter.Purged?))
    && (s.power.ready && cfg.hasLeds && !s.power.allowed && !s.blackPending && !s.setter.Purged? ==>
          Last(s.history.submissions) == Black)
    && (s.setter.Free? || s.setter.Purged? || s.setter.Settling? ==> s.power.allowed == Permitted(cfg, s.power))
    && (s.power.allowed ==> s.power.ready && cfg.hasLeds)
    && (!s.setter.Free? ==> !(s.handler.Passing? || s.handler.Closing? || s.handler.Finishing? || s.handler.Releasing?))
  }

  predicate Inv(cfg: Config, s: System) {
    ControlInv(s) && EpochInv(s) && WakeInv(s) && RingInv(s) && FrameInv(s) && OutputInv(cfg, s)
  }

  lemma InitialInv(cfg: Config, s: System)
    requires Initial(s)
    ensures Inv(cfg, s)
  {
  }

  lemma IdleStepsKeepInv(cfg: Config, s: System, a: Action)
    requires cfg.tick > 0 && Inv(cfg, s) && Enabled(cfg, s, a)
    requires a.Wait? || a.Push? || a.Release?
    ensures Inv(cfg, Step(cfg, s, a))
  {
  }

  lemma RequestKeepsSchedule(cfg: Config, s: System, reasons: Reasons)
    requires ControlInv(s) && EpochInv(s) && WakeInv(s) && (reasons.control ==> s.history.controlAt < s.history.step)
    requires reasons.control ==> s.handler.Evaluating? ==> s.handler.began < s.history.step
    ensures var t := Requests(s, reasons); ControlInv(t) && EpochInv(t) && WakeInv(t)
  {
  }

  lemma RequestKeepsDuties(cfg: Config, s: System, reasons: Reasons)
    requires ControlInv(s) && RingInv(s) && FrameInv(s) && OutputInv(cfg, s)
    ensures var t := Requests(s, reasons); RingInv(t) && FrameInv(t) && OutputInv(cfg, t)
  {
  }

  lemma TickKeepsInv(cfg: Config, s: System)
    requires Inv(cfg, s)
    ensures var t := Ticked(s);
            Inv(cfg, t) && t.history.controlAt < t.history.step &&
            (t.handler.Evaluating? ==> t.handler.began < t.history.step)
  {
  }

  lemma RequestKeepsInv(cfg: Config, s: System, reasons: Reasons)
    requires Inv(cfg, s) && s.history.controlAt < s.history.step
    requires s.handler.Evaluating? ==> s.handler.began < s.history.step
    ensures Inv(cfg, Requests(s, reasons))
  {
    RequestKeepsSchedule(cfg, s, reasons);
    RequestKeepsDuties(cfg, s, reasons);
  }

  lemma AskKeepsInv(cfg: Config, s: System, a: Action)
    requires cfg.tick > 0 && Inv(cfg, s) && Enabled(cfg, s, a)
    requires a.Ask?
    ensures Inv(cfg, Step(cfg, s, a))
  {
    TickKeepsInv(cfg, s);
    RequestKeepsInv(cfg, Ticked(s), a.reasons);
  }

  lemma AnnounceKeepsInv(cfg: Config, s: System, a: Action)
    requires cfg.tick > 0 && Inv(cfg, s) && Enabled(cfg, s, a)
    requires a.Announce?
    ensures Inv(cfg, Step(cfg, s, a))
  {
    var u := Ticked(s).(producers := s.producers - 1);
    RequestKeepsSchedule(cfg, u, Input);
  }

  lemma StartStepKeepInv(cfg: Config, s: System, a: Action)
    requires cfg.tick > 0 && Inv(cfg, s) && Enabled(cfg, s, a)
    requires a.StartControl?
    ensures Inv(cfg, Step(cfg, s, a))
  {
  }

  lemma InitialiseKeepsInv(cfg: Config, s: System, a: Action)
    requires cfg.tick > 0 && Inv(cfg, s) && Enabled(cfg, s, a)
    requires a.TakePower? && a.intent.Initialise?
    ensures Inv(cfg, Step(cfg, s, a))
  {
  }

  lemma StoreSwitchKeepsInv(cfg: Config, s: System, a: Action)
    requires cfg.tick > 0 && Inv(cfg, s) && Enabled(cfg, s, a)
    requires a.TakePower? && (a.intent.SetUser? || a.intent.Toggle?)
    ensures Inv(cfg, Step(cfg, s, a))
  {
  }

  lemma StoreGuardedKeepsInv(cfg: Config, s: System, a: Action)
    requires cfg.tick > 0 && Inv(cfg, s) && Enabled(cfg, s, a)
    requires a.TakePower? && (a.intent.SetInhibited? || a.intent.SetActivity?)
    ensures Inv(cfg, Step(cfg, s, a))
  {
  }

  lemma ReconcileKeepsInv(cfg: Config, s: System, a: Action)
    requires cfg.tick > 0 && Inv(cfg, s) && Enabled(cfg, s, a)
    requires a.Reconcile?
    ensures Inv(cfg, Step(cfg, s, a))
  {
  }

  lemma PublishOnKeepsInv(cfg: Config, s: System, a: Action)
    requires cfg.tick > 0 && Inv(cfg, s) && Enabled(cfg, s, a)
    requires a.Publish? && s.power.allowed
    ensures Inv(cfg, Step(cfg, s, a))
  {
  }

  lemma PublishOffKeepsInv(cfg: Config, s: System, a: Action)
    requires cfg.tick > 0 && Inv(cfg, s) && Enabled(cfg, s, a)
    requires a.Publish? && !s.power.allowed
    ensures Inv(cfg, Step(cfg, s, a))
  {
  }

  lemma FreeKeepsInv(cfg: Config, s: System)
    requires Inv(cfg, s) && s.setter.Settling?
    ensures Inv(cfg, s.(setter := Free))
  {
  }

  lemma SettleKeepsInv(cfg: Config, s: System, a: Action)
    requires cfg.tick > 0 && Inv(cfg, s) && Enabled(cfg, s, a)
    requires a.Settle?
    ensures Inv(cfg, Step(cfg, s, a))
  {
    TickKeepsInv(cfg, s);
    FreeKeepsInv(cfg, Ticked(s));
    var u := Ticked(s).(setter := Free);
    var t := Step(cfg, s, a);
    if t == Submitted(u.(blackPending := false), Black) {
    } else if t == Requests(u, Repaint) {
      RequestKeepsInv(cfg, u, Repaint);
    } else {
      assert t == u;
    }
  }

  lemma BeginStepsKeepInv(cfg: Config, s: System, a: Action)
    requires cfg.tick > 0 && Inv(cfg, s) && Enabled(cfg, s, a)
    requires a.Dispatch? || a.BeginPass?
    ensures Inv(cfg, Step(cfg, s, a))
  {
  }

  lemma EvaluationStepKeepInv(cfg: Config, s: System, a: Action)
    requires cfg.tick > 0 && Inv(cfg, s) && Enabled(cfg, s, a)
    requires a.EndEvaluation?
    ensures Inv(cfg, Step(cfg, s, a))
  {
  }

  lemma AdmitStepKeepInv(cfg: Config, s: System, a: Action)
    requires cfg.tick > 0 && Inv(cfg, s) && Enabled(cfg, s, a)
    requires a.Admit?
    ensures Inv(cfg, Step(cfg, s, a))
  {
  }

  lemma SceneStepsKeepInv(cfg: Config, s: System, a: Action)
    requires cfg.tick > 0 && Inv(cfg, s) && Enabled(cfg, s, a)
    requires a.Pop? || a.EndInput? || a.Close?
    ensures Inv(cfg, Step(cfg, s, a))
  {
  }

  lemma FinishStepKeepInv(cfg: Config, s: System, a: Action)
    requires cfg.tick > 0 && Inv(cfg, s) && Enabled(cfg, s, a)
    requires a.FinishPass?
    ensures Inv(cfg, Step(cfg, s, a))
  {
  }

  lemma StepKeepsInv(cfg: Config, s: System, a: Action)
    requires cfg.tick > 0 && Inv(cfg, s) && Enabled(cfg, s, a)
    ensures Inv(cfg, Step(cfg, s, a))
  {
    if a.Wait? || a.Push? || a.Release? {
      IdleStepsKeepInv(cfg, s, a);
    } else if a.Ask? {
      AskKeepsInv(cfg, s, a);
    } else if a.Announce? {
      AnnounceKeepsInv(cfg, s, a);
    } else if a.StartControl? {
      StartStepKeepInv(cfg, s, a);
    } else if a.TakePower? {
      if a.intent.Initialise? {
        InitialiseKeepsInv(cfg, s, a);
      } else if a.intent.SetUser? || a.intent.Toggle? {
        StoreSwitchKeepsInv(cfg, s, a);
      } else {
        StoreGuardedKeepsInv(cfg, s, a);
      }
    } else if a.Reconcile? {
      ReconcileKeepsInv(cfg, s, a);
    } else if a.Publish? {
      if s.power.allowed {
        PublishOnKeepsInv(cfg, s, a);
      } else {
        PublishOffKeepsInv(cfg, s, a);
      }
    } else if a.Settle? {
      SettleKeepsInv(cfg, s, a);
    } else if a.Dispatch? || a.BeginPass? {
      BeginStepsKeepInv(cfg, s, a);
    } else if a.EndEvaluation? {
      EvaluationStepKeepInv(cfg, s, a);
    } else if a.Admit? {
      AdmitStepKeepInv(cfg, s, a);
    } else if a.Pop? || a.EndInput? || a.Close? {
      SceneStepsKeepInv(cfg, s, a);
    } else {
      FinishStepKeepInv(cfg, s, a);
    }
  }

  // ----- Whole runs -----

  /** `steps` can be taken from `s`, one after another, and lead to `t`. */
  ghost predicate Run(cfg: Config, s: System, steps: seq<Action>, t: System)
    requires cfg.tick > 0
    decreases |steps|
  {
    if steps == [] then s == t
    else Enabled(cfg, s, steps[0]) && Run(cfg, Step(cfg, s, steps[0]), steps[1..], t)
  }

  lemma {:induction false} RunKeepsInv(cfg: Config, s: System, steps: seq<Action>, t: System)
    requires cfg.tick > 0 && Inv(cfg, s) && Run(cfg, s, steps, t)
    ensures Inv(cfg, t)
    decreases |steps|
  {
    if steps != [] {
      StepKeepsInv(cfg, s, steps[0]);
      RunKeepsInv(cfg, Step(cfg, s, steps[0]), steps[1..], t);
    }
  }

  /** A coordinator at rest owes nothing: with control enabled, no work queued, nobody between a
      push and its request and no power change under way, there is no unserved request, no pending
      blackout, no undelivered input and no unscheduled frame. */
  lemma {:induction false} QuiescentOwesNothing(cfg: Config, s: System, steps: seq<Action>, t: System)
    requires cfg.tick > 0 && Initial(s) && Run(cfg, s, steps, t)
    requires t.schedule.enabled && t.schedule.work.None? && t.handler.Asleep?
    requires t.producers == 0 && t.setter.Free?
    ensures t.schedule.reasons == NoReasons && Fresh(t.schedule)
    ensures !t.blackPending && t.ring == [] && t.nextFrame.None?
  {
    InitialInv(cfg, s);
    RunKeepsInv(cfg, s, steps, t);
  }

  /** At every moment: whatever is runnable while no pass is active is queued for now (or the
      handler has just been dequeued), and staleness outside a pass is always accompanied by a
      pending CONTROL request. */
  lemma {:induction false} NothingIsStranded(cfg: Config, s: System, steps: seq<Action>, t: System)
    requires cfg.tick > 0 && Initial(s) && Run(cfg, s, steps, t)
    ensures !t.schedule.active && Runnable(t.schedule) ==> t.handler.Entered? || QueuedNow(t.schedule, t.now)
    ensures t.schedule.enabled && !t.schedule.active && !Fresh(t.schedule) ==> t.schedule.reasons.control
    ensures t.schedule.evaluated ==> t.schedule.evaluatedEpoch <= t.schedule.controlEpoch
    ensures t.schedule.evaluated && t.schedule.reasons.control ==> t.schedule.evaluatedEpoch < t.schedule.controlEpoch
  {
    InitialInv(cfg, s);
    RunKeepsInv(cfg, s, steps, t);
  }

  /** No key event can be delivered and nothing painted. */
  predicate NothingDelivered(cfg: Config, s: System) {
    && !Enabled(cfg, s, Pop(false)) && !Enabled(cfg, s, Pop(true))
    && !Enabled(cfg, s, EndInput(false)) && !Enabled(cfg, s, EndInput(true))
  }

  lemma AdmissionOutcome(cfg: Config, t: System)
    requires cfg.tick > 0 && Inv(cfg, t) && Enabled(cfg, t, Admit)
    ensures var u := Step(cfg, t, Admit);
            if Fresh(t.schedule)
            then u.handler.Passing? && t.history.controlAt < t.history.evaluationAt <= t.history.step
            else u.handler == Closing && NothingDelivered(cfg, u)
  {
  }

  /** A pass is admitted to touch the scene only on the strength of an evaluation that began
      after the last CONTROL request; otherwise it delivers no input and paints nothing. */
  lemma {:induction false} AdmissionIsFresh(cfg: Config, s: System, steps: seq<Action>, t: System)
    requires cfg.tick > 0 && Initial(s) && Run(cfg, s, steps, t) && Enabled(cfg, t, Admit)
    ensures var u := Step(cfg, t, Admit);
            if u.handler.Passing? then t.history.controlAt < t.history.evaluationAt <= t.history.step
            else u.handler == Closing && !Fresh(t.schedule) &&
                 NothingDelivered(cfg, u)
  {
    InitialInv(cfg, s);
    RunKeepsInv(cfg, s, steps, t);
    AdmissionOutcome(cfg, t);
  }

  /** The output gate over whole runs: input is only held while output is permitted, a pending
      blackout is always requested and never races permitted output, and once a blocked strip has
      no blackout pending, black was the last thing it was sent. */
  lemma {:induction false} OutputGate(cfg: Config, s: System, steps: seq<Action>, t: System)
    requires cfg.tick > 0 && Initial(s) && Run(cfg, s, steps, t)
    ensures |t.ring| <= RING_CAPACITY && (t.ring != [] ==> t.power.allowed)
    ensures t.blackPending && !t.setter.Purged? ==> !t.power.allowed && t.schedule.reasons.output
    ensures t.setter.Free? ==>
              (t.power.allowed <==>
                 && cfg.hasLeds && t.power.ready && t.power.userOn && !t.power.inhibited
                 && (t.power.activity == Active || (t.power.activity == Idle && cfg.idleBrightness > 0)))
    ensures t.power.ready && cfg.hasLeds && t.setter.Free? && !t.power.allowed && !t.blackPending ==>
              Last(t.history.submissions) == Black
  {
    InitialInv(cfg, s);
    RunKeepsInv(cfg, s, steps, t);
  }

  predicate ColoursPermitted(cfg: Config, submissions: seq<Transfer>) {
    forall k :: 0 <= k < |submissions| && submissions[k].what == Coloured ==> Permitted(cfg, submissions[k].power)
  }

  /** One step submits at most once, and colours only from a permitted pass. */
  lemma SubmissionStep(cfg: Config, s: System, a: Action)
    requires cfg.tick > 0 && Inv(cfg, s) && Enabled(cfg, s, a)
    ensures var before, after := s.history.submissions, Step(cfg, s, a).history.submissions;
            || after == before
            || (|after| == |before| + 1 && after[..|before|] == before
                && (after[|before|].what == Coloured ==>
                      Permitted(cfg, after[|before|].power) && a.EndInput? && s.power.allowed))
  {
  }

  /** `after` continues `before`, adding coloured entries only while permitted. */
  predicate Continues(cfg: Config, before: seq<Transfer>, after: seq<Transfer>) {
    before <= after && (ColoursPermitted(cfg, before) ==> ColoursPermitted(cfg, after))
  }

  lemma StepContinues(cfg: Config, s: System, a: Action)
    requires cfg.tick > 0 && Inv(cfg, s) && Enabled(cfg, s, a)
    ensures Continues(cfg, s.history.submissions, Step(cfg, s, a).history.submissions)
  {
    SubmissionStep(cfg, s, a);
    OneMoreTransfer(cfg, s.history.submissions, Step(cfg, s, a).history.submissions);
  }

  lemma OneMoreTransfer(cfg: Config, before: seq<Transfer>, after: seq<Transfer>)
    requires || after == before
             || (|after| == |before| + 1 && after[..|before|] == before
                 && (after[|before|].what == Coloured ==> Permitted(cfg, after[|before|].power)))
    ensures Continues(cfg, before, after)
  {
    if ColoursPermitted(cfg, before) {
      forall k | 0 <= k < |after| && after[k].what == Coloured ensures Permitted(cfg, after[k].power) {
        if k < |before| {
          assert after[k] == before[k];
        }
      }
    }
  }

  lemma {:induction false} SubmissionsRun(cfg: Config, s: System, steps: seq<Action>, t: System)
    requires cfg.tick > 0 && Inv(cfg, s) && Run(cfg, s, steps, t)
    ensures Continues(cfg, s.history.submissions, t.history.submissions)
    decreases |steps|
  {
    if steps != [] {
      StepKeepsInv(cfg, s, steps[0]);
      StepContinues(cfg, s, steps[0]);
      SubmissionsRun(cfg, Step(cfg, s, steps[0]), steps[1..], t);
    }
  }

  /** Over every run, each coloured strip update, first or following, was made while there were LEDs, the outputs were
      initialised, the user wanted light, nothing inhibited it and the keyboard was active, or idle with some idle
      brightness. */
  lemma {:induction false} ColoursNeedPermission(cfg: Config, s: System, steps: seq<Action>, t: System)
    requires cfg.tick > 0 && Initial(s) && Run(cfg, s, steps, t)
    ensures forall k :: 0 <= k < |t.history.submissions| && t.history.submissions[k].what == Coloured ==>
              var p := t.history.submissions[k].power;
              && cfg.hasLeds && p.ready && p.userOn && !p.inhibited
              && (p.activity == Active || (p.activity == Idle && cfg.idleBrightness > 0))
  {
    InitialInv(cfg, s);
    SubmissionsRun(cfg, s, steps, t);
  }

  /** A pass is to paint when a repaint was asked for or a frame is due, and delivers at most sixteen key events. */
  lemma AdmissionPaints(cfg: Config, s: System)
    requires cfg.tick > 0 && Enabled(cfg, s, Admit) && Step(cfg, s, Admit).handler.Passing?
    ensures var u := Step(cfg, s, Admit);
            && !u.handler.changed && u.handler.left == 16
            && (u.handler.paint <==>
                  s.schedule.reasons.repaint || (s.nextFrame.Some? && s.nextFrame.value <= s.now))
  {
  }

  /** Key events are delivered oldest first, and one that changes something is remembered. */
  lemma PopsInOrder(cfg: Config, s: System, changed: bool)
    requires cfg.tick > 0 && Enabled(cfg, s, Pop(changed))
    ensures var u := Step(cfg, s, Pop(changed));
            && s.ring == [s.ring[0]] + u.ring
            && (u.handler.changed <==> s.handler.changed || changed) && u.handler.paint == s.handler.paint
  {
  }

  /** The pass paints when it was to, or when a key press changed something, and only while output is permitted; a next
      frame follows only if the scene goes on moving. */
  lemma PassesPaintWhenAsked(cfg: Config, s: System, animating: bool)
    requires cfg.tick > 0 && Enabled(cfg, s, EndInput(animating))
    ensures var u := Step(cfg, s, EndInput(animating));
            if s.power.allowed && (s.handler.paint || s.handler.changed)
            then && |u.history.submissions| == |s.history.submissions| + 1 && Last(u.history.submissions) == Coloured
                 && (u.nextFrame.Some? <==> animating)
            else u.history.submissions == s.history.submissions && u.nextFrame == s.nextFrame
  {
  }

  /** A change of permission is announced: gained, it has everything evaluated and painted anew and drops a pending
      blackout; lost, it has the strip blackened. Frames scheduled before are forgotten either way. */
  lemma PermissionIsAnnounced(cfg: Config, s: System)
    requires cfg.tick > 0 && Enabled(cfg, s, Publish)
    ensures var t := Step(cfg, s, Publish);
            && t.nextFrame.None? && t.schedule.reasons.repaint && t.power == s.power
            && (if s.power.allowed then t.schedule.reasons.control && !t.blackPending
                else && t.schedule.reasons.output && !t.animating
                     && (t.blackPending <==> s.blackPending || (s.power.ready && cfg.hasLeds)))
  {
  }

  /** A pass asks to be followed at once while key events wait, else at the next frame; never without output. */
  lemma PassesAskToBeFollowed(cfg: Config, s: System)
    requires cfg.tick > 0 && Enabled(cfg, s, Close)
    ensures Step(cfg, s, Close).handler
         == Finishing(if !s.power.allowed then None else if |s.ring| > 0 then Some(s.now) else s.nextFrame)
  {
  }

  /** What each setter stores, and when it has anything to reconcile. */
  lemma SettersStore(cfg: Config, s: System, intent: Intent)
    requires cfg.tick > 0 && Enabled(cfg, s, TakePower(intent))
    ensures var t := Step(cfg, s, TakePower(intent));
            var p, q := s.power, t.power;
            && q.allowed == p.allowed && t.ring == s.ring && t.schedule == s.schedule
            && match intent
               case SetUser(on) => q == p.(userOn := on) && t.setter.Reconciling?
               case Toggle => q == p.(userOn := !p.userOn) && t.setter.Reconciling?
               case SetInhibited(b) => q == p.(inhibited := b) && (t.setter.Reconciling? <==> b != p.inhibited)
               case SetActivity(a) => q == p.(activity := a) && (t.setter.Reconciling? <==> a != p.activity)
               case Initialise(a) =>
                 && q == p.(activity := a, ready := true) && t.setter.Reconciling?
                 && (cfg.hasLeds ==> Last(t.history.submissions) == Black)
  {
  }

  /** Leaving the active state never brightens, and a change of the brightness ceiling while output is permitted asks
      for a repaint; going to sleep blackens the strip at once. */
  lemma ActivityShows(cfg: Config, s: System, before: Activity)
    requires cfg.tick > 0 && Enabled(cfg, s, Settle) && s.setter.intent.SetActivity?
    requires s.setter.oldCap == Cap(cfg, before)
    ensures Cap(cfg, Active) == cfg.maxBrightness
    ensures forall a :: a != Active ==> Cap(cfg, a) == Arith.Min(cfg.maxBrightness, cfg.idleBrightness)
    ensures var t := Step(cfg, s, Settle);
            && (s.power.activity == Sleep && s.power.ready && cfg.hasLeds ==>
                  Last(t.history.submissions) == Black && !t.blackPending)
            && (s.power.activity != Sleep && s.power.allowed && cfg.idleBrightness < cfg.maxBrightness &&
                ((before == Active) != (s.power.activity == Active)) ==>
                  t.schedule.reasons.repaint)
  {
  }

  predicate OnGrid(base: int, period: nat, g: int)
    requires period > 0
  {
    g >= base && (g - base) % period == 0
  }

  lemma GridPoint(base: int, period: nat, k: nat)
    requires period > 0
    ensures OnGrid(base, period, base + k * period)
  {
    Arith.NonNegative(k, period);
    Arith.ModShift(0, k, period);
  }

  /** The frame grid: strictly after completion, on the grid, and no grid point was skipped. */
  lemma NextFrameIsLeast(next: Option<int>, startedAt: int, finishedAt: int, period: nat)
    requires period > 0
    ensures var base := if next.Some? then next.value else startedAt;
            var f := NextFrame(next, startedAt, finishedAt, period);
            f > finishedAt && OnGrid(base, period, f) &&
            forall g | g > finishedAt && OnGrid(base, period, g) :: f <= g
  {
    var base := if next.Some? then next.value else startedAt;
    if base <= finishedAt {
      var q := (finishedAt - base) / period;
      GridPoint(base, period, q + 1);
      assert (q + 1) * period == q * period + period;
      forall g | g > finishedAt && OnGrid(base, period, g)
        ensures NextFrame(next, startedAt, finishedAt, period) <= g
      {
        var k := (g - base) / period;
        assert g - base == k * period;
        if k <= q {
          Arith.MulAtLeast(k, q, period);
          assert false;
        }
        Arith.MulAtLeast(q + 1, k, period);
      }
    } else {
      GridPoint(base, period, 0);
    }
  }
}
