/** The coordinator's scheduling state, protected by its spinlock: request bits, the control
    epoch, the active flag and the delayable work item. Every function is one critical section. */
module Scheduling {
  import opened Arith
  import opened Options

  datatype Reasons = Reasons(control: bool, repaint: bool, input: bool, output: bool)

  const NoReasons := Reasons(false, false, false, false)

  datatype Schedule = Schedule(
    reasons: Reasons,
    controlEpoch: nat,
    evaluatedEpoch: nat,
    enabled: bool,
    evaluated: bool,
    active: bool,
    work: Option<int>)        // deadline of the queued work item

  const Boot := Schedule(NoReasons, 0, 0, false, false, false, None)

  function Join(a: Reasons, b: Reasons): Reasons {
    Reasons(a.control || b.control, a.repaint || b.repaint, a.input || b.input, a.output || b.output)
  }

  predicate Fresh(s: Schedule) {
    s.enabled && s.evaluated && s.evaluatedEpoch == s.controlEpoch && !s.reasons.control
  }

  predicate Runnable(s: Schedule) {
    (s.enabled && s.reasons.control) || (Fresh(s) && (s.reasons.repaint || s.reasons.input)) || s.reasons.output
  }

  /** The work item is queued and its time has come. */
  predicate QueuedNow(s: Schedule, now: int) {
    s.work.Some? && s.work.value <= now
  }

  function Requested(s: Schedule, reasons: Reasons, now: int): Schedule {
    var t := s.(reasons := Join(s.reasons, reasons),
                controlEpoch := s.controlEpoch + if reasons.control then 1 else 0);
    if !t.active && Runnable(t) then t.(work := Some(now)) else t
  }

  function Started(s: Schedule, now: int): Schedule {
    if s.enabled then s
    else
      var t := s.(enabled := true, controlEpoch := s.controlEpoch + 1,
                  reasons := s.reasons.(control := true, repaint := true));
      if t.active then t else t.(work := Some(now))
  }

  /** The handler's first section; whether it must evaluate conditions is `TakesControl`. */
  predicate TakesControl(s: Schedule) {
    s.enabled && s.reasons.control
  }

  function Begun(s: Schedule): Schedule {
    s.(active := true, reasons := s.reasons.(control := s.reasons.control && !TakesControl(s)))
  }

  /** After evaluation: the result stands only if nothing invalidated it meanwhile. */
  function Evaluated(s: Schedule, epoch: nat): Schedule {
    if epoch == s.controlEpoch && !s.reasons.control
    then s.(evaluatedEpoch := epoch, evaluated := true)
    else s
  }

  function Admitted(s: Schedule): Schedule {
    var r := if Fresh(s) then s.reasons.(repaint := false, input := false) else s.reasons;
    s.(reasons := r.(output := false))
  }

  function Finished(s: Schedule, scene: Option<int>, now: int): Schedule {
    var wanted := if Runnable(s) then Some(now) else if Fresh(s) then scene else None;
    s.(active := false, work := if wanted.Some? then Some(Max(wanted.value, now)) else s.work)
  }

  /** A request loses nothing that was pending, dates itself when it is for CONTROL, and is served at once unless a pass
    * is running or nothing can be served yet; then the queued deadline stays. */
  lemma RequestMeans(s: Schedule, asked: Reasons, now: int)
    ensures var t := Requested(s, asked, now);
            && (t.reasons.control <==> s.reasons.control || asked.control)
            && (t.reasons.repaint <==> s.reasons.repaint || asked.repaint)
            && (t.reasons.input <==> s.reasons.input || asked.input)
            && (t.reasons.output <==> s.reasons.output || asked.output)
            && t.controlEpoch == s.controlEpoch + (if asked.control then 1 else 0)
            && (s.active ==> t.work == s.work)
            && (!s.active && t.reasons.output ==> t.work == Some(now))
            && (!s.active && t.enabled && t.reasons.control ==> t.work == Some(now))
            && (!s.active && !t.reasons.output && !t.reasons.control && !t.reasons.input && !t.reasons.repaint ==>
                  t.work == s.work)
            && (!s.active && !t.enabled && !t.reasons.output ==> t.work == s.work)
  {
  }

  /** A pass that leaves nothing to serve sleeps until the scene's deadline and no longer or shorter; one that leaves
    * control or output requests is followed by another at once. */
  lemma FinishMeans(s: Schedule, scene: Option<int>, now: int)
    ensures var t := Finished(s, scene, now);
            && !t.active && t.reasons == s.reasons
            && (s.reasons.output || (s.enabled && s.reasons.control) ==> t.work == Some(now))
            && (s.reasons == NoReasons && Fresh(s) ==>
                  t.work == if scene.None? then s.work else Some(if scene.value > now then scene.value else now))
            && (s.reasons == NoReasons && !Fresh(s) ==> t.work == s.work)
  {
  }

  /** Control is started once, with requests to evaluate and to repaint, served at once unless a pass is running. */
  lemma StartMeans(s: Schedule, now: int)
    ensures var t := Started(s, now);
            && t.enabled && t.active == s.active && t.evaluated == s.evaluated
            && (s.enabled ==> t == s)
            && (!s.enabled ==>
                  && t.reasons.control && t.reasons.repaint && t.controlEpoch == s.controlEpoch + 1
                  && t.reasons.input == s.reasons.input && t.reasons.output == s.reasons.output
                  && t.work == if s.active then s.work else Some(now))
  {
  }

  /** A pass takes the CONTROL request it will answer and nothing else; its evaluation stands exactly when nothing asked
    * for another one meanwhile. */
  lemma EvaluationMeans(s: Schedule, epoch: nat)
    ensures var t := Begun(s);
            && t.active && t.controlEpoch == s.controlEpoch
            && t.reasons.repaint == s.reasons.repaint && t.reasons.input == s.reasons.input
            && t.reasons.output == s.reasons.output
            && (t.reasons.control <==> s.reasons.control && !s.enabled)
    ensures var t := Evaluated(s, epoch);
            && t.reasons == s.reasons && t.work == s.work
            && (if epoch == s.controlEpoch && !s.reasons.control then t.evaluated && t.evaluatedEpoch == epoch
                else t == s)
  {
  }

  /** Admission takes the output request in any case, and repaint and input only into a pass that is current. */
  lemma AdmissionTakes(s: Schedule)
    ensures var t := Admitted(s);
            && !t.reasons.output && t.reasons.control == s.reasons.control
            && (s.enabled && s.evaluated && s.evaluatedEpoch == s.controlEpoch && !s.reasons.control ==>
                  !t.reasons.repaint && !t.reasons.input)
            && (!(s.enabled && s.evaluated && s.evaluatedEpoch == s.controlEpoch && !s.reasons.control) ==>
                  t.reasons.repaint == s.reasons.repaint && t.reasons.input == s.reasons.input)
  {
  }

  /** The same state in place. */
  class Scheduler {
    var reasons: Reasons
    var controlEpoch: nat
    var evaluatedEpoch: nat
    var enabled: bool
    var evaluated: bool
    var active: bool
    var work: Option<int>

    constructor ()
      ensures View() == Boot
    {
      reasons, controlEpoch, evaluatedEpoch := NoReasons, 0, 0;
      enabled, evaluated, active, work := false, false, false, None;
    }

    ghost function View(): Schedule
      reads this
    {
      Schedule(reasons, controlEpoch, evaluatedEpoch, enabled, evaluated, active, work)
    }

    predicate IsFresh()
      reads this
      ensures IsFresh() == Fresh(View())
    {
      enabled && evaluated && evaluatedEpoch == controlEpoch && !reasons.control
    }

    predicate IsRunnable()
      reads this
      ensures IsRunnable() == Runnable(View())
    {
      (enabled && reasons.control) || (IsFresh() && (reasons.repaint || reasons.input)) || reasons.output
    }

    /** Queue the work item, replacing an earlier deadline. */
    method Enqueue(deadline: Option<int>, now: int)
      modifies this`work
      ensures work == if deadline.Some? then Some(Max(deadline.value, now)) else old(work)
    {
      if deadline.Some? {
        work := Some(Max(deadline.value, now));
      }
    }

    method Request(asked: Reasons, now: int)
      modifies this
      ensures View() == Requested(old(View()), asked, now)
    {
      reasons := Join(reasons, asked);
      if asked.control {
        controlEpoch := controlEpoch + 1;
      }
      if !active && IsRunnable() {
        Enqueue(Some(now), now);
      }
    }

    method Start(now: int)
      modifies this
      ensures View() == Started(old(View()), now)
    {
      if !enabled {
        enabled := true;
        reasons := Join(reasons, Reasons(true, true, false, false));
        controlEpoch := controlEpoch + 1;
        if !active {
          Enqueue(Some(now), now);
        }
      }
    }

    method Begin() returns (control: bool, epoch: nat)
      modifies this
      ensures View() == Begun(old(View()))
      ensures control == TakesControl(old(View())) && epoch == old(controlEpoch)
    {
      active := true;
      control := enabled && reasons.control;
      epoch := controlEpoch;
      if control {
        reasons := reasons.(control := false);
      }
    }

    method EndEvaluation(epoch: nat)
      modifies this
      ensures View() == Evaluated(old(View()), epoch)
    {
      if epoch == controlEpoch && !reasons.control {
        evaluatedEpoch := epoch;
        evaluated := true;
      }
    }

    method Admit() returns (current: bool, repaint: bool)
      modifies this
      ensures View() == Admitted(old(View()))
      ensures current == Fresh(old(View())) && repaint == (current && old(reasons.repaint))
    {
      current := IsFresh();
      repaint := current && reasons.repaint;
      if current {
        reasons := reasons.(repaint := false, input := false);
      }
      reasons := reasons.(output := false);
    }

    method FinishPass(scene: Option<int>, now: int)
      modifies this
      ensures View() == Finished(old(View()), scene, now)
    {
      var deadline := if IsFresh() then scene else None;
      if IsRunnable() {
        deadline := Some(now);
      }
      Enqueue(deadline, now);
      active := false;
    }
  }
}
