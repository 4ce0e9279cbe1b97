/** What the split protocol guarantees over whole runs. */
module Convergence {
  import opened Commands
  import opened Publication
  import opened Replication
  import opened SyncWalk
  import opened SplitProtocol

  /** A started central that has not observed any peripheral yet. */
  ghost predicate Initial(cfg: Config, s: System)
    ensures Initial(cfg, s) ==> Inv(cfg, s)
  {
    && ValidConfig(cfg) && ValidState(cfg, s.central.state)
    && s.ledger == Ledger(0, 0, false) && s.live == {}
    && s.consumed == 0 && s.flight == Resting && s.unnoticed == {}
    && |s.sources| == |s.links|
    && (forall i | 0 <= i < |s.sources| ::
          s.sources[i] == Source(false, false, false, Start, 0, 0, 0) && ValidState(cfg, s.links[i].replica))
  }

  /** `steps` can be taken from `s`, one after another, and lead to `t`. */
  ghost predicate Run(cfg: Config, s: System, steps: seq<Action>, t: System)
    requires Inv(cfg, s)
    decreases |steps|
  {
    if steps == [] then s == t
    else Enabled(cfg, s, steps[0]) &&
         (StepKeepsInv(cfg, s, steps[0]); Run(cfg, Step(cfg, s, steps[0]), steps[1..], t))
  }

  lemma {:induction false} RunKeepsInv(cfg: Config, s: System, steps: seq<Action>, t: System)
    requires Inv(cfg, s) && Run(cfg, s, steps, t)
    ensures Inv(cfg, t)
    decreases |steps|
  {
    if steps != [] {
      StepKeepsInv(cfg, s, steps[0]);
      RunKeepsInv(cfg, Step(cfg, s, steps[0]), steps[1..], t);
    }
  }

  // ----- Outages that go unnoticed -----

  /** A poll that misses peripheral `i` or finds the transport changed, or a new walk to it. */
  predicate StartsOver(s: System, i: nat, a: Action)
    requires i < |s.sources|
  {
    match a
    case PollSources(changed, present, _, _) => changed || i >= |present| || !present[i]
    case BindNext(j) => j == i && !s.sources[i].captured
    case _ => false
  }

  ghost predicate NeverStartsOver(cfg: Config, s: System, i: nat, steps: seq<Action>)
    requires Inv(cfg, s) && i < |s.sources|
    decreases |steps|
  {
    steps != [] && Enabled(cfg, s, steps[0]) ==>
      && !StartsOver(s, i, steps[0])
      && (StepKeepsInv(cfg, s, steps[0]); NeverStartsOver(cfg, Step(cfg, s, steps[0]), i, steps[1..]))
  }

  /** Somewhere in the run peripheral `i` is lost or restarted while observed, and nothing starts over after that. */
  ghost predicate LostUnnoticed(cfg: Config, s: System, i: nat, steps: seq<Action>)
    requires Inv(cfg, s) && i < |s.sources|
    decreases |steps|
  {
    && steps != [] && Enabled(cfg, s, steps[0])
    && var a := steps[0];
       StepKeepsInv(cfg, s, a);
       var next := Step(cfg, s, a);
       (a.Outage? && a.i == i && s.sources[i].seen && NeverStartsOver(cfg, next, i, steps[1..])) ||
       LostUnnoticed(cfg, next, i, steps[1..])
  }

  lemma UnnoticedStep(cfg: Config, s: System, i: nat, a: Action)
    requires Inv(cfg, s) && Enabled(cfg, s, a) && i < |s.sources|
    ensures var t := Step(cfg, s, a);
            && |t.sources| == |s.sources|
            && (i in t.unnoticed <==>
                  (a.Outage? && a.i == i && s.sources[i].seen) || (i in s.unnoticed && !StartsOver(s, i, a)))
  {
  }

  lemma {:induction false} UnnoticedMeansLost(cfg: Config, s: System, i: nat, steps: seq<Action>, t: System)
    requires Inv(cfg, s) && Run(cfg, s, steps, t) && i < |s.sources|
    ensures i in t.unnoticed <==>
            LostUnnoticed(cfg, s, i, steps) || (i in s.unnoticed && NeverStartsOver(cfg, s, i, steps))
    decreases |steps|
  {
    if steps != [] {
      StepKeepsInv(cfg, s, steps[0]);
      UnnoticedStep(cfg, s, i, steps[0]);
      UnnoticedMeansLost(cfg, Step(cfg, s, steps[0]), i, steps[1..], t);
    }
  }

  lemma {:induction false} SourcesStay(cfg: Config, s: System, steps: seq<Action>, t: System)
    requires Inv(cfg, s) && Run(cfg, s, steps, t)
    ensures |t.sources| == |s.sources| && |t.links| == |s.links|
    decreases |steps|
  {
    if steps != [] {
      StepKeepsInv(cfg, s, steps[0]);
      SourcesStay(cfg, Step(cfg, s, steps[0]), steps[1..], t);
    }
  }

  /** After any run, judging a finished walk complete means the peripheral will hold exactly the central's current
      state once its link has drained, unless it was lost or restarted during the walk without a poll noticing. */
  lemma {:induction false} AcceptedWalkHasConverged(cfg: Config, s: System, steps: seq<Action>, t: System, now: int)
    requires Initial(cfg, s) && Run(cfg, s, steps, t)
    requires Enabled(cfg, t, Judge(now))
    ensures Inv(cfg, t)
    ensures var i := t.flight.target;
            && i < |s.sources|
            && (!Step(cfg, t, Judge(now)).sources[i].pending ==>
                  LostUnnoticed(cfg, s, i, steps) || Drained(cfg, t.links[i]) == t.central.state)
  {
    RunKeepsInv(cfg, s, steps, t);
    SourcesStay(cfg, s, steps, t);
    var i := t.flight.target;
    assert SourceInv(cfg, t, t.sources[i], t.links[i], i !in t.unnoticed);
    UnnoticedMeansLost(cfg, s, i, steps, t);
  }

  /** The guarantee outlives the judgement: an observed peripheral that is not pending, with nothing in flight, is
      converged for as long as nothing is published, no invocation is outstanding and it is not lost unnoticed. */
  lemma {:induction false} SettledSourceIsConverged(cfg: Config, s: System, steps: seq<Action>, t: System, i: nat)
    requires Initial(cfg, s) && Run(cfg, s, steps, t)
    requires i < |t.sources| && t.sources[i].seen && !t.sources[i].pending
    requires t.sources[i].generation == t.central.generation && t.ledger.outstanding == 0
    ensures i < |s.sources| && i < |t.links| && ValidState(cfg, t.central.state) && ValidState(cfg, t.links[i].replica)
    ensures LostUnnoticed(cfg, s, i, steps) || Drained(cfg, t.links[i]) == t.central.state
    ensures !LostUnnoticed(cfg, s, i, steps) && t.links[i].channel == [] ==> t.links[i].replica == t.central.state
  {
    RunKeepsInv(cfg, s, steps, t);
    SourcesStay(cfg, s, steps, t);
    assert SourceInv(cfg, t, t.sources[i], t.links[i], i !in t.unnoticed);
    UnnoticedMeansLost(cfg, s, i, steps, t);
  }

  /** Outstanding equals the number of marked bindings whose callback is still owed. */
  lemma {:induction false} OutstandingCountsLiveInvocations(cfg: Config, s: System, steps: seq<Action>, t: System)
    requires Initial(cfg, s) && Run(cfg, s, steps, t)
    ensures t.ledger.outstanding == |t.live|
    ensures forall id | id in t.live :: t.ledger.outstanding > 0
  {
    RunKeepsInv(cfg, s, steps, t);
    forall id | id in t.live
      ensures |t.live| > 0
    {
    }
  }

  // ----- A quiet walk is accepted -----

  /** Bind and send, without interruption. */
  function SendOne(cfg: Config, s: System, i: nat, now: int): (t: System)
    requires Inv(cfg, s) && Enabled(cfg, s, BindNext(i))
    ensures Inv(cfg, t)
  {
    StepKeepsInv(cfg, s, BindNext(i));
    var bound := Step(cfg, s, BindNext(i));
    StepKeepsInv(cfg, bound, SendAccepted(now));
    Step(cfg, bound, SendAccepted(now))
  }

  ghost predicate Quiet(s: System, t: System) {
    t.central == s.central && t.ledger == s.ledger && t.live == s.live && t.consumed == s.consumed &&
    |t.sources| == |s.sources|
  }

  /** The generation a walk is judged by: captured with its first item. */
  function WalkGeneration(s: System, i: nat): nat
    requires i < |s.sources|
  {
    if s.sources[i].captured then s.sources[i].generation else s.central.generation
  }

  /** The walk under way was begun before an unnoticed outage. */
  predicate UnnoticedWalk(s: System, i: nat)
    requires i < |s.sources|
  {
    i in s.unnoticed && s.sources[i].captured
  }

  lemma SendOneProgress(cfg: Config, s: System, i: nat, now: int)
    requires Inv(cfg, s) && Enabled(cfg, s, BindNext(i))
    ensures var t := SendOne(cfg, s, i, now);
            var p := Position(cfg, CursorItem(cfg, s.sources[i].cursor));
            && Quiet(s, t)
            && t.sources[i].generation == WalkGeneration(s, i) && t.sources[i].seen
            && (i in t.unnoticed <==> UnnoticedWalk(s, i))
            && if p + 1 < Total(cfg)
               then t.flight == Resting && t.sources[i].pending && t.sources[i].captured &&
                    ValidCursor(cfg, t.sources[i].cursor) &&
                    Position(cfg, CursorItem(cfg, t.sources[i].cursor)) == p + 1
               else t.flight == Returned(i)
  {
    var bound := Step(cfg, s, BindNext(i));
    assert SourceInv(cfg, s, s.sources[i], s.links[i], i !in s.unnoticed);
    AdvanceMovesOn(cfg, bound.sources[i]);
    PositionInRange(cfg, CursorItem(cfg, s.sources[i].cursor));
  }

  /** Send the rest of the walk. */
  function SendRest(cfg: Config, s: System, i: nat, now: int): (t: System)
    requires Inv(cfg, s) && Enabled(cfg, s, BindNext(i)) && ValidCursor(cfg, s.sources[i].cursor)
    ensures Inv(cfg, t) && Quiet(s, t) && t.flight == Returned(i)
    ensures t.sources[i].generation == WalkGeneration(s, i) && (i in t.unnoticed <==> UnnoticedWalk(s, i))
    decreases Total(cfg) - Position(cfg, CursorItem(cfg, s.sources[i].cursor))
  {
    SendOneProgress(cfg, s, i, now);
    PositionInRange(cfg, CursorItem(cfg, s.sources[i].cursor));
    var t := SendOne(cfg, s, i, now);
    if t.flight == Returned(i) then t else SendRest(cfg, t, i, now)
  }

  /** The rest of the walk and its judgement, without interruption. */
  function Walk(cfg: Config, s: System, i: nat, now: int): (t: System)
    requires Inv(cfg, s) && Enabled(cfg, s, BindNext(i)) && ValidCursor(cfg, s.sources[i].cursor)
    ensures Inv(cfg, t) && i < |t.sources| == |t.links|
  {
    StepKeepsInv(cfg, SendRest(cfg, s, i, now), Judge(now));
    Step(cfg, SendRest(cfg, s, i, now), Judge(now))
  }

  /** A peripheral that will hold exactly the central's state. */
  ghost predicate InStep(cfg: Config, s: System, i: nat)
    requires Inv(cfg, s) && i < |s.links|
  {
    ValidState(cfg, s.links[i].replica) && Drained(cfg, s.links[i]) == s.central.state
  }

  /** With nothing outstanding and no unconsumed repair, finishing a walk without interruption is accepted exactly when
      its generation is still the central's, and leaves the peripheral in step unless an outage went unnoticed before;
      otherwise a fresh walk is due. */
  lemma QuietWalkOutcome(cfg: Config, s: System, i: nat, now: int)
    requires Inv(cfg, s) && Enabled(cfg, s, BindNext(i)) && ValidCursor(cfg, s.sources[i].cursor)
    requires s.ledger.outstanding == 0 && s.consumed == s.ledger.repairEpoch
    ensures var t := Walk(cfg, s, i, now);
            && Quiet(s, t) && t.flight == Resting && t.sources[i].seen
            && (i in t.unnoticed <==> UnnoticedWalk(s, i))
            && (if WalkGeneration(s, i) == s.central.generation
                then !t.sources[i].pending && (UnnoticedWalk(s, i) || InStep(cfg, t, i))
                else t.sources[i].pending && !t.sources[i].captured && ValidCursor(cfg, t.sources[i].cursor))
  {
    var done := SendRest(cfg, s, i, now);
    StepKeepsInv(cfg, done, Judge(now));
    assert SourceInv(cfg, done, done.sources[i], done.links[i], i !in done.unnoticed);
  }

  /** A fresh walk that nothing interrupts is accepted and leaves the peripheral in step. */
  lemma QuietWalkIsAccepted(cfg: Config, s: System, i: nat, now: int)
    requires Inv(cfg, s) && Enabled(cfg, s, BindNext(i)) && !s.sources[i].captured
    requires s.ledger.outstanding == 0 && s.consumed == s.ledger.repairEpoch
    ensures ValidCursor(cfg, s.sources[i].cursor)
    ensures var t := Walk(cfg, s, i, now);
            !t.sources[i].pending && t.central == s.central && InStep(cfg, t, i)
  {
    assert SourceInv(cfg, s, s.sources[i], s.links[i], i !in s.unnoticed);
    QuietWalkOutcome(cfg, s, i, now);
  }

  // ----- Isolated and overlapping invocations -----

  lemma LinkValid(cfg: Config, s: System, i: nat)
    requires Inv(cfg, s) && i < |s.links|
    ensures ValidState(cfg, s.links[i].replica)
  {
    assert SourceInv(cfg, s, s.sources[i], s.links[i], i !in s.unnoticed);
  }

  /** An invocation that overlaps no other leaves a peripheral that was in step in step exactly when the
      transport took its message or the message changes nothing. The transport's refusal is not noticed:
      only a failed callback asks for a repair, and no replay is started. */
  lemma IsolatedInvocationKeepsStep(cfg: Config, s: System, i: nat, id: nat, m: Message, accepted: bool, negative: bool)
    requires Inv(cfg, s) && i < |s.links| && InStep(cfg, s, i)
    requires s.ledger.outstanding == 0 && !s.ledger.exceptional && id !in s.live
    ensures var begun := Step(cfg, s, BeginInvocation(id));
            && Inv(cfg, begun) && Enabled(cfg, begun, Forward(id, i, m, accepted))
            && var sent := Step(cfg, begun, Forward(id, i, m, accepted));
            && Inv(cfg, sent)
            && var applied := Step(cfg, sent, Change(Invoke(m)));
            && Inv(cfg, applied) && Enabled(cfg, applied, FinishInvocation(id, negative))
            && var t := Step(cfg, applied, FinishInvocation(id, negative));
            && Inv(cfg, t)
            && (InStep(cfg, t, i) <==> accepted || Apply(cfg, s.central.state, m) == s.central.state)
            && t.ledger == Ledger(0, s.ledger.repairEpoch + (if negative then 1 else 0), false)
            && t.sources == s.sources
  {
    StepKeepsInv(cfg, s, BeginInvocation(id));
    var begun := Step(cfg, s, BeginInvocation(id));
    StepKeepsInv(cfg, begun, Forward(id, i, m, accepted));
    var sent := Step(cfg, begun, Forward(id, i, m, accepted));
    StepKeepsInv(cfg, sent, Change(Invoke(m)));
    var applied := Step(cfg, sent, Change(Invoke(m)));
    StepKeepsInv(cfg, applied, FinishInvocation(id, negative));
    var t := Step(cfg, applied, FinishInvocation(id, negative));
    if accepted {
      DrainedEnqueue(cfg, s.links[i], m);
    }
    GenerationIrrelevant(cfg, s.central, m);
    LinkValid(cfg, t, i);
  }

  /** A local change outside any invocation reaches no peripheral: one in step stays so exactly when nothing
      changed, no repair is asked for and no replay is started. */
  lemma LocalChangeKeepsStep(cfg: Config, s: System, i: nat, op: Op)
    requires Inv(cfg, s) && i < |s.links| && InStep(cfg, s, i) && ValidOp(cfg, op)
    ensures var t := Step(cfg, s, Change(op));
            && Inv(cfg, t)
            && (InStep(cfg, t, i) <==> Mutate(cfg, s.central, op).state == s.central.state)
            && t.ledger == s.ledger && t.sources == s.sources
  {
    StepKeepsInv(cfg, s, Change(op));
    LinkValid(cfg, Step(cfg, s, Change(op)), i);
  }

  /** A peripheral lost or restarted is in step exactly when it came back with the central's state. While it is observed
      nothing else shows: no repair is asked for and no replay is started. */
  lemma OutageKeepsStep(cfg: Config, s: System, i: nat, replica: State)
    requires Inv(cfg, s) && i < |s.links| && ValidState(cfg, replica)
    ensures var t := Step(cfg, s, Outage(i, replica));
            && Inv(cfg, t)
            && (InStep(cfg, t, i) <==> replica == s.central.state)
            && t.ledger == s.ledger && t.sources == s.sources && t.flight == s.flight
            && (s.sources[i].seen ==> i in t.unnoticed)
  {
    StepKeepsInv(cfg, s, Outage(i, replica));
  }

  lemma {:induction false} RunSteps(cfg: Config, s: System, a: Action, rest: seq<Action>, t: System)
    requires Inv(cfg, s) && Enabled(cfg, s, a)
    requires Inv(cfg, Step(cfg, s, a)) && Run(cfg, Step(cfg, s, a), rest, t)
    ensures Run(cfg, s, [a] + rest, t)
  {
    assert ([a] + rest)[1..] == rest;
  }

  lemma {:induction false} RunsCompose(cfg: Config, s: System, xs: seq<Action>, m: System, ys: seq<Action>, t: System)
    requires Inv(cfg, s) && Run(cfg, s, xs, m) && Inv(cfg, m) && Run(cfg, m, ys, t)
    ensures Run(cfg, s, xs + ys, t)
    decreases |xs|
  {
    if xs == [] {
      assert xs + ys == ys;
    } else {
      StepKeepsInv(cfg, s, xs[0]);
      RunsCompose(cfg, Step(cfg, s, xs[0]), xs[1..], m, ys, t);
      assert (xs + ys)[1..] == xs[1..] + ys;
    }
  }

  function SetBrightnessTo(v: u32): Message {
    Message(Matrix, Binding(BRT_SET, v), true)
  }

  lemma BrightnessApplied(cfg: Config, st: State, v: u32)
    requires ValidConfig(cfg) && ValidState(cfg, st) && v <= BRT_MAX
    ensures Apply(cfg, st, SetBrightnessTo(v)).brightness == v
  {
  }
}
