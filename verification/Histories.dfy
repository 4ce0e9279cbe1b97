/** Histories of invocations: what brings a peripheral out of step, and when that is noticed. */
module Histories {
  import opened Commands
  import opened Publication
  import opened Replication
  import opened SplitProtocol
  import opened Convergence

  /** No send to peripheral `i` is under way. */
  predicate FlightElsewhere(f: Flight, i: nat) {
    f.Bound? ==> f.target != i
  }

  // ----- Repairs are owed for overlaps and failures, and for nothing else -----

  predicate Exceptional(s: System, a: Action) {
    (a.BeginInvocation? && s.live != {}) || (a.FinishInvocation? && a.negative)
  }

  /** Somewhere in the run two invocations overlap or one fails. */
  ghost predicate Irregular(cfg: Config, s: System, steps: seq<Action>)
    requires Inv(cfg, s)
    decreases |steps|
  {
    steps != [] &&
    (Exceptional(s, steps[0]) ||
     (Enabled(cfg, s, steps[0]) &&
      (StepKeepsInv(cfg, s, steps[0]); Irregular(cfg, Step(cfg, s, steps[0]), steps[1..]))))
  }

  /** A repair has come due since the epoch was `epoch`, or will when the busy period ends. */
  predicate Owes(l: Ledger, epoch: nat) {
    l.repairEpoch >= epoch && (l.repairEpoch > epoch || (l.outstanding > 0 && l.exceptional))
  }

  predicate OwesNothing(l: Ledger, epoch: nat) {
    l.repairEpoch == epoch && !l.exceptional
  }

  lemma OwingStep(cfg: Config, s: System, a: Action, epoch: nat)
    requires Inv(cfg, s) && Enabled(cfg, s, a)
    ensures Owes(s.ledger, epoch) ==> Owes(Step(cfg, s, a).ledger, epoch)
    ensures OwesNothing(s.ledger, epoch) ==>
              if Exceptional(s, a) then Owes(Step(cfg, s, a).ledger, epoch)
              else OwesNothing(Step(cfg, s, a).ledger, epoch)
  {
    if a.BeginInvocation? && s.live != {} {
      var id :| id in s.live;
      assert |s.live - {id}| == |s.live| - 1;
    }
  }

  lemma {:induction false} OwingRun(cfg: Config, s: System, steps: seq<Action>, t: System, epoch: nat)
    requires Inv(cfg, s) && Run(cfg, s, steps, t)
    ensures Owes(s.ledger, epoch) ==> Owes(t.ledger, epoch)
    ensures OwesNothing(s.ledger, epoch) ==>
              if Irregular(cfg, s, steps) then Owes(t.ledger, epoch) else OwesNothing(t.ledger, epoch)
    decreases |steps|
  {
    if steps != [] {
      StepKeepsInv(cfg, s, steps[0]);
      OwingStep(cfg, s, steps[0], epoch);
      OwingRun(cfg, Step(cfg, s, steps[0]), steps[1..], t, epoch);
    }
  }

  /** Once nothing is outstanding, the repair epoch has moved exactly when an overlap or a failure occurred,
    * wherever in the run and whatever else happened. */
  lemma {:induction false} RepairsMarkIrregularHistories(cfg: Config, s: System, steps: seq<Action>, t: System)
    requires Inv(cfg, s) && Run(cfg, s, steps, t)
    requires !s.ledger.exceptional && t.ledger.outstanding == 0
    ensures t.ledger.repairEpoch >= s.ledger.repairEpoch
    ensures t.ledger.repairEpoch > s.ledger.repairEpoch <==> Irregular(cfg, s, steps)
  {
    OwingRun(cfg, s, steps, t, s.ledger.repairEpoch);
  }

  // ----- What a peripheral will hold -----

  /** The messages the transport took for peripheral `i`, in order. */
  function Taken(i: nat, steps: seq<Action>): seq<Message> {
    if steps == [] then []
    else
      var rest := Taken(i, steps[1..]);
      if steps[0].Forward? && steps[0].i == i && steps[0].accepted then [steps[0].message] + rest else rest
  }

  /** The changes the central made to itself, in order. */
  function Made(steps: seq<Action>): seq<Op> {
    if steps == [] then []
    else if steps[0].Change? then [steps[0].op] + Made(steps[1..])
    else Made(steps[1..])
  }

  function Invocations(messages: seq<Message>): seq<Op> {
    if messages == [] then [] else [Invoke(messages[0])] + Invocations(messages[1..])
  }

  /** Only valid changes can be made. */
  lemma {:induction false} MadeIsValid(cfg: Config, s: System, steps: seq<Action>, t: System)
    requires Inv(cfg, s) && Run(cfg, s, steps, t)
    ensures forall op :: op in Made(steps) ==> ValidOp(cfg, op)
    decreases |steps|
  {
    if steps != [] {
      StepKeepsInv(cfg, s, steps[0]);
      MadeIsValid(cfg, Step(cfg, s, steps[0]), steps[1..], t);
    }
  }

  function ApplyAll(cfg: Config, st: State, messages: seq<Message>): (r: State)
    requires ValidConfig(cfg) && ValidState(cfg, st)
    ensures ValidState(cfg, r)
    decreases |messages|
  {
    if messages == [] then st
    else
      ApplyValid(cfg, st, messages[0]);
      ApplyAll(cfg, Apply(cfg, st, messages[0]), messages[1..])
  }

  function MutateAll(cfg: Config, c: Central, ops: seq<Op>): (r: Central)
    requires ValidConfig(cfg) && ValidState(cfg, c.state)
    ensures ValidState(cfg, r.state)
    decreases |ops|
  {
    if ops == [] || !ValidOp(cfg, ops[0]) then c
    else
      MutationsArePublished(cfg, c, ops[0]);
      MutateAll(cfg, Mutate(cfg, c, ops[0]), ops[1..])
  }

  /** The replay worker does not send to `i` and `i` is not restarted. */
  predicate Undisturbed(i: nat, steps: seq<Action>) {
    forall a :: a in steps ==> !(a.BindNext? && a.i == i) && !(a.Outage? && a.i == i)
  }

  lemma {:induction false} UndisturbedStep(cfg: Config, s: System, i: nat, a: Action)
    requires Inv(cfg, s) && Enabled(cfg, s, a) && i < |s.links| && FlightElsewhere(s.flight, i)
    requires !(a.BindNext? && a.i == i) && !(a.Outage? && a.i == i)
    requires ValidState(cfg, s.links[i].replica)
    ensures var t := Step(cfg, s, a);
            && Inv(cfg, t) && |t.links| == |s.links| && ValidState(cfg, t.links[i].replica)
            && FlightElsewhere(t.flight, i)
            && Drained(cfg, t.links[i]) == ApplyAll(cfg, Drained(cfg, s.links[i]), Taken(i, [a]))
            && (!a.Change? ==> t.central.state == s.central.state)
  {
    StepKeepsInv(cfg, s, a);
    var t := Step(cfg, s, a);
    LinkValid(cfg, t, i);
    if a.Deliver? && a.i == i {
      DrainedDeliver(cfg, s.links[i]);
    } else if a.SendClock? && a.i == i && a.accepted {
      DrainedEnqueue(cfg, s.links[i], ClockMessage(a.time));
      ClockChangesNothing(cfg, Drained(cfg, s.links[i]), a.time);
    } else if a.Forward? && a.i == i && a.accepted {
      DrainedEnqueue(cfg, s.links[i], a.message);
      assert Taken(i, [a]) == [a.message];
    } else {
      assert t.links[i] == s.links[i];
    }
  }

  /** Changes act on the state alone, whatever the generation. */
  lemma {:induction false} StateDecidesChanges(cfg: Config, c: Central, d: Central, ops: seq<Op>)
    requires ValidConfig(cfg) && ValidState(cfg, c.state) && c.state == d.state
    ensures MutateAll(cfg, c, ops).state == MutateAll(cfg, d, ops).state
    decreases |ops|
  {
    if ops != [] && ValidOp(cfg, ops[0]) {
      MutationsArePublished(cfg, c, ops[0]);
      MutationsArePublished(cfg, d, ops[0]);
      StateDecidesChange(cfg, c, d, ops[0]);
      StateDecidesChanges(cfg, Mutate(cfg, c, ops[0]), Mutate(cfg, d, ops[0]), ops[1..]);
    }
  }

  lemma StateDecidesChange(cfg: Config, c: Central, d: Central, op: Op)
    requires ValidConfig(cfg) && ValidState(cfg, c.state) && c.state == d.state && ValidOp(cfg, op)
    ensures Mutate(cfg, c, op).state == Mutate(cfg, d, op).state
  {
    match op
    case Invoke(m) =>
      GenerationIrrelevant(cfg, c, m);
      GenerationIrrelevant(cfg, d, m);
    case Restore(on, brightness, slots) =>
      StateDecidesRestore(cfg, SetGlobals(c, on, brightness), SetGlobals(d, on, brightness), slots, 0);
    case Refresh(_) =>
    case Select(_, _) =>
  }

  lemma {:induction false} StateDecidesRestore(cfg: Config, c: Central, d: Central, slots: seq<u16>, s: nat)
    requires |slots| == |cfg.selectors| == |c.state.selectors| && s <= |slots| && c.state == d.state
    ensures RestoreSlots(cfg, c, slots, s).state == RestoreSlots(cfg, d, slots, s).state
    decreases |slots| - s
  {
    if s < |slots| {
      var slot := if slots[s] < |cfg.selectors[s].defaults| then slots[s] else InitialSlot(cfg.selectors[s]);
      StateDecidesRestore(cfg, SelectSlot(c, s, slot), SelectSlot(d, s, slot), slots, s + 1);
    }
  }

  lemma {:induction false} TakenFirst(i: nat, steps: seq<Action>)
    requires steps != []
    ensures Taken(i, steps) == Taken(i, [steps[0]]) + Taken(i, steps[1..])
  {
    assert [steps[0]][1..] == [];
    assert Taken(i, []) == [];
  }

  lemma {:induction false} ApplyAllJoins(cfg: Config, st: State, a: seq<Message>, b: seq<Message>)
    requires ValidConfig(cfg) && ValidState(cfg, st)
    ensures ApplyAll(cfg, st, a + b) == ApplyAll(cfg, ApplyAll(cfg, st, a), b)
    decreases |a|
  {
    if a == [] {
      assert a + b == b;
    } else {
      ApplyValid(cfg, st, a[0]);
      assert (a + b)[1..] == a[1..] + b;
      ApplyAllJoins(cfg, Apply(cfg, st, a[0]), a[1..], b);
    }
  }

  /** Without replay and restarts, what the peripheral will hold and what the central holds are decided by two
    * lists: the messages the transport took and the changes the central made. They are in step afterwards exactly
    * when the lists lead to the same state, whatever the order, overlaps, refusals and failures behind them. */
  lemma {:induction false} TakenAndMadeDecide(cfg: Config, s: System, i: nat, steps: seq<Action>, t: System)
    requires Inv(cfg, s) && i < |s.links| && ValidState(cfg, s.links[i].replica) && FlightElsewhere(s.flight, i)
    requires Run(cfg, s, steps, t) && Undisturbed(i, steps)
    ensures Inv(cfg, t) && i < |t.links| && ValidState(cfg, t.links[i].replica)
    ensures Drained(cfg, t.links[i]) == ApplyAll(cfg, Drained(cfg, s.links[i]), Taken(i, steps))
    ensures t.central.state == MutateAll(cfg, s.central, Made(steps)).state
    ensures InStep(cfg, t, i) <==>
            ApplyAll(cfg, Drained(cfg, s.links[i]), Taken(i, steps)) == MutateAll(cfg, s.central, Made(steps)).state
    decreases |steps|
  {
    if steps != [] {
      var a, m := steps[0], Step(cfg, s, steps[0]);
      assert a in steps;
      UndisturbedStep(cfg, s, i, a);
      TakenAndMadeDecide(cfg, m, i, steps[1..], t);
      TakenFirst(i, steps);
      ApplyAllJoins(cfg, Drained(cfg, s.links[i]), Taken(i, [a]), Taken(i, steps[1..]));
      if !a.Change? {
        StateDecidesChanges(cfg, s.central, m.central, Made(steps[1..]));
      }
    }
  }
}
