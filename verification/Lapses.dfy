/** Histories without overlap or failure, one invocation after another: the ways a peripheral can still fall out of
  * step unnoticed, and the proof that there are no others. */
module Lapses {
  import opened Commands
  import opened Canonical
  import opened Items
  import opened Publication
  import opened SyncWalk
  import opened SplitProtocol
  import opened Convergence
  import opened Histories

  /** How far the invocation under way has come, as peripheral `i` sees it. `moved` records whether applying the
    * message on the central changed anything.
    * Excused: two have overlapped or one has failed.
    * Lapsed: a change of the central has been left without a message taken for the peripheral, or the peripheral was
    *   lost or restarted and came back with another state.
    * Improper: a second change that the message does not overwrite, a send of the replay worker or an outage fell
    *   into the middle of an invocation. */
  datatype Phase =
    | Idle
    | Open(id: nat)
    | Sent(id: nat, message: Message)
    | Refused(id: nat, message: Message)
    | Applied(id: nat, message: Message, moved: bool)
    | Done(id: nat)
    | Missed(id: nat)
    | Excused
    | Lapsed
    | Improper

  predicate Moves(cfg: Config, s: System, op: Op)
    requires Inv(cfg, s) && ValidOp(cfg, op)
  {
    Mutate(cfg, s.central, op).state != s.central.state
  }

  function Forwarded(phase: Phase, id: nat, m: Message, accepted: bool): Phase {
    if phase == Open(id) then (if accepted then Sent(id, m) else Refused(id, m))
    else if phase.Applied? && phase.id == id && phase.message == m then
      (if accepted || !phase.moved then Done(id) else Missed(id))
    else Improper
  }

  /** Outside an invocation a change that moves the central lapses; inside, the invocation's own message is applied. */
  function Changed(phase: Phase, op: Op, moved: bool): Phase {
    if phase.Idle? then (if moved then Lapsed else Idle)
    else if op.Invoke? && phase.Open? then Applied(phase.id, op.message, moved)
    else if op.Invoke? && phase.Sent? && phase.message == op.message then Done(phase.id)
    else if op.Invoke? && phase.Refused? && phase.message == op.message then
      (if moved then Missed(phase.id) else Done(phase.id))
    else if moved then Improper
    else phase
  }

  function Closed(cfg: Config, s: System, phase: Phase): Phase
    requires Inv(cfg, s)
  {
    match phase
    case Open(_) => Idle
    case Refused(_, _) => Idle
    case Done(_) => Idle
    case Sent(_, m) => if Apply(cfg, s.central.state, m) != s.central.state then Lapsed else Idle
    case Applied(_, _, moved) => if moved then Lapsed else Idle
    case Missed(_) => Lapsed
    case _ => phase
  }

  /** The message of the invocation under way has reached the central or the peripheral, and may tell them apart. */
  predicate Apart(phase: Phase) {
    phase.Sent? || (phase.Applied? && phase.moved) || phase.Missed?
  }

  /** Another change moves nothing but what the message, taken and still to be applied, will overwrite. */
  ghost predicate Overwritten(cfg: Config, s: System, op: Op, m: Message)
    requires Inv(cfg, s) && ValidOp(cfg, op)
  {
    MutationsArePublished(cfg, s.central, op);
    Converted(cfg, m) && DifferOnlyIn(cfg, s.central.state, Mutate(cfg, s.central, op).state, m)
  }

  ghost function Next(cfg: Config, s: System, phase: Phase, i: nat, a: Action): Phase
    requires Inv(cfg, s) && Enabled(cfg, s, a)
  {
    if phase.Excused? || phase.Lapsed? || phase.Improper? then phase
    else
      match a
      case BeginInvocation(id) => if phase.Idle? then Open(id) else Excused
      case Forward(id, j, m, accepted) =>
        if j != i then phase
        else if accepted && !FlightElsewhere(s.flight, i) then Improper
        else Forwarded(phase, id, m, accepted)
      case Change(op) =>
        if !phase.Idle? && Moves(cfg, s, op) && !FlightElsewhere(s.flight, i) then Improper
        else if phase.Sent? && op != Invoke(phase.message) && Overwritten(cfg, s, op, phase.message) then phase
        else Changed(phase, op, Moves(cfg, s, op))
      case FinishInvocation(_, negative) => if negative then Excused else Closed(cfg, s, phase)
      case BindNext(j) => if j == i && Apart(phase) then Improper else phase
      case Outage(j, replica) =>
        if j != i || (replica == s.central.state && !Apart(phase)) then phase
        else if phase.Idle? then Lapsed
        else Improper
      case _ => phase
  }

  ghost function Conduct(cfg: Config, s: System, phase: Phase, i: nat, steps: seq<Action>): Phase
    requires Inv(cfg, s)
    decreases |steps|
  {
    if steps == [] then phase
    else if !Enabled(cfg, s, steps[0]) then Improper
    else
      StepKeepsInv(cfg, s, steps[0]);
      Conduct(cfg, Step(cfg, s, steps[0]), Next(cfg, s, phase, i, steps[0]), i, steps[1..])
  }

  predicate Tracked(phase: Phase) {
    !phase.Excused? && !phase.Lapsed? && !phase.Improper?
  }

  /** A send to peripheral `i` that is under way carries a current value. */
  ghost predicate SendIsCurrent(cfg: Config, s: System, i: nat)
    requires Inv(cfg, s)
  {
    FlightElsewhere(s.flight, i) ||
    exists item :: ValidItem(cfg, item) && s.flight.message == WireFor(cfg, s.central.state, item)
  }

  /** What a tracked phase says about the state. */
  ghost predicate Matches(cfg: Config, i: nat, phase: Phase, s: System)
    requires Tracked(phase)
  {
    && Inv(cfg, s) && i < |s.links| && ValidState(cfg, s.links[i].replica)
    && (if Apart(phase) then FlightElsewhere(s.flight, i) else SendIsCurrent(cfg, s, i))
    && s.live == (if phase.Idle? then {} else {phase.id})
    && var drained := Drained(cfg, s.links[i]);
       match phase
       case Sent(_, m) => drained == Apply(cfg, s.central.state, m)
       case Applied(_, m, moved) =>
         s.central.state == Apply(cfg, drained, m) && moved == (drained != s.central.state)
       case Missed(_) => drained != s.central.state
       case _ => drained == s.central.state
  }

  /** In step at every moment at which no invocation is under way. */
  ghost predicate KeepsStep(cfg: Config, s: System, i: nat, steps: seq<Action>)
    requires Inv(cfg, s)
    decreases |steps|
  {
    && i < |s.links|
    && (s.live == {} ==> InStep(cfg, s, i))
    && (steps != [] && Enabled(cfg, s, steps[0]) ==>
          (StepKeepsInv(cfg, s, steps[0]); KeepsStep(cfg, Step(cfg, s, steps[0]), i, steps[1..])))
  }

  // ----- Steps that leave a peripheral in step alone -----

  predicate Steady(cfg: Config, s: System, i: nat, a: Action)
    requires Inv(cfg, s) && Enabled(cfg, s, a)
  {
    match a
    case Forward(_, j, _, accepted) => j != i || !accepted
    case Change(op) => !Moves(cfg, s, op)
    case Outage(j, replica) => j != i || replica == s.central.state
    case _ => true
  }

  /** A replay send of a current value changes nothing on a replica that will hold the central's state. */
  lemma {:induction false} CurrentSendIsHarmless(cfg: Config, s: System, i: nat, arrived: bool)
    requires Inv(cfg, s) && i < |s.links| && InStep(cfg, s, i) && SendIsCurrent(cfg, s, i)
    requires s.flight.Bound? && s.flight.target == i
    ensures Drained(cfg, Enqueue(s.links[i], s.flight.message, arrived)) == s.central.state
  {
    var item :| ValidItem(cfg, item) && s.flight.message == WireFor(cfg, s.central.state, item);
    DrainedEnqueue(cfg, s.links[i], s.flight.message);
    WireSetsItem(cfg, s.central.state, s.central.state, item);
    var r := Apply(cfg, s.central.state, s.flight.message);
    assert forall other | ValidItem(cfg, other) :: Get(cfg, r, other) == Get(cfg, s.central.state, other);
    ItemsDetermineState(cfg, r, s.central.state);
  }

  lemma {:induction false} SteadyLink(cfg: Config, s: System, i: nat, a: Action)
    requires Inv(cfg, s) && Enabled(cfg, s, a) && i < |s.links| && Steady(cfg, s, i, a)
    requires InStep(cfg, s, i) && SendIsCurrent(cfg, s, i)
    ensures var t := Step(cfg, s, a);
            && |t.links| == |s.links| && ValidState(cfg, t.links[i].replica)
            && Drained(cfg, t.links[i]) == s.central.state
  {
    var t := Step(cfg, s, a);
    match a
    case Deliver(j) =>
      if j == i {
        DrainedDeliver(cfg, s.links[i]);
      }
    case SendClock(j, time, accepted) =>
      if j == i && accepted {
        DrainedEnqueue(cfg, s.links[i], ClockMessage(time));
        ClockChangesNothing(cfg, Drained(cfg, s.links[i]), time);
      }
    case SendFailed(arrived, _) =>
      if s.flight.target == i {
        CurrentSendIsHarmless(cfg, s, i, arrived);
      }
    case SendAccepted(_) =>
      if s.flight.target == i {
        CurrentSendIsHarmless(cfg, s, i, true);
      }
    case Outage(j, replica) =>
      if j == i {
        assert Drained(cfg, Link([], replica)) == replica;
      }
    case _ =>
      assert t.links[i] == s.links[i];
  }

  lemma SteadyStep(cfg: Config, s: System, i: nat, a: Action)
    requires Inv(cfg, s) && Enabled(cfg, s, a) && i < |s.links| && Steady(cfg, s, i, a)
    requires InStep(cfg, s, i) && SendIsCurrent(cfg, s, i)
    ensures var t := Step(cfg, s, a);
            && Inv(cfg, t) && i < |t.links| && InStep(cfg, t, i) && SendIsCurrent(cfg, t, i)
            && t.central.state == s.central.state
  {
    StepKeepsInv(cfg, s, a);
    SteadyLink(cfg, s, i, a);
    if a.BindNext? {
      assert SourceInv(cfg, s, s.sources[a.i], s.links[a.i], a.i !in s.unnoticed);
      CursorItemIsValid(cfg, s.sources[a.i].cursor);
    }
  }

  lemma CursorItemIsValid(cfg: Config, c: Cursor)
    requires ValidConfig(cfg) && ValidCursor(cfg, c)
    ensures ValidItem(cfg, CursorItem(cfg, c))
  {
  }

  /** While both hold the same, a phase says no more than which invocation is under way. */
  lemma QuietMatches(cfg: Config, s: System, i: nat, phase: Phase)
    requires Tracked(phase) && !Apart(phase) && Inv(cfg, s) && i < |s.links|
    requires InStep(cfg, s, i) && SendIsCurrent(cfg, s, i)
    requires s.live == if phase.Idle? then {} else {phase.id}
    requires phase.Applied? ==> Apply(cfg, s.central.state, phase.message) == s.central.state
    ensures Matches(cfg, i, phase, s)
  {
  }

  /** What becomes of such a phase in a step that moves neither. */
  lemma SteadyNext(cfg: Config, s: System, i: nat, phase: Phase, a: Action)
    requires Tracked(phase) && Matches(cfg, i, phase, s) && Enabled(cfg, s, a)
    requires !Apart(phase) && Steady(cfg, s, i, a)
    ensures var n := Next(cfg, s, phase, i, a);
            && !n.Lapsed?
            && (Tracked(n) ==>
                  && !Apart(n)
                  && Step(cfg, s, a).live == (if n.Idle? then {} else {n.id})
                  && (n.Applied? ==> Apply(cfg, s.central.state, n.message) == s.central.state))
  {
    if a.FinishInvocation? {
      assert {phase.id} - {a.id} == {};
    } else if a.Change? {
      StillChange(cfg, s, i, phase, a);
    } else if !a.BeginInvocation? {
      LiveStays(cfg, s, a);
    }
  }

  /** A change that moves nothing. */
  lemma StillChange(cfg: Config, s: System, i: nat, phase: Phase, a: Action)
    requires Tracked(phase) && Matches(cfg, i, phase, s) && Enabled(cfg, s, a)
    requires !Apart(phase) && a.Change? && !Moves(cfg, s, a.op)
    ensures var n := Changed(phase, a.op, false);
            && !n.Lapsed?
            && (Tracked(n) ==>
                  && !Apart(n)
                  && Step(cfg, s, a).live == (if n.Idle? then {} else {n.id})
                  && (n.Applied? ==> Apply(cfg, s.central.state, n.message) == s.central.state))
  {
    if a.op.Invoke? {
      GenerationIrrelevant(cfg, s.central, a.op.message);
    }
  }

  /** A phase in which both hold the same stays one through a steady step, or becomes an excuse. */
  lemma SteadyPhase(cfg: Config, s: System, i: nat, phase: Phase, a: Action)
    requires Tracked(phase) && Matches(cfg, i, phase, s) && Enabled(cfg, s, a)
    requires !Apart(phase) && Steady(cfg, s, i, a)
    ensures var n := Next(cfg, s, phase, i, a);
            var t := Step(cfg, s, a);
            Inv(cfg, t) && !n.Lapsed? && (Tracked(n) ==> Matches(cfg, i, n, t))
  {
    SteadyStep(cfg, s, i, a);
    SteadyNext(cfg, s, i, phase, a);
    var n := Next(cfg, s, phase, i, a);
    if Tracked(n) {
      QuietMatches(cfg, Step(cfg, s, a), i, n);
    }
  }

  lemma LiveStays(cfg: Config, s: System, a: Action)
    requires Inv(cfg, s) && Enabled(cfg, s, a) && !a.BeginInvocation? && !a.FinishInvocation?
    ensures Step(cfg, s, a).live == s.live
  {
  }

  // ----- Steps that move one of the two -----

  lemma ForwardStep(cfg: Config, s: System, i: nat, phase: Phase, a: Action)
    requires Tracked(phase) && Matches(cfg, i, phase, s) && Enabled(cfg, s, a) && a.Forward? && a.i == i
    requires FlightElsewhere(s.flight, i) && Tracked(Forwarded(phase, a.id, a.message, a.accepted))
    ensures Matches(cfg, i, Forwarded(phase, a.id, a.message, a.accepted), Step(cfg, s, a))
  {
    UndisturbedStep(cfg, s, i, a);
    if a.accepted {
      DrainedEnqueue(cfg, s.links[i], a.message);
    }
  }

  lemma ChangeStep(cfg: Config, s: System, i: nat, phase: Phase, a: Action)
    requires Tracked(phase) && Matches(cfg, i, phase, s) && Enabled(cfg, s, a) && a.Change?
    requires FlightElsewhere(s.flight, i)
    ensures var n := Changed(phase, a.op, Moves(cfg, s, a.op));
            var t := Step(cfg, s, a);
            && Inv(cfg, t)
            && (Tracked(n) ==> Matches(cfg, i, n, t))
            && (n.Lapsed? ==> t.live == {} && i < |t.links| && !InStep(cfg, t, i))
  {
    UndisturbedStep(cfg, s, i, a);
    if a.op.Invoke? {
      GenerationIrrelevant(cfg, s.central, a.op.message);
    }
  }

  /** The message brings the peripheral and the changed central together, as it would have the unchanged one. */
  lemma OverwrittenChangeStep(cfg: Config, s: System, i: nat, phase: Phase, a: Action)
    requires phase.Sent? && Matches(cfg, i, phase, s) && Enabled(cfg, s, a) && a.Change?
    requires Overwritten(cfg, s, a.op, phase.message)
    ensures Matches(cfg, i, phase, Step(cfg, s, a))
  {
    UndisturbedStep(cfg, s, i, a);
    MutationsArePublished(cfg, s.central, a.op);
    AppliedAlikeIff(cfg, s.central.state, Mutate(cfg, s.central, a.op).state, phase.message);
  }

  /** Outside an invocation a change that moves the central tells it apart from the peripheral. */
  lemma IdleChangeLapses(cfg: Config, s: System, i: nat, a: Action)
    requires Matches(cfg, i, Idle, s) && Enabled(cfg, s, a) && a.Change? && Moves(cfg, s, a.op)
    ensures var t := Step(cfg, s, a);
            Inv(cfg, t) && t.live == {} && i < |t.links| && !InStep(cfg, t, i)
  {
    StepKeepsInv(cfg, s, a);
    LinkValid(cfg, Step(cfg, s, a), i);
  }

  lemma FinishStep(cfg: Config, s: System, i: nat, phase: Phase, a: Action)
    requires Tracked(phase) && Matches(cfg, i, phase, s) && Enabled(cfg, s, a) && a.FinishInvocation?
    requires FlightElsewhere(s.flight, i)
    ensures var n := Closed(cfg, s, phase);
            var t := Step(cfg, s, a);
            && Inv(cfg, t)
            && (Tracked(n) ==> Matches(cfg, i, n, t))
            && (n.Lapsed? ==> t.live == {} && i < |t.links| && !InStep(cfg, t, i))
  {
    UndisturbedStep(cfg, s, i, a);
    assert {phase.id} - {a.id} == {};
  }

  predicate Elsewhere(i: nat, a: Action) {
    match a
    case BeginInvocation(_) => false
    case Forward(_, j, _, _) => j != i
    case Change(_) => false
    case FinishInvocation(_, _) => false
    case BindNext(j) => j != i
    case Outage(j, _) => j != i
    case _ => true
  }

  /** Deliveries, polls, repairs, clocks and whatever concerns other peripherals. */
  lemma ElsewhereStep(cfg: Config, s: System, i: nat, phase: Phase, a: Action)
    requires Tracked(phase) && Matches(cfg, i, phase, s) && Enabled(cfg, s, a) && Elsewhere(i, a)
    requires Apart(phase)
    ensures Matches(cfg, i, phase, Step(cfg, s, a))
  {
    UndisturbedStep(cfg, s, i, a);
    assert Taken(i, [a]) == [];
    LiveStays(cfg, s, a);
  }

  lemma TrackedStep(cfg: Config, s: System, i: nat, phase: Phase, a: Action)
    requires Tracked(phase) && Matches(cfg, i, phase, s) && Enabled(cfg, s, a)
    ensures var n := Next(cfg, s, phase, i, a);
            var t := Step(cfg, s, a);
            && Inv(cfg, t)
            && (Tracked(n) ==> Matches(cfg, i, n, t))
            && (n.Lapsed? ==> t.live == {} && i < |t.links| && !InStep(cfg, t, i))
  {
    StepKeepsInv(cfg, s, a);
    if !Apart(phase) && Steady(cfg, s, i, a) {
      SteadyPhase(cfg, s, i, phase, a);
    } else if Apart(phase) && Elsewhere(i, a) {
      ElsewhereStep(cfg, s, i, phase, a);
    } else if a.Forward? && a.i == i {
      if FlightElsewhere(s.flight, i) && Tracked(Forwarded(phase, a.id, a.message, a.accepted)) {
        ForwardStep(cfg, s, i, phase, a);
      }
    } else if a.Change? {
      if phase.Idle? {
        IdleChangeLapses(cfg, s, i, a);
      } else if phase.Sent? && a.op != Invoke(phase.message) && Overwritten(cfg, s, a.op, phase.message) {
        OverwrittenChangeStep(cfg, s, i, phase, a);
      } else if FlightElsewhere(s.flight, i) {
        ChangeStep(cfg, s, i, phase, a);
      }
    } else if a.FinishInvocation? {
      FinishStep(cfg, s, i, phase, a);
    } else if a.Outage? && phase.Idle? {
      OutageKeepsStep(cfg, s, i, a.replica);
    }
  }

  lemma {:induction false} SinkStays(cfg: Config, s: System, phase: Phase, i: nat, steps: seq<Action>, t: System)
    requires Inv(cfg, s) && Run(cfg, s, steps, t) && !Tracked(phase)
    ensures Conduct(cfg, s, phase, i, steps) == phase
    decreases |steps|
  {
    if steps != [] {
      StepKeepsInv(cfg, s, steps[0]);
      SinkStays(cfg, Step(cfg, s, steps[0]), phase, i, steps[1..], t);
    }
  }

  lemma {:induction false} ConductDecides(cfg: Config, s: System, i: nat, phase: Phase, steps: seq<Action>, t: System)
    requires Tracked(phase) && Matches(cfg, i, phase, s) && Run(cfg, s, steps, t)
    ensures var c := Conduct(cfg, s, phase, i, steps);
            && (Tracked(c) ==> KeepsStep(cfg, s, i, steps) && Matches(cfg, i, c, t))
            && (c.Lapsed? ==> !KeepsStep(cfg, s, i, steps))
    decreases |steps|
  {
    if steps != [] {
      var a := steps[0];
      TrackedStep(cfg, s, i, phase, a);
      var n, m := Next(cfg, s, phase, i, a), Step(cfg, s, a);
      if Tracked(n) {
        ConductDecides(cfg, m, i, n, steps[1..], t);
      } else {
        SinkStays(cfg, m, n, i, steps[1..], t);
      }
    }
  }

  lemma {:induction false} ExcusesAreIrregular(cfg: Config, s: System, i: nat, phase: Phase, steps: seq<Action>,
                                               t: System)
    requires Tracked(phase) && Matches(cfg, i, phase, s) && Run(cfg, s, steps, t)
    requires Conduct(cfg, s, phase, i, steps).Excused?
    ensures Irregular(cfg, s, steps)
    decreases |steps|
  {
    if steps != [] {
      var a := steps[0];
      TrackedStep(cfg, s, i, phase, a);
      var n, m := Next(cfg, s, phase, i, a), Step(cfg, s, a);
      if Tracked(n) {
        ExcusesAreIrregular(cfg, m, i, n, steps[1..], t);
      } else if !n.Excused? {
        SinkStays(cfg, m, n, i, steps[1..], t);
      }
    }
  }

  /** A peripheral in step stays in step through a history that asks for no repair, at every moment with no
    * invocation under way, exactly when there is no lapse: no local change outside an invocation that moves the
    * central, no invocation whose message moves it while the transport refused the message or was not given it, and
    * no outage from which the peripheral came back with another state. Outside the middle of an invocation replay
    * sends may fall anywhere, and inside it changes that the message overwrites. */
  lemma {:induction false} QuietHistoriesKeepStepIff(cfg: Config, s: System, i: nat, steps: seq<Action>, t: System)
    requires Inv(cfg, s) && i < |s.links| && InStep(cfg, s, i) && SendIsCurrent(cfg, s, i)
    requires s.live == {} && !s.ledger.exceptional && Run(cfg, s, steps, t)
    requires t.ledger.outstanding == 0 && t.ledger.repairEpoch == s.ledger.repairEpoch
    requires Conduct(cfg, s, Idle, i, steps) != Improper
    ensures KeepsStep(cfg, s, i, steps) <==> Conduct(cfg, s, Idle, i, steps) != Lapsed
    ensures Conduct(cfg, s, Idle, i, steps) != Lapsed ==> Inv(cfg, t) && i < |t.links| && InStep(cfg, t, i)
  {
    RepairsMarkIrregularHistories(cfg, s, steps, t);
    ConductDecides(cfg, s, i, Idle, steps, t);
    var c := Conduct(cfg, s, Idle, i, steps);
    if c.Excused? {
      ExcusesAreIrregular(cfg, s, i, Idle, steps, t);
    }
    if Tracked(c) {
      assert t.live == {};
    }
  }

  // ----- Witnesses -----

  /** A brightness the central does not have. */
  function OtherBrightness(st: State): u32 {
    if st.brightness == 10 then 20 else 10
  }

  /** A refused message and a successful callback: out of step, with nothing owed and no walk due that was not due. */
  lemma RefusalLapsesSilently(cfg: Config, s: System, i: nat) returns (steps: seq<Action>, t: System)
    requires Inv(cfg, s) && i < |s.links| && InStep(cfg, s, i)
    requires s.live == {} && s.ledger.outstanding == 0 && !s.ledger.exceptional
    ensures Run(cfg, s, steps, t) && Inv(cfg, t) && i < |t.links| && !InStep(cfg, t, i)
    ensures t.ledger == s.ledger && t.sources == s.sources && t.live == {}
  {
    var m := SetBrightnessTo(OtherBrightness(s.central.state));
    IsolatedInvocationKeepsStep(cfg, s, i, 0, m, false, false);
    BrightnessApplied(cfg, s.central.state, OtherBrightness(s.central.state));
    var begun := Step(cfg, s, BeginInvocation(0));
    var sent := Step(cfg, begun, Forward(0, i, m, false));
    var applied := Step(cfg, sent, Change(Invoke(m)));
    t := Step(cfg, applied, FinishInvocation(0, false));
    steps := [BeginInvocation(0)] +
             ([Forward(0, i, m, false)] + ([Change(Invoke(m))] + ([FinishInvocation(0, false)] + [])));
    RunSteps(cfg, applied, FinishInvocation(0, false), [], t);
    RunSteps(cfg, sent, Change(Invoke(m)), [FinishInvocation(0, false)] + [], t);
    RunSteps(cfg, begun, Forward(0, i, m, false), [Change(Invoke(m))] + ([FinishInvocation(0, false)] + []), t);
    RunSteps(cfg, s, BeginInvocation(0),
             [Forward(0, i, m, false)] + ([Change(Invoke(m))] + ([FinishInvocation(0, false)] + [])), t);
  }

  /** A settings restore that changes the brightness: the same. */
  lemma LocalChangeLapsesSilently(cfg: Config, s: System, i: nat) returns (op: Op, t: System)
    requires Inv(cfg, s) && i < |s.links| && InStep(cfg, s, i)
    ensures ValidOp(cfg, op) && t == Step(cfg, s, Change(op)) && Inv(cfg, t) && i < |t.links| && !InStep(cfg, t, i)
    ensures t.ledger == s.ledger && t.sources == s.sources && t.live == s.live
  {
    var slots := seq(|cfg.selectors|, _ => 0);
    var other := OtherBrightness(s.central.state);
    op := Restore(s.central.state.on, other, slots);
    t := Step(cfg, s, Change(op));
    RestoreSlotsEffect(cfg, SetGlobals(s.central, s.central.state.on, other), slots, 0);
    LocalChangeKeepsStep(cfg, s, i, op);
  }

  /** A restart within one poll period: the peripheral comes back with another brightness while it is observed. */
  lemma OutageLapsesSilently(cfg: Config, s: System, i: nat) returns (replica: State, t: System)
    requires Inv(cfg, s) && i < |s.links| && s.sources[i].seen
    ensures Enabled(cfg, s, Outage(i, replica)) && t == Step(cfg, s, Outage(i, replica))
    ensures Inv(cfg, t) && i < |t.links| && !InStep(cfg, t, i)
    ensures t.ledger == s.ledger && t.sources == s.sources && t.live == s.live && t.central == s.central
  {
    replica := s.central.state.(brightness := OtherBrightness(s.central.state));
    assert ValidState(cfg, replica);
    t := Step(cfg, s, Outage(i, replica));
    OutageKeepsStep(cfg, s, i, replica);
  }

  // ----- Overlay gates: changed locally first, then dispatched -----

  /** The invocations that follow a refresh: words `w..` of the central, those that differ from `sent`. */
  function WordMessages(cfg: Config, st: State, sent: seq<u32>, w: nat): seq<Message>
    requires ValidConfig(cfg) && ValidState(cfg, st) && |sent| == cfg.words && w <= cfg.words
    decreases cfg.words - w
  {
    if w == cfg.words then []
    else if sent[w] == st.gates[w] then WordMessages(cfg, st, sent, w + 1)
    else [WireFor(cfg, st, Gate(w))] + WordMessages(cfg, st, sent, w + 1)
  }

  /** The words after the messages from word `w` on: a word is the central's when it differs from the one sent last. */
  function Merged(words: seq<u32>, held: seq<u32>, sent: seq<u32>, w: nat): (r: seq<u32>)
    requires |words| == |held| == |sent|
    ensures |r| == |words|
  {
    seq(|words|, k requires 0 <= k < |words| => if k >= w && sent[k] != words[k] then words[k] else held[k])
  }

  predicate SkippedWordsAreHeld(words: seq<u32>, held: seq<u32>, sent: seq<u32>)
    requires |words| == |held| == |sent|
  {
    forall w :: 0 <= w < |words| && sent[w] == words[w] ==> held[w] == words[w]
  }

  lemma MergedIsWords(words: seq<u32>, held: seq<u32>, sent: seq<u32>)
    requires |words| == |held| == |sent|
    ensures Merged(words, held, sent, 0) == words <==> SkippedWordsAreHeld(words, held, sent)
  {
    var merged := Merged(words, held, sent, 0);
    assert forall w :: 0 <= w < |words| ==> merged[w] == if sent[w] != words[w] then words[w] else held[w];
  }

  lemma {:induction false} WordsArrive(cfg: Config, st: State, dst: State, sent: seq<u32>, w: nat)
    requires ValidConfig(cfg) && ValidState(cfg, st) && ValidState(cfg, dst) && |sent| == cfg.words && w <= cfg.words
    ensures ApplyAll(cfg, dst, WordMessages(cfg, st, sent, w)) == dst.(gates := Merged(st.gates, dst.gates, sent, w))
    decreases cfg.words - w
  {
    if w == cfg.words {
      assert Merged(st.gates, dst.gates, sent, w) == dst.gates;
    } else if sent[w] == st.gates[w] {
      WordsArrive(cfg, st, dst, sent, w + 1);
      assert Merged(st.gates, dst.gates, sent, w) == Merged(st.gates, dst.gates, sent, w + 1);
    } else {
      var next := Apply(cfg, dst, WireFor(cfg, st, Gate(w)));
      ControlWireEffect(cfg, st, dst, Gate(w));
      assert next == dst.(gates := dst.gates[w := st.gates[w]]);
      WordsArrive(cfg, st, next, sent, w + 1);
      assert Merged(st.gates, dst.gates, sent, w) == Merged(st.gates, next.gates, sent, w + 1);
      var ms := WordMessages(cfg, st, sent, w);
      assert ms[0] == WireFor(cfg, st, Gate(w)) && ms[1..] == WordMessages(cfg, st, sent, w + 1);
    }
  }

  lemma {:induction false} WordsAlreadyHeld(cfg: Config, c: Central, sent: seq<u32>, w: nat)
    requires ValidConfig(cfg) && ValidState(cfg, c.state) && |sent| == cfg.words && w <= cfg.words
    ensures MutateAll(cfg, c, Invocations(WordMessages(cfg, c.state, sent, w))).state == c.state
    decreases cfg.words - w
  {
    if w < cfg.words {
      if sent[w] == c.state.gates[w] {
        WordsAlreadyHeld(cfg, c, sent, w + 1);
      } else {
        var m := WireFor(cfg, c.state, Gate(w));
        var ms := WordMessages(cfg, c.state, sent, w);
        ControlWireEffect(cfg, c.state, c.state, Gate(w));
        GenerationIrrelevant(cfg, c, m);
        assert c.state.gates[w := c.state.gates[w]] == c.state.gates;
        MutationsArePublished(cfg, c, Invoke(m));
        assert ms[0] == m && ms[1..] == WordMessages(cfg, c.state, sent, w + 1);
        assert Invocations(ms)[0] == Invoke(m) && Invocations(ms)[1..] == Invocations(ms[1..]);
        WordsAlreadyHeld(cfg, Mutate(cfg, c, Invoke(m)), sent, w + 1);
      }
    }
  }

  /** A refresh takes the peripheral out of step until its words are dispatched. When the transport takes every message
    * of the dispatch, in whatever order takings and applications interleave, it is back in step exactly when no word
    * that differs from the peripheral's was skipped because the mirror says it was sent before. */
  lemma {:induction false} DispatchRestoresStepIff(cfg: Config, s: System, i: nat, words: seq<u32>, sent: seq<u32>,
                                                   steps: seq<Action>, t: System)
    requires Inv(cfg, s) && i < |s.links| && InStep(cfg, s, i) && FlightElsewhere(s.flight, i)
    requires Run(cfg, s, steps, t) && Undisturbed(i, steps) && |words| == |sent| == cfg.words
    requires var st := s.central.state.(gates := words);
             && ValidState(cfg, st)
             && Taken(i, steps) == WordMessages(cfg, st, sent, 0)
             && Made(steps) == [Refresh(words)] + Invocations(Taken(i, steps))
    ensures Inv(cfg, t) && i < |t.links|
    ensures InStep(cfg, t, i) <==> SkippedWordsAreHeld(words, s.central.state.gates, sent)
  {
    var st := s.central.state.(gates := words);
    TakenAndMadeDecide(cfg, s, i, steps, t);
    WordsArrive(cfg, st, s.central.state, sent, 0);
    var refreshed := Mutate(cfg, s.central, Refresh(words));
    assert refreshed.state == st;
    MutationsArePublished(cfg, s.central, Refresh(words));
    WordsAlreadyHeld(cfg, refreshed, sent, 0);
    assert Made(steps)[0] == Refresh(words) && Made(steps)[1..] == Invocations(Taken(i, steps));
    MergedIsWords(words, s.central.state.gates, sent);
  }
}
