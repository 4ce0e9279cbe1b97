/** Repair under traffic: deliveries, clocks, polls, failed sends and everything that concerns other peripherals may
    lie between the sends of a walk. */
module Repairs {
  import opened Commands
  import opened SyncWalk
  import opened SyncWorker
  import opened SplitProtocol
  import opened Convergence

  /** A step that neither touches the central nor starts peripheral `i` over. */
  predicate Calm(i: nat, a: Action) {
    match a
    case Change(_) => false
    case BeginInvocation(_) => false
    case Forward(_, _, _, _) => false
    case FinishInvocation(_, _) => false
    case PollSources(changed, present, _, _) => !changed && i < |present| && present[i]
    case Outage(j, _) => j != i
    case _ => true
  }

  predicate AllCalm(i: nat, steps: seq<Action>) {
    forall a :: a in steps ==> Calm(i, a)
  }

  /** A send to peripheral `i` returns success. */
  predicate Delivers(s: System, i: nat, a: Action) {
    a.SendAccepted? && s.flight.Bound? && s.flight.target == i
  }

  ghost function Sends(cfg: Config, s: System, i: nat, steps: seq<Action>): nat
    requires Inv(cfg, s)
    decreases |steps|
  {
    if steps == [] || !Enabled(cfg, s, steps[0]) then 0
    else
      StepKeepsInv(cfg, s, steps[0]);
      (if Delivers(s, i, steps[0]) then 1 else 0) + Sends(cfg, Step(cfg, s, steps[0]), i, steps[1..])
  }

  /** Sends to peripheral `i` that returned an error. */
  ghost function Failures(cfg: Config, s: System, i: nat, steps: seq<Action>): nat
    requires Inv(cfg, s)
    decreases |steps|
  {
    if steps == [] || !Enabled(cfg, s, steps[0]) then 0
    else
      StepKeepsInv(cfg, s, steps[0]);
      (if steps[0].SendFailed? && s.flight.target == i then 1 else 0) +
      Failures(cfg, Step(cfg, s, steps[0]), i, steps[1..])
  }

  predicate Current(s: System, i: nat)
    requires i < |s.sources|
  {
    s.sources[i].generation == s.central.generation
  }

  /** Peripheral `i` is being repaired, or has been: a walk that is finished either carries the central's generation or
      still awaits its judgement, and no outage since the walk began has gone unnoticed. */
  predicate UnderRepair(s: System, i: nat) {
    && i < |s.sources| && s.sources[i].seen
    && s.ledger.outstanding == 0 && s.consumed == s.ledger.repairEpoch
    && (i in s.unnoticed ==> s.sources[i].pending && !s.sources[i].captured)
    && (!s.sources[i].pending && !Current(s, i) ==> s.flight == Returned(i))
  }

  ghost predicate Repairing(cfg: Config, s: System, i: nat) {
    Inv(cfg, s) && UnderRepair(s, i)
  }

  /** The sends still to be accepted: the rest of this walk, and one more walk when its generation is stale. */
  function Remaining(cfg: Config, s: System, i: nat): nat
    requires ValidConfig(cfg) && i < |s.sources|
    requires s.sources[i].pending ==> ValidCursor(cfg, s.sources[i].cursor)
  {
    var src := s.sources[i];
    if !src.pending then (if Current(s, i) then 0 else Total(cfg))
    else
      PositionInRange(cfg, CursorItem(cfg, src.cursor));
      Total(cfg) - Position(cfg, CursorItem(cfg, src.cursor)) +
      (if src.captured && !Current(s, i) then Total(cfg) else 0)
  }

  lemma CursorIsValid(cfg: Config, s: System, i: nat)
    requires Inv(cfg, s) && i < |s.sources|
    ensures s.sources[i].pending ==> ValidCursor(cfg, s.sources[i].cursor)
  {
    assert SourceInv(cfg, s, s.sources[i], s.links[i], i !in s.unnoticed);
  }

  lemma FreshWalk(cfg: Config)
    requires ValidConfig(cfg)
    ensures ValidCursor(cfg, Start) && Position(cfg, CursorItem(cfg, Start)) == 0
  {
  }

  /** The worker is at work on peripheral `i`. */
  predicate Serves(s: System, i: nat, a: Action) {
    match a
    case BindNext(j) => j == i
    case SendFailed(_, _) => s.flight.Bound? && s.flight.target == i
    case SendAccepted(_) => s.flight.Bound? && s.flight.target == i
    case Judge(_) => s.flight.Returned? && s.flight.target == i
    case _ => false
  }

  lemma UnservedSource(cfg: Config, s: System, i: nat, a: Action)
    requires Repairing(cfg, s, i) && Enabled(cfg, s, a) && Calm(i, a) && !Serves(s, i, a)
    ensures var t := Step(cfg, s, a);
            && UnderRepair(t, i) && t.central == s.central && t.sources[i] == s.sources[i]
  {
  }

  /** The same with the source's cursor, capture or judgement moved on. */
  lemma ServedSource(cfg: Config, s: System, i: nat, a: Action)
    requires Repairing(cfg, s, i) && Enabled(cfg, s, a) && Serves(s, i, a)
    requires s.sources[i].pending ==> ValidCursor(cfg, s.sources[i].cursor)
    ensures var t := Step(cfg, s, a);
            && UnderRepair(t, i) && t.central == s.central
            && (t.sources[i].pending ==> ValidCursor(cfg, t.sources[i].cursor))
            && Remaining(cfg, t, i) + (if Delivers(s, i, a) then 1 else 0) == Remaining(cfg, s, i)
  {
    FreshWalk(cfg);
    if a.SendAccepted? {
      AdvanceMovesOn(cfg, s.sources[i]);
    }
  }

  /** Every calm step keeps the repair going, and only an accepted send brings it nearer to its end, by one. */
  lemma CalmStep(cfg: Config, s: System, i: nat, a: Action)
    requires Repairing(cfg, s, i) && Enabled(cfg, s, a) && Calm(i, a)
    ensures var t := Step(cfg, s, a);
            && Repairing(cfg, t, i) && t.central == s.central
            && (s.sources[i].pending ==> ValidCursor(cfg, s.sources[i].cursor))
            && (t.sources[i].pending ==> ValidCursor(cfg, t.sources[i].cursor))
            && Remaining(cfg, t, i) + (if Delivers(s, i, a) then 1 else 0) == Remaining(cfg, s, i)
  {
    StepKeepsInv(cfg, s, a);
    CursorIsValid(cfg, s, i);
    assert SourceInv(cfg, s, s.sources[i], s.links[i], i !in s.unnoticed);
    if Serves(s, i, a) {
      ServedSource(cfg, s, i, a);
    } else {
      UnservedSource(cfg, s, i, a);
    }
  }

  lemma {:induction false} CalmRun(cfg: Config, s: System, i: nat, steps: seq<Action>, t: System)
    requires Repairing(cfg, s, i) && Run(cfg, s, steps, t) && AllCalm(i, steps)
    ensures Repairing(cfg, t, i) && t.central == s.central
    ensures s.sources[i].pending ==> ValidCursor(cfg, s.sources[i].cursor)
    ensures t.sources[i].pending ==> ValidCursor(cfg, t.sources[i].cursor)
    ensures Remaining(cfg, t, i) + Sends(cfg, s, i, steps) == Remaining(cfg, s, i)
    decreases |steps|
  {
    CursorIsValid(cfg, s, i);
    if steps != [] {
      assert steps[0] in steps;
      CalmStep(cfg, s, i, steps[0]);
      CalmRun(cfg, Step(cfg, s, steps[0]), i, steps[1..], t);
    }
  }

  lemma RemainingBounds(cfg: Config, s: System, i: nat)
    requires ValidConfig(cfg) && i < |s.sources|
    requires s.sources[i].pending ==> ValidCursor(cfg, s.sources[i].cursor)
    ensures Remaining(cfg, s, i) <= 2 * Total(cfg)
    ensures Remaining(cfg, s, i) == 0 ==> !s.sources[i].pending && Current(s, i)
  {
    if s.sources[i].pending {
      PositionInRange(cfg, CursorItem(cfg, s.sources[i].cursor));
    }
  }

  lemma ConsumedRepair(cfg: Config, s: System, i: nat, now: int)
    requires Inv(cfg, s) && s.flight == Resting && i < |s.sources| && s.sources[i].seen
    requires s.ledger.outstanding == 0 && (s.sources[i].pending || s.consumed != s.ledger.repairEpoch)
    requires i in s.unnoticed ==> !s.sources[i].captured
    ensures var ready := Step(cfg, s, ConsumeRepair(now));
            Repairing(cfg, ready, i) && ready.sources[i].pending && ready.central == s.central
  {
    StepKeepsInv(cfg, s, ConsumeRepair(now));
    assert SourceInv(cfg, s, s.sources[i], s.links[i], i !in s.unnoticed);
  }

  /** Repair from any reachable resting state with nothing outstanding, whether the walk is under way, due or owed by an
      unconsumed repair: once the repair is consumed, and whatever calm traffic and failed sends lie in between, the
      peripheral is accepted and in step after the sends of at most two walks. Until then the walk is not over, and
      the worker can take its next send whenever it rests. */
  lemma {:induction false} RepairConverges(cfg: Config, s: System, i: nat, now: int, steps: seq<Action>, t: System)
    requires Inv(cfg, s) && s.flight == Resting && i < |s.sources| && s.sources[i].seen
    requires s.ledger.outstanding == 0 && (s.sources[i].pending || s.consumed != s.ledger.repairEpoch)
    requires i in s.unnoticed ==> !s.sources[i].captured
    requires Inv(cfg, Step(cfg, s, ConsumeRepair(now)))
    requires Run(cfg, Step(cfg, s, ConsumeRepair(now)), steps, t) && AllCalm(i, steps)
    ensures Inv(cfg, t) && i < |t.sources| == |t.links| && t.central == s.central
    ensures var sends := Sends(cfg, Step(cfg, s, ConsumeRepair(now)), i, steps);
            && sends <= 2 * Total(cfg)
            && (sends == 2 * Total(cfg) ==> !t.sources[i].pending && InStep(cfg, t, i))
            && (t.sources[i].pending && t.flight == Resting ==> Enabled(cfg, t, BindNext(i)))
    ensures !t.sources[i].pending && t.flight != Returned(i) ==> InStep(cfg, t, i)
  {
    ConsumedRepair(cfg, s, i, now);
    var ready := Step(cfg, s, ConsumeRepair(now));
    CalmRun(cfg, ready, i, steps, t);
    RemainingBounds(cfg, ready, i);
    RemainingBounds(cfg, t, i);
    LinkValid(cfg, t, i);
    assert SourceInv(cfg, t, t.sources[i], t.links[i], i !in t.unnoticed);
  }

  lemma {:induction false} SendsLeft(cfg: Config, s: System, i: nat, steps: seq<Action>, t: System)
    requires Repairing(cfg, s, i) && Run(cfg, s, steps, t) && AllCalm(i, steps)
    requires i < |t.sources| && t.sources[i].pending
    ensures Sends(cfg, s, i, steps) < 2 * Total(cfg)
  {
    CalmRun(cfg, s, i, steps, t);
    CursorIsValid(cfg, s, i);
    RemainingBounds(cfg, s, i);
    RemainingBounds(cfg, t, i);
  }

  /** Fewer due passes than `attempts` rotations, and one more for every pass that held the slot back. */
  predicate WithinPasses(n: nat, dues: seq<set<nat>>, slot: nat, attempts: nat)
    requires n > 0
  {
    DuePasses(dues, slot) < Fold(n - 1, 1 + HeldBack(dues, slot)) + Fold(n, attempts)
  }

  lemma {:induction false} PassesForAttempts(n: nat, cursor: nat, dues: seq<set<nat>>, served: seq<nat>, slot: nat,
                                             attempts: nat)
    requires cursor < n && slot < n && Rotation(n, cursor, dues, served) && Times(served, slot) < attempts
    ensures WithinPasses(n, dues, slot, attempts)
  {
    ServedInProportion(n, cursor, dues, served, slot);
    FoldGrows(n, Times(served, slot), attempts);
  }

  /** Repair in passes of the worker: as long as peripheral `i` is not done, its state slot, one of `n`, has been due at
      fewer passes than two walks, its failed sends and the passes that held it back account for. */
  lemma {:induction false} RepairTakesBoundedPasses(cfg: Config, s: System, i: nat, steps: seq<Action>, t: System,
                                                    n: nat, cursor: nat, dues: seq<set<nat>>, served: seq<nat>,
                                                    fails: nat)
    requires Repairing(cfg, s, i) && Run(cfg, s, steps, t) && AllCalm(i, steps)
    requires 2 * i < n && cursor < n && Rotation(n, cursor, dues, served)
    requires fails == Failures(cfg, s, i, steps) && Times(served, 2 * i) == Sends(cfg, s, i, steps) + fails
    requires i < |t.sources| && t.sources[i].pending
    ensures WithinPasses(n, dues, 2 * i, 2 * Total(cfg) + fails)
  {
    SendsLeft(cfg, s, i, steps, t);
    PassesForAttempts(n, cursor, dues, served, 2 * i, 2 * Total(cfg) + fails);
  }
}
