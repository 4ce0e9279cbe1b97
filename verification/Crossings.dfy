/** Overlapping invocations: the halves see the same commands in different orders. Which overlaps are harmless. */
module Crossings {
  import opened Commands
  import opened Canonical
  import opened Items
  import opened Publication
  import opened Replication
  import opened SplitProtocol
  import opened Convergence
  import opened Histories

  ghost predicate AllConverted(cfg: Config, ms: seq<Message>) {
    forall m :: m in ms ==> Converted(cfg, m)
  }

  /** No two of the commands clash. */
  ghost predicate Compatible(cfg: Config, p: State, ms: seq<Message>)
    requires ValidConfig(cfg) && ValidState(cfg, p) && AllConverted(cfg, ms)
  {
    forall j, k :: 0 <= j < k < |ms| ==> !Clash(cfg, p, ms[j], ms[k])
  }

  // ----- Moving one command to the front -----

  lemma {:induction false} MoveToFront(cfg: Config, p: State, base: State, before: seq<Message>, m: Message)
    requires ValidConfig(cfg) && ValidState(cfg, p) && ValidState(cfg, base)
    requires AllConverted(cfg, before) && Converted(cfg, m)
    requires forall n :: n in before ==> !Clash(cfg, base, n, m)
    ensures ApplyAll(cfg, p, before + [m]) == ApplyAll(cfg, p, [m] + before)
    decreases |before|
  {
    ApplyValid(cfg, p, m);
    if before != [] {
      var n, rest := before[0], before[1..];
      ApplyValid(cfg, p, n);
      if Clash(cfg, p, n, m) {
        ClashIgnoresState(cfg, p, base, n, m);
      }
      ExchangeIff(cfg, p, n, m);
      MoveToFront(cfg, Apply(cfg, p, n), base, rest, m);
      assert (before + [m])[1..] == rest + [m];
      assert ([m] + rest)[1..] == rest;
      assert ([m] + before)[1..] == before;
    } else {
      assert before + [m] == [m] + before;
    }
  }

  function Removed(ms: seq<Message>, k: nat): (rest: seq<Message>)
    requires k < |ms|
  {
    ms[..k] + ms[k + 1..]
  }

  lemma RemovedOnce(ms: seq<Message>, k: nat)
    requires k < |ms|
    ensures multiset(ms) == multiset(Removed(ms, k)) + multiset{ms[k]}
    ensures forall n :: n in ms[..k] ==> n in Removed(ms, k)
  {
    assert ms == ms[..k] + [ms[k]] + ms[k + 1..];
  }

  lemma Regroup(ms: seq<Message>, k: nat)
    requires k < |ms|
    ensures ms == (ms[..k] + [ms[k]]) + ms[k + 1..]
    ensures [ms[k]] + Removed(ms, k) == ([ms[k]] + ms[..k]) + ms[k + 1..]
  {
  }

  lemma {:induction false} PullForward(cfg: Config, p: State, base: State, ms: seq<Message>, k: nat)
    requires ValidConfig(cfg) && ValidState(cfg, p) && ValidState(cfg, base) && AllConverted(cfg, ms) && k < |ms|
    requires forall n :: n in ms[..k] ==> !Clash(cfg, base, n, ms[k])
    ensures ApplyAll(cfg, p, ms) == ApplyAll(cfg, p, [ms[k]] + Removed(ms, k))
  {
    var m, before, after := ms[k], ms[..k], ms[k + 1..];
    Regroup(ms, k);
    forall n | n in before + [m] ensures Converted(cfg, n) {
      assert n in ms;
    }
    ApplyAllJoins(cfg, p, before + [m], after);
    ApplyAllJoins(cfg, p, [m] + before, after);
    MoveToFront(cfg, p, base, before, m);
  }

  // ----- Compatible commands may arrive in any order -----

  /** The first command clashes with none of the others. */
  lemma FirstIsCompatible(cfg: Config, base: State, xs: seq<Message>)
    requires ValidConfig(cfg) && ValidState(cfg, base) && xs != []
    requires AllConverted(cfg, xs) && Compatible(cfg, base, xs)
    ensures AllConverted(cfg, xs[1..]) && Compatible(cfg, base, xs[1..])
    ensures forall n :: n in xs[1..] ==> !Clash(cfg, base, n, xs[0])
  {
    forall n | n in xs[1..]
      ensures !Clash(cfg, base, n, xs[0])
    {
      if Clash(cfg, base, n, xs[0]) {
        ClashIgnoresState(cfg, base, base, n, xs[0]);
      }
    }
  }

  /** Where the first command is in another order, and what is left there without it. */
  lemma FindFirst(xs: seq<Message>, ys: seq<Message>) returns (k: nat)
    requires xs != [] && multiset(xs) == multiset(ys)
    ensures k < |ys| && ys[k] == xs[0] && multiset(Removed(ys, k)) == multiset(xs[1..])
    ensures forall n :: n in ys[..k] ==> n in xs[1..]
    ensures forall n :: n in ys ==> n in xs
  {
    assert xs == [xs[0]] + xs[1..];
    assert xs[0] in multiset(ys);
    k :| 0 <= k < |ys| && ys[k] == xs[0];
    RemovedOnce(ys, k);
    assert multiset(xs) == multiset(xs[1..]) + multiset{xs[0]};
    assert multiset(Removed(ys, k)) == multiset(ys) - multiset{xs[0]} == multiset(xs[1..]);
    forall n | n in ys[..k] ensures n in xs[1..] {
      assert n in multiset(Removed(ys, k));
    }
    forall n | n in ys ensures n in xs {
      assert n in multiset(ys);
    }
  }

  lemma {:induction false} CompatibleOrdersAgree(cfg: Config, p: State, base: State, xs: seq<Message>, ys: seq<Message>)
    requires ValidConfig(cfg) && ValidState(cfg, p) && ValidState(cfg, base)
    requires AllConverted(cfg, xs) && Compatible(cfg, base, xs) && multiset(xs) == multiset(ys)
    ensures ApplyAll(cfg, p, xs) == ApplyAll(cfg, p, ys)
    decreases |xs|
  {
    if xs == [] {
      assert |multiset(ys)| == 0;
    } else {
      var k := FindFirst(xs, ys);
      FirstIsCompatible(cfg, base, xs);
      PullForward(cfg, p, base, ys, k);
      var others := Removed(ys, k);
      assert ([xs[0]] + others)[1..] == others;
      ApplyValid(cfg, p, xs[0]);
      CompatibleOrdersAgree(cfg, Apply(cfg, p, xs[0]), base, xs[1..], others);
    }
  }

  /** The commands other than those at `j` and `k`. */
  function Without(xs: seq<Message>, j: nat, k: nat): (rest: seq<Message>)
    requires j < k < |xs|
  {
    xs[..j] + xs[j + 1..k] + xs[k + 1..]
  }

  lemma PutLast(xs: seq<Message>, j: nat, k: nat)
    requires j < k < |xs|
    ensures multiset(Without(xs, j, k) + [xs[j], xs[k]]) == multiset(xs)
    ensures multiset(Without(xs, j, k) + [xs[k], xs[j]]) == multiset(xs)
  {
    assert xs == xs[..j] + [xs[j]] + xs[j + 1..k] + [xs[k]] + xs[k + 1..];
  }

  /** Two clashing commands, put last in either order, leave different states. */
  lemma {:induction false} ClashShows(cfg: Config, p: State, rest: seq<Message>, a: Message, b: Message)
    requires ValidConfig(cfg) && ValidState(cfg, p) && Converted(cfg, a) && Converted(cfg, b) && Clash(cfg, p, a, b)
    ensures ApplyAll(cfg, p, rest + [a, b]) != ApplyAll(cfg, p, rest + [b, a])
  {
    var q := ApplyAll(cfg, p, rest);
    ApplyAllJoins(cfg, p, rest, [a, b]);
    ApplyAllJoins(cfg, p, rest, [b, a]);
    ApplyPair(cfg, q, a, b);
    ApplyPair(cfg, q, b, a);
    ClashIgnoresState(cfg, p, q, a, b);
    ExchangeIff(cfg, q, a, b);
  }

  lemma {:induction false} ApplyPair(cfg: Config, p: State, a: Message, b: Message)
    requires ValidConfig(cfg) && ValidState(cfg, p)
    ensures ValidState(cfg, Apply(cfg, p, a)) && ApplyAll(cfg, p, [a, b]) == Apply(cfg, Apply(cfg, p, a), b)
  {
    ApplyValid(cfg, p, a);
    ApplyValid(cfg, Apply(cfg, p, a), b);
    assert [a, b][1..] == [b] && [b][1..] == [];
    assert ApplyAll(cfg, Apply(cfg, p, a), [b]) == ApplyAll(cfg, Apply(cfg, Apply(cfg, p, a), b), []);
  }

  ghost predicate OrderIrrelevant(cfg: Config, p: State, xs: seq<Message>)
    requires ValidConfig(cfg) && ValidState(cfg, p)
  {
    forall ys | multiset(ys) == multiset(xs) :: ApplyAll(cfg, p, ys) == ApplyAll(cfg, p, xs)
  }

  lemma {:induction false} TwoOrdersDiffer(cfg: Config, p: State, xs: seq<Message>, ys: seq<Message>, zs: seq<Message>)
    requires ValidConfig(cfg) && ValidState(cfg, p) && multiset(ys) == multiset(xs) && multiset(zs) == multiset(xs)
    requires ApplyAll(cfg, p, ys) != ApplyAll(cfg, p, zs)
    ensures !OrderIrrelevant(cfg, p, xs)
  {
  }

  /** Converted commands leave a half in the same state in every order exactly when no two of them clash. */
  lemma OrderIsIrrelevantIff(cfg: Config, p: State, xs: seq<Message>)
    requires ValidConfig(cfg) && ValidState(cfg, p) && AllConverted(cfg, xs)
    ensures OrderIrrelevant(cfg, p, xs) <==> Compatible(cfg, p, xs)
  {
    if Compatible(cfg, p, xs) {
      forall ys | multiset(ys) == multiset(xs)
        ensures ApplyAll(cfg, p, ys) == ApplyAll(cfg, p, xs)
      {
        CompatibleOrdersAgree(cfg, p, p, xs, ys);
      }
    } else {
      var j, k :| 0 <= j < k < |xs| && Clash(cfg, p, xs[j], xs[k]);
      var rest := Without(xs, j, k);
      PutLast(xs, j, k);
      ClashShows(cfg, p, rest, xs[j], xs[k]);
      TwoOrdersDiffer(cfg, p, xs, rest + [xs[j], xs[k]], rest + [xs[k], xs[j]]);
    }
  }

  // ----- Overlapping invocations -----

  lemma {:induction false} InvocationsApply(cfg: Config, c: Central, ms: seq<Message>)
    requires ValidConfig(cfg) && ValidState(cfg, c.state)
    ensures MutateAll(cfg, c, Invocations(ms)).state == ApplyAll(cfg, c.state, ms)
    decreases |ms|
  {
    if ms != [] {
      assert Invocations(ms)[0] == Invoke(ms[0]) && Invocations(ms)[1..] == Invocations(ms[1..]);
      GenerationIrrelevant(cfg, c, ms[0]);
      MutationsArePublished(cfg, c, Invoke(ms[0]));
      InvocationsApply(cfg, Mutate(cfg, c, Invoke(ms[0])), ms[1..]);
    }
  }

  /** However many invocations overlap and however forwarding and application interleave: when the transport takes
      every message that is applied and no two of them clash, the peripheral ends in step. */
  lemma {:induction false} CompatibleOverlapsKeepStep(cfg: Config, s: System, i: nat, steps: seq<Action>,
                                                      applied: seq<Message>, t: System)
    requires Inv(cfg, s) && i < |s.links| && InStep(cfg, s, i) && FlightElsewhere(s.flight, i)
    requires Run(cfg, s, steps, t) && Undisturbed(i, steps)
    requires Made(steps) == Invocations(applied) && multiset(Taken(i, steps)) == multiset(applied)
    requires AllConverted(cfg, applied) && Compatible(cfg, s.central.state, applied)
    ensures Inv(cfg, t) && i < |t.links| && InStep(cfg, t, i)
  {
    TakenAndMadeDecide(cfg, s, i, steps, t);
    InvocationsApply(cfg, s.central, applied);
    CompatibleOrdersAgree(cfg, s.central.state, s.central.state, applied, Taken(i, steps));
  }

  /** Two invocations forwarded in one order and applied in the other, whatever lies between: the peripheral ends in
      step exactly when their commands do not clash. */
  lemma {:induction false} CrossedPairKeepsStepIff(cfg: Config, s: System, i: nat, steps: seq<Action>, a: Message,
                                                   b: Message, t: System)
    requires Inv(cfg, s) && i < |s.links| && InStep(cfg, s, i) && FlightElsewhere(s.flight, i)
    requires Run(cfg, s, steps, t) && Undisturbed(i, steps)
    requires Taken(i, steps) == [a, b] && Made(steps) == Invocations([b, a])
    requires Converted(cfg, a) && Converted(cfg, b)
    ensures Inv(cfg, t) && i < |t.links|
    ensures InStep(cfg, t, i) <==> !Clash(cfg, s.central.state, a, b)
  {
    TakenAndMadeDecide(cfg, s, i, steps, t);
    InvocationsApply(cfg, s.central, [b, a]);
    ApplyPair(cfg, s.central.state, a, b);
    ApplyPair(cfg, s.central.state, b, a);
    ExchangeIff(cfg, s.central.state, a, b);
  }

  // ----- Other changes before the message is applied -----

  lemma {:induction false} LastChange(cfg: Config, c: Central, ops: seq<Op>, m: Message)
    requires ValidConfig(cfg) && ValidState(cfg, c.state) && forall op :: op in ops ==> ValidOp(cfg, op)
    ensures MutateAll(cfg, c, ops + [Invoke(m)]).state == Apply(cfg, MutateAll(cfg, c, ops).state, m)
    decreases |ops|
  {
    if ops == [] {
      assert (ops + [Invoke(m)])[1..] == [];
      MutationsArePublished(cfg, c, Invoke(m));
      GenerationIrrelevant(cfg, c, m);
    } else {
      assert ops[0] in ops && (ops + [Invoke(m)])[1..] == ops[1..] + [Invoke(m)];
      MutationsArePublished(cfg, c, ops[0]);
      LastChange(cfg, Mutate(cfg, c, ops[0]), ops[1..], m);
    }
  }

  /** Whatever the central changed before it applied a message that the transport took, and wherever in the invocation:
      the peripheral ends in step exactly when the message writes every item those changes moved. */
  lemma {:induction false} EarlierChangesHealIff(cfg: Config, s: System, i: nat, steps: seq<Action>, others: seq<Op>,
                                                 m: Message, t: System)
    requires Inv(cfg, s) && i < |s.links| && InStep(cfg, s, i) && FlightElsewhere(s.flight, i)
    requires Run(cfg, s, steps, t) && Undisturbed(i, steps) && Converted(cfg, m)
    requires Taken(i, steps) == [m] && Made(steps) == others + [Invoke(m)]
    ensures Inv(cfg, t) && i < |t.links|
    ensures InStep(cfg, t, i) <==> DifferOnlyIn(cfg, s.central.state, MutateAll(cfg, s.central, others).state, m)
  {
    TakenAndMadeDecide(cfg, s, i, steps, t);
    MadeIsValid(cfg, s, steps, t);
    forall op | op in others ensures ValidOp(cfg, op) {
      assert op in Made(steps);
    }
    LastChange(cfg, s.central, others, m);
    TakenAlone(cfg, s.central.state, m);
    AppliedAlikeIff(cfg, s.central.state, MutateAll(cfg, s.central, others).state, m);
  }

  lemma {:induction false} TakenAlone(cfg: Config, p: State, m: Message)
    requires ValidConfig(cfg) && ValidState(cfg, p)
    ensures ApplyAll(cfg, p, [m]) == Apply(cfg, p, m)
  {
    ApplyValid(cfg, p, m);
    assert [m][1..] == [];
  }

  // ----- Any two commands can cross -----

  /** Two overlapping invocations, forwarded in one order ... */
  function Forwards(i: nat, a: Message, b: Message): seq<Action> {
    [BeginInvocation(0)] + ([BeginInvocation(1)] + ([Forward(0, i, a, true)] + ([Forward(1, i, b, true)] + [])))
  }

  /** ... and applied locally in the other. */
  function Applications(a: Message, b: Message): seq<Action> {
    [Change(Invoke(b))] + ([Change(Invoke(a))] + ([FinishInvocation(0, false)] + ([FinishInvocation(1, false)] + [])))
  }

  lemma ForwardsRun(cfg: Config, s: System, i: nat, a: Message, b: Message) returns (t: System)
    requires Inv(cfg, s) && i < |s.links| && s.live == {} && s.ledger.outstanding == 0 && !s.ledger.exceptional
    ensures Run(cfg, s, Forwards(i, a, b), t) && Inv(cfg, t)
    ensures t.central == s.central && t.live == {0, 1}
    ensures t.ledger == Ledger(2, s.ledger.repairEpoch, true)
    ensures |t.links| == |s.links| && t.links[i] == Link(s.links[i].channel + [a] + [b], s.links[i].replica)
  {
    var s1 := Step(cfg, s, BeginInvocation(0));
    StepKeepsInv(cfg, s, BeginInvocation(0));
    var s2 := Step(cfg, s1, BeginInvocation(1));
    StepKeepsInv(cfg, s1, BeginInvocation(1));
    var s3 := Step(cfg, s2, Forward(0, i, a, true));
    StepKeepsInv(cfg, s2, Forward(0, i, a, true));
    t := Step(cfg, s3, Forward(1, i, b, true));
    StepKeepsInv(cfg, s3, Forward(1, i, b, true));
    RunSteps(cfg, s3, Forward(1, i, b, true), [], t);
    RunSteps(cfg, s2, Forward(0, i, a, true), [Forward(1, i, b, true)] + [], t);
    RunSteps(cfg, s1, BeginInvocation(1), [Forward(0, i, a, true)] + ([Forward(1, i, b, true)] + []), t);
    RunSteps(cfg, s, BeginInvocation(0),
             [BeginInvocation(1)] + ([Forward(0, i, a, true)] + ([Forward(1, i, b, true)] + [])), t);
    assert {0} + {1} == {0, 1};
  }

  lemma ApplicationsRun(cfg: Config, s: System, a: Message, b: Message) returns (t: System)
    requires Inv(cfg, s) && s.live == {0, 1} && s.ledger.outstanding == 2 && s.ledger.exceptional
    ensures Run(cfg, s, Applications(a, b), t) && Inv(cfg, t)
    ensures ValidState(cfg, s.central.state) && ValidState(cfg, Apply(cfg, s.central.state, b))
    ensures t.central.state == Apply(cfg, Apply(cfg, s.central.state, b), a)
    ensures t.links == s.links && t.live == {} && t.ledger == Ledger(0, s.ledger.repairEpoch + 1, false)
  {
    var s1 := Step(cfg, s, Change(Invoke(b)));
    StepKeepsInv(cfg, s, Change(Invoke(b)));
    var s2 := Step(cfg, s1, Change(Invoke(a)));
    StepKeepsInv(cfg, s1, Change(Invoke(a)));
    var s3 := Step(cfg, s2, FinishInvocation(0, false));
    StepKeepsInv(cfg, s2, FinishInvocation(0, false));
    assert s3.live == {1};
    t := Step(cfg, s3, FinishInvocation(1, false));
    StepKeepsInv(cfg, s3, FinishInvocation(1, false));
    ApplyValid(cfg, s.central.state, b);
    GenerationIrrelevant(cfg, s.central, b);
    GenerationIrrelevant(cfg, s1.central, a);
    RunSteps(cfg, s3, FinishInvocation(1, false), [], t);
    RunSteps(cfg, s2, FinishInvocation(0, false), [FinishInvocation(1, false)] + [], t);
    RunSteps(cfg, s1, Change(Invoke(a)), [FinishInvocation(0, false)] + ([FinishInvocation(1, false)] + []), t);
    RunSteps(cfg, s, Change(Invoke(b)),
             [Change(Invoke(a))] + ([FinishInvocation(0, false)] + ([FinishInvocation(1, false)] + [])), t);
  }

  /** Any two commands can cross with everything accepted and both callbacks successful. The peripheral is then in step
      exactly when they do not clash; the ledger asks for a repair in either case. */
  lemma AnyPairCanCross(cfg: Config, s: System, i: nat, a: Message, b: Message)
    returns (steps: seq<Action>, t: System)
    requires Inv(cfg, s) && i < |s.links| && InStep(cfg, s, i)
    requires s.live == {} && s.ledger.outstanding == 0 && !s.ledger.exceptional
    requires Converted(cfg, a) && Converted(cfg, b)
    ensures Run(cfg, s, steps, t) && Inv(cfg, t) && i < |t.links|
    ensures InStep(cfg, t, i) <==> !Clash(cfg, s.central.state, a, b)
    ensures t.live == {} && t.ledger == Ledger(0, s.ledger.repairEpoch + 1, false)
  {
    var m := ForwardsRun(cfg, s, i, a, b);
    t := ApplicationsRun(cfg, m, a, b);
    steps := Forwards(i, a, b) + Applications(a, b);
    RunsCompose(cfg, s, Forwards(i, a, b), m, Applications(a, b), t);
    LinkValid(cfg, s, i);
    LinkValid(cfg, t, i);
    DrainedEnqueue(cfg, s.links[i], a);
    DrainedEnqueue(cfg, Enqueue(s.links[i], a, true), b);
    assert t.links[i] == Enqueue(Enqueue(s.links[i], a, true), b, true);
    ExchangeIff(cfg, s.central.state, a, b);
  }

  /** Two brightness levels clash: an overlap diverges although everything is delivered and succeeds. */
  lemma OverlapCanDivergeAndAsksForRepair(cfg: Config, s: System, i: nat) returns (steps: seq<Action>, t: System)
    requires Inv(cfg, s) && i < |s.links| && InStep(cfg, s, i)
    requires s.live == {} && s.ledger.outstanding == 0 && !s.ledger.exceptional
    ensures Run(cfg, s, steps, t) && Inv(cfg, t) && i < |t.links| && !InStep(cfg, t, i)
    ensures t.live == {} && t.ledger == Ledger(0, s.ledger.repairEpoch + 1, false)
  {
    var a, b := SetBrightnessTo(10), SetBrightnessTo(20);
    BrightnessApplied(cfg, s.central.state, 10);
    BrightnessApplied(cfg, s.central.state, 20);
    assert Converted(cfg, a) && Converted(cfg, b);
    assert ValidItem(cfg, Brightness) && ClashAt(cfg, s.central.state, a, b, Brightness);
    steps, t := AnyPairCanCross(cfg, s, i, a, b);
  }
}
