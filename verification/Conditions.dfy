/** Condition liveness, fault propagation and evaluation over the dependency-ordered
    registration table. */
module Conditions {

  datatype Kind = Leaf | AllOf | AnyOf

  datatype Entry = Entry(deps: seq<nat>, kind: Kind, invalid: bool, centralOnly: bool)

  /** The table is sorted so that every dependency precedes its consumers. */
  predicate Ordered(t: seq<Entry>) {
    forall i, k | 0 <= i < |t| && 0 <= k < |t[i].deps| :: t[i].deps[k] < i
  }

  datatype Table = Table(entries: seq<Entry>, peripheral: bool)

  /** A fault of the entry itself: an unusable provider, or a central source on a peripheral. */
  predicate LocalFault(t: Table, i: nat)
    requires i < |t.entries|
  {
    t.entries[i].invalid || (t.peripheral && t.entries[i].centralOnly)
  }

  // ----- Reference: reachability along dependency paths -----

  predicate Path(t: Table, p: seq<nat>) {
    && p != []
    && (forall k | 0 <= k < |p| :: p[k] < |t.entries|)
    && (forall k | 0 <= k < |p| - 1 :: p[k + 1] in t.entries[p[k]].deps)
  }

  /** Every entry on the path except its last is locally sound. */
  predicate SoundPath(t: Table, p: seq<nat>) {
    Path(t, p) && forall k | 0 <= k < |p| - 1 :: !LocalFault(t, p[k])
  }

  /** Some required root depends on `i` through locally sound entries. */
  ghost predicate Needed(t: Table, roots: set<nat>, i: nat) {
    exists p :: SoundPath(t, p) && p[0] in roots && p[|p| - 1] == i
  }

  /** The dependency closure of `i` contains a local fault. */
  ghost predicate Tainted(t: Table, i: nat) {
    exists p :: Path(t, p) && p[0] == i && LocalFault(t, p[|p| - 1])
  }

  // ----- The same, one dependency at a time -----

  predicate Feeds(t: Table, j: nat, k: nat) {
    k < |t.entries| && j in t.entries[k].deps
  }

  ghost predicate LiveFrom(t: Table, roots: set<nat>, j: nat)
    requires Ordered(t.entries)
    decreases |t.entries| - j
  {
    j in roots || exists k | j < k < |t.entries| :: Feeds(t, j, k) && !LocalFault(t, k) && LiveFrom(t, roots, k)
  }

  ghost predicate FaultyFrom(t: Table, i: nat)
    requires Ordered(t.entries) && i < |t.entries|
    decreases i
  {
    LocalFault(t, i) || exists d | d in t.entries[i].deps && d < i :: FaultyFrom(t, d)
  }

  lemma FeedsEarlier(t: Table, j: nat, k: nat)
    requires Ordered(t.entries) && Feeds(t, j, k)
    ensures j < k
  {
  }

  lemma {:induction false} LiveFromIsNeeded(t: Table, roots: set<nat>, j: nat)
    requires Ordered(t.entries) && j < |t.entries| && LiveFrom(t, roots, j)
    ensures Needed(t, roots, j)
    decreases |t.entries| - j
  {
    if j in roots {
      assert SoundPath(t, [j]);
    } else {
      var k: nat :| j < k < |t.entries| && Feeds(t, j, k) && !LocalFault(t, k) && LiveFrom(t, roots, k);
      LiveFromIsNeeded(t, roots, k);
      var p :| SoundPath(t, p) && p[0] in roots && p[|p| - 1] == k;
      assert SoundPath(t, p + [j]);
    }
  }

  lemma {:induction false} NeededIsLiveFrom(t: Table, roots: set<nat>, p: seq<nat>)
    requires Ordered(t.entries) && SoundPath(t, p) && p[0] in roots
    ensures LiveFrom(t, roots, p[|p| - 1])
    decreases |p|
  {
    if |p| > 1 {
      var last := |p| - 1;
      NeededIsLiveFrom(t, roots, p[..last]);
      assert p[last - 1 + 1] in t.entries[p[last - 1]].deps;
      assert Feeds(t, p[last], p[last - 1]);
      FeedsEarlier(t, p[last], p[last - 1]);
    }
  }

  lemma {:induction false} FaultyFromIsTainted(t: Table, i: nat)
    requires Ordered(t.entries) && i < |t.entries| && FaultyFrom(t, i)
    ensures Tainted(t, i)
    decreases i
  {
    if LocalFault(t, i) {
      assert Path(t, [i]);
    } else {
      var d :| d in t.entries[i].deps && d < i && FaultyFrom(t, d);
      FaultyFromIsTainted(t, d);
      var p :| Path(t, p) && p[0] == d && LocalFault(t, p[|p| - 1]);
      assert Path(t, [i] + p);
    }
  }

  lemma {:induction false} TaintedIsFaultyFrom(t: Table, p: seq<nat>)
    requires Ordered(t.entries) && Path(t, p) && LocalFault(t, p[|p| - 1])
    ensures FaultyFrom(t, p[0])
    decreases |p|
  {
    if |p| > 1 {
      assert p[0 + 1] in t.entries[p[0]].deps;
      assert Path(t, p[1..]);
      TaintedIsFaultyFrom(t, p[1..]);
      FeedsEarlier(t, p[1], p[0]);
    }
  }

  lemma {:induction false} LiveIffNeeded(t: Table, roots: set<nat>, i: nat)
    requires Ordered(t.entries) && i < |t.entries|
    ensures LiveFrom(t, roots, i) <==> Needed(t, roots, i)
  {
    if LiveFrom(t, roots, i) {
      LiveFromIsNeeded(t, roots, i);
    }
    if Needed(t, roots, i) {
      var p :| SoundPath(t, p) && p[0] in roots && p[|p| - 1] == i;
      NeededIsLiveFrom(t, roots, p);
    }
  }

  lemma {:induction false} FaultyIffTainted(t: Table, i: nat)
    requires Ordered(t.entries) && i < |t.entries|
    ensures FaultyFrom(t, i) <==> Tainted(t, i)
  {
    if FaultyFrom(t, i) {
      FaultyFromIsTainted(t, i);
    }
    if Tainted(t, i) {
      var p :| Path(t, p) && p[0] == i && LocalFault(t, p[|p| - 1]);
      TaintedIsFaultyFrom(t, p);
    }
  }

  /** The boolean a condition denotes, given the leaves' samples. */
  predicate Denotes(t: Table, samples: seq<bool>, i: nat)
    requires Ordered(t.entries) && i < |t.entries| == |samples|
    decreases i
  {
    match t.entries[i].kind
    case Leaf => samples[i]
    case AllOf => forall k | 0 <= k < |t.entries[i].deps| :: Denotes(t, samples, t.entries[i].deps[k])
    case AnyOf => exists k | 0 <= k < |t.entries[i].deps| :: Denotes(t, samples, t.entries[i].deps[k])
  }

  // ----- The table in place -----

  class Registry {
    const t: Table
    const live: array<bool>
    const fault: array<bool>
    const value: array<bool>
    var initialized: bool

    ghost predicate Shape()
      reads this
    {
      Ordered(t.entries) && live.Length == fault.Length == value.Length == |t.entries| &&
      live != fault && live != value && fault != value
    }

    /** What initialisation establishes for a given set of required roots. */
    ghost predicate Settled(roots: set<nat>)
      requires Shape()
      reads this, live, fault
    {
      forall i | 0 <= i < |t.entries| ::
        (live[i] <==> LiveFrom(t, roots, i)) &&
        (if live[i] then fault[i] <==> FaultyFrom(t, i) else fault[i] <==> t.entries[i].invalid)
    }

    constructor (t: Table)
      requires Ordered(t.entries)
      ensures this.t == t && Shape() && !initialized && fresh(live) && fresh(fault) && fresh(value)
      ensures forall i | 0 <= i < |t.entries| :: !live[i] && !fault[i] && !value[i]
    {
      this.t := t;
      live := new bool[|t.entries|](_ => false);
      fault := new bool[|t.entries|](_ => false);
      value := new bool[|t.entries|](_ => false);
      initialized := false;
    }

    /** Mark a root; whether it is usable so far. */
    method Require(i: nat) returns (usable: bool)
      requires Shape() && i < |t.entries|
      modifies live
      ensures live[..] == old(live[..])[i := true]
      ensures usable == !fault[i]
    {
      live[i] := true;
      usable := !fault[i];
    }

    method MarkInvalid()
      requires Shape() && forall i | 0 <= i < |t.entries| :: !fault[i]
      modifies fault
      ensures forall i | 0 <= i < |t.entries| :: fault[i] == t.entries[i].invalid
    {
      for i := 0 to |t.entries|
        invariant forall j | 0 <= j < i :: fault[j] == t.entries[j].invalid
        invariant forall j | i <= j < |t.entries| :: !fault[j]
      {
        if t.entries[i].invalid {
          fault[i] := true;
        }
      }
    }

    method RequireAll(roots: seq<nat>)
      requires Shape() && (forall r | r in roots :: r < |t.entries|) && forall i | 0 <= i < |t.entries| :: !live[i]
      modifies live
      ensures forall i | 0 <= i < |t.entries| :: live[i] <==> i in roots
    {
      for n := 0 to |roots|
        invariant forall i | 0 <= i < |t.entries| :: live[i] <==> i in roots[..n]
      {
        assert roots[..n + 1] == roots[..n] + [roots[n]];
        assert roots[n] in roots;
        var usable := Require(roots[n]);
      }
      assert roots[..|roots|] == roots;
    }

    /** One pass from consumers down to their dependencies reaches the liveness fixpoint. */
    method SpreadLiveness(ghost roots: set<nat>)
      requires Shape()
      requires forall i | 0 <= i < |t.entries| :: live[i] <==> i in roots
      requires forall i | 0 <= i < |t.entries| :: fault[i] == t.entries[i].invalid
      modifies live, fault
      ensures forall i | 0 <= i < |t.entries| :: live[i] <==> LiveFrom(t, roots, i)
      ensures forall i | 0 <= i < |t.entries| ::
                fault[i] == if live[i] then LocalFault(t, i) else t.entries[i].invalid
    {
      var e := |t.entries|;
      while e != 0
        invariant 0 <= e <= |t.entries|
        invariant forall i | 0 <= i < |t.entries| ::
                    live[i] <==> (i in roots ||
                      exists k | e <= k < |t.entries| :: Feeds(t, i, k) && !LocalFault(t, k) && LiveFrom(t, roots, k))
        invariant forall i | 0 <= i < e :: fault[i] == t.entries[i].invalid
        invariant forall i | e <= i < |t.entries| ::
                    fault[i] == if LiveFrom(t, roots, i) then LocalFault(t, i) else t.entries[i].invalid
      {
        e := e - 1;
        LiveHere(roots, e);
        if live[e] && !fault[e] {
          if t.peripheral && t.entries[e].centralOnly {
            fault[e] := true;
          } else {
            MarkDependencies(e);
          }
        }
      }
    }

    /** When entry `e` is reached, all of its consumers have been processed. */
    lemma {:induction false} LiveHere(roots: set<nat>, e: nat)
      requires Shape() && e < |t.entries|
      ensures LiveFrom(t, roots, e) <==>
              (e in roots ||
                exists k | e + 1 <= k < |t.entries| :: Feeds(t, e, k) && !LocalFault(t, k) && LiveFrom(t, roots, k))
    {
    }

    method MarkDependencies(e: nat)
      requires Shape() && e < |t.entries|
      modifies live
      ensures forall i | 0 <= i < |t.entries| :: live[i] <==> old(live[i]) || Feeds(t, i, e)
    {
      var deps := t.entries[e].deps;
      for n := 0 to |deps|
        invariant forall i | 0 <= i < |t.entries| :: live[i] <==> old(live[i]) || i in deps[..n]
      {
        assert deps[..n + 1] == deps[..n] + [deps[n]];
        live[deps[n]] := true;
      }
      assert deps[..|deps|] == deps;
    }

    /** One pass from dependencies up to their consumers reaches the fault fixpoint. */
    method SpreadFaults(ghost roots: set<nat>)
      requires Shape()
      requires forall i | 0 <= i < |t.entries| :: live[i] <==> LiveFrom(t, roots, i)
      requires forall i | 0 <= i < |t.entries| ::
                 fault[i] == if live[i] then LocalFault(t, i) else t.entries[i].invalid
      modifies fault
      ensures Settled(roots)
    {
      for e := 0 to |t.entries|
        invariant forall i | 0 <= i < e ::
                    fault[i] <==> if live[i] then FaultyFrom(t, i) else t.entries[i].invalid
        invariant forall i | e <= i < |t.entries| ::
                    fault[i] <==> if live[i] then LocalFault(t, i) else t.entries[i].invalid
      {
        if live[e] && !fault[e] {
          var deps := t.entries[e].deps;
          forall d | d in deps
            ensures d < e && live[d] && (fault[d] <==> FaultyFrom(t, d))
          {
            assert Feeds(t, d, e);
          }
          var tainted := false;
          for n := 0 to |deps|
            invariant !tainted && forall k | 0 <= k < n :: !fault[deps[k]]
          {
            if fault[deps[n]] {
              tainted := true;
              break;
            }
          }
          assert tainted <==> FaultyFrom(t, e);
          if tainted {
            fault[e] := true;
          }
        }
      }
    }

    /** Live exactly what a required root needs; faulted exactly what depends on a fault. */
    method Initialize(roots: seq<nat>)
      requires Shape() && !initialized && forall r | r in roots :: r < |t.entries|
      requires forall i | 0 <= i < |t.entries| :: !live[i] && !fault[i]
      modifies this`initialized, live, fault
      ensures initialized && Settled(set r | r in roots)
      ensures forall i | 0 <= i < |t.entries| :: live[i] <==> Needed(t, (set r | r in roots), i)
      ensures forall i | 0 <= i < |t.entries| && live[i] :: fault[i] <==> Tainted(t, i)
    {
      ghost var required := set r | r in roots;
      MarkInvalid();
      RequireAll(roots);
      SpreadLiveness(required);
      SpreadFaults(required);
      initialized := true;
      forall i | 0 <= i < |t.entries|
        ensures live[i] <==> Needed(t, required, i)
        ensures live[i] ==> (fault[i] <==> Tainted(t, i))
      {
        LiveIffNeeded(t, required, i);
        FaultyIffTainted(t, i);
      }
    }

    /** A cached value, as another condition or a gate reads it. */
    predicate Reads(i: nat)
      requires Shape() && i < |t.entries|
      reads this, live, fault, value
    {
      initialized && live[i] && !fault[i] && value[i]
    }

    method SampleAll(e: nat) returns (r: bool)
      requires Shape() && e < |t.entries|
      ensures r <==> forall k | 0 <= k < |t.entries[e].deps| :: Reads(t.entries[e].deps[k])
    {
      for i := 0 to |t.entries[e].deps|
        invariant forall k | 0 <= k < i :: Reads(t.entries[e].deps[k])
      {
        if !Reads(t.entries[e].deps[i]) {
          return false;
        }
      }
      return true;
    }

    method SampleAny(e: nat) returns (r: bool)
      requires Shape() && e < |t.entries|
      ensures r <==> exists k | 0 <= k < |t.entries[e].deps| :: Reads(t.entries[e].deps[k])
    {
      for i := 0 to |t.entries[e].deps|
        invariant forall k | 0 <= k < i :: !Reads(t.entries[e].deps[k])
      {
        if Reads(t.entries[e].deps[i]) {
          return true;
        }
      }
      return false;
    }

    /** One forward pass makes every usable condition's cache equal to what it denotes. */
    method Evaluate(samples: seq<bool>, ghost roots: set<nat>)
      requires Shape() && initialized && Settled(roots) && |samples| == |t.entries|
      modifies value
      ensures forall i | 0 <= i < |t.entries| && live[i] && !fault[i] :: value[i] <==> Denotes(t, samples, i)
      ensures forall i | 0 <= i < |t.entries| && !(live[i] && !fault[i]) :: value[i] == old(value[i])
      ensures forall i | 0 <= i < |t.entries| && live[i] && !fault[i] ::
                match t.entries[i].kind
                case Leaf => value[i] == samples[i]
                case AllOf => value[i] <==> forall k | 0 <= k < |t.entries[i].deps| :: value[t.entries[i].deps[k]]
                case AnyOf => value[i] <==> exists k | 0 <= k < |t.entries[i].deps| :: value[t.entries[i].deps[k]]
    {
      for e := 0 to |t.entries|
        invariant forall i | 0 <= i < e && live[i] && !fault[i] :: value[i] <==> Denotes(t, samples, i)
        invariant forall i | 0 <= i < |t.entries| && !(live[i] && !fault[i]) :: value[i] == old(value[i])
      {
        if live[e] && !fault[e] {
          DependenciesUsable(roots, e);
          match t.entries[e].kind
          case Leaf => value[e] := samples[e];
          case AllOf =>
            var v := SampleAll(e);
            value[e] := v;
          case AnyOf =>
            var v := SampleAny(e);
            value[e] := v;
        }
      }
    }

    lemma DependenciesUsable(roots: set<nat>, e: nat)
      requires Shape() && Settled(roots) && e < |t.entries| && live[e] && !fault[e]
      ensures forall k | 0 <= k < |t.entries[e].deps| ::
                var d := t.entries[e].deps[k]; d < e && live[d] && !fault[d]
    {
      forall k | 0 <= k < |t.entries[e].deps|
        ensures var d := t.entries[e].deps[k]; d < e && live[d] && !fault[d]
      {
        var d := t.entries[e].deps[k];
        assert Feeds(t, d, e);
        assert !LocalFault(t, e);
        assert LiveFrom(t, roots, d);
      }
    }
  }
}
