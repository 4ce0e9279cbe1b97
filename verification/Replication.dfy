/** Generation, outstanding-invocation and repair accounting. */
module Replication {
  import opened Commands

  const MAX_OUTSTANDING := 0xFFFF_FFFF

  datatype Ledger = Ledger(outstanding: nat, repairEpoch: nat, exceptional: bool)

  function Begun(l: Ledger): Ledger {
    l.(outstanding := l.outstanding + 1, exceptional := l.exceptional || l.outstanding != 0)
  }

  function Finished(l: Ledger, negative: bool): Ledger
    requires l.outstanding > 0
  {
    var exceptional := l.exceptional || negative;
    if l.outstanding == 1 && exceptional then Ledger(0, l.repairEpoch + 1, false)
    else Ledger(l.outstanding - 1, l.repairEpoch, exceptional)
  }

  // ----- The counters in place -----

  /** A binding on its way through conversion and its callback. */
  class BindingCell {
    var param1: u32
    var param2: u32

    constructor (param1: u32, param2: u32)
      ensures this.param1 == param1 && this.param2 == param2
    {
      this.param1, this.param2 := param1, param2;
    }
  }

  class Tracker {
    var generation: nat
    var outstanding: u32
    var repairEpoch: nat
    var exceptional: bool

    constructor ()
      ensures generation == 0 && View() == Ledger(0, 0, false)
    {
      generation, outstanding, repairEpoch, exceptional := 0, 0, 0, false;
    }

    ghost function View(): Ledger
      reads this
    {
      Ledger(outstanding, repairEpoch, exceptional)
    }

    method Changed()
      modifies this`generation
      ensures generation == old(generation) + 1
    {
      generation := generation + 1;
    }

    /** An effect's parameters changed; only selector members are replicated. */
    method EffectChanged<E(==)>(registry: seq<seq<E>>, effect: E)
      modifies this`generation
      ensures generation == old(generation) +
                (if exists i, slot :: 0 <= i < |registry| && 0 <= slot < |registry[i]| && registry[i][slot] == effect
                 then 1 else 0)
    {
      for i := 0 to |registry|
        invariant generation == old(generation)
        invariant forall j | 0 <= j < i :: effect !in registry[j]
      {
        for slot := 0 to |registry[i]|
          invariant generation == old(generation)
          invariant effect !in registry[i][..slot]
        {
          if registry[i][slot] == effect {
            Changed();
            return;
          }
        }
        assert registry[i][..|registry[i]|] == registry[i];
      }
      assert forall j, slot | 0 <= j < |registry| && 0 <= slot < |registry[j]| :: registry[j][slot] in registry[j];
    }

    /** Marks a converted binding. Clock corrections are not accounted. */
    method Begin(b: BindingCell?) returns (r: Result<()>)
      modifies this, b
      ensures generation == old(generation)
      ensures b != null ==> b.param2 == old(b.param2)
      ensures r == old(if b == null then Err(EINVAL)
                       else if Marked(b.param1) then Err(EALREADY)
                       else if Strip(b.param1) == CLOCK then Ok(())
                       else if outstanding == MAX_OUTSTANDING then Err(EOVERFLOW)
                       else Ok(()))
      ensures var counted := r.Ok? && Strip(old(b.param1)) != CLOCK;
              && View() == (if counted then Begun(old(View())) else old(View()))
              && (b != null ==> b.param1 == old(b.param1) + if counted then MARKER else 0)
    {
      if b == null {
        return Err(EINVAL);
      }
      if Marked(b.param1) {
        return Err(EALREADY);
      }
      if Strip(b.param1) == CLOCK {
        return Ok(());
      }
      if outstanding == MAX_OUTSTANDING {
        return Err(EOVERFLOW);
      }
      exceptional := exceptional || outstanding != 0;
      outstanding := outstanding + 1;
      b.param1 := b.param1 + MARKER;
      return Ok(());
    }

    /** Retires a marked binding; unmarked ones are left alone. Returns whether replay must be woken. */
    method Finish(b: BindingCell?, negative: bool) returns (repair: bool)
      modifies this, b
      ensures b != null ==> b.param1 == Strip(old(b.param1)) && b.param2 == old(b.param2)
      ensures var paired := b != null && Marked(old(b.param1)) && old(outstanding) > 0;
              && View() == (if paired then Finished(old(View()), negative) else old(View()))
              && generation == old(generation) + (if paired then 1 else 0)
      ensures repair <==> repairEpoch != old(repairEpoch)
    {
      repair := false;
      if b == null || !Marked(b.param1) {
        return;
      }
      b.param1 := b.param1 - MARKER;
      if outstanding > 0 {
        exceptional := exceptional || negative;
        outstanding := outstanding - 1;
        generation := generation + 1;
        if outstanding == 0 && exceptional {
          repairEpoch := repairEpoch + 1;
          exceptional := false;
          repair := true;
        }
      }
    }
  }

  // ----- Whole histories -----

  datatype Event = Begin | Finish(negative: bool)

  /** Begins minus finishes. */
  function Depth(h: seq<Event>): int {
    if h == [] then 0 else Depth(h[..|h| - 1]) + if h[|h| - 1].Begin? then 1 else -1
  }

  /** Finishes pair with earlier begins. */
  predicate Paired(h: seq<Event>) {
    forall i | 0 <= i <= |h| :: Depth(h[..i]) >= 0
  }

  function Replay(h: seq<Event>): (l: Ledger)
    requires Paired(h)
    ensures l.outstanding == Depth(h)
  {
    if h == [] then Ledger(0, 0, false)
    else
      var prefix, last := h[..|h| - 1], h[|h| - 1];
      PairedPrefix(h);
      if last.Begin? then Begun(Replay(prefix)) else Finished(Replay(prefix), last.negative)
  }

  lemma {:induction false} PairedPrefix(h: seq<Event>)
    requires h != [] && Paired(h)
    ensures Paired(h[..|h| - 1]) && Depth(h) >= 0 && Depth(h[..|h| - 1]) >= 0
    ensures h[|h| - 1].Finish? ==> Depth(h[..|h| - 1]) > 0
  {
    var prefix := h[..|h| - 1];
    forall i | 0 <= i <= |prefix|
      ensures Depth(prefix[..i]) >= 0
    {
      assert prefix[..i] == h[..i];
    }
    assert h[..|h|] == h;
    assert Depth(h[..|h|]) >= 0;
    assert prefix[..|prefix|] == prefix;
  }

  /** The end of the last stretch with nothing outstanding. */
  function LastIdle(h: seq<Event>): (i: nat)
    ensures i <= |h|
  {
    if h == [] || Depth(h) == 0 then |h| else LastIdle(h[..|h| - 1])
  }

  /** An overlap or a negative result at or after event `from`. */
  ghost predicate ExceptionalSince(h: seq<Event>, from: nat) {
    exists k :: from <= k < |h| && ExceptionalAt(h, k)
  }

  predicate ExceptionalAt(h: seq<Event>, k: nat)
    requires k < |h|
  {
    match h[k]
    case Begin => Depth(h[..k]) > 0
    case Finish(negative) => negative
  }

  /** The number of completed busy periods that contained an overlap or a negative result. */
  ghost function ExceptionalPeriods(h: seq<Event>): nat {
    if h == [] then 0
    else
      var prefix := h[..|h| - 1];
      ExceptionalPeriods(prefix) +
      if Depth(h) == 0 && ExceptionalSince(h, LastIdle(prefix)) then 1 else 0
  }

  lemma ExceptionalSinceExtends(h: seq<Event>, from: nat)
    requires h != [] && from < |h|
    ensures ExceptionalSince(h, from) <==>
            ExceptionalSince(h[..|h| - 1], from) || ExceptionalAt(h, |h| - 1)
  {
    var prefix := h[..|h| - 1];
    forall k | 0 <= k < |prefix|
      ensures ExceptionalAt(h, k) == ExceptionalAt(prefix, k)
    {
      assert h[..k] == prefix[..k];
    }
    if ExceptionalSince(h, from) {
      var k :| from <= k < |h| && ExceptionalAt(h, k);
      if k < |prefix| {
        assert ExceptionalAt(prefix, k);
      }
    }
    if ExceptionalSince(prefix, from) {
      var k :| from <= k < |prefix| && ExceptionalAt(prefix, k);
      assert ExceptionalAt(h, k);
    }
  }

  /** The repair epoch counts exactly the exceptional busy periods of any paired history,
      and the flag records exactly whether the period still open is one. */
  lemma {:induction false} RepairEpochCountsExceptionalPeriods(h: seq<Event>)
    requires Paired(h)
    ensures Replay(h).repairEpoch == ExceptionalPeriods(h)
    ensures Replay(h).exceptional <==> Depth(h) > 0 && ExceptionalSince(h, LastIdle(h))
  {
    if h != [] {
      var prefix := h[..|h| - 1];
      PairedPrefix(h);
      RepairEpochCountsExceptionalPeriods(prefix);
      ExceptionalSinceExtends(h, LastIdle(prefix));
      assert Depth(prefix) == 0 ==> LastIdle(prefix) == |prefix|;
      assert Depth(prefix) == 0 ==> !ExceptionalSince(prefix, LastIdle(prefix));
    }
  }
}
