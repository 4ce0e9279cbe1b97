/** One pass over the overlays: who is switched off, reset, switched on, fed and painted, and in which order. */
module ScenePass {
  import opened Options

  /** What the overlays and whoever asks for a runtime reset observe. */
  datatype Call =
    | ResetRequested
    | Reset(overlay: nat)
    | Activate(overlay: nat)
    | Deactivate(overlay: nat)
    | Feed(overlay: nat)
    | Paint(overlay: nat)

  // ----- Reference: what one overlay may be asked to do -----

  /** An overlay `owed` a reset must be reset before it is used. */
  datatype Status = Status(owed: bool, active: bool) | Broken

  function Observe(s: Status, i: nat, c: Call): Status {
    if s.Broken? then Broken
    else
      match c
      case ResetRequested => s.(owed := true)
      case Reset(j) => if j != i then s else if s.owed then s.(owed := false) else Broken
      case Activate(j) => if j != i then s else if s.owed || s.active then Broken else s.(active := true)
      case Deactivate(j) => if j != i then s else if s.active then s.(active := false) else Broken
      case Feed(j) => if j == i && (s.owed || !s.active) then Broken else s
      case Paint(j) => if j == i && (s.owed || !s.active) then Broken else s
  }

  function Follow(log: seq<Call>, i: nat): Status {
    if log == [] then Status(true, false) else Observe(Follow(log[..|log| - 1], i), i, log[|log| - 1])
  }

  lemma {:induction false} FollowMore(log: seq<Call>, i: nat, c: Call)
    ensures Follow(log + [c], i) == Observe(Follow(log, i), i, c)
  {
    assert (log + [c])[..|log|] == log;
  }

  lemma {:induction false} FollowPrefix(log: seq<Call>, i: nat, k: nat)
    requires k <= |log| && !Follow(log, i).Broken?
    ensures !Follow(log[..k], i).Broken?
    decreases |log|
  {
    if k < |log| {
      FollowPrefix(log[..|log| - 1], i, k);
      assert log[..|log| - 1][..k] == log[..k];
    } else {
      assert log[..k] == log;
    }
  }

  lemma {:induction false} NotOwedMeaning(log: seq<Call>, i: nat)
    requires !Follow(log, i).Broken? && !Follow(log, i).owed
    ensures exists k :: 0 <= k < |log| && log[k] == Reset(i) && forall m | k < m < |log| :: log[m] != ResetRequested
    decreases |log|
  {
    var shorter, last := log[..|log| - 1], log[|log| - 1];
    if last == Reset(i) {
      assert log[|log| - 1] == Reset(i);
    } else {
      NotOwedMeaning(shorter, i);
      var k :| 0 <= k < |shorter| && shorter[k] == Reset(i) &&
               forall m | k < m < |shorter| :: shorter[m] != ResetRequested;
      assert log[k] == Reset(i);
      forall m | k < m < |log| ensures log[m] != ResetRequested {
        if m < |shorter| {
          assert log[m] == shorter[m];
        }
      }
    }
  }

  /** Whenever an overlay is switched on, fed or painted, a reset of it came after boot and after the latest request. */
  lemma {:induction false} UseFollowsReset(log: seq<Call>, i: nat, k: nat)
    requires !Follow(log, i).Broken? && k < |log| && log[k] in {Activate(i), Feed(i), Paint(i)}
    ensures exists j :: 0 <= j < k && log[j] == Reset(i) && forall m | j < m < k :: log[m] != ResetRequested
  {
    FollowPrefix(log, i, k + 1);
    FollowPrefix(log, i, k);
    assert log[..k + 1][..k] == log[..k];
    NotOwedMeaning(log[..k], i);
    var j :| 0 <= j < k && log[..k][j] == Reset(i) && forall m | j < m < k :: log[..k][m] != ResetRequested;
    assert log[j] == Reset(i);
    forall m | j < m < k ensures log[m] != ResetRequested {
      assert log[m] == log[..k][m];
    }
  }

  /** Until the next request an overlay that was reset is owed nothing. */
  lemma {:induction false} ResetClears(log: seq<Call>, i: nat, j: nat)
    requires !Follow(log, i).Broken? && j < |log| && log[j] == Reset(i)
    requires forall m | j < m < |log| :: log[m] != ResetRequested
    ensures !Follow(log, i).owed
    decreases |log|
  {
    if j < |log| - 1 {
      var shorter := log[..|log| - 1];
      forall m | j < m < |shorter| ensures shorter[m] != ResetRequested {
        assert shorter[m] == log[m];
      }
      ResetClears(shorter, i, j);
    }
  }

  /** Requests coalesce: between two resets of the same overlay lies a request. */
  lemma {:induction false} ResetsAreRequested(log: seq<Call>, i: nat, j: nat, k: nat)
    requires !Follow(log, i).Broken? && j < k < |log| && log[j] == Reset(i) && log[k] == Reset(i)
    ensures exists m :: j < m < k && log[m] == ResetRequested
  {
    FollowPrefix(log, i, k + 1);
    FollowPrefix(log, i, k);
    assert log[..k + 1][..k] == log[..k];
    if forall m | j < m < k :: log[m] != ResetRequested {
      forall m | j < m < k ensures log[..k][m] != ResetRequested {
        assert log[..k][m] == log[m];
      }
      ResetClears(log[..k], i, j);
    }
  }

  // ----- A pass in place -----

  function Wanted(gates: seq<bool>, first: Option<nat>, allowed: bool): (w: seq<bool>)
    ensures |w| == |gates|
  {
    seq(|gates|, i requires 0 <= i < |gates| => allowed && (first.None? || i >= first.value) && gates[i])
  }

  /** One call for each overlay in `mask`, bottom to top. */
  function Calls(mask: seq<bool>, make: nat -> Call): seq<Call> {
    if mask == [] then []
    else Calls(mask[..|mask| - 1], make) + if mask[|mask| - 1] then [make(|mask| - 1)] else []
  }

  function Repeated(calls: seq<Call>, times: nat): seq<Call> {
    if times == 0 then [] else Repeated(calls, times - 1) + calls
  }

  function Resetting(): nat -> Call {
    (i: nat) => Reset(i)
  }

  function Activating(): nat -> Call {
    (i: nat) => Activate(i)
  }

  function Deactivating(): nat -> Call {
    (i: nat) => Deactivate(i)
  }

  function Feeding(): nat -> Call {
    (i: nat) => Feed(i)
  }

  function Painting(): nat -> Call {
    (i: nat) => Paint(i)
  }

  function Without(a: seq<bool>, b: seq<bool>): (r: seq<bool>)
    requires |a| == |b|
    ensures |r| == |a|
  {
    seq(|a|, i requires 0 <= i < |a| => a[i] && !b[i])
  }

  /** Asked for at run time, or never yet done for an overlay about to be shown. */
  function Due(pending: seq<bool>, initialized: seq<bool>, wanted: seq<bool>): (r: seq<bool>)
    requires |pending| == |initialized| == |wanted|
    ensures |r| == |pending|
  {
    seq(|pending|, i requires 0 <= i < |pending| => pending[i] || (!initialized[i] && wanted[i]))
  }

  lemma OneMore(mask: seq<bool>, make: nat -> Call, i: nat)
    requires i < |mask|
    ensures Calls(mask[..i + 1], make) == Calls(mask[..i], make) + if mask[i] then [make(i)] else []
  {
    assert mask[..i + 1][..i] == mask[..i];
  }

  /** Which overlays a list of calls concerns. */
  lemma {:induction false} CallsConcern(mask: seq<bool>, make: nat -> Call, i: nat)
    requires forall a: nat, b: nat :: make(a) == make(b) ==> a == b
    ensures make(i) in Calls(mask, make) <==> i < |mask| && mask[i]
  {
    if mask != [] {
      CallsConcern(mask[..|mask| - 1], make, i);
    }
  }

  /** What a pass asks of one overlay, in the terms of its state before: it is switched off when it was on and is not to
    * be shown, reset when a reset was asked for or it is shown for the first time, switched on when it was off and is
    * to be shown, and fed and painted exactly when it is shown. Shown are the gated overlays from the covering one up,
    * while output is permitted. */
  lemma PassConcerns(gates: seq<bool>, first: Option<nat>, allowed: bool, active: seq<bool>, pending: seq<bool>,
                     initialized: seq<bool>, i: nat)
    requires |gates| == |active| == |pending| == |initialized| && i < |gates|
    ensures var on := Wanted(gates, first, allowed);
            var shown := allowed && gates[i] && (first == None || first.value <= i);
            && (on[i] <==> shown)
            && (Deactivate(i) in Calls(Without(active, on), Deactivating()) <==> active[i] && !shown)
            && (Reset(i) in Calls(Due(pending, initialized, on), Resetting()) <==>
                  pending[i] || (shown && !initialized[i]))
            && (Activate(i) in Calls(Without(on, active), Activating()) <==> shown && !active[i])
            && (Feed(i) in Calls(on, Feeding()) <==> shown)
            && (Paint(i) in Calls(on, Painting()) <==> shown)
  {
    var on := Wanted(gates, first, allowed);
    CallsConcern(Without(active, on), Deactivating(), i);
    CallsConcern(Due(pending, initialized, on), Resetting(), i);
    CallsConcern(Without(on, active), Activating(), i);
    CallsConcern(on, Feeding(), i);
    CallsConcern(on, Painting(), i);
  }

  class Scenes {
    const initialized: array<bool>
    const active: array<bool>
    const resetPending: array<bool>
    const wanted: array<bool>
    ghost var log: seq<Call>

    ghost predicate Shaped()
      reads this
    {
      && initialized.Length == active.Length == resetPending.Length == wanted.Length
      && initialized != active && initialized != resetPending && initialized != wanted
      && active != resetPending && active != wanted && resetPending != wanted
    }

    ghost function StatusOf(i: nat): Status
      requires Shaped() && i < active.Length
      reads this, initialized, active, resetPending
    {
      Status(resetPending[i] || !initialized[i], active[i])
    }

    /** The fields are exactly what the history says, for every overlay: the history honours every overlay. */
    ghost predicate Valid()
      reads this, initialized, active, resetPending
    {
      Shaped() && forall i :: 0 <= i < active.Length ==> Follow(log, i) == StatusOf(i)
    }

    constructor (count: nat)
      ensures Valid() && active.Length == count && log == []
      ensures fresh(initialized) && fresh(active) && fresh(resetPending) && fresh(wanted)
    {
      initialized := new bool[count](_ => false);
      active := new bool[count](_ => false);
      resetPending := new bool[count](_ => false);
      wanted := new bool[count](_ => false);
      log := [];
    }

    ghost method Note(c: Call)
      modifies this`log
      ensures log == old(log) + [c]
      ensures forall i: nat :: Follow(log, i) == Observe(Follow(old(log), i), i, c)
    {
      forall i: nat ensures Follow(log + [c], i) == Observe(Follow(log, i), i, c) {
        FollowMore(log, i, c);
      }
      log := log + [c];
    }

    /** `kp_rgb_request_runtime_reset_locked`. */
    method RequestReset()
      requires Valid()
      modifies this`log, resetPending
      ensures Valid() && log == old(log) + [ResetRequested]
    {
      for i := 0 to resetPending.Length
        invariant log == old(log)
        invariant forall k :: 0 <= k < i ==> resetPending[k]
        invariant forall k :: 0 <= k < active.Length ==> Follow(log, k) == old(StatusOf(k))
      {
        resetPending[i] := true;
      }
      Note(ResetRequested);
    }

    method Want(gates: seq<bool>, first: Option<nat>, allowed: bool)
      requires Valid() && |gates| == wanted.Length
      modifies wanted
      ensures Valid() && wanted[..] == Wanted(gates, first, allowed)
    {
      for i := 0 to wanted.Length
        invariant wanted[..i] == Wanted(gates, first, allowed)[..i]
        invariant Valid()
      {
        wanted[i] := allowed && (first.None? || i >= first.value) && gates[i];
      }
      assert wanted[..wanted.Length] == wanted[..];
    }

    method SwitchOff()
      requires Valid()
      modifies this`log, active
      ensures Valid()
      ensures forall i :: 0 <= i < active.Length ==> active[i] == (old(active[i]) && wanted[i])
      ensures log == old(log) + Calls(Without(old(active[..]), wanted[..]), Deactivating())
    {
      ghost var mask := Without(active[..], wanted[..]);
      for i := 0 to active.Length
        invariant Valid()
        invariant log == old(log) + Calls(mask[..i], Deactivating())
        invariant forall k :: 0 <= k < active.Length ==>
          active[k] == (old(active[k]) && (k < i ==> wanted[k]))
      {
        OneMore(mask, Deactivating(), i);
        if active[i] && !wanted[i] {
          active[i] := false;
          Note(Deactivate(i));
        }
      }
      assert mask[..|mask|] == mask;
    }

    method ResetDue()
      requires Valid()
      modifies this`log, initialized, resetPending
      ensures Valid()
      ensures forall i :: 0 <= i < active.Length ==>
                !resetPending[i] && (wanted[i] || old(initialized[i]) ==> initialized[i])
      ensures log == old(log) + Calls(Due(old(resetPending[..]), old(initialized[..]), wanted[..]), Resetting())
    {
      ghost var mask := Due(resetPending[..], initialized[..], wanted[..]);
      for i := 0 to active.Length
        invariant Valid()
        invariant log == old(log) + Calls(mask[..i], Resetting())
        invariant forall k :: 0 <= k < i ==> !resetPending[k] && (wanted[k] || old(initialized[k]) ==> initialized[k])
        invariant forall k :: i <= k < active.Length ==>
          initialized[k] == old(initialized[k]) && resetPending[k] == old(resetPending[k])
      {
        OneMore(mask, Resetting(), i);
        if resetPending[i] || (!initialized[i] && wanted[i]) {
          initialized[i] := true;
          resetPending[i] := false;
          Note(Reset(i));
        }
      }
      assert mask[..|mask|] == mask;
    }

    /** `kp_rgb_callbacks_set_active` would reset an overlay that was never reset; by now none is left. */
    method SwitchOn()
      requires Valid()
      requires forall i :: 0 <= i < active.Length ==> !resetPending[i] && (wanted[i] ==> initialized[i])
      modifies this`log, active
      ensures Valid()
      ensures forall i :: 0 <= i < active.Length ==> active[i] == (old(active[i]) || wanted[i])
      ensures log == old(log) + Calls(Without(wanted[..], old(active[..])), Activating())
    {
      ghost var mask := Without(wanted[..], active[..]);
      for i := 0 to active.Length
        invariant Valid()
        invariant log == old(log) + Calls(mask[..i], Activating())
        invariant forall k :: 0 <= k < active.Length ==>
          active[k] == (old(active[k]) || (k < i && wanted[k]))
      {
        OneMore(mask, Activating(), i);
        if wanted[i] && !active[i] {
          assert initialized[i];
          active[i] := true;
          Note(Activate(i));
        }
      }
      assert mask[..|mask|] == mask;
    }

    /** Every active overlay is gated and has been reset since the last request. */
    ghost predicate Ready(gates: seq<bool>)
      requires Shaped() && |gates| == active.Length
      reads this, initialized, active, resetPending
    {
      forall i :: 0 <= i < active.Length && active[i] ==> gates[i] && !StatusOf(i).owed
    }

    /** A press goes to every gated overlay that is active. */
    method FeedOne(gates: seq<bool>)
      requires Valid() && |gates| == active.Length && Ready(gates)
      modifies this`log
      ensures Valid()
      ensures log == old(log) + Calls(active[..], Feeding())
    {
      ghost var mask := active[..];
      for i := 0 to active.Length
        invariant Valid()
        invariant log == old(log) + Calls(mask[..i], Feeding())
      {
        OneMore(mask, Feeding(), i);
        if gates[i] && active[i] {
          Note(Feed(i));
        }
      }
      assert mask[..|mask|] == mask;
    }

    method FeedAll(gates: seq<bool>, presses: nat)
      requires Valid() && |gates| == active.Length && Ready(gates)
      modifies this`log
      ensures Valid()
      ensures log == old(log) + Repeated(Calls(active[..], Feeding()), presses)
    {
      for p := 0 to presses
        invariant Valid()
        invariant log == old(log) + Repeated(Calls(active[..], Feeding()), p)
      {
        FeedOne(gates);
      }
    }

    /** Painting starts at the covering overlay and paints exactly the wanted ones. */
    method PaintAll(gates: seq<bool>, first: Option<nat>)
      requires Valid() && |gates| == active.Length && (first.Some? ==> first.value < |gates|)
      requires active[..] == Wanted(gates, first, true) && Ready(gates)
      modifies this`log
      ensures Valid()
      ensures log == old(log) + Calls(active[..], Painting())
    {
      var bottom := if first.None? then 0 else first.value;
      ghost var mask := active[..];
      NothingBelow(mask[..bottom], Painting());
      for i := bottom to active.Length
        invariant Valid()
        invariant log == old(log) + Calls(mask[..i], Painting())
      {
        OneMore(mask, Painting(), i);
        if gates[i] && active[i] {
          Note(Paint(i));
        }
      }
      assert mask[..|mask|] == mask;
    }

    /** `kp_rgb_scene_pass_locked`: overlays leaving the scene are switched off before any is reset, resets come
      * before any is switched on, and only then do presses and paints reach exactly the wanted overlays. */
    method Pass(gates: seq<bool>, first: Option<nat>, allowed: bool, presses: nat, paint: bool)
      requires Valid() && |gates| == active.Length && (first.Some? ==> first.value < |gates|)
      modifies this`log, initialized, active, resetPending, wanted
      ensures Valid()
      ensures active[..] == Wanted(gates, first, allowed)
      ensures forall i :: 0 <= i < active.Length ==> !resetPending[i] && (active[i] ==> initialized[i])
      ensures var on := Wanted(gates, first, allowed);
              log == old(log)
                     + Calls(Without(old(active[..]), on), Deactivating())
                     + Calls(Due(old(resetPending[..]), old(initialized[..]), on), Resetting())
                     + Calls(Without(on, old(active[..])), Activating())
                     + Repeated(Calls(on, Feeding()), presses)
                     + (if allowed && paint then Calls(on, Painting()) else [])
    {
      ghost var before := active[..];
      Want(gates, first, allowed);
      SwitchOff();
      ghost var kept := active[..];
      ResetDue();
      SwitchOn();
      assert active[..] == wanted[..];
      assert Without(wanted[..], kept) == Without(wanted[..], before);
      FeedAll(gates, presses);
      if allowed && paint {
        PaintAll(gates, first);
      }
    }
  }

  lemma {:induction false} NothingBelow(mask: seq<bool>, make: nat -> Call)
    requires forall i :: 0 <= i < |mask| ==> !mask[i]
    ensures Calls(mask, make) == []
  {
    if mask != [] {
      NothingBelow(mask[..|mask| - 1], make);
    }
  }
}
