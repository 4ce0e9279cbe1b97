/** A controllable overlay and the callbacks its nested effects receive. */
module SelectorLifecycle {
  import opened Indices
  import opened Options

  const UINT32_MAX := 0xFFFF_FFFF

  datatype Callback = Callback(initialized: bool, active: bool, animating: bool, lastRender: int)

  /** What the children, and whoever asks for a reset, observe. */
  datatype Event =
    | ResetRequested
    | ChildReset(child: nat)
    | ChildActivated(child: nat)
    | ChildDeactivated(child: nat)
    | ChildInput(child: nat)
    | ChildRendered(child: nat, elapsed: nat)

  // ----- Reference: which callback histories are well behaved -----

  /** `owed` children must be reset before they are used again; at most one is active. */
  datatype Contract = Contract(owed: set<nat>, active: Option<nat>) | Broken

  function Observe(c: Contract, count: nat, e: Event): Contract {
    if c.Broken? then Broken
    else
      match e
      case ResetRequested => c.(owed := UpTo(count))
      case ChildReset(i) => if i in c.owed then c.(owed := c.owed - {i}) else Broken
      case ChildActivated(i) => if c.active.None? && i !in c.owed then c.(active := Some(i)) else Broken
      case ChildDeactivated(i) => if c.active == Some(i) then c.(active := None) else Broken
      case ChildInput(i) => if c.active == Some(i) && i !in c.owed then c else Broken
      case ChildRendered(i, _) => if c.active == Some(i) && i !in c.owed then c else Broken
  }

  function ObserveAll(count: nat, log: seq<Event>): Contract {
    if log == [] then Contract(UpTo(count), None)
    else Observe(ObserveAll(count, log[..|log| - 1]), count, log[|log| - 1])
  }

  lemma {:induction false} ObserveMore(count: nat, log: seq<Event>, e: Event)
    ensures ObserveAll(count, log + [e]) == Observe(ObserveAll(count, log), count, e)
  {
    assert (log + [e])[..|log|] == log;
  }

  /** A history that honours the contract throughout. */
  predicate Honoured(count: nat, log: seq<Event>) {
    ObserveAll(count, log).Contract?
  }

  lemma {:induction false} HonouredPrefix(count: nat, log: seq<Event>, k: nat)
    requires Honoured(count, log) && k <= |log|
    ensures Honoured(count, log[..k])
    decreases |log|
  {
    if k < |log| {
      HonouredPrefix(count, log[..|log| - 1], k);
      assert log[..|log| - 1][..k] == log[..k];
    } else {
      assert log[..k] == log;
    }
  }

  /** Event `k` occurred, and no `ResetRequested` since. */
  predicate SinceRequest(log: seq<Event>, k: nat) {
    k < |log| && forall j | k < j < |log| :: log[j] != ResetRequested
  }

  /** A child is not owed a reset exactly when it was reset after boot and after the latest request. */
  lemma {:induction false} OwedMeaning(count: nat, log: seq<Event>, i: nat)
    requires Honoured(count, log) && i < count
    ensures i !in ObserveAll(count, log).owed <==> exists k: nat :: SinceRequest(log, k) && log[k] == ChildReset(i)
    decreases |log|
  {
    if log != [] {
      var prefix, last := log[..|log| - 1], log[|log| - 1];
      HonouredPrefix(count, log, |log| - 1);
      OwedMeaning(count, prefix, i);
      if i !in ObserveAll(count, log).owed {
        if last == ChildReset(i) {
          assert SinceRequest(log, |log| - 1);
        } else {
          var k: nat :| SinceRequest(prefix, k) && prefix[k] == ChildReset(i);
          assert SinceRequest(log, k);
        }
      }
      if exists k: nat :: SinceRequest(log, k) && log[k] == ChildReset(i) {
        var k: nat :| SinceRequest(log, k) && log[k] == ChildReset(i);
        if k < |prefix| {
          assert log[|log| - 1] != ResetRequested;
          assert SinceRequest(prefix, k);
        }
      }
    }
  }

  /** Every activation of a child follows a reset of it issued after the latest request. */
  lemma ActivationFollowsReset(count: nat, log: seq<Event>, k: nat, i: nat)
    requires Honoured(count, log) && k < |log| && i < count && log[k] == ChildActivated(i)
    ensures exists j :: 0 <= j < k && log[j] == ChildReset(i) && forall m | j < m < k :: log[m] != ResetRequested
  {
    HonouredPrefix(count, log, k + 1);
    HonouredPrefix(count, log, k);
    assert log[..k + 1][..k] == log[..k];
    OwedMeaning(count, log[..k], i);
    var j: nat :| SinceRequest(log[..k], j) && log[..k][j] == ChildReset(i);
    assert forall m | j < m < k :: log[m] == log[..k][m];
  }

  /** Requests coalesce: between two resets of the same child lies a request. */
  lemma ResetsAreRequested(count: nat, log: seq<Event>, j: nat, k: nat, i: nat)
    requires Honoured(count, log) && j < k < |log| && i < count
    requires log[j] == ChildReset(i) && log[k] == ChildReset(i)
    ensures exists m :: j < m < k && log[m] == ResetRequested
  {
    HonouredPrefix(count, log, k + 1);
    HonouredPrefix(count, log, k);
    assert log[..k + 1][..k] == log[..k];
    OwedMeaning(count, log[..k], i);
    assert !SinceRequest(log[..k], j);
    var m :| j < m < k && log[..k][m] == ResetRequested;
    assert log[m] == ResetRequested;
  }

  lemma {:induction false} ActiveMeaning(count: nat, log: seq<Event>, i: nat)
    requires Honoured(count, log) && ObserveAll(count, log).active == Some(i)
    ensures exists k: nat :: k < |log| && log[k] == ChildActivated(i) &&
              forall m | k < m < |log| :: log[m] != ChildDeactivated(i)
    decreases |log|
  {
    var prefix, last := log[..|log| - 1], log[|log| - 1];
    HonouredPrefix(count, log, |log| - 1);
    if last != ChildActivated(i) {
      ActiveMeaning(count, prefix, i);
      var k :| 0 <= k < |prefix| && prefix[k] == ChildActivated(i) &&
               forall m | k < m < |prefix| :: prefix[m] != ChildDeactivated(i);
      assert log[k] == ChildActivated(i);
      assert forall m | k < m < |prefix| :: log[m] == prefix[m];
    }
  }

  /** Input and rendering reach only a child that is active at that moment. */
  lemma OnlyTheActiveChildIsUsed(count: nat, log: seq<Event>, k: nat, i: nat)
    requires Honoured(count, log) && k < |log|
    requires log[k] == ChildInput(i) || (log[k].ChildRendered? && log[k].child == i)
    ensures exists j :: 0 <= j < k && log[j] == ChildActivated(i) &&
              forall m | j < m < k :: log[m] != ChildDeactivated(i)
  {
    HonouredPrefix(count, log, k + 1);
    HonouredPrefix(count, log, k);
    assert log[..k + 1][..k] == log[..k];
    ActiveMeaning(count, log[..k], i);
    var j :| 0 <= j < k && log[..k][j] == ChildActivated(i) &&
             forall m | j < m < k :: log[..k][m] != ChildDeactivated(i);
    assert forall m | j < m < k :: log[m] == log[..k][m];
  }

  /** A child is activated, after a reset when it is owed one. */
  lemma {:induction false} ActivationObserved(count: nat, log: seq<Event>, owed: set<nat>, i: nat)
    requires ObserveAll(count, log) == Contract(owed, None)
    ensures var resets := if i in owed then [ChildReset(i)] else [];
            ObserveAll(count, log + resets + [ChildActivated(i)]) == Contract(owed - {i}, Some(i))
  {
    if i in owed {
      ObserveMore(count, log, ChildReset(i));
      ObserveMore(count, log + [ChildReset(i)], ChildActivated(i));
    } else {
      ObserveMore(count, log, ChildActivated(i));
      assert log + [] == log;
      assert owed - {i} == owed;
    }
  }

  // ----- The overlay in place -----

  /** `now` continues `before` with resets, activations and deactivations only. */
  predicate OnlyLifecycle(before: seq<Event>, now: seq<Event>) {
    before <= now && forall k | |before| <= k < |now| ::
      now[k].ChildReset? || now[k].ChildActivated? || now[k].ChildDeactivated?
  }

  predicate OnlyDeactivates(before: seq<Event>, now: seq<Event>) {
    before <= now && forall k | |before| <= k < |now| :: now[k].ChildDeactivated?
  }

  /** Time since the previous render: zero after a pause, saturating at 32 bits. */
  function Elapsed(c: Callback, now: int): nat {
    if c.animating && now > c.lastRender then
      if now - c.lastRender > UINT32_MAX then UINT32_MAX else now - c.lastRender
    else 0
  }

  /** No time passes for a child that was not animating; otherwise what passed since its last render, up to 32 bits. */
  lemma ElapsedMeans(c: Callback, now: int)
    ensures !c.animating || now <= c.lastRender ==> Elapsed(c, now) == 0
    ensures c.animating && c.lastRender <= now <= c.lastRender + 0xFFFF_FFFF ==> Elapsed(c, now) == now - c.lastRender
    ensures c.animating && now > c.lastRender + 0xFFFF_FFFF ==> Elapsed(c, now) == 0xFFFF_FFFF
  {
  }

  class SelectorOverlay {
    const count: nat
    var index: nat
    var live: Option<nat>
    var active: bool
    var resetRequested: bool
    const resetPending: array<bool>
    const instances: array<Callback>
    ghost var log: seq<Event>

    ghost function Owed(): set<nat>
      requires instances.Length == count == resetPending.Length
      reads this, resetPending, instances
    {
      set i | 0 <= i < count && Owes(i)
    }

    /** Child `i` must be reset before it is used. */
    predicate Owes(i: nat)
      requires i < instances.Length && i < resetPending.Length
      reads this, resetPending, instances
    {
      resetRequested || resetPending[i] || !instances[i].initialized
    }

    /** The fields agree with what the history obliges. */
    ghost predicate Valid()
      reads this, resetPending, instances
    {
      && instances.Length == count == resetPending.Length
      && index < count
      && (live.Some? ==> live.value < count)
      && (forall i | 0 <= i < count ::
            (instances[i].active <==> live == Some(i)) && (instances[i].active ==> instances[i].initialized))
      && ObserveAll(count, log) == Contract(Owed(), live)
    }

    /** Nothing left to do for the current wish. */
    ghost predicate Reconciled()
      requires Valid()
      reads this, resetPending, instances
    {
      && live == (if active then Some(index) else None)
      && !resetRequested
      && (active ==> index !in Owed())
    }

    constructor (count: nat, initial: nat)
      requires initial < count
      ensures Valid() && fresh(resetPending) && fresh(instances) && log == [] && !active && index == initial
      ensures this.count == count
    {
      this.count, index, live, active, resetRequested := count, initial, None, false, false;
      resetPending := new bool[count](_ => false);
      instances := new Callback[count](_ => Callback(false, false, false, 0));
      log := [];
      new;
      assert Owed() == UpTo(count);
    }

    /** A child is reset: its provider state starts over, its activity is kept. */
    method InstanceReset(i: nat)
      requires i < instances.Length
      modifies this`log, instances
      ensures instances[..] == old(instances[..])[i := old(instances[i]).(initialized := true, animating := false)]
      ensures log == old(log) + [ChildReset(i)]
    {
      instances[i] := instances[i].(initialized := true, animating := false);
      log := log + [ChildReset(i)];
    }

    method InstanceSetActive(i: nat, on: bool)
      requires i < instances.Length
      modifies this`log, instances
      ensures var c := old(instances[i]);
              var first := on && !c.initialized;
              if c.active == on then instances[..] == old(instances[..]) && log == old(log)
              else instances[..] == old(instances[..])[i := c.(initialized := c.initialized || first,
                                                              active := on, animating := false)] &&
                   log == old(log) + (if first then [ChildReset(i)] else []) +
                          [if on then ChildActivated(i) else ChildDeactivated(i)]
    {
      if instances[i].active == on {
        return;
      }
      if on && !instances[i].initialized {
        InstanceReset(i);
      }
      instances[i] := instances[i].(active := on, animating := false);
      log := log + [if on then ChildActivated(i) else ChildDeactivated(i)];
    }

    method Quiesce()
      requires Valid()
      modifies this`log, this`live, instances
      ensures Valid() && Owed() == old(Owed())
      ensures live == if old(live) == (if active then Some(index) else None) then old(live) else None
      ensures OnlyDeactivates(old(log), log)
      ensures active && live == Some(index) ==> instances[index] == old(instances[index])
    {
      var wanted := if active then Some(index) else None;
      if live != wanted && live.Some? {
        ghost var before := log;
        ObserveMore(count, before, ChildDeactivated(live.value));
        InstanceSetActive(live.value, false);
        assert before + [] == before;
        live := None;
        assert Owed() == old(Owed());
      }
    }

    method NoteRequest()
      requires Valid()
      modifies this`resetRequested, resetPending
      ensures Valid() && !resetRequested && Owed() == old(Owed())
    {
      if resetRequested {
        for i := 0 to count
          invariant resetRequested
          invariant forall j | 0 <= j < i :: resetPending[j]
        {
          resetPending[i] := true;
        }
        resetRequested := false;
        assert Owed() == old(Owed());
      }
    }

    /** Reset the wanted child if a request has been noted for it. */
    method Refresh()
      requires Valid() && !resetRequested
      modifies this`log, resetPending, instances
      ensures Valid() && !resetPending[index]
      ensures Owed() == old(Owed()) || Owed() == old(Owed()) - {index}
      ensures index in Owed() <==> !instances[index].initialized
      ensures OnlyLifecycle(old(log), log)
      ensures if old(resetPending[index])
              then !instances[index].animating && instances[index].active == old(instances[index].active)
              else instances[index] == old(instances[index])
    {
      if resetPending[index] {
        ghost var owed := Owed();
        ObserveMore(count, log, ChildReset(index));
        InstanceReset(index);
        resetPending[index] := false;
        assert forall i | 0 <= i < count :: Owes(i) == (i in owed && i != index);
        assert Owed() == owed - {index};
      }
    }

    /** Serve what the wanted child is owed, then activate it. */
    method Engage()
      requires Valid() && !resetRequested && active && (live == None || live == Some(index))
      requires live.Some? ==> instances[index].initialized
      modifies this`log, this`live, resetPending, instances
      ensures Valid() && Reconciled()
      ensures Owed() == old(Owed()) - {index}
      ensures OnlyLifecycle(old(log), log)
      ensures if old(live) == Some(index) && index !in old(Owed()) then instances[index] == old(instances[index])
              else !instances[index].animating
    {
      Refresh();
      Activate();
    }

    /** A child already active is left alone; the first activation of another resets it, later ones find it served. */
    method Activate()
      requires Valid() && !resetRequested && active && !resetPending[index]
      requires live == None || (live == Some(index) && instances[index].initialized)
      modifies this`log, this`live, instances
      ensures Valid() && live == Some(index)
      ensures Owed() == old(Owed()) - {index}
      ensures OnlyLifecycle(old(log), log)
      ensures if old(live).Some? then instances[index] == old(instances[index]) else !instances[index].animating
    {
      ghost var owed, were := Owed(), instances[..];
      if live.None? {
        ActivationObserved(count, log, owed, index);
      }
      InstanceSetActive(index, true);
      live := Some(index);
      assert forall i | 0 <= i < count && i != index :: instances[i] == were[i];
      assert instances[index].initialized && instances[index].active;
      assert forall i | 0 <= i < count :: Owes(i) == (i in owed && i != index);
      assert Owed() == owed - {index};
    }

    /** Bring the live child in line with activity, selection and pending resets. */
    method Reconcile()
      requires Valid()
      modifies this`log, this`live, this`resetRequested, resetPending, instances
      ensures Valid() && Reconciled()
      ensures Owed() == if active then old(Owed()) - {index} else old(Owed())
      ensures OnlyLifecycle(old(log), log) && (!active ==> OnlyDeactivates(old(log), log))
      ensures active ==> if old(live) == Some(index) && index !in old(Owed())
                         then instances[index] == old(instances[index])
                         else !instances[index].animating
    {
      Quiesce();
      NoteRequest();
      if active {
        Engage();
      }
    }

    /** Record a request; every child owes a reset before it is used again. */
    method AskReset()
      requires Valid()
      modifies this`resetRequested, this`log
      ensures Valid() && resetRequested && log == old(log) + [ResetRequested] && Owed() == UpTo(count)
    {
      ObserveMore(count, log, ResetRequested);
      resetRequested := true;
      log := log + [ResetRequested];
      assert Owed() == UpTo(count);
    }

    method Reset()
      requires Valid()
      modifies this`log, this`live, this`resetRequested, resetPending, instances
      ensures Valid() && Reconciled()
      ensures OnlyLifecycle(old(log) + [ResetRequested], log)
      ensures Owed() == if active then UpTo(count) - {index} else UpTo(count)
    {
      AskReset();
      Reconcile();
    }

    method SetActive(on: bool)
      requires Valid()
      modifies this`active, this`log, this`live, this`resetRequested, resetPending, instances
      ensures Valid() && Reconciled() && active == on
      ensures OnlyLifecycle(old(log), log) && (!on ==> OnlyDeactivates(old(log), log))
      ensures Owed() == if active then old(Owed()) - {index} else old(Owed())
    {
      active := on;
      Reconcile();
    }

    /** A command selects another child; nothing happens until the next callback. */
    method Select(slot: nat)
      requires Valid() && slot < count
      modifies this`index
      ensures Valid() && index == slot
    {
      index := slot;
    }

    method OnEvent() returns (delivered: Option<nat>)
      requires Valid()
      modifies this`log, this`live, this`resetRequested, resetPending, instances
      ensures Valid() && Reconciled()
      ensures delivered == if active then Some(index) else None
      ensures delivered.None? ==> OnlyLifecycle(old(log), log)
      ensures delivered.Some? ==>
                log != [] && log[|log| - 1] == ChildInput(index) && OnlyLifecycle(old(log), log[..|log| - 1])
    {
      Reconcile();
      delivered := live;
      if live.Some? && instances[live.value].active {
        ObserveMore(count, log, ChildInput(live.value));
        log := log + [ChildInput(live.value)];
      }
    }

    /** Render the live child with its own clock, restarted when the owner's is. */
    method Render(ownerElapsed: nat, now: int, stillAnimating: bool) returns (elapsed: Option<nat>)
      requires Valid()
      modifies this`log, this`live, this`resetRequested, resetPending, instances
      ensures Valid() && Reconciled()
      ensures elapsed.Some? <==> active
      ensures active ==> log != [] && log[|log| - 1] == ChildRendered(index, elapsed.value)
                         && OnlyLifecycle(old(log), log[..|log| - 1])
      ensures !active ==> OnlyDeactivates(old(log), log)
      ensures active ==>
                elapsed.value == if ownerElapsed != 0 && old(live) == Some(index) && index !in old(Owed())
                                 then Elapsed(old(instances[index]), now) else 0
      ensures active ==> instances[index].animating == stillAnimating && instances[index].lastRender == now
    {
      Reconcile();
      if live.None? {
        return None;
      }
      var i := live.value;
      if ownerElapsed == 0 {
        ghost var before := Owed();
        instances[i] := instances[i].(animating := false);
        assert Owed() == before;
      }
      ghost var owed := Owed();
      elapsed := Some(Elapsed(instances[i], now));
      ObserveMore(count, log, ChildRendered(i, elapsed.value));
      instances[i] := instances[i].(lastRender := now, animating := stillAnimating);
      log := log + [ChildRendered(i, elapsed.value)];
      assert Owed() == owed;
    }
  }

  /** Over an unbroken animation the intervals handed out add up to the time that passed. */
  lemma {:induction false} ElapsedTelescopes(c: Callback, times: seq<int>)
    requires c.animating && times != [] && c.lastRender <= times[0] <= c.lastRender + UINT32_MAX
    requires forall k | 0 < k < |times| :: times[k - 1] <= times[k] <= times[k - 1] + UINT32_MAX
    ensures TotalElapsed(c, times) == times[|times| - 1] - c.lastRender
    decreases |times|
  {
    if |times| > 1 {
      var rest := times[1..];
      forall k | 0 < k < |rest|
        ensures rest[k - 1] <= rest[k] <= rest[k - 1] + UINT32_MAX
      {
        assert rest[k] == times[k + 1] && rest[k - 1] == times[k + 1 - 1];
      }
      ElapsedTelescopes(c.(lastRender := times[0]), rest);
    }
  }

  function TotalElapsed(c: Callback, times: seq<int>): nat
    decreases |times|
  {
    if times == [] then 0
    else Elapsed(c, times[0]) + TotalElapsed(c.(lastRender := times[0]), times[1..])
  }
}
