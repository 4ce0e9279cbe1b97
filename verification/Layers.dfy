/** A controllable overlay inside the scene: how a runtime reset reaches the child that is used next. */
module Layers {
  import opened Options
  import ScenePass
  import SelectorLifecycle

  type Call = ScenePass.Call
  type Event = SelectorLifecycle.Event

  /** One history of both: what the scene calls, and what overlay `i` does to its children in response. */
  datatype Mark = Called(call: Call) | Felt(event: Event)

  function CallOf(m: Mark): Option<Call> {
    if m.Called? then Some(m.call) else None
  }

  function EventOf(m: Mark): Option<Event> {
    if m.Felt? then Some(m.event) else None
  }

  // ----- Projections -----

  function Picked<T>(h: seq<Mark>, pick: Mark -> Option<T>): seq<T> {
    if h == [] then []
    else
      var before, last := Picked(h[..|h| - 1], pick), pick(h[|h| - 1]);
      if last.Some? then before + [last.value] else before
  }

  /** Where an entry of the whole history stands in a projection. */
  lemma {:induction false} PickedAt<T>(h: seq<Mark>, pick: Mark -> Option<T>, k: nat)
    requires k < |h|
    ensures Picked(h[..k], pick) <= Picked(h, pick)
    ensures pick(h[k]).Some? ==>
              |Picked(h[..k], pick)| < |Picked(h, pick)| &&
              Picked(h, pick)[|Picked(h[..k], pick)|] == pick(h[k]).value
    decreases |h|
  {
    var shorter := h[..|h| - 1];
    if k < |shorter| {
      PickedAt(shorter, pick, k);
      assert shorter[..k] == h[..k];
    } else {
      assert shorter == h[..k];
    }
  }

  /** Where an entry of a projection stands in the whole history. */
  lemma {:induction false} PickedFrom<T>(h: seq<Mark>, pick: Mark -> Option<T>, x: nat) returns (k: nat)
    requires x < |Picked(h, pick)|
    ensures k < |h| && |Picked(h[..k], pick)| == x && pick(h[k]) == Some(Picked(h, pick)[x])
    decreases |h|
  {
    var shorter := h[..|h| - 1];
    if x < |Picked(shorter, pick)| {
      k := PickedFrom(shorter, pick, x);
      assert shorter[..k] == h[..k];
    } else {
      k := |h| - 1;
      assert h[..k] == shorter;
    }
  }

  /** Projections keep the order. */
  lemma PickedOrder<T>(h: seq<Mark>, pick: Mark -> Option<T>, j: nat, k: nat)
    requires j < k <= |h| && pick(h[j]).Some?
    ensures |Picked(h[..j], pick)| < |Picked(h[..k], pick)|
  {
    PickedAt(h[..k], pick, j);
    assert h[..k][..j] == h[..j];
  }

  // ----- The composition -----

  /** A child is switched on, fed or painted. */
  predicate Uses(e: Event, child: nat) {
    e == SelectorLifecycle.ChildActivated(child) || e == SelectorLifecycle.ChildInput(child) ||
    (e.ChildRendered? && e.child == child)
  }

  /** Calls in the course of which overlay `i` may use a child. */
  predicate Enters(c: Call, i: nat) {
    c in {ScenePass.Reset(i), ScenePass.Activate(i), ScenePass.Feed(i), ScenePass.Paint(i)}
  }

  /** Mark `k` happens in the course of the call at `j`. */
  predicate During(h: seq<Mark>, j: nat, k: nat) {
    j < k < |h| && h[j].Called? && forall m | j < m <= k :: h[m].Felt?
  }

  /** A reset of the overlay asks for a reset of every child first, and children are used only in the course of the
      overlay's own calls. */
  ghost predicate Wired(h: seq<Mark>, i: nat) {
    && (forall k :: 0 <= k < |h| && h[k] == Called(ScenePass.Reset(i)) ==>
          k + 1 < |h| && h[k + 1] == Felt(SelectorLifecycle.ResetRequested))
    && (forall k, child :: 0 <= k < |h| && h[k].Felt? && Uses(h[k].event, child) ==>
          exists j: nat :: During(h, j, k) && Enters(h[j].call, i))
  }

  /** A child in use was reset after boot and after the latest request. */
  lemma ChildUseFollowsReset(count: nat, log: seq<Event>, x: nat, child: nat)
    requires SelectorLifecycle.Honoured(count, log) && x < |log| && child < count && Uses(log[x], child)
    ensures exists j :: 0 <= j < x && log[j] == SelectorLifecycle.ChildReset(child) &&
              forall m | j < m < x :: log[m] != SelectorLifecycle.ResetRequested
  {
    SelectorLifecycle.HonouredPrefix(count, log, x + 1);
    SelectorLifecycle.HonouredPrefix(count, log, x);
    assert log[..x + 1][..x] == log[..x];
    SelectorLifecycle.OwedMeaning(count, log[..x], child);
    var j: nat :| SelectorLifecycle.SinceRequest(log[..x], j) && log[..x][j] == SelectorLifecycle.ChildReset(child);
    assert forall m | j < m < x :: log[m] == log[..x][m];
  }

  /** After a runtime reset the overlay is reset before any of its calls can use a child. */
  lemma OverlayResetComes(h: seq<Mark>, i: nat, r: nat, j: nat) returns (a: nat)
    requires !ScenePass.Follow(Picked(h, CallOf), i).Broken?
    requires r < j < |h| && h[r] == Called(ScenePass.ResetRequested) && h[j].Called? && Enters(h[j].call, i)
    ensures r < a <= j && h[a] == Called(ScenePass.Reset(i))
  {
    if h[j].call == ScenePass.Reset(i) {
      return j;
    }
    var calls := Picked(h, CallOf);
    PickedAt(h, CallOf, j);
    PickedAt(h, CallOf, r);
    PickedOrder(h, CallOf, r, j);
    var at, request := |Picked(h[..j], CallOf)|, |Picked(h[..r], CallOf)|;
    ScenePass.UseFollowsReset(calls, i, at);
    var x :| 0 <= x < at && calls[x] == ScenePass.Reset(i) &&
             forall m | x < m < at :: calls[m] != ScenePass.ResetRequested;
    assert request < x;
    a := PickedFrom(h, CallOf, x);
    if a < r {
      PickedOrder(h, CallOf, a, r);
    }
    if j < a {
      PickedOrder(h, CallOf, j, a);
    }
  }

  /** A runtime reset reaches the children: between the request to the scene and the next use of any child of a
      controllable overlay, that child is reset. */
  lemma {:induction false} RuntimeResetReachesTheChild(h: seq<Mark>, i: nat, count: nat, r: nat, k: nat, child: nat)
    requires !ScenePass.Follow(Picked(h, CallOf), i).Broken?
    requires SelectorLifecycle.Honoured(count, Picked(h, EventOf)) && Wired(h, i) && child < count
    requires r < k < |h| && h[r] == Called(ScenePass.ResetRequested) && h[k].Felt? && Uses(h[k].event, child)
    ensures exists q :: r < q < k && h[q] == Felt(SelectorLifecycle.ChildReset(child))
  {
    var j: nat :| During(h, j, k) && Enters(h[j].call, i);
    assert r < j;
    var a := OverlayResetComes(h, i, r, j);
    var q := ChildResetComes(h, count, a + 1, k, child);
  }

  lemma ChildResetComes(h: seq<Mark>, count: nat, a: nat, k: nat, child: nat) returns (q: nat)
    requires SelectorLifecycle.Honoured(count, Picked(h, EventOf)) && child < count
    requires a <= k < |h| && h[a] == Felt(SelectorLifecycle.ResetRequested) && h[k].Felt? && Uses(h[k].event, child)
    ensures a < q < k && h[q] == Felt(SelectorLifecycle.ChildReset(child))
  {
    var log := Picked(h, EventOf);
    PickedAt(h, EventOf, k);
    PickedAt(h, EventOf, a);
    PickedOrder(h, EventOf, a, k);
    var at, request := |Picked(h[..k], EventOf)|, |Picked(h[..a], EventOf)|;
    ChildUseFollowsReset(count, log, at, child);
    var x :| 0 <= x < at && log[x] == SelectorLifecycle.ChildReset(child) &&
             forall m | x < m < at :: log[m] != SelectorLifecycle.ResetRequested;
    assert request < x;
    q := PickedFrom(h, EventOf, x);
    if q < a {
      PickedOrder(h, EventOf, q, a);
    }
    if k < q {
      PickedOrder(h, EventOf, k, q);
    }
  }
}
