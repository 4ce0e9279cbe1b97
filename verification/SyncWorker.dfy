/** The replay worker's bookkeeping: connection polling, repair consumption, slot rotation
    and the next wake-up. */
module SyncWorker {
  import Arith
  import opened Commands
  import opened Options
  import opened SyncWalk

  const PACE_MS := 50
  const RETRY_MS := 1000

  // ----- What each event does to one source -----

  function PollSource(changed: bool, present: bool, now: int, settle: nat, src: Source): Source {
    var s := if changed then ResetCursor(src.(seen := false, pending := false, clockDue := 0)) else src;
    if present && !s.seen then
      ResetCursor(s.(seen := true, pending := true, readyAt := now + settle, clockDue := now + settle))
    else if !present && s.seen then ResetCursor(s.(seen := false, pending := false, clockDue := 0))
    else s
  }

  function ConsumeSource(now: int, src: Source): Source {
    if src.seen && !src.pending then ResetCursor(src.(pending := true, readyAt := Arith.Max(src.readyAt, now))) else src
  }

  function CaptureSource(src: Source, generation: nat): Source {
    if src.captured then src else src.(captured := true, generation := generation)
  }

  function FailedSource(src: Source, returned: int): Source {
    src.(readyAt := returned + RETRY_MS)
  }

  function SentSource(cfg: Config, src: Source, returned: int): Source
    requires ValidConfig(cfg) && ValidCursor(cfg, src.cursor)
  {
    Advance(cfg, src).(readyAt := returned)
  }

  function RestartSource(src: Source, returned: int): Source {
    ResetCursor(src.(pending := true, readyAt := returned))
  }

  /** A source whose peripheral has just been found, or found again after a change of transport, waits `settle` before
    * anything is sent to it and then starts a whole walk; one that is gone has nothing due. Others are left alone. */
  lemma PolledSource(changed: bool, present: bool, now: int, settle: nat, src: Source)
    ensures var s := PollSource(changed, present, now, settle, src);
            && s.seen == present
            && (present && (changed || !src.seen) ==>
                  s.pending && !s.captured && s.cursor == Start && s.readyAt == now + settle == s.clockDue)
            && (!present && (changed || src.seen) ==> !s.pending && !s.captured && s.cursor == Start && s.clockDue == 0)
            && (present == src.seen && !changed ==> s == src)
  {
  }

  /** An observed source with nothing to do starts a whole walk, no sooner than it was ready and not before now; one
    * whose walk is under way goes on with it. */
  lemma ConsumedSource(now: int, src: Source)
    ensures var s := ConsumeSource(now, src);
            && s.seen == src.seen && s.clockDue == src.clockDue
            && (src.seen && !src.pending ==>
                  s.pending && !s.captured && s.cursor == Start && s.readyAt >= now && s.readyAt >= src.readyAt &&
                  (s.readyAt == now || s.readyAt == src.readyAt))
            && (!src.seen || src.pending ==> s == src)
  {
  }

  /** What an attempt at a state item leaves: a failed one is repeated with the same item a second later; an accepted
    * one moves on at once, and a finished walk starts over unless nothing was published, outstanding or owed since it
    * captured its generation. */
  function Attempted(cfg: Config, src: Source, before: Status, err: int, returned: int, after: Status, consumed: nat):
    Source
    requires ValidConfig(cfg) && ValidCursor(cfg, src.cursor)
  {
    var bound := CaptureSource(src, before.generation);
    var sent := SentSource(cfg, bound, returned);
    if err < 0 then FailedSource(bound, returned)
    else if !sent.pending && !Accepts(sent, after, consumed) then RestartSource(sent, returned)
    else sent
  }

  lemma AttemptedSource(cfg: Config, src: Source, before: Status, err: int, returned: int, after: Status, consumed: nat)
    requires ValidConfig(cfg) && src.pending && ValidCursor(cfg, src.cursor)
    ensures var s := Attempted(cfg, src, before, err, returned, after, consumed);
            var started := if src.captured then src.generation else before.generation;
            var last := Position(cfg, CursorItem(cfg, src.cursor)) + 1 == Total(cfg);
            && s.seen == src.seen && s.clockDue == src.clockDue
            && (err < 0 ==> s.pending && s.captured && s.cursor == src.cursor && s.generation == started
                            && s.readyAt == returned + 1000)
            && (err >= 0 ==> s.readyAt == returned)
            && (err >= 0 && !last ==>
                  && s.pending && s.captured && s.generation == started && ValidCursor(cfg, s.cursor)
                  && Position(cfg, CursorItem(cfg, s.cursor)) == Position(cfg, CursorItem(cfg, src.cursor)) + 1)
            && (err >= 0 && last ==>
                  && !s.captured
                  && (!s.pending <==>
                        started == after.generation && after.outstanding == 0 && consumed == after.repairEpoch)
                  && (s.pending ==> s.cursor == Start))
  {
    AdvanceMovesOn(cfg, CaptureSource(src, before.generation));
  }

  datatype Status = Status(generation: nat, outstanding: nat, repairEpoch: nat)

  predicate Accepts(src: Source, status: Status, consumed: nat) {
    status.generation == src.generation && status.outstanding == 0 && consumed == status.repairEpoch
  }

  // ----- Slots: an even slot is a source's state send, the odd one its clock -----

  predicate StateDue(src: Source, nextStateAt: int, now: int) {
    src.seen && src.clockDue != 0 && src.pending && now >= src.readyAt && now >= nextStateAt
  }

  predicate ClockIsDue(src: Source, now: int) {
    src.seen && src.clockDue != 0 && now >= src.clockDue
  }

  predicate SlotDue(sources: seq<Source>, nextStateAt: int, slot: nat, now: int)
    requires slot < 2 * |sources|
  {
    if slot % 2 == 1 then ClockIsDue(sources[slot / 2], now) else StateDue(sources[slot / 2], nextStateAt, now)
  }

  /** What the parity of a slot means, in the fields of its source. */
  lemma SlotMeaning(sources: seq<Source>, nextStateAt: int, i: nat, now: int)
    requires i < |sources|
    ensures SlotDue(sources, nextStateAt, 2 * i, now) <==>
            sources[i].seen && sources[i].clockDue != 0 && sources[i].pending && now >= sources[i].readyAt &&
            now >= nextStateAt
    ensures SlotDue(sources, nextStateAt, 2 * i + 1, now) <==>
            sources[i].seen && sources[i].clockDue != 0 && now >= sources[i].clockDue
  {
  }

  lemma NothingDue(sources: seq<Source>, nextStateAt: int, now: int)
    requires forall k :: 0 <= k < 2 * |sources| ==> !SlotDue(sources, nextStateAt, k, now)
    ensures forall i :: 0 <= i < |sources| && sources[i].seen && sources[i].clockDue > 0 ==>
              now < sources[i].clockDue && (sources[i].pending ==> now < sources[i].readyAt || now < nextStateAt)
  {
    forall i | 0 <= i < |sources| && sources[i].seen && sources[i].clockDue > 0
      ensures now < sources[i].clockDue && (sources[i].pending ==> now < sources[i].readyAt || now < nextStateAt)
    {
      SlotMeaning(sources, nextStateAt, i, now);
    }
  }

  ghost predicate AnyDue(sources: seq<Source>, nextStateAt: int, now: int) {
    exists k :: 0 <= k < 2 * |sources| && SlotDue(sources, nextStateAt, k, now)
  }

  /** How far `slot` is ahead of the rotation cursor. */
  function Ahead(n: nat, cursor: nat, slot: nat): nat
    requires cursor < n && slot < n
  {
    if slot >= cursor then slot - cursor else slot + n - cursor
  }

  /** The first due slot at or after the cursor, around the ring. */
  ghost predicate FirstDue(n: nat, cursor: nat, due: set<nat>, slot: nat)
    requires cursor < n
  {
    slot < n && slot in due &&
    forall other | other in due && other < n :: Ahead(n, cursor, slot) <= Ahead(n, cursor, other)
  }

  /** The slot `k` places after the cursor. */
  function RingAt(n: nat, cursor: nat, k: nat): (slot: nat)
    requires cursor < n && k < n
    ensures slot < n && Ahead(n, cursor, slot) == k
  {
    RingMod(n, cursor, k);
    (cursor + k) % n
  }

  lemma RingMod(n: nat, cursor: nat, k: nat)
    requires cursor < n && k <= n
    ensures (cursor + k) % n == if cursor + k < n then cursor + k else cursor + k - n
  {
    if cursor + k >= n {
      Arith.DivModUnique(cursor + k, 1, cursor + k - n, n);
    } else {
      Arith.DivModUnique(cursor + k, 0, cursor + k, n);
    }
  }

  lemma AheadInjective(n: nat, cursor: nat, a: nat, b: nat)
    requires cursor < n && a < n && b < n && Ahead(n, cursor, a) == Ahead(n, cursor, b)
    ensures a == b
  {
  }

  function NextCursor(n: nat, slot: nat): (next: nat)
    requires slot < n
    ensures next < n
  {
    (slot + 1) % n
  }

  /** Serving something else first brings the cursor strictly closer. */
  lemma PassGetsCloser(n: nat, cursor: nat, served: nat, slot: nat)
    requires cursor < n && served < n && slot < n && served != slot
    requires Ahead(n, cursor, served) <= Ahead(n, cursor, slot)
    ensures Ahead(n, NextCursor(n, served), slot) < Ahead(n, cursor, slot)
  {
    RingMod(n, served, 1);
  }

  /** A run of passes: which slots were due at each, and which one each served. */
  ghost predicate Rotation(n: nat, cursor: nat, dues: seq<set<nat>>, served: seq<nat>)
    requires cursor < n
    decreases |dues|
  {
    |served| == |dues| &&
    (dues != [] ==>
       FirstDue(n, cursor, dues[0], served[0]) &&
       Rotation(n, NextCursor(n, served[0]), dues[1..], served[1..]))
  }

  /** A slot that stays due is served within one full rotation, whatever else is due. */
  lemma {:induction false} ServedWithinRotation(n: nat, cursor: nat, dues: seq<set<nat>>, served: seq<nat>, slot: nat)
    requires cursor < n && slot < n && Rotation(n, cursor, dues, served)
    requires forall k | 0 <= k < |dues| :: slot in dues[k]
    requires |dues| > Ahead(n, cursor, slot)
    ensures exists k :: 0 <= k <= Ahead(n, cursor, slot) && served[k] == slot
    decreases |dues|
  {
    if served[0] != slot {
      assert slot in dues[0];
      var next := NextCursor(n, served[0]);
      PassGetsCloser(n, cursor, served[0], slot);
      forall k | 0 <= k < |dues[1..]|
        ensures slot in dues[1..][k]
      {
        assert dues[1..][k] == dues[k + 1];
      }
      ServedWithinRotation(n, next, dues[1..], served[1..], slot);
      var k :| 0 <= k <= Ahead(n, next, slot) && served[1..][k] == slot;
      assert served[k + 1] == slot;
    }
  }

  /** The passes at which `slot` was due ... */
  function DuePasses(dues: seq<set<nat>>, slot: nat): nat {
    if dues == [] then 0 else (if slot in dues[0] then 1 else 0) + DuePasses(dues[1..], slot)
  }

  /** ... those at which it was held back while another was served ... */
  function HeldBack(dues: seq<set<nat>>, slot: nat): nat {
    if dues == [] then 0 else (if slot in dues[0] then 0 else 1) + HeldBack(dues[1..], slot)
  }

  /** ... and those that served it. */
  function Times(served: seq<nat>, slot: nat): nat {
    if served == [] then 0 else (if served[0] == slot then 1 else 0) + Times(served[1..], slot)
  }

  /** `passes` taken `k` times. */
  function Fold(passes: nat, k: nat): nat {
    if k == 0 then 0 else passes + Fold(passes, k - 1)
  }

  lemma {:induction false} FoldIsProduct(passes: nat, k: nat)
    ensures Fold(passes, k) == passes * k
  {
    if k > 0 {
      FoldIsProduct(passes, k - 1);
      assert passes * k == passes * (k - 1) + passes;
    }
  }

  lemma {:induction false} FoldGrows(passes: nat, less: nat, more: nat)
    requires less < more
    ensures Fold(passes, less) + passes <= Fold(passes, more)
  {
    if less + 1 < more {
      FoldGrows(passes, less, more - 1);
    }
  }

  /** However its due times come and go, a slot is served once in every full rotation's worth of passes at which it is
    * due, after one rotation for every pass that held it back. */
  lemma {:induction false} ServedInProportion(n: nat, cursor: nat, dues: seq<set<nat>>, served: seq<nat>, slot: nat)
    requires cursor < n && slot < n && Rotation(n, cursor, dues, served)
    ensures DuePasses(dues, slot)
         <= Ahead(n, cursor, slot) + Fold(n - 1, HeldBack(dues, slot)) + Fold(n, Times(served, slot))
    decreases |dues|
  {
    if dues != [] {
      var next := NextCursor(n, served[0]);
      ServedInProportion(n, next, dues[1..], served[1..], slot);
      if slot in dues[0] && served[0] != slot {
        PassGetsCloser(n, cursor, served[0], slot);
      }
    }
  }

  // ----- The worker in place -----

  class Worker {
    const settle: nat
    const clockPeriod: nat
    var sources: seq<Source>
    var transport: Option<nat>
    var cursor: nat
    var consumed: nat
    var nextStateAt: int
    var pollDue: int

    ghost predicate Valid()
      reads this
    {
      && settle > 0 && clockPeriod > 0
      && |sources| > 0 && cursor < 2 * |sources|
      && forall i | 0 <= i < |sources| && sources[i].seen :: sources[i].clockDue > 0
    }

    constructor (count: nat, settle: nat, clockPeriod: nat, firstPoll: int)
      requires count > 0 && settle > 0 && clockPeriod > 0
      ensures Valid() && this.settle == settle && this.clockPeriod == clockPeriod && pollDue == firstPoll
      ensures transport == None && consumed == 0 && cursor == 0 && nextStateAt == 0
      ensures sources == seq(count, _ => Source(false, false, false, Start, 0, 0, 0))
    {
      this.settle, this.clockPeriod := settle, clockPeriod;
      sources := seq(count, _ => Source(false, false, false, Start, 0, 0, 0));
      transport, cursor, consumed, nextStateAt, pollDue := None, 0, 0, 0, firstPoll;
    }

    /** `reported` is empty when there is no transport or its query failed. */
    method Poll(now: int, transport: Option<nat>, reported: seq<nat>)
      requires Valid() && now >= 0
      modifies this`sources, this`transport
      ensures Valid() && this.transport == transport
      ensures |sources| == |old(sources)|
      ensures forall i | 0 <= i < |sources| ::
                sources[i] == PollSource(transport != old(this.transport), transport.Some? && i in reported,
                                         now, settle, old(sources)[i])
    {
      var changed := transport != this.transport;
      ghost var start := sources;
      if changed {
        this.transport := transport;
        for i := 0 to |sources|
          invariant this.transport == transport && |sources| == |start|
          invariant forall j | i <= j < |sources| :: sources[j] == start[j]
          invariant forall j | 0 <= j < i ::
                      sources[j] == ResetCursor(start[j].(seen := false, pending := false, clockDue := 0))
        {
          sources := sources[i := ResetCursor(sources[i].(seen := false, pending := false, clockDue := 0))];
        }
      }
      ghost var settled := sources;
      for i := 0 to |sources|
        invariant this.transport == transport && |sources| == |settled|
        invariant forall j | i <= j < |sources| :: sources[j] == settled[j]
        invariant forall j | 0 <= j < i ::
                    sources[j] == PollSource(changed, transport.Some? && j in reported, now, settle, start[j])
      {
        var src := sources[i];
        var present := transport.Some? && i in reported;
        if present && !src.seen {
          sources := sources[i := ResetCursor(src.(seen := true, pending := true,
                                                   readyAt := now + settle, clockDue := now + settle))];
        } else if !present && src.seen {
          sources := sources[i := ResetCursor(src.(seen := false, pending := false, clockDue := 0))];
        }
      }
    }

    /** After an unconsumed repair every observed source is pending; none is left behind. */
    method ConsumeRepair(started: bool, status: Status, now: int)
      requires Valid()
      modifies this`sources, this`consumed
      ensures Valid()
      ensures |sources| == |old(sources)|
      ensures var consume := started && status.repairEpoch != old(consumed);
              && consumed == (if consume then status.repairEpoch else old(consumed))
              && (forall i | 0 <= i < |sources| ::
                    sources[i] == if consume then ConsumeSource(now, old(sources)[i]) else old(sources)[i])
              && (consume ==> forall i | 0 <= i < |sources| && sources[i].seen :: sources[i].pending)
    {
      if started && status.repairEpoch != consumed {
        consumed := status.repairEpoch;
        ghost var start := sources;
        for i := 0 to |sources|
          invariant consumed == status.repairEpoch && |sources| == |start|
          invariant forall j | i <= j < |sources| :: sources[j] == start[j]
          invariant forall j | 0 <= j < i :: sources[j] == ConsumeSource(now, start[j])
        {
          var src := sources[i];
          if src.seen && !src.pending {
            sources := sources[i := ResetCursor(src.(pending := true, readyAt := Arith.Max(src.readyAt, now)))];
          }
        }
      }
    }

    /** `kp_rgb_sync_attempt_state`: `before` is the ledger when the item was bound, `err` what the transport
      * returned at `returned`, and `after` the ledger when a finished walk is judged. */
    method AttemptState(cfg: Config, i: nat, before: Status, err: int, returned: int, after: Status)
      requires Valid() && ValidConfig(cfg) && i < |sources| && ValidCursor(cfg, sources[i].cursor)
      modifies this`sources, this`nextStateAt
      ensures Valid()
      ensures sources == old(sources)[i := Attempted(cfg, old(sources)[i], before, err, returned, after, consumed)]
      ensures nextStateAt == if err < 0 then old(nextStateAt) else returned + 50
    {
      var src := sources[i];
      if !src.captured {
        src := src.(generation := before.generation, captured := true);
      }
      if err < 0 {
        sources := sources[i := src.(readyAt := returned + RETRY_MS)];
        return;
      }
      src := Advance(cfg, src).(readyAt := returned);
      nextStateAt := returned + PACE_MS;
      if !src.pending {
        var complete := after.generation == src.generation && after.outstanding == 0 && consumed == after.repairEpoch;
        if !complete {
          src := ResetCursor(src.(pending := true)).(readyAt := returned);
        }
      }
      sources := sources[i := src];
    }

    /** `kp_rgb_sync_attempt_clock`: the next correction is due a period after this one returned, failed or not. */
    method AttemptClock(i: nat, returned: int)
      requires Valid() && i < |sources| && returned >= 0
      modifies this`sources
      ensures Valid() && sources == old(sources)[i := old(sources)[i].(clockDue := returned + clockPeriod)]
    {
      sources := sources[i := sources[i].(clockDue := returned + clockPeriod)];
    }

    /** Chooses the slot for this pass and moves the rotation cursor past it. */
    method TakeSlot(now: int) returns (slot: Option<nat>)
      requires Valid()
      modifies this`cursor
      ensures Valid()
      ensures var due := set k | 0 <= k < 2 * |sources| && SlotDue(sources, nextStateAt, k, now);
              match slot
              case None => due == {} && cursor == old(cursor)
              case Some(k) => FirstDue(2 * |sources|, old(cursor), due, k) && cursor == NextCursor(2 * |sources|, k)
      ensures slot.Some? ==>
                && slot.value < 2 * |sources|
                && var src := sources[slot.value / 2];
                   if slot.value % 2 == 0 then src.seen && src.pending && now >= src.readyAt && now >= nextStateAt
                   else src.seen && now >= src.clockDue > 0
      ensures slot.None? ==> forall i :: 0 <= i < |sources| && sources[i].seen ==>
                now < sources[i].clockDue &&
                (sources[i].pending ==> now < sources[i].readyAt || now < nextStateAt)
    {
      var slots := 2 * |sources|;
      ghost var due := set k | 0 <= k < slots && SlotDue(sources, nextStateAt, k, now);
      for n := 0 to slots
        invariant cursor == old(cursor)
        invariant forall k | k in due :: Ahead(slots, cursor, k) >= n
      {
        var k := RingAt(slots, cursor, n);
        if SlotDue(sources, nextStateAt, k, now) {
          cursor := NextCursor(slots, k);
          assert k == 2 * (k / 2) || k == 2 * (k / 2) + 1;
          SlotMeaning(sources, nextStateAt, k / 2, now);
          return Some(k);
        }
        forall j | j in due
          ensures Ahead(slots, cursor, j) >= n + 1
        {
          if Ahead(slots, cursor, j) == n {
            AheadInjective(slots, cursor, j, k);
          }
        }
      }
      assert forall k | 0 <= k < slots :: Ahead(slots, cursor, k) < slots;
      assert due == {};
      assert forall k | 0 <= k < slots :: SlotDue(sources, nextStateAt, k, now) ==> k in due;
      NothingDue(sources, nextStateAt, now);
      return None;
    }

    /** One pass of `kp_rgb_sync_handler` over the slots: at most one send, the first due after the last one served. An
      * even slot is its source's next state item, an odd one its clock correction. */
    method ServeOne(cfg: Config, now: int, before: Status, err: int, returned: int, after: Status)
      returns (served: Option<nat>)
      requires Valid() && ValidConfig(cfg) && returned >= 0
      requires forall i :: 0 <= i < |sources| && sources[i].pending ==> ValidCursor(cfg, sources[i].cursor)
      modifies this`cursor, this`sources, this`nextStateAt
      ensures Valid() && (served.Some? ==> served.value < 2 * |old(sources)|)
      ensures served.None? ==> sources == old(sources) && nextStateAt == old(nextStateAt)
      ensures served.None? ==> forall i :: 0 <= i < |sources| && sources[i].seen ==>
                now < sources[i].clockDue &&
                (sources[i].pending ==> now < sources[i].readyAt || now < nextStateAt)
      ensures served.Some? && served.value % 2 == 0 ==>
                var i := served.value / 2;
                var src := old(sources)[i];
                && src.seen && src.pending && now >= src.readyAt && now >= old(nextStateAt)
                && ValidCursor(cfg, src.cursor)
                && sources == old(sources)[i := Attempted(cfg, src, before, err, returned, after, consumed)]
                && nextStateAt == if err < 0 then old(nextStateAt) else returned + 50
      ensures served.Some? && served.value % 2 == 1 ==>
                var i := served.value / 2;
                var src := old(sources)[i];
                && src.seen && now >= src.clockDue > 0
                && sources == old(sources)[i := src.(clockDue := returned + clockPeriod)]
                && nextStateAt == old(nextStateAt)
    {
      served := TakeSlot(now);
      if served.Some? {
        var i := served.value / 2;
        if served.value % 2 == 1 {
          AttemptClock(i, returned);
        } else {
          AttemptState(cfg, i, before, err, returned, after);
        }
      }
    }

    /** The delay until the next thing to do: nothing is due strictly earlier, and something is
        due then. */
    method NextDeadline(now: int, started: bool) returns (delay: nat)
      requires Valid()
      ensures delay > 0 ==> now + delay <= pollDue
      ensures started ==> forall t | now <= t < now + delay :: !AnyDue(sources, nextStateAt, t)
      ensures pollDue <= now + delay || (started && AnyDue(sources, nextStateAt, now + delay))
      ensures started ==> forall i :: 0 <= i < |sources| && sources[i].seen ==>
                delay == 0 || (now + delay <= sources[i].clockDue &&
                               (sources[i].pending ==>
                                  now + delay <= sources[i].readyAt || now + delay <= nextStateAt))
    {
      var next := pollDue;
      ghost var cause: nat := 0;
      for i := 0 to |sources|
        invariant next <= pollDue
        invariant started ==> forall j | 0 <= j < i && sources[j].seen ::
                      next <= sources[j].clockDue &&
                      (sources[j].pending ==> next <= Arith.Max(sources[j].readyAt, nextStateAt))
        invariant next == pollDue || (started && cause < 2 * i && Wakes(sources, nextStateAt, cause, next))
      {
        var src := sources[i];
        if src.seen && started {
          if src.clockDue > 0 && src.clockDue < next {
            next, cause := src.clockDue, 2 * i + 1;
          }
          if src.pending {
            var stateDue := Arith.Max(src.readyAt, nextStateAt);
            if stateDue < next {
              next, cause := stateDue, 2 * i;
            }
          }
        }
      }
      delay := Arith.Max(next - now, 0);
      if next != pollDue {
        var wake := now + delay;
        assert SlotDue(sources, nextStateAt, cause, wake);
      }
    }
  }

  /** From `at` on, the slot is due. */
  ghost predicate Wakes(sources: seq<Source>, nextStateAt: int, slot: nat, at: int) {
    slot < 2 * |sources| && forall t | t >= at :: SlotDue(sources, nextStateAt, slot, t)
  }
}
