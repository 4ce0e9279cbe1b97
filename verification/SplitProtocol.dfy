/** The split replication protocol as a state machine: one central, one FIFO link and one
    replica per peripheral, and every interleaving of local changes, forwarded invocations,
    replay sends, failures, polls and outages.

    A critical section under the matrix mutex or the replication spinlock is one step. The
    replay worker's attempt is three: bind under the mutex, send unlocked, judge under the
    mutex. Anything else may happen in between.
  */
module SplitProtocol {
  import opened Commands
  import opened Items
  import opened Publication
  import opened Replication
  import opened SyncWalk
  import opened SyncWorker

  /** Messages accepted for delivery, oldest first, and the peripheral's own state. */
  datatype Link = Link(channel: seq<Message>, replica: State)

  /** Where the replay worker is in its current attempt. */
  datatype Flight = Resting | Bound(target: nat, message: Message) | Returned(target: nat)

  datatype System = System(
    central: Central,
    ledger: Ledger,
    live: set<nat>,           // marked bindings whose callback has not finished
    sources: seq<Source>,
    consumed: nat,
    flight: Flight,
    links: seq<Link>,
    unnoticed: set<nat>)      // observed peripherals lost or restarted since their walk began, behind the polls' back

  datatype Action =
    | Change(op: Op)
    | BeginInvocation(id: nat)
    | Forward(id: nat, i: nat, message: Message, accepted: bool)
    | FinishInvocation(id: nat, negative: bool)
    | Deliver(i: nat)
    | PollSources(changed: bool, present: seq<bool>, now: int, settle: nat)
    | ConsumeRepair(now: int)
    | BindNext(i: nat)
    | SendFailed(arrived: bool, now: int)
    | SendAccepted(now: int)
    | Judge(now: int)
    | SendClock(i: nat, time: u32, accepted: bool)
    | Outage(i: nat, replica: State)

  /** The replica once everything accepted for it has arrived. */
  function Drained(cfg: Config, link: Link): (st: State)
    requires ValidConfig(cfg) && ValidState(cfg, link.replica)
    ensures ValidState(cfg, st)
    decreases |link.channel|
  {
    if link.channel == [] then link.replica
    else
      var last := |link.channel| - 1;
      var st := Drained(cfg, Link(link.channel[..last], link.replica));
      ApplyValid(cfg, st, link.channel[last]);
      Apply(cfg, st, link.channel[last])
  }

  function Enqueue(link: Link, m: Message, accepted: bool): Link {
    if accepted then link.(channel := link.channel + [m]) else link
  }

  predicate Enabled(cfg: Config, s: System, a: Action) {
    match a
    case Change(op) => ValidOp(cfg, op)
    case BeginInvocation(id) => id !in s.live
    case Forward(id, i, _, _) => id in s.live && i < |s.links|
    case FinishInvocation(id, _) => id in s.live
    case Deliver(i) => i < |s.links| && s.links[i].channel != []
    case PollSources(_, present, _, _) => s.flight == Resting && |present| == |s.sources|
    case ConsumeRepair(_) => s.flight == Resting
    case BindNext(i) => s.flight == Resting && i < |s.sources| && s.sources[i].seen && s.sources[i].pending
    case SendFailed(_, _) => s.flight.Bound?
    case SendAccepted(_) => s.flight.Bound?
    case Judge(_) => s.flight.Returned?
    case SendClock(i, _, _) => s.flight == Resting && i < |s.links|
    case Outage(i, replica) => i < |s.links| && i < |s.sources| && ValidState(cfg, replica)
  }

  function ClockMessage(time: u32): Message {
    Message(Matrix, Binding(CLOCK, time), true)
  }

  function StatusOf(s: System): Status {
    Status(s.central.generation, s.ledger.outstanding, s.ledger.repairEpoch)
  }

  function Step(cfg: Config, s: System, a: Action): System
    requires Inv(cfg, s) && Enabled(cfg, s, a)
  {
    match a
    case Change(op) => s.(central := Mutate(cfg, s.central, op))
    case BeginInvocation(id) => s.(ledger := Begun(s.ledger), live := s.live + {id})
    case Forward(_, i, m, accepted) => s.(links := s.links[i := Enqueue(s.links[i], m, accepted)])
    case FinishInvocation(id, negative) =>
      s.(ledger := Finished(s.ledger, negative), live := s.live - {id},
         central := s.central.(generation := s.central.generation + 1))
    case Deliver(i) =>
      var link := s.links[i];
      s.(links := s.links[i := Link(link.channel[1..], Apply(cfg, link.replica, link.channel[0]))])
    case PollSources(changed, present, now, settle) =>
      s.(sources := seq(|s.sources|, i requires 0 <= i < |s.sources| =>
                      PollSource(changed, present[i], now, settle, s.sources[i])),
         unnoticed := set i | i in s.unnoticed && i < |present| && present[i] && !changed)
    case ConsumeRepair(now) =>
      if s.ledger.repairEpoch == s.consumed then s
      else s.(consumed := s.ledger.repairEpoch,
              sources := seq(|s.sources|, i requires 0 <= i < |s.sources| => ConsumeSource(now, s.sources[i])))
    case BindNext(i) =>
      s.(sources := s.sources[i := CaptureSource(s.sources[i], s.central.generation)],
         flight := Bound(i, WireFor(cfg, s.central.state, CursorItem(cfg, s.sources[i].cursor))),
         unnoticed := if s.sources[i].captured then s.unnoticed else s.unnoticed - {i})
    case SendFailed(arrived, now) =>
      var i := s.flight.target;
      s.(links := s.links[i := Enqueue(s.links[i], s.flight.message, arrived)],
         sources := s.sources[i := FailedSource(s.sources[i], now)],
         flight := Resting)
    case SendAccepted(now) =>
      var i := s.flight.target;
      var sent := SentSource(cfg, s.sources[i], now);
      s.(links := s.links[i := Enqueue(s.links[i], s.flight.message, true)],
         sources := s.sources[i := sent],
         flight := if sent.pending then Resting else Returned(i))
    case Judge(now) =>
      var i := s.flight.target;
      s.(flight := Resting,
         sources := if Accepts(s.sources[i], StatusOf(s), s.consumed) then s.sources
                    else s.sources[i := RestartSource(s.sources[i], now)])
    case SendClock(i, time, accepted) =>
      s.(links := s.links[i := Enqueue(s.links[i], ClockMessage(time), accepted)])
    case Outage(i, replica) =>
      s.(links := s.links[i := Link([], replica)],
         unnoticed := if s.sources[i].seen then s.unnoticed + {i} else s.unnoticed)
  }

  // ----- Invariant -----

  /** Nothing was published and nothing is outstanding since this source captured. */
  predicate Fresh(s: System, src: Source) {
    src.generation == s.central.generation && s.ledger.outstanding == 0
  }

  /** Every item the cursor has passed already has the central's value on the drained replica. */
  ghost predicate Passed(cfg: Config, st: State, drained: State, c: Cursor)
    requires ValidConfig(cfg) && ValidState(cfg, st) && ValidState(cfg, drained) && ValidCursor(cfg, c)
  {
    forall item | ValidItem(cfg, item) && Position(cfg, item) < Position(cfg, CursorItem(cfg, c)) ::
      Get(cfg, drained, item) == Get(cfg, st, item)
  }

  predicate SourceShape(cfg: Config, s: System, src: Source) {
    && src.generation <= s.central.generation
    && (src.pending ==> src.seen && ValidCursor(cfg, src.cursor) && (!src.captured ==> src.cursor == Start))
    && (src.captured ==> src.pending)
  }

  ghost predicate SourceInv(cfg: Config, s: System, src: Source, link: Link, noticed: bool)
    requires ValidConfig(cfg) && ValidState(cfg, s.central.state)
  {
    && SourceShape(cfg, s, src)
    && ValidState(cfg, link.replica)
    && (src.seen && noticed && Fresh(s, src) ==>
          if src.pending
          then src.captured ==> Passed(cfg, s.central.state, Drained(cfg, link), src.cursor)
          else Drained(cfg, link) == s.central.state)
  }

  ghost predicate FlightInv(cfg: Config, s: System)
    requires ValidConfig(cfg) && ValidState(cfg, s.central.state)
  {
    match s.flight
    case Resting => true
    case Bound(i, m) =>
      i < |s.sources| && SourceShape(cfg, s, s.sources[i]) && s.sources[i].captured &&
      (s.sources[i].generation == s.central.generation ==>
         m == WireFor(cfg, s.central.state, CursorItem(cfg, s.sources[i].cursor)))
    case Returned(i) => i < |s.sources| && s.sources[i].seen && !s.sources[i].pending
  }

  ghost predicate Inv(cfg: Config, s: System) {
    && ValidConfig(cfg) && ValidState(cfg, s.central.state)
    && s.ledger.outstanding == |s.live|
    && |s.sources| == |s.links|
    && (forall i | 0 <= i < |s.sources| :: SourceInv(cfg, s, s.sources[i], s.links[i], i !in s.unnoticed))
    && FlightInv(cfg, s)
  }

  // ----- Draining -----

  lemma {:induction false} DrainedEnqueue(cfg: Config, link: Link, m: Message)
    requires ValidConfig(cfg) && ValidState(cfg, link.replica)
    ensures Drained(cfg, Enqueue(link, m, true)) == Apply(cfg, Drained(cfg, link), m)
  {
    assert (link.channel + [m])[..|link.channel|] == link.channel;
  }

  /** Delivery in order does not change where the replica will end up. */
  lemma {:induction false} DrainedDeliver(cfg: Config, link: Link)
    requires ValidConfig(cfg) && ValidState(cfg, link.replica) && link.channel != []
    ensures ValidState(cfg, Apply(cfg, link.replica, link.channel[0]))
    ensures Drained(cfg, Link(link.channel[1..], Apply(cfg, link.replica, link.channel[0]))) == Drained(cfg, link)
    decreases |link.channel|
  {
    ApplyValid(cfg, link.replica, link.channel[0]);
    var last := |link.channel| - 1;
    if last > 0 {
      DrainedDeliver(cfg, Link(link.channel[..last], link.replica));
      assert link.channel[..last][1..] == link.channel[1..][..last - 1];
    } else {
      assert link.channel[..0] == [];
      assert Drained(cfg, Link(link.channel[..0], link.replica)) == link.replica;
    }
  }

  lemma ClockChangesNothing(cfg: Config, st: State, time: u32)
    requires ValidConfig(cfg) && ValidState(cfg, st)
    ensures Apply(cfg, st, ClockMessage(time)) == st
  {
  }

  // ----- Every step keeps the invariant -----

  /** Enough for a source whose link did not change. */
  lemma KeptBy(cfg: Config, s: System, t: System, src: Source, link: Link, noticed: bool)
    requires ValidConfig(cfg) && ValidState(cfg, s.central.state) && ValidState(cfg, t.central.state)
    requires SourceInv(cfg, s, src, link, noticed)
    requires t.central.generation >= s.central.generation
    requires t.central.generation == s.central.generation && t.ledger.outstanding == 0 ==>
               t.central.state == s.central.state && s.ledger.outstanding == 0
    ensures SourceInv(cfg, t, src, link, noticed)
  {
  }

  /** Steps that change the central or the ledger only. */
  lemma CentralStepKeepsInv(cfg: Config, s: System, t: System)
    requires Inv(cfg, s) && ValidState(cfg, t.central.state)
    requires t.sources == s.sources && t.links == s.links && t.flight == s.flight && t.unnoticed == s.unnoticed
    requires t.ledger.outstanding == |t.live|
    requires t.central.generation >= s.central.generation
    requires t.central.generation == s.central.generation ==> t.central.state == s.central.state
    requires t.central.generation == s.central.generation && t.ledger.outstanding == 0 ==> s.ledger.outstanding == 0
    ensures Inv(cfg, t)
  {
    forall i | 0 <= i < |t.sources|
      ensures SourceInv(cfg, t, t.sources[i], t.links[i], i !in t.unnoticed)
    {
      KeptBy(cfg, s, t, s.sources[i], s.links[i], i !in s.unnoticed);
    }
  }

  /** Steps that only touch one link, in a way that leaves its drained state alone. */
  lemma {:induction false} LinkStepKeepsInv(cfg: Config, s: System, i: nat, link: Link)
    requires Inv(cfg, s) && i < |s.links| && ValidState(cfg, link.replica)
    requires Drained(cfg, link) == Drained(cfg, s.links[i]) || s.ledger.outstanding > 0
    ensures Inv(cfg, s.(links := s.links[i := link]))
  {
    var t := s.(links := s.links[i := link]);
    forall j | 0 <= j < |t.sources|
      ensures SourceInv(cfg, t, t.sources[j], t.links[j], j !in t.unnoticed)
    {
      assert SourceInv(cfg, s, s.sources[j], s.links[j], j !in s.unnoticed);
    }
  }

  /** An outage of an observed peripheral is not noticed; the invariant promises nothing of it until a poll or a new
      walk starts over. */
  lemma OutageKeepsInv(cfg: Config, s: System, a: Action)
    requires Inv(cfg, s) && a.Outage? && Enabled(cfg, s, a)
    ensures Inv(cfg, Step(cfg, s, a))
  {
    var t := Step(cfg, s, a);
    forall j | 0 <= j < |t.sources|
      ensures SourceInv(cfg, t, t.sources[j], t.links[j], j !in t.unnoticed)
    {
      assert SourceInv(cfg, s, s.sources[j], s.links[j], j !in s.unnoticed);
    }
  }

  lemma PollKeepsInv(cfg: Config, s: System, a: Action)
    requires Inv(cfg, s) && a.PollSources? && Enabled(cfg, s, a)
    ensures Inv(cfg, Step(cfg, s, a))
  {
    var t := Step(cfg, s, a);
    forall i | 0 <= i < |t.sources|
      ensures SourceInv(cfg, t, t.sources[i], t.links[i], i !in t.unnoticed)
    {
      assert SourceInv(cfg, s, s.sources[i], s.links[i], i !in s.unnoticed);
    }
  }

  lemma ConsumeKeepsInv(cfg: Config, s: System, a: Action)
    requires Inv(cfg, s) && a.ConsumeRepair? && Enabled(cfg, s, a)
    ensures Inv(cfg, Step(cfg, s, a))
  {
    var t := Step(cfg, s, a);
    forall i | 0 <= i < |t.sources|
      ensures SourceInv(cfg, t, t.sources[i], t.links[i], i !in t.unnoticed)
    {
      assert SourceInv(cfg, s, s.sources[i], s.links[i], i !in s.unnoticed);
    }
  }

  lemma BindKeepsInv(cfg: Config, s: System, a: Action)
    requires Inv(cfg, s) && a.BindNext? && Enabled(cfg, s, a)
    ensures Inv(cfg, Step(cfg, s, a))
  {
    var t := Step(cfg, s, a);
    forall i | 0 <= i < |t.sources|
      ensures SourceInv(cfg, t, t.sources[i], t.links[i], i !in t.unnoticed)
    {
      assert SourceInv(cfg, s, s.sources[i], s.links[i], i !in s.unnoticed);
    }
  }

  /** One more item is right once the bound message has arrived. */
  lemma SentItemIsPassed(cfg: Config, st: State, drained: State, c: Cursor)
    requires ValidConfig(cfg) && ValidState(cfg, st) && ValidState(cfg, drained) && ValidCursor(cfg, c)
    requires Passed(cfg, st, drained, c)
    ensures var r := Apply(cfg, drained, WireFor(cfg, st, CursorItem(cfg, c)));
            && ValidState(cfg, r)
            && forall item | ValidItem(cfg, item) && Position(cfg, item) <= Position(cfg, CursorItem(cfg, c)) ::
                 Get(cfg, r, item) == Get(cfg, st, item)
  {
    var current := CursorItem(cfg, c);
    WireSetsItem(cfg, st, drained, current);
    forall item | ValidItem(cfg, item) && Position(cfg, item) <= Position(cfg, current)
      ensures Get(cfg, Apply(cfg, drained, WireFor(cfg, st, current)), item) == Get(cfg, st, item)
    {
      if Position(cfg, item) == Position(cfg, current) {
        PositionInjective(cfg, item, current);
      }
    }
  }

  lemma SendFailedKeepsInv(cfg: Config, s: System, a: Action)
    requires Inv(cfg, s) && a.SendFailed? && Enabled(cfg, s, a)
    ensures Inv(cfg, Step(cfg, s, a))
  {
    var t, i := Step(cfg, s, a), s.flight.target;
    var src, link := s.sources[i], s.links[i];
    assert SourceInv(cfg, s, src, link, i !in s.unnoticed);
    if Fresh(s, src) && i !in s.unnoticed && a.arrived {
      DrainedEnqueue(cfg, link, s.flight.message);
      SentItemIsPassed(cfg, s.central.state, Drained(cfg, link), src.cursor);
    }
    assert SourceInv(cfg, t, t.sources[i], t.links[i], i !in t.unnoticed);
    forall j | 0 <= j < |t.sources|
      ensures SourceInv(cfg, t, t.sources[j], t.links[j], j !in t.unnoticed)
    {
      assert SourceInv(cfg, s, s.sources[j], s.links[j], j !in s.unnoticed);
    }
  }

  lemma SentSourceInv(cfg: Config, s: System, now: int)
    requires Inv(cfg, s) && s.flight.Bound?
    ensures var i := s.flight.target;
            SourceInv(cfg, s, SentSource(cfg, s.sources[i], now), Enqueue(s.links[i], s.flight.message, true),
                      i !in s.unnoticed)
  {
    var i := s.flight.target;
    var src, link := s.sources[i], s.links[i];
    assert SourceInv(cfg, s, src, link, i !in s.unnoticed);
    AdvanceMovesOn(cfg, src);
    var sent := SentSource(cfg, src, now);
    if Fresh(s, src) && i !in s.unnoticed {
      DrainedEnqueue(cfg, link, s.flight.message);
      SentItemIsPassed(cfg, s.central.state, Drained(cfg, link), src.cursor);
      if !sent.pending {
        forall item | ValidItem(cfg, item)
          ensures Get(cfg, Drained(cfg, Enqueue(link, s.flight.message, true)), item) == Get(cfg, s.central.state, item)
        {
          PositionInRange(cfg, item);
        }
        ItemsDetermineState(cfg, Drained(cfg, Enqueue(link, s.flight.message, true)), s.central.state);
      }
    }
  }

  lemma SendAcceptedKeepsInv(cfg: Config, s: System, a: Action)
    requires Inv(cfg, s) && a.SendAccepted? && Enabled(cfg, s, a)
    ensures Inv(cfg, Step(cfg, s, a))
  {
    var t := Step(cfg, s, a);
    SentSourceInv(cfg, s, a.now);
    AdvanceMovesOn(cfg, s.sources[s.flight.target]);
    forall j | 0 <= j < |t.sources|
      ensures SourceInv(cfg, t, t.sources[j], t.links[j], j !in t.unnoticed)
    {
      assert SourceInv(cfg, s, s.sources[j], s.links[j], j !in s.unnoticed);
    }
  }

  lemma JudgeKeepsInv(cfg: Config, s: System, a: Action)
    requires Inv(cfg, s) && a.Judge? && Enabled(cfg, s, a)
    ensures Inv(cfg, Step(cfg, s, a))
  {
    var t := Step(cfg, s, a);
    forall j | 0 <= j < |t.sources|
      ensures SourceInv(cfg, t, t.sources[j], t.links[j], j !in t.unnoticed)
    {
      assert SourceInv(cfg, s, s.sources[j], s.links[j], j !in s.unnoticed);
    }
  }

  lemma StepKeepsInv(cfg: Config, s: System, a: Action)
    requires Inv(cfg, s) && Enabled(cfg, s, a)
    ensures Inv(cfg, Step(cfg, s, a))
  {
    var t := Step(cfg, s, a);
    match a
    case Change(op) =>
      MutationsArePublished(cfg, s.central, op);
      CentralStepKeepsInv(cfg, s, t);
    case BeginInvocation(id) =>
      CentralStepKeepsInv(cfg, s, t);
    case FinishInvocation(id, negative) =>
      CentralStepKeepsInv(cfg, s, t);
    case Forward(id, i, m, accepted) =>
      assert |s.live| > 0;
      LinkStepKeepsInv(cfg, s, i, Enqueue(s.links[i], m, accepted));
    case Deliver(i) =>
      DrainedDeliver(cfg, s.links[i]);
      LinkStepKeepsInv(cfg, s, i, t.links[i]);
    case SendClock(i, time, accepted) =>
      DrainedEnqueue(cfg, s.links[i], ClockMessage(time));
      ClockChangesNothing(cfg, Drained(cfg, s.links[i]), time);
      LinkStepKeepsInv(cfg, s, i, t.links[i]);
    case Outage(_, _) => OutageKeepsInv(cfg, s, a);
    case PollSources(_, _, _, _) => PollKeepsInv(cfg, s, a);
    case ConsumeRepair(_) => ConsumeKeepsInv(cfg, s, a);
    case BindNext(_) => BindKeepsInv(cfg, s, a);
    case SendFailed(_, _) => SendFailedKeepsInv(cfg, s, a);
    case SendAccepted(_) => SendAcceptedKeepsInv(cfg, s, a);
    case Judge(_) => JudgeKeepsInv(cfg, s, a);
  }
}
