/** The key-event ring: sixteen cells, of which at most fifteen are ever in use. */
module InputRing {
  import opened Coordinator
  import opened Options

  const CELLS := 16

  function Successor(i: nat): (next: nat)
    requires i < CELLS
    ensures next == if i == CELLS - 1 then 0 else i + 1
  {
    (i + 1) % CELLS
  }

  /** The cells from `tail` up to `head`, around the ring. */
  function Window(cells: seq<KeyEvent>, head: nat, tail: nat): (s: seq<KeyEvent>)
    requires |cells| == CELLS && head < CELLS && tail < CELLS
    ensures |s| == if tail <= head then head - tail else CELLS - tail + head
  {
    if tail <= head then cells[tail..head] else cells[tail..] + cells[..head]
  }

  /** Writing at the head and advancing it appends. */
  lemma WindowPush(cells: seq<KeyEvent>, head: nat, tail: nat, event: KeyEvent)
    requires |cells| == CELLS && head < CELLS && tail < CELLS && Successor(head) != tail
    ensures Window(cells[head := event], Successor(head), tail) == Window(cells, head, tail) + [event]
  {
    var after := cells[head := event];
    if tail <= head {
      assert after[tail..head] == cells[tail..head];
      assert after[tail..head + 1] == after[tail..head] + [event];
      assert after[..0] == [];
      assert head == CELLS - 1 ==> after[tail..] == after[tail..head + 1];
    } else {
      assert after[tail..] == cells[tail..];
      assert after[..head + 1] == cells[..head] + [event];
    }
  }

  /** Advancing the tail removes the oldest. */
  lemma WindowPop(cells: seq<KeyEvent>, head: nat, tail: nat)
    requires |cells| == CELLS && head < CELLS && tail < CELLS && head != tail
    ensures var w := Window(cells, head, tail);
            w != [] && w[0] == cells[tail] && Window(cells, head, Successor(tail)) == w[1..]
  {
    if tail < head {
      assert Successor(tail) == tail + 1;
      assert Window(cells, head, tail) == cells[tail..head];
      assert cells[tail..head][1..] == cells[tail + 1..head];
      assert Window(cells, head, tail + 1) == cells[tail + 1..head];
    } else if tail + 1 < CELLS {
      assert (cells[tail..] + cells[..head])[1..] == cells[tail + 1..] + cells[..head];
    } else {
      assert cells[tail..] == [cells[tail]];
      assert (cells[tail..] + cells[..head])[1..] == cells[..head] == cells[0..head];
    }
  }

  lemma Joined(delivered: seq<KeyEvent>, queue: seq<KeyEvent>, more: seq<KeyEvent>, start: seq<KeyEvent>,
               admitted: seq<KeyEvent>)
    requires delivered + queue == start + admitted
    ensures delivered + (queue + more) == start + (admitted + more)
  {
    assert delivered + (queue + more) == (delivered + queue) + more;
    assert start + (admitted + more) == (start + admitted) + more;
  }

  lemma Moved(delivered: seq<KeyEvent>, queue: seq<KeyEvent>)
    ensures if queue == [] then delivered + queue == delivered
            else delivered + queue == (delivered + [queue[0]]) + queue[1..]
  {
  }

  class Ring {
    const cells: array<KeyEvent>
    var head: nat
    var tail: nat
    var dropped: nat
    var allowed: bool

    ghost predicate Valid()
      reads this, cells
    {
      cells.Length == CELLS && head < CELLS && tail < CELLS
    }

    /** The queued events, oldest first. */
    ghost function Contents(): (s: seq<KeyEvent>)
      requires Valid()
      reads this, cells
      ensures |s| <= RING_CAPACITY
    {
      Window(cells[..], head, tail)
    }

    constructor (blank: KeyEvent)
      ensures Valid() && fresh(cells) && Contents() == [] && dropped == 0 && !allowed
    {
      cells := new KeyEvent[CELLS](_ => blank);
      head, tail, dropped, allowed := 0, 0, 0, false;
    }

    /** Admission: refused while output is blocked, dropped (and counted) when full. */
    method Push(event: KeyEvent) returns (queued: bool)
      requires Valid()
      modifies this`head, this`dropped, cells
      ensures Valid()
      ensures queued <==> allowed && |old(Contents())| < RING_CAPACITY
      ensures Contents() == if queued then old(Contents()) + [event] else old(Contents())
      ensures dropped == old(dropped) + if allowed && !queued then 1 else 0
    {
      if !allowed {
        return false;
      }
      var next := Successor(head);
      queued := next != tail;
      if queued {
        WindowPush(cells[..], head, tail, event);
        ghost var after := cells[..][head := event];
        cells[head] := event;
        assert cells[..] == after;
        head := next;
      } else {
        dropped := dropped + 1;
      }
    }

    method Pop() returns (event: Option<KeyEvent>)
      requires Valid()
      modifies this`tail
      ensures Valid()
      ensures if old(Contents()) == [] then event == None && Contents() == []
              else event == Some(old(Contents())[0]) && Contents() == old(Contents())[1..]
    {
      if tail == head {
        return None;
      }
      WindowPop(cells[..], head, tail);
      event := Some(cells[tail]);
      tail := Successor(tail);
    }

    /** Flip the permission and discard what was queued under the old one, in one section. */
    method SetAllowed(now: bool)
      requires Valid()
      modifies this`tail, this`dropped, this`allowed
      ensures Valid() && allowed == now
      ensures if now != old(allowed) then Contents() == [] && dropped == 0
              else Contents() == old(Contents()) && dropped == old(dropped)
    {
      if now != allowed {
        tail := head;
        dropped := 0;
        allowed := now;
      }
    }

    /** Events pushed one after another; those admitted join at the end. */
    method PushAll(events: seq<KeyEvent>) returns (admitted: seq<KeyEvent>)
      requires Valid()
      modifies this`head, this`dropped, cells
      ensures Valid() && Contents() == old(Contents()) + admitted
      ensures |admitted| <= |events| && (!allowed ==> admitted == [])
    {
      admitted := [];
      for i := 0 to |events|
        invariant Valid() && |admitted| <= i && (!allowed ==> admitted == [])
        invariant Contents() == old(Contents()) + admitted
      {
        var queued := Push(events[i]);
        if queued {
          admitted := admitted + [events[i]];
        }
      }
    }

    /** A pass pops up to sixteen events while producers may push between pops (`arrivals[n]` before pop `n`). What was
      * queued and what was admitted meanwhile is delivered in order, and only a full sixteen leaves anything behind. */
    method Drain(arrivals: seq<seq<KeyEvent>>) returns (delivered: seq<KeyEvent>, admitted: seq<KeyEvent>)
      requires Valid()
      modifies this`head, this`tail, this`dropped, cells
      ensures Valid()
      ensures delivered + Contents() == old(Contents()) + admitted
      ensures |delivered| <= MAX_DELIVERIES && (Contents() != [] ==> |delivered| == MAX_DELIVERIES)
      ensures arrivals == [] ==> admitted == [] && Contents() == []
    {
      delivered, admitted := [], [];
      for n := 0 to MAX_DELIVERIES
        invariant Valid() && |delivered| == n
        invariant delivered + Contents() == old(Contents()) + admitted
        invariant arrivals == [] ==> admitted == []
      {
        if n < |arrivals| {
          ghost var queue := Contents();
          var more := PushAll(arrivals[n]);
          Joined(delivered, queue, more, old(Contents()), admitted);
          admitted := admitted + more;
        }
        Moved(delivered, Contents());
        var event := Pop();
        if event.None? {
          return;
        }
        delivered := delivered + [event.value];
      }
    }
  }
}
