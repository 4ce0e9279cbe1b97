/** Falling heads: each column advances by its own speed and restarts above the board when it passes the bottom. */
module DigitalRain {
  import opened Arith

  const COLUMNS := 24

  /** Heads and speeds count 256ths of a layout unit. */
  const Q8 := 256

  /** A frame restarts a head at random at most this often. */
  const MAX_RECYCLES := 8

  type Oracle = nat -> nat

  /** Vertical extent of the LEDs, tail length and period. */
  datatype Shaft = Shaft(minY: nat, maxY: nat, trail: nat, period: nat)

  predicate ValidShaft(g: Shaft) {
    g.minY <= g.maxY <= 65535 && 100 <= g.trail <= 900 && 1 <= g.period <= 65535
  }

  /** Position, speed and the random numbers drawn so far. */
  datatype Head = Head(at: int, speed: int, drawn: nat)

  // ----- Where heads may be -----

  function RangeY(g: Shaft): (r: nat)
    requires ValidShaft(g)
    ensures 1 <= r <= 65535
  {
    if g.maxY - g.minY > 1 then g.maxY - g.minY else 1
  }

  /** Past this a head is out of sight. */
  function Bottom(g: Shaft): int {
    (g.maxY + g.trail) * Q8
  }

  /** No head restarts above this. */
  function Top(g: Shaft): int
    requires ValidShaft(g)
  {
    (g.minY - RangeY(g)) * Q8
  }

  predicate InShaft(g: Shaft, h: Head)
    requires ValidShaft(g)
  {
    Top(g) <= h.at <= Bottom(g) && h.speed >= 1
  }

  function StartAt(g: Shaft, number: nat): (at: int)
    requires ValidShaft(g)
    ensures Top(g) < at <= g.minY * Q8 <= Bottom(g)
  {
    (g.minY - number % RangeY(g)) * Q8
  }

  lemma WholeAndRest(whole: nat, per: nat)
    requires per > 0
    ensures whole / per * per <= whole < whole / per * per + per
  {
  }

  /** Where heads run, in 256ths of a unit: from at most the board's height above it to the tail's length below. */
  lemma ShaftExtent(g: Shaft, number: nat)
    requires ValidShaft(g)
    ensures var height := if g.maxY - g.minY > 1 then g.maxY - g.minY else 1;
            && Bottom(g) == 256 * (g.maxY + g.trail) && Top(g) == 256 * (g.minY - height)
            && StartAt(g, number) == 256 * (g.minY - number % height)
  {
  }

  /** A recycled head starts where one number says, at the speed the next one says. */
  lemma RecycledMeans(g: Shaft, random: Oracle, h: Head)
    requires ValidShaft(g)
    ensures Recycled(g, random, h).at == StartAt(g, random(h.drawn))
    ensures Recycled(g, random, h).speed == SpeedFor(g, random(h.drawn + 1))
  {
  }

  /** Crosses the board's height in between a third and the whole of a period; never stands still. */
  function SpeedFor(g: Shaft, number: nat): (speed: int)
    requires ValidShaft(g)
    ensures speed >= 1
    ensures var whole := RangeY(g) * 256 * (50 + number % 100);
            (speed == 1 || speed * (g.period * 50) <= whole) && whole < speed * (g.period * 50) + g.period * 50
  {
    WholeAndRest(RangeY(g) * Q8 * (50 + number % 100), g.period * 50);
    var sp := RangeY(g) * Q8 * (50 + number % 100) / (g.period * 50);
    if sp > 1 then sp else 1
  }

  function Recycled(g: Shaft, random: Oracle, h: Head): (r: Head)
    requires ValidShaft(g)
    ensures InShaft(g, r) && r.drawn == h.drawn + 2
  {
    Head(StartAt(g, random(h.drawn)), SpeedFor(g, random(h.drawn + 1)), h.drawn + 2)
  }

  // ----- Reference: one millisecond at a time -----

  function Tick(g: Shaft, random: Oracle, h: Head): Head
    requires ValidShaft(g)
  {
    if h.at + h.speed > Bottom(g) then Recycled(g, random, h) else h.(at := h.at + h.speed)
  }

  function Reference(g: Shaft, random: Oracle, h: Head, elapsed: nat): Head
    requires ValidShaft(g)
  {
    if elapsed == 0 then h else Tick(g, random, Reference(g, random, h, elapsed - 1))
  }

  lemma {:induction false} ReferenceAdds(g: Shaft, random: Oracle, h: Head, x: nat, y: nat)
    requires ValidShaft(g)
    ensures Reference(g, random, h, x + y) == Reference(g, random, Reference(g, random, h, x), y)
  {
    if y > 0 {
      ReferenceAdds(g, random, h, x, y - 1);
      assert Reference(g, random, h, x + y) == Tick(g, random, Reference(g, random, h, x + (y - 1)));
    }
  }

  lemma {:induction false} ReferenceDraws(g: Shaft, random: Oracle, h: Head, elapsed: nat)
    requires ValidShaft(g)
    ensures Reference(g, random, h, elapsed).drawn >= h.drawn
  {
    if elapsed > 0 {
      ReferenceDraws(g, random, h, elapsed - 1);
    }
  }

  /** Milliseconds until a head is past the bottom. */
  function Crossing(g: Shaft, h: Head): int
    requires h.speed >= 1
  {
    (Bottom(g) - h.at) / h.speed + 1
  }

  /** Exactly the first millisecond that overshoots: the one before does not. */
  lemma CrossingIsFirst(g: Shaft, h: Head, n: nat)
    requires ValidShaft(g) && InShaft(g, h)
    ensures Crossing(g, h) >= 1
    ensures h.at + n * h.speed > Bottom(g) <==> n >= Crossing(g, h)
  {
    DivAtLeast(Bottom(g) - h.at, n, h.speed);
    DivAtLeast(Bottom(g) - h.at, 0, h.speed);
  }

  lemma {:induction false} ReferenceFalls(g: Shaft, random: Oracle, h: Head, n: nat)
    requires ValidShaft(g) && InShaft(g, h) && h.at + n * h.speed <= Bottom(g)
    ensures Reference(g, random, h, n) == h.(at := h.at + n * h.speed)
  {
    if n > 0 {
      assert n * h.speed == (n - 1) * h.speed + h.speed;
      ReferenceFalls(g, random, h, n - 1);
    }
  }

  lemma TickAcross(g: Shaft, random: Oracle, h: Head, fallen: int)
    requires ValidShaft(g) && h.at + fallen + h.speed > Bottom(g)
    ensures Tick(g, random, h.(at := h.at + fallen)) == Recycled(g, random, h)
  {
  }

  lemma {:induction false} LastMillisecond(g: Shaft, random: Oracle, h: Head, n: nat)
    requires ValidShaft(g) && InShaft(g, h) && n >= 1
    requires h.at + (n - 1) * h.speed <= Bottom(g) < h.at + n * h.speed
    ensures Reference(g, random, h, n) == Recycled(g, random, h)
  {
    assert n * h.speed == (n - 1) * h.speed + h.speed;
    ReferenceFalls(g, random, h, n - 1);
    TickAcross(g, random, h, (n - 1) * h.speed);
  }

  lemma ReferenceCrosses(g: Shaft, random: Oracle, h: Head, elapsed: nat)
    requires ValidShaft(g) && InShaft(g, h) && elapsed >= Crossing(g, h)
    ensures Crossing(g, h) >= 1
    ensures Reference(g, random, h, elapsed)
         == Reference(g, random, Recycled(g, random, h), elapsed - Crossing(g, h))
  {
    CrossingIsFirst(g, h, Crossing(g, h));
    CrossingIsFirst(g, h, Crossing(g, h) - 1);
    LastMillisecond(g, random, h, Crossing(g, h));
    ReferenceAdds(g, random, h, Crossing(g, h), elapsed - Crossing(g, h));
  }

  // ----- The bounded loop -----

  /** The state on leaving the recycling loop, and the time then left. */
  function Recycling(g: Shaft, random: Oracle, h: Head, remaining: nat, recycles: nat): (r: (Head, nat))
    requires ValidShaft(g) && InShaft(g, h)
    ensures InShaft(g, r.0)
    ensures r.0.drawn <= h.drawn + 2 * recycles
    decreases recycles
  {
    CrossingIsFirst(g, h, 0);
    if recycles > 0 && remaining > 0 && Crossing(g, h) <= remaining then
      Recycling(g, random, Recycled(g, random, h), remaining - Crossing(g, h), recycles - 1)
    else (h, remaining)
  }

  function Unwrapped(h: Head, remaining: nat): int {
    h.at + h.speed * remaining
  }

  /** A head that still overshoots after eight recycles wraps over the whole shaft. */
  function Wrapped(g: Shaft, at: int): (r: int)
    requires ValidShaft(g) && at >= Top(g)
    ensures Top(g) <= r <= Bottom(g)
    ensures at <= Bottom(g) ==> r == at
    ensures (r - at) % (Bottom(g) - Top(g) + 1) == 0
  {
    var span := Bottom(g) - Top(g) + 1;
    if at > Bottom(g) then
      ModShift(0, -((at - Top(g)) / span), span);
      assert Top(g) + (at - Top(g)) % span - at == 0 + -((at - Top(g)) / span) * span;
      Top(g) + (at - Top(g)) % span
    else at
  }

  lemma MovesDown(h: Head, remaining: nat)
    requires h.speed >= 1
    ensures Unwrapped(h, remaining) >= h.at
  {
    NonNegative(remaining, h.speed);
  }

  /** A frame of a head that may restart at random `recycles` times: it stays in its shaft, whatever the time elapsed
    * and the random numbers. */
  function Advanced(g: Shaft, random: Oracle, h: Head, elapsed: nat, recycles: nat): (r: Head)
    requires ValidShaft(g) && InShaft(g, h)
    ensures InShaft(g, r)
    ensures h.drawn <= r.drawn <= h.drawn + 2 * recycles
  {
    RecyclingDraws(g, random, h, elapsed, recycles);
    var (last, remaining) := Recycling(g, random, h, elapsed, recycles);
    MovesDown(last, remaining);
    last.(at := Wrapped(g, Unwrapped(last, remaining)))
  }

  lemma {:induction false} RecyclingDraws(g: Shaft, random: Oracle, h: Head, remaining: nat, recycles: nat)
    requires ValidShaft(g) && InShaft(g, h)
    ensures Recycling(g, random, h, remaining, recycles).0.drawn >= h.drawn
    decreases recycles
  {
    CrossingIsFirst(g, h, 0);
    if recycles > 0 && remaining > 0 && Crossing(g, h) <= remaining {
      RecyclingDraws(g, random, Recycled(g, random, h), remaining - Crossing(g, h), recycles - 1);
    }
  }

  /** The loop loses no time: the milliseconds it has not consumed, run from the state it reached, complete the
    * reference. It stops short of a crossing only when its recycles are used up. */
  lemma {:induction false} RecyclingKeepsTime(g: Shaft, random: Oracle, h: Head, elapsed: nat, recycles: nat)
    requires ValidShaft(g) && InShaft(g, h)
    ensures var (last, remaining) := Recycling(g, random, h, elapsed, recycles);
            && remaining <= elapsed
            && Reference(g, random, h, elapsed) == Reference(g, random, last, remaining)
            && (remaining >= Crossing(g, last) ==> last.drawn == h.drawn + 2 * recycles)
    decreases recycles
  {
    CrossingIsFirst(g, h, 0);
    if recycles > 0 && elapsed > 0 && Crossing(g, h) <= elapsed {
      var next, left := Recycled(g, random, h), elapsed - Crossing(g, h);
      ReferenceCrosses(g, random, h, elapsed);
      RecyclingKeepsTime(g, random, next, left, recycles - 1);
      assert Recycling(g, random, h, elapsed, recycles) == Recycling(g, random, next, left, recycles - 1);
      assert next.drawn == h.drawn + 2;
    } else {
      assert Recycling(g, random, h, elapsed, recycles) == (h, elapsed);
    }
  }

  lemma Overshoots(g: Shaft, h: Head, remaining: nat)
    requires ValidShaft(g) && InShaft(g, h)
    ensures Unwrapped(h, remaining) > Bottom(g) <==> remaining >= Crossing(g, h)
    ensures Unwrapped(h, remaining) == h.at + remaining * h.speed
  {
    CrossingIsFirst(g, h, remaining);
    assert h.speed * remaining == remaining * h.speed;
  }

  /** The modular wrap happens only after eight recycles. */
  lemma {:induction false} WrapsOnlyAfterEight(g: Shaft, random: Oracle, h: Head, elapsed: nat)
    requires ValidShaft(g) && InShaft(g, h)
    ensures var (last, remaining) := Recycling(g, random, h, elapsed, MAX_RECYCLES);
            Unwrapped(last, remaining) > Bottom(g) ==> last.drawn == h.drawn + 16
  {
    var (last, remaining) := Recycling(g, random, h, elapsed, MAX_RECYCLES);
    RecyclingKeepsTime(g, random, h, elapsed, MAX_RECYCLES);
    Overshoots(g, last, remaining);
  }

  lemma {:induction false} ShortFallIsExact(g: Shaft, random: Oracle, h: Head, remaining: nat)
    requires ValidShaft(g) && InShaft(g, h) && remaining < Crossing(g, h)
    ensures Unwrapped(h, remaining) >= Top(g)
    ensures h.(at := Wrapped(g, Unwrapped(h, remaining))) == Reference(g, random, h, remaining)
  {
    MovesDown(h, remaining);
    Overshoots(g, h, remaining);
    assert h.at + remaining * h.speed <= Bottom(g);
    ReferenceFalls(g, random, h, remaining);
  }

  lemma {:induction false} LongFallDraws(g: Shaft, random: Oracle, h: Head, remaining: nat)
    requires ValidShaft(g) && InShaft(g, h) && remaining >= Crossing(g, h)
    ensures Reference(g, random, h, remaining).drawn > h.drawn
  {
    ReferenceCrosses(g, random, h, remaining);
    ReferenceDraws(g, random, Recycled(g, random, h), remaining - Crossing(g, h));
  }

  // ----- When a frame is exact -----

  /** The time the head takes to pass the bottom `k` times, restarting as its next random numbers say. */
  function FallTime(g: Shaft, random: Oracle, h: Head, k: nat): (t: nat)
    requires ValidShaft(g) && InShaft(g, h)
    decreases k
  {
    if k == 0 then 0
    else
      CrossingIsFirst(g, h, 0);
      Crossing(g, h) + FallTime(g, random, Recycled(g, random, h), k - 1)
  }

  /** How often the head restarts within `elapsed` is read off those times. */
  lemma {:induction false} RestartsWithin(g: Shaft, random: Oracle, h: Head, elapsed: nat, k: nat)
    requires ValidShaft(g) && InShaft(g, h)
    ensures Reference(g, random, h, elapsed).drawn <= h.drawn + 2 * k <==> elapsed < FallTime(g, random, h, k + 1)
    decreases k
  {
    CrossingIsFirst(g, h, elapsed);
    var next := Recycled(g, random, h);
    assert FallTime(g, random, h, k + 1) == Crossing(g, h) + FallTime(g, random, next, k);
    if elapsed < Crossing(g, h) {
      ReferenceFalls(g, random, h, elapsed);
    } else {
      ReferenceCrosses(g, random, h, elapsed);
      if k == 0 {
        ReferenceDraws(g, random, next, elapsed - Crossing(g, h));
      } else {
        RestartsWithin(g, random, next, elapsed - Crossing(g, h), k - 1);
      }
    }
  }

  lemma {:induction false} ExactWhileRecyclesSuffice(g: Shaft, random: Oracle, h: Head, elapsed: nat, recycles: nat)
    requires ValidShaft(g) && InShaft(g, h)
    ensures Advanced(g, random, h, elapsed, recycles) == Reference(g, random, h, elapsed)
       <==> Reference(g, random, h, elapsed).drawn <= h.drawn + 2 * recycles
  {
    var (last, remaining) := Recycling(g, random, h, elapsed, recycles);
    RecyclingKeepsTime(g, random, h, elapsed, recycles);
    if remaining < Crossing(g, last) {
      ShortFallIsExact(g, random, last, remaining);
    } else {
      LongFallDraws(g, random, last, remaining);
    }
  }

  /** A frame is the millisecond-by-millisecond fall exactly when it ends before the head passes the bottom once more
    * than it may restart: with eight recycles, before the sum of the first nine crossing times. */
  lemma {:induction false} AdvancedIsExactIff(g: Shaft, random: Oracle, h: Head, elapsed: nat, recycles: nat)
    requires ValidShaft(g) && InShaft(g, h)
    ensures Advanced(g, random, h, elapsed, recycles) == Reference(g, random, h, elapsed)
       <==> elapsed < FallTime(g, random, h, recycles + 1)
  {
    ExactWhileRecyclesSuffice(g, random, h, elapsed, recycles);
    RestartsWithin(g, random, h, elapsed, recycles);
  }

  // ----- A bound that knows no random numbers -----

  function TopSpeed(g: Shaft): (speed: int)
    requires ValidShaft(g)
    ensures speed >= 1
  {
    var sp := RangeY(g) * Q8 * 149 / (g.period * 50);
    if sp > 1 then sp else 1
  }

  /** The shortest time in which a restarted head can cross the shaft. */
  function ShortestFall(g: Shaft): (t: nat)
    requires ValidShaft(g)
    ensures t >= 1
  {
    DivAtLeast(Bottom(g) - g.minY * Q8, 0, TopSpeed(g));
    (Bottom(g) - g.minY * Q8) / TopSpeed(g) + 1
  }

  lemma SpeedIsBounded(g: Shaft, number: nat)
    requires ValidShaft(g)
    ensures SpeedFor(g, number) <= TopSpeed(g)
  {
    var f := 50 + number % 100;
    MulAtLeast(f, 149, RangeY(g) * Q8);
    assert RangeY(g) * Q8 * f == f * (RangeY(g) * Q8);
    DivMonotone(RangeY(g) * Q8 * f, RangeY(g) * Q8 * 149, g.period * 50);
  }

  lemma SlowerIsLater(distance: nat, far: nat, speed: nat, top: nat)
    requires 1 <= speed <= top && distance <= far
    ensures distance / top <= far / speed
  {
    var q := distance / top;
    DivAtLeast(distance, 0, top);
    assert distance == q * top + distance % top;
    MulAtLeast(speed, top, q);
    assert speed * q == q * speed && top * q == q * top;
    DivAtLeast(far, q, speed);
  }

  lemma RestartedFallTakes(g: Shaft, random: Oracle, h: Head)
    requires ValidShaft(g)
    ensures Crossing(g, Recycled(g, random, h)) >= ShortestFall(g)
  {
    var next := Recycled(g, random, h);
    SpeedIsBounded(g, random(h.drawn + 1));
    SlowerIsLater(Bottom(g) - g.minY * Q8, Bottom(g) - next.at, next.speed, TopSpeed(g));
  }

  lemma {:induction false} FallTimeAtLeast(g: Shaft, random: Oracle, h: Head, k: nat)
    requires ValidShaft(g) && InShaft(g, h)
    ensures FallTime(g, random, h, k + 1) >= Crossing(g, h) + k * ShortestFall(g)
    decreases k
  {
    var next := Recycled(g, random, h);
    assert FallTime(g, random, h, k + 1) == Crossing(g, h) + FallTime(g, random, next, k);
    if k > 0 {
      RestartedFallTakes(g, random, h);
      FallTimeAtLeast(g, random, next, k - 1);
      assert k * ShortestFall(g) == (k - 1) * ShortestFall(g) + ShortestFall(g);
    }
  }

  /** A frame in which the head passes the bottom nine times does differ, and is short enough to happen. */
  lemma {:induction false} NinthRecycleShows(g: Shaft, random: Oracle, h: Head)
    requires ValidShaft(g) && InShaft(g, h)
    ensures var elapsed := FallTime(g, random, h, MAX_RECYCLES + 1);
            elapsed < 0x1_0000_0000 && Advanced(g, random, h, elapsed, MAX_RECYCLES) != Reference(g, random, h, elapsed)
  {
    FallTimeAtMost(g, random, h, MAX_RECYCLES + 1);
    AdvancedIsExactIff(g, random, h, FallTime(g, random, h, MAX_RECYCLES + 1), MAX_RECYCLES);
  }

  lemma {:induction false} FallTimeAtMost(g: Shaft, random: Oracle, h: Head, k: nat)
    requires ValidShaft(g) && InShaft(g, h)
    ensures FallTime(g, random, h, k) <= k * 33_784_321
    decreases k
  {
    if k > 0 {
      SlowerIsLater(Bottom(g) - h.at, Bottom(g) - Top(g), 1, h.speed);
      FallTimeAtMost(g, random, Recycled(g, random, h), k - 1);
    }
  }

  // ----- Any cadence -----

  function Frames(g: Shaft, random: Oracle, h: Head, frames: seq<nat>, recycles: nat): Head
    requires ValidShaft(g) && InShaft(g, h)
    decreases |frames|
  {
    if frames == [] then h
    else Frames(g, random, Advanced(g, random, h, frames[0], recycles), frames[1..], recycles)
  }

  /** Every frame ends before the head would have to restart once more than it may. */
  predicate Gentle(g: Shaft, random: Oracle, h: Head, frames: seq<nat>, recycles: nat)
    requires ValidShaft(g) && InShaft(g, h)
    decreases |frames|
  {
    frames == [] ||
    (frames[0] < FallTime(g, random, h, recycles + 1)
     && Gentle(g, random, Advanced(g, random, h, frames[0], recycles), frames[1..], recycles))
  }

  /** For a column with its own random numbers, frame cadence is invisible while every frame is gentle. */
  lemma {:induction false} FramesFollowTheReference(g: Shaft, random: Oracle, h: Head, frames: seq<nat>, recycles: nat)
    requires ValidShaft(g) && InShaft(g, h) && Gentle(g, random, h, frames, recycles)
    ensures Frames(g, random, h, frames, recycles) == Reference(g, random, h, Total(frames))
    decreases |frames|
  {
    if frames != [] {
      AdvancedIsExactIff(g, random, h, frames[0], recycles);
      FramesFollowTheReference(g, random, Advanced(g, random, h, frames[0], recycles), frames[1..], recycles);
      ReferenceAdds(g, random, h, frames[0], Total(frames[1..]));
    }
  }

  predicate NoLonger(frames: seq<nat>, most: nat)
    decreases |frames|
  {
    frames == [] || (frames[0] <= most && NoLonger(frames[1..], most))
  }

  predicate Outlasts(g: Shaft, random: Oracle, h: Head, most: nat, recycles: nat)
    requires ValidShaft(g)
  {
    InShaft(g, h) ==> most < FallTime(g, random, h, recycles + 1)
  }

  lemma ShortFallsOutlast(g: Shaft, random: Oracle, h: Head, recycles: nat)
    requires ValidShaft(g)
    ensures Outlasts(g, random, h, recycles * ShortestFall(g), recycles)
  {
    if InShaft(g, h) {
      CrossingIsFirst(g, h, 0);
      FallTimeAtLeast(g, random, h, recycles);
    }
  }

  lemma {:induction false} OutlastedFramesAreGentle(g: Shaft, random: Oracle, h: Head, frames: seq<nat>, most: nat,
                                                    recycles: nat)
    requires ValidShaft(g) && InShaft(g, h) && NoLonger(frames, most)
    requires forall other :: Outlasts(g, random, other, most, recycles)
    ensures Gentle(g, random, h, frames, recycles)
    decreases |frames|
  {
    if frames != [] {
      assert Outlasts(g, random, h, most, recycles);
      OutlastedFramesAreGentle(g, random, Advanced(g, random, h, frames[0], recycles), frames[1..], most, recycles);
    }
  }

  /** Frames no longer than `recycles` of the shortest falls are gentle, so a scheduler that keeps them that short sees
    * the millisecond-by-millisecond fall without knowing the random numbers. */
  lemma {:induction false} ShortFramesFollowTheReference(g: Shaft, random: Oracle, h: Head, frames: seq<nat>,
                                                         recycles: nat)
    requires ValidShaft(g) && InShaft(g, h) && NoLonger(frames, recycles * ShortestFall(g))
    ensures Frames(g, random, h, frames, recycles) == Reference(g, random, h, Total(frames))
  {
    var most := recycles * ShortestFall(g);
    forall other ensures Outlasts(g, random, other, most, recycles) {
      ShortFallsOutlast(g, random, other, recycles);
    }
    OutlastedFramesAreGentle(g, random, h, frames, most, recycles);
    FramesFollowTheReference(g, random, h, frames, recycles);
  }

  // ----- The effect in place -----

  /** LEDs fall into columns by their horizontal position. */
  function ColumnOf(x: nat, minX: nat, maxX: nat): (c: nat)
    requires minX <= x <= maxX
    ensures c < COLUMNS
    ensures c * (maxX - minX + 1) <= 24 * (x - minX) < c * (maxX - minX + 1) + (maxX - minX + 1)
  {
    var span := maxX - minX + 1;
    WholeAndRest((x - minX) * COLUMNS, span);
    MulAtLeast(x - minX + 1, span, COLUMNS);
    DivAtLeast((x - minX) * COLUMNS, COLUMNS, span);
    (x - minX) * COLUMNS / span
  }

  /** The first `k` columns after a frame, drawing from one shared generator. */
  function ColumnsAdvanced(g: Shaft, random: Oracle, heads: seq<(int, int)>, drawn: nat, elapsed: nat, k: nat)
    : (r: (seq<(int, int)>, nat))
    requires ValidShaft(g) && k <= |heads|
    requires forall i :: 0 <= i < |heads| ==> InShaft(g, Head(heads[i].0, heads[i].1, 0))
    ensures |r.0| == |heads| && r.0[k..] == heads[k..] && r.1 >= drawn
    ensures forall i :: 0 <= i < |heads| ==> InShaft(g, Head(r.0[i].0, r.0[i].1, 0))
  {
    if k == 0 then (heads, drawn)
    else
      var (before, next) := ColumnsAdvanced(g, random, heads, drawn, elapsed, k - 1);
      assert before[k - 1] == before[k - 1..][0] == heads[k - 1..][0];
      var h := Advanced(g, random, Head(before[k - 1].0, before[k - 1].1, next), elapsed, MAX_RECYCLES);
      (before[k - 1 := (h.at, h.speed)], h.drawn)
  }

  class Effect {
    const random: Oracle
    const head: array<int>
    const speed: array<int>
    var drawn: nat

    ghost predicate Valid(g: Shaft)
      reads head, speed
    {
      && ValidShaft(g) && head != speed && head.Length == speed.Length == COLUMNS
      && forall c :: 0 <= c < COLUMNS ==> InShaft(g, Head(head[c], speed[c], 0))
    }

    ghost function View(): seq<(int, int)>
      requires head.Length == speed.Length
      reads head, speed
    {
      seq(head.Length, c requires 0 <= c < head.Length reads head, speed => (head[c], speed[c]))
    }

    /** Seeding starts every column inside the shaft. */
    constructor (g: Shaft, random: Oracle)
      requires ValidShaft(g)
      ensures Valid(g) && this.random == random
      ensures fresh(head) && fresh(speed)
    {
      this.random, drawn := random, 0;
      head := new int[COLUMNS](_ => 0);
      speed := new int[COLUMNS](_ => 1);
      new;
      for c := 0 to COLUMNS
        invariant fresh(head) && fresh(speed) && head != speed && head.Length == speed.Length == COLUMNS
        invariant this.random == random
        invariant forall k :: 0 <= k < c ==> InShaft(g, Head(head[k], speed[k], 0))
      {
        var place := Draw();
        var pace := Draw();
        head[c], speed[c] := StartAt(g, place), SpeedFor(g, pace);
      }
    }

    method Draw() returns (number: nat)
      modifies this`drawn
      ensures number == random(old(drawn)) && drawn == old(drawn) + 1
    {
      number := random(drawn);
      drawn := drawn + 1;
    }

    /** One column: consumed crossings and the remaining time always sum to the elapsed time. */
    method Fall(g: Shaft, from: int, pace: int, elapsed: nat) returns (to: int, newPace: int)
      requires ValidShaft(g) && InShaft(g, Head(from, pace, 0))
      modifies this`drawn
      ensures Head(to, newPace, drawn) == Advanced(g, random, Head(from, pace, old(drawn)), elapsed, MAX_RECYCLES)
    {
      var remaining := elapsed;
      ghost var goal := Recycling(g, random, Head(from, pace, drawn), elapsed, MAX_RECYCLES);
      ghost var consumed := 0;
      to, newPace := from, pace;
      var recycles := 0;
      while recycles < 8 && remaining > 0
        invariant 0 <= recycles <= 8 && 0 <= remaining && InShaft(g, Head(to, newPace, drawn))
        invariant consumed + remaining == elapsed
        invariant Recycling(g, random, Head(to, newPace, drawn), remaining, 8 - recycles) == goal
        decreases 8 - recycles
      {
        var crossing := CrossingTime(g, to, newPace);
        if crossing > remaining {
          break;
        }
        consumed, remaining := consumed + crossing, remaining - crossing;
        to, newPace := Restart(g);
        recycles := recycles + 1;
      }
      to := Settle(g, Head(to, newPace, drawn), remaining);
    }

    method CrossingTime(g: Shaft, at: int, pace: int) returns (time: int)
      requires ValidShaft(g) && InShaft(g, Head(at, pace, 0))
      ensures time >= 1 && forall d: nat :: time == Crossing(g, Head(at, pace, d))
    {
      CrossingIsFirst(g, Head(at, pace, 0), 0);
      time := (Bottom(g) - at) / pace + 1;
    }

    method Restart(g: Shaft) returns (at: int, pace: int)
      requires ValidShaft(g)
      modifies this`drawn
      ensures forall h: Head :: h.drawn == old(drawn) ==> Head(at, pace, drawn) == Recycled(g, random, h)
    {
      var place := Draw();
      at := StartAt(g, place);
      var number := Draw();
      pace := SpeedFor(g, number);
    }

    method Settle(g: Shaft, h: Head, remaining: nat) returns (to: int)
      requires ValidShaft(g) && InShaft(g, h)
      ensures Unwrapped(h, remaining) >= Top(g)
      ensures to == Wrapped(g, Unwrapped(h, remaining))
    {
      MovesDown(h, remaining);
      to := h.at + h.speed * remaining;
      if to > Bottom(g) {
        var top := (g.minY - RangeY(g)) * Q8;
        var span := Bottom(g) - top + 1;
        to := top + (to - top) % span;
      }
    }

    method Render(g: Shaft, elapsed: nat)
      requires Valid(g)
      modifies this`drawn, head, speed
      ensures Valid(g)
      ensures (View(), drawn) == ColumnsAdvanced(g, random, old(View()), old(drawn), elapsed, COLUMNS)
    {
      ghost var was, drew := View(), drawn;
      for c := 0 to COLUMNS
        invariant Valid(g)
        invariant (View(), drawn) == ColumnsAdvanced(g, random, was, drew, elapsed, c)
      {
        ghost var before := View();
        assert before[c] == before[c..][0] == was[c..][0];
        var to, pace := Fall(g, head[c], speed[c], elapsed);
        head[c], speed[c] := to, pace;
        assert View() == before[c := (to, pace)];
      }
    }
  }
}
