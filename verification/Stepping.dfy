/** Effects that run a random trial every interval and catch up at most eight trials a frame. */
module Stepping {
  import opened Arith

  /** Most trials a single frame catches up. */
  const MAX_TRIALS := 8

  /** An effect's state and the part of the current interval already elapsed. */
  datatype Paced<S> = Paced(inner: S, remainder: nat)

  /** What an effect does over `elapsed` units, what it does each interval, and how many random numbers it has drawn. */
  datatype Behaviour<!S> = Behaviour(interval: nat, wait: (S, nat) -> S, trial: S -> S, drawn: S -> nat)

  predicate WaitsAdd<S(==)>(b: Behaviour<S>, s: S, x: nat, y: nat) {
    b.wait(b.wait(s, x), y) == b.wait(s, x + y)
  }

  predicate WaitsNot<S(==)>(b: Behaviour<S>, s: S) {
    b.wait(s, 0) == s
  }

  predicate TrialsDraw<S>(b: Behaviour<S>, s: S, x: nat) {
    b.drawn(b.trial(s)) > b.drawn(s) && b.drawn(b.wait(s, x)) == b.drawn(s)
  }

  /** Waiting adds up, waiting draws nothing and every trial draws. */
  ghost predicate Regular<S(!new)>(b: Behaviour<S>) {
    && b.interval > 0
    && (forall s, x, y :: WaitsAdd(b, s, x, y))
    && (forall s :: WaitsNot(b, s))
    && (forall s, x :: TrialsDraw(b, s, x))
  }

  // ----- Reference: one unit of time after another -----

  function Tick<S>(b: Behaviour<S>, p: Paced<S>): Paced<S> {
    var waited := b.wait(p.inner, 1);
    if p.remainder + 1 == b.interval then Paced(b.trial(waited), 0) else Paced(waited, p.remainder + 1)
  }

  function Reference<S>(b: Behaviour<S>, p: Paced<S>, elapsed: nat): Paced<S> {
    if elapsed == 0 then p else Tick(b, Reference(b, p, elapsed - 1))
  }

  lemma {:induction false} ReferenceAdds<S>(b: Behaviour<S>, p: Paced<S>, x: nat, y: nat)
    ensures Reference(b, p, x + y) == Reference(b, Reference(b, p, x), y)
  {
    if y > 0 {
      ReferenceAdds(b, p, x, y - 1);
      assert Reference(b, p, x + y) == Tick(b, Reference(b, p, x + (y - 1)));
    }
  }

  lemma {:induction false} ReferenceWaits<S(!new)>(b: Behaviour<S>, p: Paced<S>, elapsed: nat)
    requires Regular(b) && p.remainder + elapsed < b.interval
    ensures Reference(b, p, elapsed) == Paced(b.wait(p.inner, elapsed), p.remainder + elapsed)
  {
    if elapsed == 0 {
      assert WaitsNot(b, p.inner);
    } else {
      ReferenceWaits(b, p, elapsed - 1);
      assert WaitsAdd(b, p.inner, elapsed - 1, 1);
    }
  }

  lemma LastTick<S(!new)>(b: Behaviour<S>, p: Paced<S>, until: nat)
    requires Regular(b) && until == b.interval - p.remainder && until > 0
    ensures Tick(b, Paced(b.wait(p.inner, until - 1), p.remainder + (until - 1)))
         == Paced(b.trial(b.wait(p.inner, until)), 0)
  {
    assert WaitsAdd(b, p.inner, until - 1, 1);
  }

  /** The state right after the trial that ends the current interval. */
  function Tried<S>(b: Behaviour<S>, p: Paced<S>): Paced<S>
    requires p.remainder < b.interval
  {
    Paced(b.trial(b.wait(p.inner, b.interval - p.remainder)), 0)
  }

  lemma ReferenceTurn<S(!new)>(b: Behaviour<S>, p: Paced<S>, elapsed: nat)
    requires Regular(b) && p.remainder < b.interval && elapsed >= b.interval - p.remainder
    ensures Reference(b, p, elapsed) == Reference(b, Tried(b, p), elapsed - (b.interval - p.remainder))
  {
    var until := b.interval - p.remainder;
    ReferenceWaits(b, p, until - 1);
    LastTick(b, p, until);
    ReferenceAdds(b, p, until, elapsed - until);
  }

  // ----- The catch-up loop -----

  function CatchUp<S>(b: Behaviour<S>, p: Paced<S>, elapsed: nat, trials: nat): (r: Paced<S>)
    requires p.remainder < b.interval
    ensures r.remainder < b.interval
    decreases trials
  {
    var until := b.interval - p.remainder;
    if trials > 0 && elapsed >= until then
      CatchUp(b, Tried(b, p), elapsed - until, trials - 1)
    else Paced(b.wait(p.inner, elapsed), (p.remainder + elapsed) % b.interval)
  }

  /** One turn of the loop, and what follows its last one. */
  lemma CatchUpTurn<S>(b: Behaviour<S>, p: Paced<S>, elapsed: nat, trials: nat)
    requires p.remainder < b.interval
    ensures trials > 0 && elapsed >= b.interval - p.remainder ==>
              CatchUp(b, p, elapsed, trials)
              == CatchUp(b, Paced(b.trial(b.wait(p.inner, b.interval - p.remainder)), 0),
                         elapsed - (b.interval - p.remainder), trials - 1)
    ensures trials == 0 || elapsed < b.interval - p.remainder ==>
              CatchUp(b, p, elapsed, trials)
              == Paced(b.wait(p.inner, elapsed), (p.remainder + elapsed) % b.interval)
  {
  }

  /** Trials that fall due within `elapsed`. */
  function Due<S>(b: Behaviour<S>, p: Paced<S>, elapsed: nat): nat
    requires b.interval > 0
  {
    (p.remainder + elapsed) / b.interval
  }

  lemma DueSteps<S>(b: Behaviour<S>, p: Paced<S>, next: Paced<S>, elapsed: nat)
    requires p.remainder < b.interval && next.remainder == 0
    ensures Due(b, p, elapsed) >= 1 <==> elapsed >= b.interval - p.remainder
    ensures elapsed >= b.interval - p.remainder ==>
              && Due(b, next, elapsed - (b.interval - p.remainder)) == Due(b, p, elapsed) - 1
              && (elapsed - (b.interval - p.remainder)) % b.interval == (p.remainder + elapsed) % b.interval
  {
    DivAtLeast(p.remainder + elapsed, 1, b.interval);
    ModShift(elapsed - (b.interval - p.remainder), 1, b.interval);
  }

  /** Counting the due trials beforehand makes no difference. */
  lemma {:induction false} CatchUpCounts<S>(b: Behaviour<S>, p: Paced<S>, elapsed: nat, trials: nat)
    requires p.remainder < b.interval && Due(b, p, elapsed) <= trials
    ensures CatchUp(b, p, elapsed, trials) == CatchUp(b, p, elapsed, Due(b, p, elapsed))
    decreases trials
  {
    DueSteps(b, p, Tried(b, p), elapsed);
    if elapsed >= b.interval - p.remainder {
      CatchUpCounts(b, Tried(b, p), elapsed - (b.interval - p.remainder), trials - 1);
    }
  }

  lemma {:induction false} CountOnce<S>(b: Behaviour<S>, p: Paced<S>, elapsed: nat)
    requires p.remainder < b.interval
    ensures CatchUp(b, p, elapsed, MAX_TRIALS) == CatchUp(b, p, elapsed, Min(Due(b, p, elapsed), MAX_TRIALS))
  {
    if Due(b, p, elapsed) <= MAX_TRIALS {
      CatchUpCounts(b, p, elapsed, MAX_TRIALS);
    }
  }

  /** One turn of a loop that counted beforehand. */
  lemma CountedTurn<S>(b: Behaviour<S>, p: Paced<S>, elapsed: nat, trials: nat)
    requires p.remainder < b.interval && 0 < trials <= Due(b, p, elapsed)
    ensures var until := b.interval - p.remainder;
            && elapsed >= until
            && trials - 1 <= Due(b, Tried(b, p), elapsed - until)
            && CatchUp(b, p, elapsed, trials) == CatchUp(b, Tried(b, p), elapsed - until, trials - 1)
  {
    DueSteps(b, p, Tried(b, p), elapsed);
  }

  /** The new remainder is what the clock says, even when trials were discarded. */
  lemma {:induction false} RemainderKeepsTime<S>(b: Behaviour<S>, p: Paced<S>, elapsed: nat, trials: nat)
    requires p.remainder < b.interval
    ensures CatchUp(b, p, elapsed, trials).remainder == (p.remainder + elapsed) % b.interval
    decreases trials
  {
    var until := b.interval - p.remainder;
    if trials > 0 && elapsed >= until {
      var next := Tried(b, p);
      DueSteps(b, p, next, elapsed);
      RemainderKeepsTime(b, next, elapsed - until, trials - 1);
    }
  }

  /** While the trials suffice the loop is the unit-by-unit reference: same state, same draws. */
  lemma {:induction false} CatchUpIsExact<S(!new)>(b: Behaviour<S>, p: Paced<S>, elapsed: nat, trials: nat)
    requires Regular(b) && p.remainder < b.interval && Due(b, p, elapsed) <= trials
    ensures CatchUp(b, p, elapsed, trials) == Reference(b, p, elapsed)
    decreases trials
  {
    var until := b.interval - p.remainder;
    var next := Tried(b, p);
    DueSteps(b, p, next, elapsed);
    if elapsed >= until {
      CatchUpIsExact(b, next, elapsed - until, trials - 1);
      ReferenceTurn(b, p, elapsed);
    } else {
      ReferenceWaits(b, p, elapsed);
      DivModUnique(p.remainder + elapsed, 0, p.remainder + elapsed, b.interval);
    }
  }

  lemma {:induction false} ReferenceDraws<S(!new)>(b: Behaviour<S>, p: Paced<S>, elapsed: nat)
    requires Regular(b)
    ensures b.drawn(Reference(b, p, elapsed).inner) >= b.drawn(p.inner)
  {
    if elapsed > 0 {
      ReferenceDraws(b, p, elapsed - 1);
      var before := Reference(b, p, elapsed - 1).inner;
      assert TrialsDraw(b, before, 1);
      assert TrialsDraw(b, b.wait(before, 1), 1);
    }
  }

  /** Once trials are discarded the loop has drawn fewer random numbers than the reference. */
  lemma {:induction false} DiscardedTrialsShow<S(!new)>(b: Behaviour<S>, p: Paced<S>, elapsed: nat, trials: nat)
    requires Regular(b) && p.remainder < b.interval && Due(b, p, elapsed) > trials
    ensures b.drawn(CatchUp(b, p, elapsed, trials).inner) < b.drawn(Reference(b, p, elapsed).inner)
    decreases trials
  {
    var until := b.interval - p.remainder;
    var next := Tried(b, p);
    DueSteps(b, p, next, elapsed);
    ReferenceTurn(b, p, elapsed);
    if trials > 0 {
      DiscardedTrialsShow(b, next, elapsed - until, trials - 1);
    } else {
      FirstTrialDraws(b, p, until, elapsed);
      ReferenceDraws(b, next, elapsed - until);
    }
  }

  lemma FirstTrialDraws<S(!new)>(b: Behaviour<S>, p: Paced<S>, until: nat, elapsed: nat)
    requires Regular(b)
    ensures b.drawn(b.wait(p.inner, elapsed)) < b.drawn(b.trial(b.wait(p.inner, until)))
  {
    assert TrialsDraw(b, p.inner, until) && TrialsDraw(b, p.inner, elapsed);
    assert TrialsDraw(b, b.wait(p.inner, until), 0);
  }

  /** A frame agrees with the reference exactly when no more than eight trials were due. */
  lemma {:induction false} FrameIsExactIff<S(!new)>(b: Behaviour<S>, p: Paced<S>, elapsed: nat)
    requires Regular(b) && p.remainder < b.interval
    ensures CatchUp(b, p, elapsed, MAX_TRIALS) == Reference(b, p, elapsed) <==> Due(b, p, elapsed) <= MAX_TRIALS
  {
    if Due(b, p, elapsed) <= MAX_TRIALS {
      CatchUpIsExact(b, p, elapsed, MAX_TRIALS);
    } else {
      DiscardedTrialsShow(b, p, elapsed, MAX_TRIALS);
    }
  }

  /** A state together with the time spent waiting in it. */
  datatype Clocked<S> = Clocked(inner: S, spent: nat)

  /** The same behaviour with a clock that runs while it waits and stands still during trials. */
  function Timed<S>(b: Behaviour<S>): Behaviour<Clocked<S>> {
    Behaviour(b.interval,
              (c: Clocked<S>, x: nat) => Clocked(b.wait(c.inner, x), c.spent + x),
              (c: Clocked<S>) => Clocked(b.trial(c.inner), c.spent),
              (c: Clocked<S>) => b.drawn(c.inner))
  }

  /** A clock carried through a frame reads the elapsed time, and carrying it changes nothing else. */
  ghost predicate KeepsTime<S>(b: Behaviour<S>, p: Paced<S>, spent: nat, elapsed: nat, trials: nat)
    requires p.remainder < b.interval
  {
    var timed := CatchUp(Timed(b), Paced(Clocked(p.inner, spent), p.remainder), elapsed, trials);
    var plain := CatchUp(b, p, elapsed, trials);
    timed == Paced(Clocked(plain.inner, spent + elapsed), plain.remainder)
  }

  /** Discarded trials or not, the waits of a frame sum to its elapsed time, and timing them changes nothing. */
  lemma {:induction false} WaitsSumToElapsed<S>(b: Behaviour<S>, p: Paced<S>, spent: nat, elapsed: nat, trials: nat)
    requires p.remainder < b.interval
    ensures KeepsTime(b, p, spent, elapsed, trials)
    decreases trials
  {
    var until := b.interval - p.remainder;
    if trials > 0 && elapsed >= until {
      WaitsSumToElapsed(b, Tried(b, p), spent + until, elapsed - until, trials - 1);
      assert Tried(Timed(b), Paced(Clocked(p.inner, spent), p.remainder))
          == Paced(Clocked(Tried(b, p).inner, spent + until), 0);
    }
  }

  // ----- Any cadence -----

  function Frames<S>(b: Behaviour<S>, p: Paced<S>, frames: seq<nat>): Paced<S>
    requires p.remainder < b.interval
    decreases |frames|
  {
    if frames == [] then p else Frames(b, CatchUp(b, p, frames[0], MAX_TRIALS), frames[1..])
  }

  /** No frame has to catch up more than eight trials. */
  predicate Affordable(remainder: nat, interval: nat, frames: seq<nat>)
    requires interval > 0
    decreases |frames|
  {
    frames == [] ||
    ((remainder + frames[0]) / interval <= MAX_TRIALS
     && Affordable((remainder + frames[0]) % interval, interval, frames[1..]))
  }

  lemma {:induction false} FramesFollowTheReference<S(!new)>(b: Behaviour<S>, p: Paced<S>, frames: seq<nat>)
    requires Regular(b) && p.remainder < b.interval && Affordable(p.remainder, b.interval, frames)
    ensures Frames(b, p, frames) == Reference(b, p, Total(frames))
    decreases |frames|
  {
    if frames != [] {
      CatchUpIsExact(b, p, frames[0], MAX_TRIALS);
      RemainderKeepsTime(b, p, frames[0], MAX_TRIALS);
      FramesFollowTheReference(b, CatchUp(b, p, frames[0], MAX_TRIALS), frames[1..]);
      ReferenceAdds(b, p, frames[0], Total(frames[1..]));
    }
  }

  /** Any two affordable ways of slicing the same time leave the same state, having drawn the same numbers. */
  lemma {:induction false} PartitionIsIrrelevant<S(!new)>(b: Behaviour<S>, p: Paced<S>, one: seq<nat>, other: seq<nat>)
    requires Regular(b) && p.remainder < b.interval
    requires Affordable(p.remainder, b.interval, one) && Affordable(p.remainder, b.interval, other)
    requires Total(one) == Total(other)
    ensures Frames(b, p, one) == Frames(b, p, other)
  {
    FramesFollowTheReference(b, p, one);
    FramesFollowTheReference(b, p, other);
  }
}
