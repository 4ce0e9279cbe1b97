/** The starlight effect: each interval every LED may turn on or off, drifting toward its target. */
module Starlight {
  import opened Arith
  import opened Cooling
  import opened Stepping

  /** Out of a hundred LEDs, how many change in one interval. */
  const CHANCE := 4

  datatype Config = Config(stepInterval: nat, smooth: bool, dualHue: bool, dualSat: bool)

  datatype Star = Star(current: Byte, target: Byte, remainder: nat, hueOffset: int, satOffset: int)

  datatype Sky = Sky(stars: seq<Star>, drawn: nat)

  type Oracle = nat -> nat

  predicate ValidConfig(cfg: Config) {
    1 <= cfg.stepInterval <= 65535
  }

  predicate ValidPeriod(period: nat) {
    1 <= period <= 65535
  }

  // ----- Drifting -----

  function Distance(s: Star): Byte {
    if s.current < s.target then s.target - s.current else s.current - s.target
  }

  /** The distance to the target decays like heat; the star keeps to its side of the target. */
  function Drifted(s: Star, elapsed: nat, period: nat): (r: Star)
    requires period > 0
    ensures Distance(r) <= Distance(s)
  {
    var left := Decay(Cell(Distance(s), s.remainder), elapsed * 255, period);
    s.(current := if s.current < s.target then s.target - left.level else s.target + left.level,
       remainder := left.remainder)
  }

  /** A star moves toward its target by 255ths of a period, never past it, and keeps everything else. */
  lemma StarsDrift(s: Star, elapsed: nat, period: nat)
    requires period > 0 && s.remainder == 0
    ensures var r, moved := Drifted(s, elapsed, period), 255 * elapsed / period;
            && r.target == s.target && r.hueOffset == s.hueOffset && r.satOffset == s.satOffset
            && r.current == if s.current <= s.target then Min(s.target, s.current + moved)
                            else Max(s.target, s.current - moved)
  {
    var start := Cell(Distance(s), 0);
    DecaySpends(start, elapsed * 255, period);
    LevelFromEnergy(start, Decay(start, elapsed * 255, period), elapsed * 255, period);
  }

  lemma DriftAdds(s: Star, x: nat, y: nat, period: nat)
    requires period > 0
    ensures Drifted(Drifted(s, x, period), y, period) == Drifted(s, x + y, period)
  {
    var start := Cell(Distance(s), s.remainder);
    var first := Decay(start, x * 255, period);
    DecayAdds(start, x * 255, y * 255, period);
    assert x * 255 + y * 255 == (x + y) * 255;
    assert Cell(Distance(Drifted(s, x, period)), first.remainder) == first;
  }

  /** `kp_eff_starlight_advance`; without smoothing stars jump, so time does nothing to them. */
  function Waited(cfg: Config, sky: Sky, elapsed: nat, period: nat): (r: Sky)
    requires period > 0
    ensures r.drawn == sky.drawn && |r.stars| == |sky.stars|
  {
    if !cfg.smooth || elapsed == 0 then sky
    else sky.(stars := seq(|sky.stars|, i requires 0 <= i < |sky.stars| => Drifted(sky.stars[i], elapsed, period)))
  }

  lemma WaitAdds(cfg: Config, sky: Sky, x: nat, y: nat, period: nat)
    requires period > 0
    ensures Waited(cfg, Waited(cfg, sky, x, period), y, period) == Waited(cfg, sky, x + y, period)
  {
    forall i | 0 <= i < |sky.stars|
      ensures Waited(cfg, Waited(cfg, sky, x, period), y, period).stars[i] == Waited(cfg, sky, x + y, period).stars[i]
    {
      DriftAdds(sky.stars[i], x, y, period);
    }
  }

  // ----- Trials -----

  function Offset(number: nat): (offset: int)
    ensures -30 <= offset <= 30
  {
    number % 61 - 30
  }

  /** An LED whose number came up, and the draws made so far. */
  function Toggled(cfg: Config, random: Oracle, s: Star, d: nat): (r: (Star, nat))
    ensures d <= r.1 <= d + 3
    ensures r.0.target == 0 <==> s.target != 0
    ensures s.target == 0 ==> 40 <= r.0.target <= 99
  {
    if s.target != 0 then (s.(target := 0, remainder := 0), d)
    else
      var hue := if cfg.dualHue then Offset(random(d + 1)) else s.hueOffset;
      var next := if cfg.dualHue then d + 2 else d + 1;
      var sat := if cfg.dualSat then Offset(random(next)) else s.satOffset;
      (Star(s.current, 40 + random(d) % 60, 0, hue, sat), if cfg.dualSat then next + 1 else next)
  }

  /** One LED's trial. */
  function Twinkled(cfg: Config, random: Oracle, s: Star, d: nat): (r: (Star, nat))
    ensures d < r.1 <= d + 4
    ensures !cfg.smooth ==> r.0.current == r.0.target
  {
    var (changed, next) := if random(d) % 100 < CHANCE then Toggled(cfg, random, s, d + 1) else (s, d + 1);
    (if cfg.smooth then changed else changed.(current := changed.target), next)
  }

  /** An LED changes only when its number is below four in a hundred; an unlit one then gets a brightness of 40 to 99
    * and a lit one none, from no loss under way, and the offsets change only where they are wanted. */
  lemma TwinkleMeans(cfg: Config, random: Oracle, s: Star, d: nat)
    ensures var (r, next) := Twinkled(cfg, random, s, d);
            && (random(d) % 100 >= 4 ==>
                  next == d + 1 && r == if cfg.smooth then s else s.(current := s.target))
            && (random(d) % 100 < 4 ==>
                  && r.remainder == 0
                  && r.target == (if s.target > 0 then 0 else 40 + random(d + 1) % 60)
                  && r.current == (if cfg.smooth then s.current else r.target)
                  && r.hueOffset == (if s.target > 0 || !cfg.dualHue then s.hueOffset else random(d + 2) % 61 - 30)
                  && r.satOffset == (if s.target > 0 || !cfg.dualSat then s.satOffset
                                     else random(if cfg.dualHue then d + 3 else d + 2) % 61 - 30)
                  && next == d + 1 + (if s.target > 0 then 0
                                      else 1 + (if cfg.dualHue then 1 else 0) + (if cfg.dualSat then 1 else 0)))
  {
  }

  /** The first `k` LEDs, in order. */
  function TriedUpTo(cfg: Config, random: Oracle, sky: Sky, k: nat): (r: Sky)
    requires k <= |sky.stars|
    ensures |r.stars| == |sky.stars| && r.drawn >= sky.drawn + k
    ensures r.stars[k..] == sky.stars[k..]
  {
    if k == 0 then sky
    else
      var before := TriedUpTo(cfg, random, sky, k - 1);
      var (star, next) := Twinkled(cfg, random, before.stars[k - 1], before.drawn);
      Sky(before.stars[k - 1 := star], next)
  }

  /** A strip without LEDs never renders; its trial only counts. */
  function Trial(cfg: Config, random: Oracle, sky: Sky): (r: Sky)
    ensures r.drawn > sky.drawn
  {
    if sky.stars == [] then sky.(drawn := sky.drawn + 1) else TriedUpTo(cfg, random, sky, |sky.stars|)
  }

  function Drawn(sky: Sky): nat {
    sky.drawn
  }

  function Twinkling(cfg: Config, random: Oracle, period: nat): Behaviour<Sky>
    requires ValidPeriod(period)
  {
    Behaviour(cfg.stepInterval, (sky: Sky, x: nat) => Waited(cfg, sky, x, period),
              (sky: Sky) => Trial(cfg, random, sky), Drawn)
  }

  lemma TwinklingIsRegular(cfg: Config, random: Oracle, period: nat)
    requires ValidConfig(cfg) && ValidPeriod(period)
    ensures Regular(Twinkling(cfg, random, period))
  {
    var b := Twinkling(cfg, random, period);
    forall sky: Sky, x: nat, y: nat ensures WaitsAdd(b, sky, x, y) {
      WaitAdds(cfg, sky, x, y, period);
    }
  }

  /** Stars, remainders, offsets and random draws do not depend on frame cadence while no frame owes more than
    * eight trials. */
  lemma {:induction false} StarlightIgnoresCadence(cfg: Config, random: Oracle, period: nat, p: Paced<Sky>,
                                                   one: seq<nat>, other: seq<nat>)
    requires ValidConfig(cfg) && ValidPeriod(period) && p.remainder < cfg.stepInterval
    requires Affordable(p.remainder, cfg.stepInterval, one) && Affordable(p.remainder, cfg.stepInterval, other)
    requires Total(one) == Total(other)
    ensures Frames(Twinkling(cfg, random, period), p, one) == Frames(Twinkling(cfg, random, period), p, other)
  {
    TwinklingIsRegular(cfg, random, period);
    PartitionIsIrrelevant(Twinkling(cfg, random, period), p, one, other);
  }

  /** A frame that owes more always shows. */
  lemma {:induction false} StarlightFrameIsExactIff(cfg: Config, random: Oracle, period: nat, p: Paced<Sky>,
                                                    elapsed: nat)
    requires ValidConfig(cfg) && ValidPeriod(period) && p.remainder < cfg.stepInterval
    ensures var b := Twinkling(cfg, random, period);
            CatchUp(b, p, elapsed, MAX_TRIALS) == Reference(b, p, elapsed)
            <==> (p.remainder + elapsed) / cfg.stepInterval <= 8
  {
    TwinklingIsRegular(cfg, random, period);
    FrameIsExactIff(Twinkling(cfg, random, period), p, elapsed);
  }

  /** The drift intervals of a frame sum to its elapsed time, even when trials are discarded. */
  lemma StarlightDriftsForTheWholeFrame(cfg: Config, random: Oracle, period: nat, p: Paced<Sky>, elapsed: nat)
    requires ValidConfig(cfg) && ValidPeriod(period) && p.remainder < cfg.stepInterval
    ensures KeepsTime(Twinkling(cfg, random, period), p, 0, elapsed, MAX_TRIALS)
  {
    WaitsSumToElapsed(Twinkling(cfg, random, period), p, 0, elapsed, MAX_TRIALS);
  }

  /** A reachable frame that differs: nine trials due at once, drawn from any generator. */
  lemma NineTrialsShow(cfg: Config, random: Oracle, period: nat, count: nat)
    requires ValidConfig(cfg) && ValidPeriod(period) && count > 0
    ensures var b := Twinkling(cfg, random, period);
            var boot := Paced(Sky(seq(count, _ => Star(0, 0, 0, 0, 0)), 0), 0);
            CatchUp(b, boot, 9 * cfg.stepInterval, MAX_TRIALS) != Reference(b, boot, 9 * cfg.stepInterval)
  {
    var boot := Paced(Sky(seq(count, _ => Star(0, 0, 0, 0, 0)), 0), 0);
    DivModUnique(9 * cfg.stepInterval, 9, 0, cfg.stepInterval);
    StarlightFrameIsExactIff(cfg, random, period, boot, 9 * cfg.stepInterval);
  }

  // ----- The effect in place -----

  predicate WaitsAs(b: Behaviour<Sky>, cfg: Config, period: nat, sky: Sky, x: nat)
    requires period > 0
  {
    b.wait(sky, x) == Waited(cfg, sky, x, period)
  }

  predicate TriesAs(b: Behaviour<Sky>, cfg: Config, random: Oracle, sky: Sky) {
    b.trial(sky) == Trial(cfg, random, sky)
  }

  /** `b` behaves, point by point, like starlight. */
  ghost predicate Twinkles(b: Behaviour<Sky>, cfg: Config, random: Oracle, period: nat)
    requires ValidPeriod(period)
  {
    && b.interval == cfg.stepInterval
    && (forall sky, x :: WaitsAs(b, cfg, period, sky, x))
    && (forall sky :: TriesAs(b, cfg, random, sky))
  }

  class Effect {
    const cfg: Config
    const random: Oracle
    const current: array<Byte>
    const target: array<Byte>
    const fadeRemainder: array<nat>
    const hueOffset: array<int>
    const satOffset: array<int>
    var stepRemainder: nat
    var drawn: nat

    ghost predicate Valid()
      reads this`stepRemainder
    {
      && ValidConfig(cfg) && current != target && hueOffset != satOffset
      && current.Length == target.Length == fadeRemainder.Length == hueOffset.Length == satOffset.Length > 0
      && stepRemainder < cfg.stepInterval
    }

    ghost function StarAt(i: nat): Star
      requires i < current.Length && i < target.Length && i < fadeRemainder.Length
      requires i < hueOffset.Length && i < satOffset.Length
      reads current, target, fadeRemainder, hueOffset, satOffset
    {
      Star(current[i], target[i], fadeRemainder[i], hueOffset[i], satOffset[i])
    }

    ghost function View(): Sky
      requires current.Length == target.Length == fadeRemainder.Length == hueOffset.Length == satOffset.Length
      reads this`drawn, current, target, fadeRemainder, hueOffset, satOffset
    {
      Sky(seq(current.Length,
              i requires 0 <= i < current.Length
                reads current, target, fadeRemainder, hueOffset, satOffset => StarAt(i)), drawn)
    }

    constructor (cfg: Config, random: Oracle, count: nat)
      requires ValidConfig(cfg) && count > 0
      ensures Valid() && this.cfg == cfg && this.random == random && stepRemainder == 0
      ensures View() == Sky(seq(count, _ => Star(0, 0, 0, 0, 0)), 0)
      ensures fresh(current) && fresh(target) && fresh(fadeRemainder) && fresh(hueOffset) && fresh(satOffset)
    {
      this.cfg, this.random := cfg, random;
      current := new Byte[count](_ => 0);
      target := new Byte[count](_ => 0);
      fadeRemainder := new nat[count](_ => 0);
      hueOffset := new int[count](_ => 0);
      satOffset := new int[count](_ => 0);
      stepRemainder, drawn := 0, 0;
    }

    method Draw() returns (number: nat)
      modifies this`drawn
      ensures number == random(old(drawn)) && drawn == old(drawn) + 1
    {
      number := random(drawn);
      drawn := drawn + 1;
    }

    method Approach(s: Star, elapsed: nat, period: nat) returns (r: Star)
      requires period > 0
      ensures r == Drifted(s, elapsed, period)
    {
      var now, goal := s.current, s.target;
      var distance := if now < goal then goal - now else now - goal;
      var numerator := elapsed * 255 + s.remainder;
      var advance := numerator / period;
      DecayIs(Cell(distance, s.remainder), elapsed * 255, period, advance, numerator % period);
      if advance >= distance {
        r := s.(current := goal, remainder := 0);
      } else {
        r := s.(current := if now < goal then now + advance else now - advance, remainder := numerator % period);
      }
    }

    method AdvanceOne(i: nat, elapsed: nat, period: nat)
      requires Valid() && period > 0 && i < current.Length
      modifies current, fadeRemainder
      ensures StarAt(i) == Drifted(old(StarAt(i)), elapsed, period)
      ensures forall k :: 0 <= k < current.Length && k != i ==> StarAt(k) == old(StarAt(k))
    {
      var next := Approach(Star(current[i], target[i], fadeRemainder[i], hueOffset[i], satOffset[i]), elapsed, period);
      current[i], fadeRemainder[i] := next.current, next.remainder;
    }

    method Advance(elapsed: nat, period: nat)
      requires Valid() && period > 0 && cfg.smooth
      modifies current, fadeRemainder
      ensures View() == Waited(cfg, old(View()), elapsed, period)
    {
      ghost var was := View();
      if elapsed == 0 {
        assert View() == was;
        return;
      }
      for i := 0 to current.Length
        invariant forall k :: 0 <= k < i ==> StarAt(k) == Drifted(was.stars[k], elapsed, period)
        invariant forall k :: i <= k < current.Length ==> StarAt(k) == was.stars[k]
      {
        AdvanceOne(i, elapsed, period);
      }
      assert View() == Waited(cfg, was, elapsed, period);
    }

    /** A lit LED turns off, an unlit one on. */
    method Toggle(i: nat)
      requires Valid() && i < current.Length
      modifies this`drawn, target, fadeRemainder, hueOffset, satOffset
      ensures (StarAt(i), drawn) == Toggled(cfg, random, old(StarAt(i)), old(drawn))
      ensures forall k :: 0 <= k < current.Length && k != i ==> StarAt(k) == old(StarAt(k))
    {
      fadeRemainder[i] := 0;
      if target[i] == 0 {
        var brightness := Draw();
        target[i] := 40 + brightness % 60;
        if cfg.dualHue {
          var hue := Draw();
          hueOffset[i] := Offset(hue);
        }
        if cfg.dualSat {
          var sat := Draw();
          satOffset[i] := Offset(sat);
        }
      } else {
        target[i] := 0;
      }
    }

    method TryOne(i: nat)
      requires Valid() && i < current.Length
      modifies this`drawn, current, target, fadeRemainder, hueOffset, satOffset
      ensures (StarAt(i), drawn) == Twinkled(cfg, random, old(StarAt(i)), old(drawn))
      ensures forall k :: 0 <= k < current.Length && k != i ==> StarAt(k) == old(StarAt(k))
    {
      ghost var s, d := StarAt(i), drawn;
      var number := Draw();
      assert StarAt(i) == s && drawn == d + 1;
      if number % 100 < CHANCE {
        Toggle(i);
        assert (StarAt(i), drawn) == Toggled(cfg, random, s, d + 1);
        assert forall k :: 0 <= k < current.Length && k != i ==> StarAt(k) == old(StarAt(k));
      }
      if !cfg.smooth {
        current[i] := target[i];
      }
    }

    method TryAll()
      requires Valid()
      modifies this`drawn, current, target, fadeRemainder, hueOffset, satOffset
      ensures View() == Trial(cfg, random, old(View()))
    {
      ghost var was := View();
      for i := 0 to current.Length
        invariant View() == TriedUpTo(cfg, random, was, i)
      {
        ghost var before := View();
        assert StarAt(i) == before.stars[i];
        TryOne(i);
        assert View().stars == before.stars[i := StarAt(i)];
      }
    }

    method Wait(elapsed: nat, period: nat, ghost b: Behaviour<Sky>)
      requires Valid() && ValidPeriod(period) && Twinkles(b, cfg, random, period)
      modifies current, fadeRemainder
      ensures View() == b.wait(old(View()), elapsed)
    {
      assert WaitsAs(b, cfg, period, View(), elapsed);
      if cfg.smooth {
        Advance(elapsed, period);
      }
    }

    method Try(period: nat, ghost b: Behaviour<Sky>)
      requires Valid() && ValidPeriod(period) && Twinkles(b, cfg, random, period)
      modifies this`drawn, current, target, fadeRemainder, hueOffset, satOffset
      ensures View() == b.trial(old(View()))
    {
      assert TriesAs(b, cfg, random, View());
      TryAll();
    }

    method Turn(untilTrial: nat, period: nat, ghost b: Behaviour<Sky>, ghost p: Paced<Sky>)
      requires Valid() && ValidPeriod(period) && Twinkles(b, cfg, random, period)
      requires View() == p.inner && p.remainder < b.interval && untilTrial == b.interval - p.remainder
      modifies this`drawn, current, target, fadeRemainder, hueOffset, satOffset
      ensures View() == Tried(b, p).inner
    {
      Wait(untilTrial, period, b);
      Try(period, b);
    }

    /** Counts the trials due, then makes them; time spent on discarded trials is not discarded. */
    method Step(elapsed: nat, period: nat, ghost b: Behaviour<Sky>)
      requires Valid() && ValidPeriod(period) && Twinkles(b, cfg, random, period)
      modifies this`stepRemainder, this`drawn, current, target, fadeRemainder, hueOffset, satOffset
      ensures Valid()
      ensures Paced(View(), stepRemainder) == CatchUp(b, Paced(old(View()), old(stepRemainder)), elapsed, MAX_TRIALS)
    {
      var interval := cfg.stepInterval;
      ghost var p := Paced(View(), stepRemainder);
      ghost var goal := CatchUp(b, p, elapsed, MAX_TRIALS);
      RemainderKeepsTime(b, p, elapsed, MAX_TRIALS);
      CountOnce(b, p, elapsed);
      var steps := Min((stepRemainder + elapsed) / interval, 8);
      var untilTrial := interval - stepRemainder;
      stepRemainder := (stepRemainder + elapsed) % interval;
      MakeTrials(steps, elapsed, untilTrial, period, b, p);
    }

    method MakeTrials(steps: nat, elapsed: nat, firstTrial: nat, period: nat, ghost b: Behaviour<Sky>,
                      ghost start: Paced<Sky>)
      requires Valid() && ValidPeriod(period) && Twinkles(b, cfg, random, period)
      requires View() == start.inner && start.remainder < b.interval && firstTrial == b.interval - start.remainder
      requires steps <= Due(b, start, elapsed)
      modifies this`drawn, current, target, fadeRemainder, hueOffset, satOffset
      ensures View() == CatchUp(b, start, elapsed, steps).inner
    {
      var remaining := elapsed;
      var untilTrial := firstTrial;
      ghost var p := start;
      for step := 0 to steps
        invariant View() == p.inner && p.remainder < b.interval && untilTrial == b.interval - p.remainder
        invariant 0 <= remaining && steps - step <= Due(b, p, remaining)
        invariant CatchUp(b, p, remaining, steps - step) == CatchUp(b, start, elapsed, steps)
      {
        CountedTurn(b, p, remaining, steps - step);
        Turn(untilTrial, period, b, p);
        remaining := remaining - untilTrial;
        untilTrial := cfg.stepInterval;
        p := Tried(b, p);
      }
      Wait(remaining, period, b);
    }

    method Render(elapsed: nat, period: nat)
      requires Valid() && ValidPeriod(period)
      modifies this`stepRemainder, this`drawn, current, target, fadeRemainder, hueOffset, satOffset
      ensures Valid()
      ensures Paced(View(), stepRemainder)
           == CatchUp(Twinkling(cfg, random, period), Paced(old(View()), old(stepRemainder)), elapsed, MAX_TRIALS)
    {
      ghost var b := Twinkling(cfg, random, period);
      assert Twinkles(b, cfg, random, period);
      Step(elapsed, period, b);
    }
  }
}
