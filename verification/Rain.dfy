/** The rain effect: keys lit at random intervals, each fading on its own. */
module Rain {
  import opened Arith
  import opened Cooling
  import opened Stepping

  const HUE_MAX := 360
  const SAT_MAX := 100
  const BRIGHT := 255

  /** Out of a hundred intervals, how many light a key. */
  const CHANCE := 35

  /** Hue nudges per period in the drops mode. */
  const NUDGES_PER_PERIOD := 64

  datatype Mode = Pixel | Flow | Jellybean | Drops

  datatype Config = Config(mode: Mode, stepInterval: nat)

  /** The effect's colour and period while a frame renders. */
  datatype Preset = Preset(hue: nat, sat: nat, period: nat)

  datatype Drop = Drop(cell: Cell, hue: nat, sat: nat)

  datatype Field = Field(drops: seq<Drop>, flow: nat, drawn: nat)

  /** The random number generator, as the sequence of numbers it returns. */
  type Oracle = nat -> nat

  predicate ValidConfig(cfg: Config) {
    1 <= cfg.stepInterval <= 65535
  }

  predicate ValidPreset(p: Preset) {
    p.hue < HUE_MAX && p.sat <= SAT_MAX && 1 <= p.period <= 65535
  }

  // ----- One frame's building blocks -----

  function FadedDrop(d: Drop, elapsed: nat, period: nat): Drop
    requires period > 0
  {
    d.(cell := Decay(d.cell, elapsed * 255, period))
  }

  /** `kp_eff_rain_fade`. */
  function Faded(f: Field, elapsed: nat, period: nat): Field
    requires period > 0
  {
    if elapsed == 0 then f
    else f.(drops := seq(|f.drops|, i requires 0 <= i < |f.drops| => FadedDrop(f.drops[i], elapsed, period)))
  }

  lemma FadeAdds(f: Field, x: nat, y: nat, period: nat)
    requires period > 0
    ensures Faded(Faded(f, x, period), y, period) == Faded(f, x + y, period)
  {
    forall i | 0 <= i < |f.drops|
      ensures Faded(Faded(f, x, period), y, period).drops[i] == Faded(f, x + y, period).drops[i]
    {
      DecayAdds(f.drops[i].cell, x * 255, y * 255, period);
      assert x * 255 + y * 255 == (x + y) * 255;
    }
  }

  /** Drops keep their colour and lose brightness linearly, all of it in one period. */
  lemma DropsFade(f: Field, elapsed: nat, period: nat, i: nat)
    requires period > 0 && i < |f.drops|
    ensures var before, after := f.drops[i], Faded(f, elapsed, period).drops[i];
            && after.hue == before.hue && after.sat == before.sat
            && (elapsed == 0 ==> after == before)
            && (elapsed > 0 ==>
                  && after.cell.remainder < period
                  && Energy(after.cell, period) == Max(0, Energy(before.cell, period) - 255 * elapsed))
            && (before.cell.remainder == 0 ==>
                  after.cell.level == Max(0, before.cell.level - 255 * elapsed / period))
  {
    if elapsed > 0 {
      DecaySpends(f.drops[i].cell, elapsed * 255, period);
      if f.drops[i].cell.remainder == 0 {
        LevelFromEnergy(f.drops[i].cell, Faded(f, elapsed, period).drops[i].cell, elapsed * 255, period);
      }
    } else {
      DivModUnique(0, 0, 0, period);
    }
  }

  function Landed(f: Field, led: nat, hue: nat, sat: nat): Field
    requires led < |f.drops|
  {
    f.(drops := f.drops[led := Drop(Cell(BRIGHT, 0), hue, sat)])
  }

  /** What one interval brings; an unlit interval still draws the number that decided so. */
  function Trial(cfg: Config, preset: Preset, random: Oracle, f: Field): Field {
    var n, d := |f.drops|, f.drawn;
    if n == 0 then f.(drawn := d + 1)
    else if cfg.mode.Flow? then
      var led := (f.flow + 1) % n;
      Landed(f, led, random(d) % HUE_MAX, preset.sat).(flow := led, drawn := d + 1)
    else if random(d) % 100 >= CHANCE then f.(drawn := d + 1)
    else
      var led, hue := random(d + 1) % n, random(d + 2) % HUE_MAX;
      if cfg.mode.Jellybean? then Landed(f, led, hue, random(d + 3) % SAT_MAX).(drawn := d + 4)
      else Landed(f, led, hue, preset.sat).(drawn := d + 3)
  }

  /** A trial that lights a key, drop by drop and draw by draw. */
  lemma LitTrial(cfg: Config, preset: Preset, random: Oracle, f: Field, d: nat)
    requires f.drops != [] && !cfg.mode.Flow? && random(d) % 100 < CHANCE
    ensures var led, hue := random(d + 1) % |f.drops|, random(d + 2) % HUE_MAX;
            var jelly := cfg.mode.Jellybean?;
            Trial(cfg, preset, random, f.(drawn := d))
            == Landed(f.(drawn := d + if jelly then 4 else 3), led, hue,
                      if jelly then random(d + 3) % SAT_MAX else preset.sat)
  {
  }

  /** `after` differs from `before` in one key: fully lit, its fade fresh, in range of the colour wheel. */
  predicate LightsOne(preset: Preset, before: Field, after: Field, led: nat) {
    && led < |before.drops| == |after.drops|
    && after.drops == before.drops[led := after.drops[led]]
    && after.drops[led].cell == Cell(BRIGHT, 0) && after.drops[led].hue < HUE_MAX
    && (after.drops[led].sat == preset.sat || after.drops[led].sat < SAT_MAX)
  }

  /** A trial lights one key, or leaves every key alone; flow always lights the next along the chain. */
  lemma TrialLightsOneKey(cfg: Config, preset: Preset, random: Oracle, f: Field)
    requires f.drops != []
    ensures var t := Trial(cfg, preset, random, f);
            && (cfg.mode.Flow? ==> LightsOne(preset, f, t, (f.flow + 1) % |f.drops|))
            && (!cfg.mode.Flow? && random(f.drawn) % 100 < 35 ==>
                  LightsOne(preset, f, t, random(f.drawn + 1) % |f.drops|))
            && (!cfg.mode.Flow? && random(f.drawn) % 100 >= 35 ==> t.drops == f.drops)
  {
  }

  /** A flow trial: the next key along the chain, in a random hue and the effect's saturation, for one draw. */
  lemma FlowTrial(cfg: Config, preset: Preset, random: Oracle, f: Field)
    requires f.drops != [] && cfg.mode.Flow?
    ensures var t, led := Trial(cfg, preset, random, f), (f.flow + 1) % |f.drops|;
            && t.flow == led && t.drawn == f.drawn + 1
            && t.drops == f.drops[led := Drop(Cell(255, 0), random(f.drawn) % 360, preset.sat)]
  {
  }

  /** A nudge gives one random key a hue up to two eighths below the effect's and keeps everything else. */
  lemma NudgeTouchesOneHue(preset: Preset, random: Oracle, f: Field)
    requires f.drops != [] && preset.hue < HUE_MAX
    ensures var t, led := Nudge(preset, random, f), random(f.drawn) % |f.drops|;
            && t.flow == f.flow && t.drawn == f.drawn + 2 && |t.drops| == |f.drops|
            && (forall i :: 0 <= i < |f.drops| && i != led ==> t.drops[i] == f.drops[i])
            && t.drops[led].cell == f.drops[led].cell && t.drops[led].sat == f.drops[led].sat
            && t.drops[led].hue == (preset.hue - 45 * (random(f.drawn + 1) % 3)) % 360
  {
    var hue := preset.hue - 45 * (random(f.drawn + 1) % 3);
    if hue < 0 {
      DivModUnique(hue, -1, hue + 360, 360);
    } else {
      DivModUnique(hue, 0, hue, 360);
    }
  }

  /** Downward by up to two eighths of the wheel, wrapping below zero. */
  function NudgedHue(base: nat, number: nat): (hue: nat)
    requires base < HUE_MAX
    ensures hue < HUE_MAX
    ensures exists steps :: 0 <= steps <= 2 && (hue + steps * 45 - base) % HUE_MAX == 0
  {
    var steps := number % 3;
    var hue: int := base - 45 * steps;
    assert (hue + steps * 45 - base) % HUE_MAX == 0;
    assert (hue + HUE_MAX + steps * 45 - base) % HUE_MAX == 0;
    if hue < 0 then hue + HUE_MAX else hue
  }

  function Nudge(preset: Preset, random: Oracle, f: Field): Field
    requires preset.hue < HUE_MAX
  {
    var n, d := |f.drops|, f.drawn;
    if n == 0 then f.(drawn := d + 1)
    else
      var led := random(d) % n;
      f.(drops := f.drops[led := f.drops[led].(hue := NudgedHue(preset.hue, random(d + 1)))], drawn := d + 2)
  }

  // ----- Rain as an effect that steps -----

  function Drawn(f: Field): nat {
    f.drawn
  }

  /** Pixel, flow and jellybean: an interval of milliseconds, fading in between. */
  function Falling(cfg: Config, preset: Preset, random: Oracle): Behaviour<Field>
    requires ValidPreset(preset)
  {
    Behaviour(cfg.stepInterval, (f: Field, x: nat) => Faded(f, x, preset.period),
              (f: Field) => Trial(cfg, preset, random, f), Drawn)
  }

  /** Drops: an interval of a period, in units of which 64 pass each millisecond. */
  function Nudging(preset: Preset, random: Oracle): Behaviour<Field>
    requires ValidPreset(preset)
  {
    Behaviour(preset.period, (f: Field, x: nat) => f, (f: Field) => Nudge(preset, random, f), Drawn)
  }

  lemma TrialDraws(cfg: Config, preset: Preset, random: Oracle, f: Field)
    ensures f.drawn < Trial(cfg, preset, random, f).drawn <= f.drawn + 4
  {
  }

  lemma FallingIsRegular(cfg: Config, preset: Preset, random: Oracle)
    requires ValidConfig(cfg) && ValidPreset(preset)
    ensures Regular(Falling(cfg, preset, random))
  {
    var b := Falling(cfg, preset, random);
    forall f: Field, x: nat, y: nat ensures WaitsAdd(b, f, x, y) {
      FadeAdds(f, x, y, preset.period);
    }
    forall f: Field, x: nat ensures TrialsDraw(b, f, x) {
      TrialDraws(cfg, preset, random, f);
    }
  }

  lemma NudgingIsRegular(preset: Preset, random: Oracle)
    requires ValidPreset(preset)
    ensures Regular(Nudging(preset, random))
  {
  }

  /** Brightness, remainders, colours and random draws do not depend on frame cadence while no frame owes more
    * than eight steps. */
  lemma {:induction false} RainIgnoresCadence(cfg: Config, preset: Preset, random: Oracle, p: Paced<Field>,
                                              one: seq<nat>, other: seq<nat>)
    requires ValidConfig(cfg) && ValidPreset(preset) && p.remainder < cfg.stepInterval
    requires Affordable(p.remainder, cfg.stepInterval, one) && Affordable(p.remainder, cfg.stepInterval, other)
    requires Total(one) == Total(other)
    ensures Frames(Falling(cfg, preset, random), p, one) == Frames(Falling(cfg, preset, random), p, other)
  {
    FallingIsRegular(cfg, preset, random);
    PartitionIsIrrelevant(Falling(cfg, preset, random), p, one, other);
  }

  /** And a frame that owes more always shows: it has drawn too few numbers. */
  lemma {:induction false} RainFrameIsExactIff(cfg: Config, preset: Preset, random: Oracle, p: Paced<Field>,
                                               elapsed: nat)
    requires ValidConfig(cfg) && ValidPreset(preset) && p.remainder < cfg.stepInterval
    ensures var b := Falling(cfg, preset, random);
            CatchUp(b, p, elapsed, MAX_TRIALS) == Reference(b, p, elapsed)
            <==> (p.remainder + elapsed) / cfg.stepInterval <= 8
  {
    FallingIsRegular(cfg, preset, random);
    FrameIsExactIff(Falling(cfg, preset, random), p, elapsed);
  }

  /** The fade intervals of a frame sum to its elapsed time, even when steps are discarded. */
  lemma RainFadesForTheWholeFrame(cfg: Config, preset: Preset, random: Oracle, p: Paced<Field>, elapsed: nat)
    requires ValidConfig(cfg) && ValidPreset(preset) && p.remainder < cfg.stepInterval
    ensures KeepsTime(Falling(cfg, preset, random), p, 0, elapsed, MAX_TRIALS)
  {
    WaitsSumToElapsed(Falling(cfg, preset, random), p, 0, elapsed, MAX_TRIALS);
  }

  /** Hues and draws of the drops mode do not depend on frame cadence while no frame owes more than eight nudges. */
  lemma {:induction false} DropsIgnoreCadence(preset: Preset, random: Oracle, p: Paced<Field>, one: seq<nat>,
                                              other: seq<nat>)
    requires ValidPreset(preset) && p.remainder < preset.period
    requires Affordable(p.remainder, preset.period, InNudgeUnits(one))
    requires Affordable(p.remainder, preset.period, InNudgeUnits(other))
    requires Total(one) == Total(other)
    ensures Frames(Nudging(preset, random), p, InNudgeUnits(one))
         == Frames(Nudging(preset, random), p, InNudgeUnits(other))
  {
    NudgingIsRegular(preset, random);
    UnitsTotal(one);
    UnitsTotal(other);
    PartitionIsIrrelevant(Nudging(preset, random), p, InNudgeUnits(one), InNudgeUnits(other));
  }

  /** And exactly then: a drops frame that owes more has drawn too few numbers. */
  lemma {:induction false} DropsFrameIsExactIff(preset: Preset, random: Oracle, p: Paced<Field>, elapsed: nat)
    requires ValidPreset(preset) && p.remainder < preset.period
    ensures var b := Nudging(preset, random);
            CatchUp(b, p, elapsed * NUDGES_PER_PERIOD, MAX_TRIALS) == Reference(b, p, elapsed * NUDGES_PER_PERIOD)
            <==> (p.remainder + 64 * elapsed) / preset.period <= 8
  {
    NudgingIsRegular(preset, random);
    FrameIsExactIff(Nudging(preset, random), p, elapsed * NUDGES_PER_PERIOD);
  }

  /** Frames in the units of the drops mode. */
  function InNudgeUnits(frames: seq<nat>): (units: seq<nat>)
    ensures |units| == |frames|
  {
    if frames == [] then [] else [frames[0] * NUDGES_PER_PERIOD] + InNudgeUnits(frames[1..])
  }

  lemma {:induction false} UnitsTotal(frames: seq<nat>)
    ensures Total(InNudgeUnits(frames)) == Total(frames) * NUDGES_PER_PERIOD
  {
    if frames != [] {
      UnitsTotal(frames[1..]);
      assert InNudgeUnits(frames)[1..] == InNudgeUnits(frames[1..]);
    }
  }

  /** A reachable frame that differs: nine steps due at once, drawn from any generator. */
  lemma NineStepsShow(cfg: Config, preset: Preset, random: Oracle, count: nat)
    requires ValidConfig(cfg) && ValidPreset(preset) && count > 0
    ensures var b := Falling(cfg, preset, random);
            var boot := Paced(Field(seq(count, _ => Drop(Cell(0, 0), 0, 0)), 0, 0), 0);
            CatchUp(b, boot, 9 * cfg.stepInterval, MAX_TRIALS) != Reference(b, boot, 9 * cfg.stepInterval)
  {
    var boot := Paced(Field(seq(count, _ => Drop(Cell(0, 0), 0, 0)), 0, 0), 0);
    DivModUnique(9 * cfg.stepInterval, 9, 0, cfg.stepInterval);
    RainFrameIsExactIff(cfg, preset, random, boot, 9 * cfg.stepInterval);
  }

  // ----- The effect in place -----

  predicate FadesAs(b: Behaviour<Field>, period: nat, f: Field, x: nat)
    requires period > 0
  {
    b.wait(f, x) == Faded(f, x, period)
  }

  predicate TriesAs(b: Behaviour<Field>, cfg: Config, preset: Preset, random: Oracle, f: Field) {
    b.trial(f) == Trial(cfg, preset, random, f)
  }

  /** `b` behaves, point by point, like pixel, flow or jellybean rain. */
  ghost predicate Falls(b: Behaviour<Field>, cfg: Config, preset: Preset, random: Oracle)
    requires ValidPreset(preset)
  {
    && b.interval == cfg.stepInterval
    && (forall f, x :: FadesAs(b, preset.period, f, x))
    && (forall f :: TriesAs(b, cfg, preset, random, f))
  }

  predicate NudgesAs(b: Behaviour<Field>, preset: Preset, random: Oracle, f: Field, x: nat)
    requires preset.hue < HUE_MAX
  {
    b.trial(b.wait(f, x)) == Nudge(preset, random, f)
  }

  /** `b` behaves, point by point, like the drops mode. */
  ghost predicate Nudges(b: Behaviour<Field>, preset: Preset, random: Oracle)
    requires ValidPreset(preset)
  {
    b.interval == preset.period && forall f, x :: NudgesAs(b, preset, random, f, x)
  }

  predicate Idles(b: Behaviour<Field>, f: Field, x: nat) {
    b.wait(f, x) == f
  }

  class Effect {
    const cfg: Config
    const random: Oracle
    const level: array<Byte>
    const fadeRemainder: array<nat>
    const hue: array<nat>
    const sat: array<nat>
    var stepRemainder: nat
    var flow: nat
    var drawn: nat

    ghost predicate Valid()
      reads this`stepRemainder
    {
      && ValidConfig(cfg)
      && level.Length == fadeRemainder.Length == hue.Length == sat.Length > 0
      && hue != sat && hue != fadeRemainder && sat != fadeRemainder
      && stepRemainder < cfg.stepInterval
    }

    ghost function DropAt(i: nat): Drop
      requires i < level.Length && i < fadeRemainder.Length && i < hue.Length && i < sat.Length
      reads level, fadeRemainder, hue, sat
    {
      Drop(Cell(level[i], fadeRemainder[i]), hue[i], sat[i])
    }

    ghost function View(): Field
      requires level.Length == fadeRemainder.Length == hue.Length == sat.Length
      reads this`flow, this`drawn, level, fadeRemainder, hue, sat
    {
      Field(seq(level.Length, i requires 0 <= i < level.Length reads level, fadeRemainder, hue, sat => DropAt(i)),
            flow, drawn)
    }

    constructor (cfg: Config, random: Oracle, count: nat)
      requires ValidConfig(cfg) && count > 0
      ensures Valid() && this.cfg == cfg && this.random == random && stepRemainder == 0
      ensures View() == Field(seq(count, _ => Drop(Cell(0, 0), 0, 0)), 0, 0)
      ensures fresh(level) && fresh(fadeRemainder) && fresh(hue) && fresh(sat)
    {
      this.cfg, this.random := cfg, random;
      level := new Byte[count](_ => 0);
      fadeRemainder := new nat[count](_ => 0);
      hue := new nat[count](_ => 0);
      sat := new nat[count](_ => 0);
      stepRemainder, flow, drawn := 0, 0, 0;
    }

    method Draw() returns (number: nat)
      requires Valid()
      modifies this`drawn
      ensures number == random(old(drawn)) && drawn == old(drawn) + 1
      ensures View() == old(View()).(drawn := drawn)
    {
      ghost var was := View();
      number := random(drawn);
      drawn := drawn + 1;
      assert View().drops == was.drops;
    }

    method Fade(elapsed: nat, period: nat)
      requires Valid() && period > 0
      modifies level, fadeRemainder
      ensures View() == Faded(old(View()), elapsed, period)
    {
      if elapsed == 0 {
        return;
      }
      ghost var was := View();
      for i := 0 to level.Length
        invariant forall k :: 0 <= k < i ==> DropAt(k) == FadedDrop(was.drops[k], elapsed, period)
        invariant forall k :: i <= k < level.Length ==> DropAt(k) == was.drops[k]
      {
        var next := Decay(Cell(level[i], fadeRemainder[i]), elapsed * 255, period);
        level[i], fadeRemainder[i] := next.level, next.remainder;
      }
      assert View() == Faded(was, elapsed, period);
    }

    method Land(led: nat, newHue: nat, newSat: nat)
      requires Valid() && led < level.Length
      modifies level, fadeRemainder, hue, sat
      ensures View() == Landed(old(View()), led, newHue, newSat)
    {
      ghost var was := View();
      level[led], fadeRemainder[led], hue[led], sat[led] := BRIGHT, 0, newHue, newSat;
      assert View() == Landed(was, led, newHue, newSat);
    }

    method AttemptFlow(preset: Preset)
      requires Valid() && cfg.mode.Flow?
      modifies this`flow, this`drawn, level, fadeRemainder, hue, sat
      ensures View() == Trial(cfg, preset, random, old(View()))
    {
      flow := (flow + 1) % level.Length;
      var number := Draw();
      Land(flow, number % HUE_MAX, preset.sat);
    }

    method AttemptRandom(preset: Preset)
      requires Valid() && (cfg.mode.Pixel? || cfg.mode.Jellybean?)
      modifies this`drawn, level, fadeRemainder, hue, sat
      ensures View() == Trial(cfg, preset, random, old(View()))
    {
      var number := Draw();
      if number % 100 < CHANCE {
        LandSomewhere(preset);
      }
    }

    method LandSomewhere(preset: Preset)
      requires Valid() && drawn >= 1 && random(drawn - 1) % 100 < CHANCE && (cfg.mode.Pixel? || cfg.mode.Jellybean?)
      modifies this`drawn, level, fadeRemainder, hue, sat
      ensures View() == Trial(cfg, preset, random, old(View().(drawn := drawn - 1)))
    {
      ghost var was, first := View(), drawn;
      var led, shade := Place();
      var newSat := preset.sat;
      if cfg.mode.Jellybean? {
        var wash := Draw();
        newSat := wash % SAT_MAX;
      }
      assert View() == was.(drawn := drawn);
      LitTrial(cfg, preset, random, was, first - 1);
      Land(led, shade, newSat);
    }

    method Place() returns (led: nat, shade: nat)
      requires Valid()
      modifies this`drawn
      ensures drawn == old(drawn) + 2 && View() == old(View()).(drawn := drawn)
      ensures led == random(old(drawn)) % level.Length && shade == random(old(drawn) + 1) % HUE_MAX
    {
      var place := Draw();
      var number := Draw();
      led, shade := place % level.Length, number % HUE_MAX;
    }

    method Attempt(preset: Preset)
      requires Valid() && ValidPreset(preset) && !cfg.mode.Drops?
      modifies this`flow, this`drawn, level, fadeRemainder, hue, sat
      ensures View() == Trial(cfg, preset, random, old(View()))
    {
      if cfg.mode.Flow? {
        AttemptFlow(preset);
      } else {
        AttemptRandom(preset);
      }
    }

    method Wait(elapsed: nat, preset: Preset, ghost b: Behaviour<Field>)
      requires Valid() && ValidPreset(preset) && Falls(b, cfg, preset, random)
      modifies level, fadeRemainder
      ensures View() == b.wait(old(View()), elapsed)
    {
      assert FadesAs(b, preset.period, View(), elapsed);
      Fade(elapsed, preset.period);
    }

    method Try(preset: Preset, ghost b: Behaviour<Field>)
      requires Valid() && ValidPreset(preset) && !cfg.mode.Drops? && Falls(b, cfg, preset, random)
      modifies this`flow, this`drawn, level, fadeRemainder, hue, sat
      ensures View() == b.trial(old(View()))
    {
      assert TriesAs(b, cfg, preset, random, View());
      Attempt(preset);
    }

    /** The rest of the current interval, and the trial that ends it. */
    method Turn(untilStep: nat, preset: Preset, ghost b: Behaviour<Field>)
      requires Valid() && ValidPreset(preset) && !cfg.mode.Drops? && Falls(b, cfg, preset, random)
      requires untilStep == cfg.stepInterval - stepRemainder
      modifies this`stepRemainder, this`flow, this`drawn, level, fadeRemainder, hue, sat
      ensures Valid() && stepRemainder == 0
      ensures View() == Tried(b, Paced(old(View()), old(stepRemainder))).inner
    {
      Wait(untilStep, preset, b);
      stepRemainder := 0;
      Try(preset, b);
    }

    /** What is left of the frame. */
    method Finish(remaining: nat, preset: Preset, ghost b: Behaviour<Field>)
      requires Valid() && ValidPreset(preset) && Falls(b, cfg, preset, random)
      modifies this`stepRemainder, level, fadeRemainder
      ensures Valid() && stepRemainder == (old(stepRemainder) + remaining) % cfg.stepInterval
      ensures View() == b.wait(old(View()), remaining)
    {
      Wait(remaining, preset, b);
      stepRemainder := (stepRemainder + remaining) % cfg.stepInterval;
    }

    /** The stepping half of a render: remaining time never goes below zero. */
    method Step(elapsed: nat, preset: Preset, ghost b: Behaviour<Field>)
      requires Valid() && ValidPreset(preset) && !cfg.mode.Drops? && Falls(b, cfg, preset, random)
      modifies this`stepRemainder, this`flow, this`drawn, level, fadeRemainder, hue, sat
      ensures Valid()
      ensures Paced(View(), stepRemainder) == CatchUp(b, Paced(old(View()), old(stepRemainder)), elapsed, MAX_TRIALS)
    {
      var remaining := elapsed;
      var interval := cfg.stepInterval;
      var untilStep := interval - stepRemainder;
      ghost var goal := CatchUp(b, Paced(View(), stepRemainder), elapsed, MAX_TRIALS);
      var step := 0;
      while step < 8 && remaining >= untilStep
        invariant 0 <= step <= 8 && 0 <= remaining && Valid() && untilStep == interval - stepRemainder
        invariant CatchUp(b, Paced(View(), stepRemainder), remaining, 8 - step) == goal
        decreases 8 - step
      {
        CatchUpTurn(b, Paced(View(), stepRemainder), remaining, 8 - step);
        Turn(untilStep, preset, b);
        remaining := remaining - untilStep;
        untilStep := interval;
        step := step + 1;
      }
      CatchUpTurn(b, Paced(View(), stepRemainder), remaining, 8 - step);
      Finish(remaining, preset, b);
    }

    /** Rendering in place is the catch-up loop of the effect's own behaviour. */
    method Render(elapsed: nat, preset: Preset)
      requires Valid() && ValidPreset(preset) && !cfg.mode.Drops?
      modifies this`stepRemainder, this`flow, this`drawn, level, fadeRemainder, hue, sat
      ensures Valid()
      ensures Paced(View(), stepRemainder)
           == CatchUp(Falling(cfg, preset, random), Paced(old(View()), old(stepRemainder)), elapsed, MAX_TRIALS)
    {
      ghost var b := Falling(cfg, preset, random);
      assert Falls(b, cfg, preset, random);
      Step(elapsed, preset, b);
    }

    method NudgeOne(preset: Preset)
      requires Valid() && ValidPreset(preset)
      modifies this`drawn, hue
      ensures Valid()
      ensures View() == Nudge(preset, random, old(View()))
    {
      ghost var was := View();
      var place := Draw();
      var number := Draw();
      var led := place % level.Length;
      hue[led] := NudgedHue(preset.hue, number);
      assert View().drops == was.drops[led := was.drops[led].(hue := hue[led])];
    }

    method NudgeTurn(preset: Preset, ghost b: Behaviour<Field>, ghost p: Paced<Field>)
      requires Valid() && ValidPreset(preset) && Nudges(b, preset, random)
      requires View() == p.inner && p.remainder < b.interval
      modifies this`drawn, hue
      ensures Valid() && View() == Tried(b, p).inner
    {
      assert NudgesAs(b, preset, random, View(), b.interval - p.remainder);
      NudgeOne(preset);
    }

    method MakeNudges(nudges: nat, preset: Preset, ghost b: Behaviour<Field>, ghost start: Paced<Field>,
                      ghost units: nat)
      requires Valid() && ValidPreset(preset) && Nudges(b, preset, random)
      requires forall f, x :: Idles(b, f, x)
      requires View() == start.inner && start.remainder < b.interval && nudges <= Due(b, start, units)
      modifies this`drawn, hue
      ensures Valid() && View() == CatchUp(b, start, units, nudges).inner
    {
      ghost var p := start;
      ghost var left: nat := units;
      for step := 0 to nudges
        invariant Valid() && View() == p.inner && p.remainder < b.interval
        invariant nudges - step <= Due(b, p, left)
        invariant CatchUp(b, p, left, nudges - step) == CatchUp(b, start, units, nudges)
      {
        CountedTurn(b, p, left, nudges - step);
        left := left - (b.interval - p.remainder);
        NudgeTurn(preset, b, p);
        p := Tried(b, p);
      }
      assert Idles(b, p.inner, left);
    }

    /** The drops mode: `dropRemainder` is what a period leaves of 64 times the elapsed time. */
    method NudgeDrops(elapsed: nat, preset: Preset, dropRemainder: nat) returns (remainder: nat)
      requires Valid() && ValidPreset(preset) && cfg.mode.Drops? && dropRemainder < preset.period
      modifies this`drawn, hue
      ensures Valid()
      ensures Paced(View(), remainder)
           == CatchUp(Nudging(preset, random), Paced(old(View()), dropRemainder), elapsed * NUDGES_PER_PERIOD,
                       MAX_TRIALS)
    {
      ghost var b, p := Nudging(preset, random), Paced(View(), dropRemainder);
      RemainderKeepsTime(b, p, elapsed * NUDGES_PER_PERIOD, MAX_TRIALS);
      CountOnce(b, p, elapsed * NUDGES_PER_PERIOD);
      var progress := dropRemainder + elapsed * NUDGES_PER_PERIOD;
      var nudges := Min(progress / preset.period, 8);
      remainder := progress % preset.period;
      MakeNudges(nudges, preset, b, p, elapsed * NUDGES_PER_PERIOD);
    }
  }
}
