/** The reactive effect: a press lights a shape around its key, which fades over one period. */
module Reactive {
  import opened Arith
  import opened Board
  import opened Cooling
  import Coordinator
  import opened KeyHeat
  import opened Roots

  datatype Spread = Point | Disc | Cross | Nexus

  datatype Config = Config(spread: Spread, radius: nat, multi: bool)

  /** Half-width of the cross, about one key. */
  const TOLERANCE := 100

  predicate ValidPeriod(period: nat) {
    1 <= period <= 65535
  }

  function FadingRate(period: nat): (r: Rate)
    requires ValidPeriod(period)
    ensures ValidRate(r)
  {
    Rate(period, true)
  }

  /** Light fades linearly: from full brightness to nothing in exactly one period. */
  lemma LightFadesInOnePeriod(heat: Heat, elapsed: nat, period: nat, i: nat)
    requires ValidPeriod(period) && i < |heat| && heat[i].remainder == 0
    ensures Age(heat, elapsed, FadingRate(period))[i].level == Max(0, heat[i].level - 255 * elapsed / period)
  {
    FreshCellAges(heat, elapsed, FadingRate(period), i);
  }

  function Magnitude(d: int): nat {
    if d < 0 then -d else d
  }

  /** The part of full brightness left `reach` into a radius: never out of byte range. */
  function Falloff(radius: nat, reach: nat): (level: Byte)
    requires reach < radius
    ensures radius * level <= 255 * (radius - reach) < radius * level + radius
  {
    MulAtLeast(radius - reach, radius, 255);
    DivAtLeast(255 * (radius - reach), 256, radius);
    var level := 255 * (radius - reach) / radius;
    assert 255 * (radius - reach) == level * radius + 255 * (radius - reach) % radius;
    level
  }

  function DiscLevel(radius: nat, squared: nat): Byte {
    if squared >= radius * radius then 0
    else
      RootBelow(squared, radius);
      Falloff(radius, Root(squared))
  }

  /** Fades away from the excluded cross, not from the key. */
  function NexusLevel(radius: nat, ax: nat, ay: nat): Byte {
    if ax < TOLERANCE || ay < TOLERANCE || Min(ax, ay) - TOLERANCE >= radius then 0
    else Falloff(radius, Min(ax, ay) - TOLERANCE)
  }

  /** `kp_reactive_shape`. */
  function Shape(cfg: Config, dx: int, dy: int): (level: Byte) {
    match cfg.spread
    case Disc => DiscLevel(cfg.radius, SquaredDistance(dx, dy))
    case Cross => if Magnitude(dx) < TOLERANCE || Magnitude(dy) < TOLERANCE then 255 else 0
    case Nexus => NexusLevel(cfg.radius, Magnitude(dx), Magnitude(dy))
    case Point => if dx == 0 && dy == 0 then 255 else 0
  }

  /** What each shape lights, by the distances `ax` and `ay` from the key along the two axes: a disc fades linearly to
    * nothing at its radius, a cross is a band of full brightness along both axes, a nexus is what a cross leaves out,
    * fading linearly away from the band, and a point is the key alone. */
  lemma ShapeMeans(cfg: Config, dx: int, dy: int)
    ensures var ax, ay, level := if dx < 0 then -dx else dx, if dy < 0 then -dy else dy, Shape(cfg, dx, dy);
            var near := if ax < ay then ax else ay;
            match cfg.spread
            case Point => level == if dx == 0 && dy == 0 then 255 else 0
            case Cross => level == if near < 100 then 255 else 0
            case Nexus =>
              if near < 100 || near >= cfg.radius + 100 then level == 0
              else cfg.radius * level <= 255 * (cfg.radius + 100 - near) < cfg.radius * level + cfg.radius
            case Disc =>
              var squared := dx * dx + dy * dy;
              if squared >= cfg.radius * cfg.radius then level == 0
              else cfg.radius * level <= 255 * (cfg.radius - Root(squared)) < cfg.radius * level + cfg.radius
  {
    NonNegativeSquare(dx);
    NonNegativeSquare(dy);
    if cfg.spread.Disc? {
      RootBelow(SquaredDistance(dx, dy), cfg.radius);
    }
  }

  lemma FullAtTheCentre(radius: nat)
    requires radius > 0
    ensures Falloff(radius, 0) == 255
  {
    DivModUnique(255 * radius, 255, 0, radius);
  }

  lemma DiscAtThePress(radius: nat)
    ensures DiscLevel(radius, 0) == if radius == 0 then 0 else 255
  {
    assert Root(0) == 0;
    RootBelow(0, radius);
    if radius > 0 {
      FullAtTheCentre(radius);
    }
  }

  /** The pressed key itself is at full brightness, except in the one shape that leaves it out
    * and in a disc of no size. */
  lemma ShapeAtThePress(cfg: Config)
    ensures Shape(cfg, 0, 0) == if cfg.spread.Nexus? || (cfg.spread.Disc? && cfg.radius == 0) then 0 else 255
  {
    DiscAtThePress(cfg.radius);
  }

  /** A disc never brightens with distance. */
  lemma DiscFades(cfg: Config, dx: int, dy: int, ex: int, ey: int)
    requires cfg.spread.Disc?
    ensures SquaredDistance(dx, dy) <= SquaredDistance(ex, ey) ==> Shape(cfg, ex, ey) <= Shape(cfg, dx, dy)
  {
    if SquaredDistance(dx, dy) <= SquaredDistance(ex, ey) {
      DiscLevelFades(cfg.radius, SquaredDistance(dx, dy), SquaredDistance(ex, ey));
    }
  }

  lemma DiscLevelFades(radius: nat, near: nat, far: nat)
    requires near <= far
    ensures DiscLevel(radius, far) <= DiscLevel(radius, near)
  {
    if far < radius * radius {
      RootMonotone(near, far);
      RootBelow(near, radius);
      RootBelow(far, radius);
      MulAtLeast(radius - Root(far), radius - Root(near), 255);
      DivMonotone(255 * (radius - Root(far)), 255 * (radius - Root(near)), radius);
    }
  }

  // ----- Lighting -----

  function Reach(cfg: Config, board: Layout, led: nat, i: nat): Byte
    requires led < |board.coords| && i < |board.coords|
  {
    Shape(cfg, board.coords[i].x - board.coords[led].x, board.coords[i].y - board.coords[led].y)
  }

  /** The level each LED receives from a press on `led`. */
  function ReachFrom(cfg: Config, board: Layout, led: nat): nat -> Byte
    requires led < |board.coords|
  {
    (i: nat) => if i < |board.coords| then Reach(cfg, board, led, i) else 0
  }

  function Struck(multi: bool, c: Cell, level: Byte): Cell {
    if multi then c.(level := Min(255, c.level + level)) else Cell(level, 0)
  }

  function Strike(cfg: Config, board: Layout, heat: Heat, press: Press): (r: Heat)
    ensures |r| == |heat|
  {
    var led := LedFor(board, press.position);
    if led.None? || |heat| != |board.coords| then heat
    else seq(|heat|, i requires 0 <= i < |heat| => Struck(cfg.multi, heat[i], Reach(cfg, board, led.value, i)))
  }

  /** What a press does to each LED, by its distance from the key: with `multi` the shape is added to what is there, up
    * to full brightness; without, it replaces everything, dark parts included. */
  lemma PressStrikes(cfg: Config, board: Layout, heat: Heat, press: Press, i: nat)
    requires |heat| == |board.coords| && i < |heat| && LedFor(board, press.position).Some?
    ensures var led, after := LedFor(board, press.position).value, Strike(cfg, board, heat, press);
            var dx, dy := board.coords[i].x - board.coords[led].x, board.coords[i].y - board.coords[led].y;
            if cfg.multi
            then after[i].remainder == heat[i].remainder
                 && after[i].level == Min(255, heat[i].level + Shape(cfg, dx, dy))
            else after[i] == Cell(Shape(cfg, dx, dy), 0)
  {
  }

  predicate StrikesAs(apply: Application, cfg: Config, board: Layout, heat: Heat, press: Press) {
    apply(heat, press) == Strike(cfg, board, heat, press)
  }

  ghost predicate IsStriking(apply: Application, cfg: Config, board: Layout) {
    forall h, p :: StrikesAs(apply, cfg, board, h, p)
  }

  function Striking(cfg: Config, board: Layout): Application {
    (heat, press) => Strike(cfg, board, heat, press)
  }

  /** Without `multi` only the last press matters. */
  lemma LatestPressWins(cfg: Config, board: Layout, heat: Heat, other: Heat, press: Press)
    requires !cfg.multi && |heat| == |other| == |board.coords| && LedFor(board, press.position).Some?
    ensures Strike(cfg, board, heat, press) == Strike(cfg, board, other, press)
  {
    assert Strike(cfg, board, heat, press) == Strike(cfg, board, other, press);
  }

  /** Whether a press lights any LED; a nexus press or a disc of no size may light none. */
  predicate Lights(cfg: Config, board: Layout, press: Press) {
    var led := LedFor(board, press.position);
    led.Some? && exists i: nat :: i < |board.coords| && Reach(cfg, board, led.value, i) > 0
  }

  lemma StrikeOnDark(cfg: Config, board: Layout, heat: Heat, press: Press)
    requires Dark(heat) && |heat| == |board.coords|
    ensures if Lights(cfg, board, press) then JustLit(Strike(cfg, board, heat, press))
            else Strike(cfg, board, heat, press) == heat
  {
    var led := LedFor(board, press.position);
    if Lights(cfg, board, press) {
      var i: nat :| i < |board.coords| && Reach(cfg, board, led.value, i) > 0;
      assert Strike(cfg, board, heat, press)[i] == Cell(Reach(cfg, board, led.value, i), 0);
    } else if led.Some? {
      forall i | 0 <= i < |heat| ensures Strike(cfg, board, heat, press)[i] == heat[i] {
        assert Reach(cfg, board, led.value, i) == 0;
      }
    }
  }

  lemma StrikeStaysClean(cfg: Config, board: Layout, heat: Heat, press: Press)
    requires Clean(heat)
    ensures Clean(Strike(cfg, board, heat, press))
  {
    var led := LedFor(board, press.position);
    if led.Some? && |heat| == |board.coords| {
      forall i | 0 <= i < |heat| && Strike(cfg, board, heat, press)[i].level == 0
        ensures Strike(cfg, board, heat, press)[i].remainder == 0
      {
        StruckStaysClean(cfg.multi, heat[i], Reach(cfg, board, led.value, i));
      }
    }
  }

  lemma StruckStaysClean(multi: bool, c: Cell, level: Byte)
    requires c.level == 0 ==> c.remainder == 0
    ensures Struck(multi, c, level).level == 0 ==> Struck(multi, c, level).remainder == 0
  {
  }

  lemma {:induction false} ReplayStaysClean(cfg: Config, board: Layout, period: nat, heat: Heat, presses: seq<Press>,
                                            cursor: int, end: int, age: Aging, apply: Application)
    requires ValidPeriod(period) && IsAging(age, FadingRate(period)) && IsStriking(apply, cfg, board)
    requires Clean(heat) && cursor <= end
    ensures Clean(Replay(heat, presses, cursor, end, age, apply))
    ensures |Replay(heat, presses, cursor, end, age, apply)| == |heat|
    decreases |presses|
  {
    if presses == [] {
      assert AgesAs(age, FadingRate(period), heat, end - cursor);
      AgeStaysClean(heat, end - cursor, FadingRate(period));
    } else {
      var at := Clamp(presses[0].timestamp, cursor, end);
      assert AgesAs(age, FadingRate(period), heat, at - cursor);
      AgeStaysClean(heat, at - cursor, FadingRate(period));
      var faded := age(heat, at - cursor);
      assert StrikesAs(apply, cfg, board, faded, presses[0]);
      StrikeStaysClean(cfg, board, faded, presses[0]);
      ReplayStaysClean(cfg, board, period, apply(faded, presses[0]), presses[1..], at, end, age, apply);
    }
  }

  /** When a frame leaves everything dark, the next press counts from its own timestamp only if rendered at once, and
    * a press that lights nothing never shows the difference. */
  lemma PausedClockAnchors(cfg: Config, board: Layout, period: nat, g: Glow, early: seq<Press>, press: Press, m: int,
                           end: int)
    requires ValidPeriod(period) && Clean(g.heat) && |g.heat| == |board.coords|
    requires Running(g, end) && g.clock.lastRender <= m <= press.timestamp <= end && NoLaterThan(early, m)
    ensures var age, apply := AgingAt(FadingRate(period)), Striking(cfg, board);
            var split := RenderAt(g, m, early, age, apply);
            RenderAt(split, end, [press], age, apply) == RenderAt(g, end, early + [press], age, apply)
            <==> Lit(split.heat) || press.timestamp == end || !Lights(cfg, board, press)
  {
    var age, apply := AgingAt(FadingRate(period)), Striking(cfg, board);
    ActionsAgree(cfg, board, period);
    var split := RenderAt(g, m, early, age, apply);
    if Lit(split.heat) {
      LitSplitIsInvisible(g, early, [press], m, end, age, apply);
    } else {
      RunningRender(g, m, early, age, apply);
      ReplayStaysClean(cfg, board, period, g.heat, early, g.clock.lastRender, m, age, apply);
      assert StrikesAs(apply, cfg, board, split.heat, press);
      StrikeOnDark(cfg, board, split.heat, press);
      DarkSplitAnchorsThePress(g, early, press, m, end, age, apply);
    }
  }

  /** Presses come down to the last one when a press wipes out what was lit before it. */
  lemma {:induction false} OnlyTheLastPressCounts(cfg: Config, board: Layout, period: nat, heat: Heat, other: Heat,
                                                  presses: seq<Press>, cursor: int, end: int, age: Aging,
                                                  apply: Application)
    requires ValidPeriod(period) && IsAging(age, FadingRate(period)) && IsStriking(apply, cfg, board)
    requires !cfg.multi && |heat| == |other| == |board.coords| && cursor <= end
    requires Sequence(board, presses)
    ensures var last := presses[|presses| - 1];
            Replay(heat, presses, cursor, end, age, apply)
            == age(Strike(cfg, board, other, last), end - Clamp(last.timestamp, cursor, end))
    decreases |presses|
  {
    var last := presses[|presses| - 1];
    var at := Clamp(presses[0].timestamp, cursor, end);
    var faded := age(heat, at - cursor);
    assert AgesAs(age, FadingRate(period), heat, at - cursor);
    assert StrikesAs(apply, cfg, board, faded, presses[0]);
    if |presses| == 1 {
      LatestPressWins(cfg, board, faded, other, last);
      assert Replay(apply(faded, last), [], at, end, age, apply) == age(apply(faded, last), end - at);
    } else {
      OnlyTheLastPressCounts(cfg, board, period, apply(faded, presses[0]), other, presses[1..], at, end, age, apply);
    }
  }

  /** Queued presses: each of a key with an LED, none later than the last. */
  predicate Sequence(board: Layout, presses: seq<Press>) {
    && presses != []
    && (forall p :: p in presses ==> LedFor(board, p.position).Some?)
    && NoLaterThan(presses, presses[|presses| - 1].timestamp)
  }

  /** Without `multi` the condition is exact for any number of later presses: only the last of them matters. */
  lemma PausedClockAnchorsTheLast(cfg: Config, board: Layout, period: nat, g: Glow, early: seq<Press>,
                                  late: seq<Press>, m: int, end: int)
    requires ValidPeriod(period) && !cfg.multi && Clean(g.heat) && |g.heat| == |board.coords|
    requires Running(g, end) && g.clock.lastRender <= m <= end && NoLaterThan(early, m)
    requires Sequence(board, late) && StartsFrom(late, m) && NoLaterThan(late, end)
    ensures var age, apply := AgingAt(FadingRate(period)), Striking(cfg, board);
            var split, last := RenderAt(g, m, early, age, apply), late[|late| - 1];
            RenderAt(split, end, late, age, apply) == RenderAt(g, end, early + late, age, apply)
            <==> Lit(split.heat) || last.timestamp == end || !Lights(cfg, board, last)
  {
    var age, apply := AgingAt(FadingRate(period)), Striking(cfg, board);
    ActionsAgree(cfg, board, period);
    var split, last := RenderAt(g, m, early, age, apply), late[|late| - 1];
    if Lit(split.heat) {
      LitSplitIsInvisible(g, early, late, m, end, age, apply);
    } else {
      RunningRender(g, m, early, age, apply);
      ReplayStaysClean(cfg, board, period, g.heat, early, g.clock.lastRender, m, age, apply);
      assert last in late;
      LateHeat(cfg, board, period, g, early, late, m, end, age, apply);
      LateStrikeShows(cfg, board, split.heat, last, age, end - last.timestamp);
    }
  }

  lemma LateStrikeShows(cfg: Config, board: Layout, heat: Heat, press: Press, age: Aging, elapsed: nat)
    requires LosesHeat(age) && Dark(heat) && |heat| == |board.coords|
    ensures var struck := Strike(cfg, board, heat, press);
            age(struck, elapsed) == struck <==> elapsed == 0 || !Lights(cfg, board, press)
  {
    StrikeOnDark(cfg, board, heat, press);
    LightShows(age, Strike(cfg, board, heat, press), elapsed);
  }

  lemma LightShows(age: Aging, heat: Heat, elapsed: nat)
    requires LosesHeat(age) && (Dark(heat) || JustLit(heat))
    ensures age(heat, elapsed) == heat <==> elapsed == 0 || Dark(heat)
  {
    assert Waits(age, heat) && Shows(age, heat, elapsed) && KeepsDark(age, heat, elapsed);
    if JustLit(heat) {
      var i :| 0 <= i < |heat| && heat[i].level > 0 && heat[i].remainder == 0;
      assert !Dark(heat);
    }
  }

  /** What later presses leave after a dark frame: the last one, fresh when the clock was paused and aged otherwise. */
  lemma LateHeat(cfg: Config, board: Layout, period: nat, g: Glow, early: seq<Press>, late: seq<Press>, m: int,
                 end: int, age: Aging, apply: Application)
    requires ValidPeriod(period) && IsAging(age, FadingRate(period)) && IsStriking(apply, cfg, board)
    requires LosesHeat(age) && !cfg.multi && Running(g, end) && g.clock.lastRender <= m <= end
    requires NoLaterThan(early, m) && Sequence(board, late) && StartsFrom(late, m) && NoLaterThan(late, end)
    requires !Lit(RenderAt(g, m, early, age, apply).heat)
    requires |RenderAt(g, m, early, age, apply).heat| == |board.coords|
    ensures var split, last := RenderAt(g, m, early, age, apply), late[|late| - 1];
            var struck := Strike(cfg, board, split.heat, last);
            && last.timestamp <= end
            && RenderAt(split, end, late, age, apply).heat == struck
            && (RenderAt(split, end, late, age, apply) == RenderAt(g, end, early + late, age, apply)
                <==> age(struck, end - last.timestamp) == struck)
  {
    var split, last := RenderAt(g, m, early, age, apply), late[|late| - 1];
    RunningRender(g, m, early, age, apply);
    RunningRender(g, end, early + late, age, apply);
    PausedRender(split, end, late, age, apply);
    SplitReplay(g.heat, early, late, g.clock.lastRender, m, end, age, apply);
    assert late[0] in late && last in late;
    OnlyTheLastPressCounts(cfg, board, period, split.heat, split.heat, late, end, end, age, apply);
    OnlyTheLastPressCounts(cfg, board, period, split.heat, split.heat, late, m, end, age, apply);
    assert Waits(age, Strike(cfg, board, split.heat, last));
  }

  lemma ActionsAgree(cfg: Config, board: Layout, period: nat)
    requires ValidPeriod(period)
    ensures IsAging(AgingAt(FadingRate(period)), FadingRate(period))
    ensures IsStriking(Striking(cfg, board), cfg, board)
    ensures LosesHeat(AgingAt(FadingRate(period)))
  {
    AgingLosesHeat(FadingRate(period));
  }

  /** From boot: one press, a period for its light to go, a frame that finds nothing, and a press rendered a
    * millisecond late. Without the frame in the middle the picture is another. */
  lemma LatePressAfterDarkShows(cfg: Config, board: Layout, period: nat, position: nat)
    requires ValidPeriod(period) && Lights(cfg, board, Press(position, 0))
    ensures var age, apply := AgingAt(FadingRate(period)), Striking(cfg, board);
            var g := RenderAt(Boot(|board.coords|), 0, [Press(position, 0)], age, apply);
            var late := Press(position, period);
            RenderAt(RenderAt(g, period, [], age, apply), period + 1, [late], age, apply)
            != RenderAt(g, period + 1, [late], age, apply)
  {
    var age, apply := AgingAt(FadingRate(period)), Striking(cfg, board);
    ActionsAgree(cfg, board, period);
    var boot, first, late := Boot(|board.coords|), Press(position, 0), Press(position, period);
    var g := RenderAt(boot, 0, [first], age, apply);
    PausedRender(boot, 0, [first], age, apply);
    AnchoredPress(boot.heat, first, 0, 0, age, apply);
    assert StrikesAs(apply, cfg, board, boot.heat, first);
    assert Waits(age, Strike(cfg, board, boot.heat, first));
    StrikeOnDark(cfg, board, boot.heat, first);
    StrikeStaysClean(cfg, board, boot.heat, first);
    assert g.heat == Strike(cfg, board, boot.heat, first) && Lit(g.heat);
    FadesInAPeriod(g.heat, period);
    RunningRender(g, period, [], age, apply);
    assert AgesAs(age, FadingRate(period), g.heat, period);
    SamePlace(cfg, board, first, late);
    PausedClockAnchors(cfg, board, period, g, [], late, period, period + 1);
    assert [] + [late] == [late];
  }

  lemma SamePlace(cfg: Config, board: Layout, a: Press, b: Press)
    requires a.position == b.position
    ensures Lights(cfg, board, a) == Lights(cfg, board, b)
  {
  }

  lemma FadesInAPeriod(heat: Heat, period: nat)
    requires ValidPeriod(period)
    ensures !Lit(Age(heat, period, FadingRate(period)))
  {
    forall i | 0 <= i < |heat| ensures Age(heat, period, FadingRate(period))[i].level == 0 {
      DecayToNothing(heat[i], period * 255, period);
    }
  }

  /** Heat and remainders after any two ways of cutting the same presses into frames are the same. */
  lemma {:induction false} FramesDoNotMatter(cfg: Config, board: Layout, period: nat, heat: Heat, one: seq<Frame>,
                                             other: seq<Frame>, cursor: int)
    requires ValidPeriod(period) && Timely(one, cursor, true) && Timely(other, cursor, true)
    requires AllPresses(one) == AllPresses(other) && LastEnd(one, cursor) == LastEnd(other, cursor)
    ensures Play(heat, one, cursor, true, AgingAt(FadingRate(period)), Striking(cfg, board))
         == Play(heat, other, cursor, true, AgingAt(FadingRate(period)), Striking(cfg, board))
  {
    AgingLosesHeat(FadingRate(period));
    CadenceIsIrrelevant(heat, one, other, cursor, AgingAt(FadingRate(period)), Striking(cfg, board));
  }

  /** The presses that are queued: those of keys with an LED. */
  function Taking(board: Layout): Press -> bool {
    (press: Press) => LedFor(board, press.position).Some?
  }

  // ----- The effect in place -----

  class Effect {
    const cfg: Config
    const board: Layout
    const levels: array<Byte>
    const remainder: array<nat>
    var pending: seq<Press>

    ghost predicate Valid()
      reads this
    {
      && ValidLayout(board)
      && levels.Length == remainder.Length == |board.coords|
      && |pending| <= PENDING_EVENTS
    }

    ghost function View(): (h: Heat)
      requires levels.Length == remainder.Length
      reads levels, remainder
    {
      seq(levels.Length, i requires 0 <= i < levels.Length reads levels, remainder => Cell(levels[i], remainder[i]))
    }

    constructor (cfg: Config, board: Layout)
      requires ValidLayout(board)
      ensures Valid() && this.cfg == cfg && this.board == board && pending == []
      ensures Dark(View())
      ensures fresh(levels) && fresh(remainder)
    {
      this.cfg, this.board, pending := cfg, board, [];
      levels := new Byte[|board.coords|](_ => 0);
      remainder := new nat[|board.coords|](_ => 0);
    }

    method Advance(elapsed: nat, period: nat)
      requires Valid() && ValidPeriod(period)
      modifies levels, remainder
      ensures View() == Age(old(View()), elapsed, FadingRate(period))
      ensures forall i :: 0 <= i < levels.Length && old(remainder[i]) == 0 ==>
                levels[i] == Max(0, old(levels[i]) - 255 * elapsed / period)
    {
      ghost var start := View();
      forall i | 0 <= i < levels.Length && start[i].remainder == 0
        ensures Age(start, elapsed, FadingRate(period))[i].level == Max(0, start[i].level - 255 * elapsed / period)
      {
        LightFadesInOnePeriod(start, elapsed, period, i);
      }
      Fade(elapsed, period);
      assert forall i :: 0 <= i < levels.Length ==> View()[i].level == levels[i];
    }

    method Fade(elapsed: nat, period: nat)
      requires Valid() && ValidPeriod(period)
      modifies levels, remainder
      ensures View() == Age(old(View()), elapsed, FadingRate(period))
    {
      if elapsed == 0 {
        return;
      }
      var spent := Min(elapsed, period) * 255;
      ghost var was := View();
      for i := 0 to levels.Length
        invariant forall k :: 0 <= k < i ==> Cell(levels[k], remainder[k]) == Decay(was[k], spent, period)
        invariant forall k :: i <= k < levels.Length ==> Cell(levels[k], remainder[k]) == was[k]
      {
        var next := Decay(Cell(levels[i], remainder[i]), spent, period);
        levels[i], remainder[i] := next.level, next.remainder;
      }
      assert View() == Age(was, elapsed, FadingRate(period));
    }

    method Clear()
      requires Valid()
      modifies levels, remainder
      ensures Dark(View())
    {
      for i := 0 to levels.Length
        invariant forall k :: 0 <= k < i ==> Cell(levels[k], remainder[k]) == Cell(0, 0)
      {
        levels[i], remainder[i] := 0, 0;
      }
    }

    method Apply(press: Press)
      requires Valid()
      modifies levels, remainder
      ensures View() == Strike(cfg, board, old(View()), press)
    {
      ghost var was := View();
      var origin := LedFor(board, press.position);
      if origin.None? {
        assert View() == was;
        return;
      }
      if !cfg.multi {
        Clear();
      }
      Paint(ReachFrom(cfg, board, origin.value), was);
      assert View() == Strike(cfg, board, was, press);
    }

    method Paint(reach: nat -> Byte, ghost was: Heat)
      requires Valid() && (if cfg.multi then View() == was else Dark(View()) && |was| == levels.Length)
      modifies levels
      ensures forall k :: 0 <= k < levels.Length ==> View()[k] == Struck(cfg.multi, was[k], reach(k))
    {
      ghost var start := View();
      for i := 0 to levels.Length
        invariant forall k :: 0 <= k < i ==> Cell(levels[k], remainder[k]) == Struck(cfg.multi, was[k], reach(k))
        invariant forall k :: i <= k < levels.Length ==> Cell(levels[k], remainder[k]) == start[k]
      {
        assert start[i] == if cfg.multi then was[i] else Cell(0, 0);
        if reach(i) == 0 {
          continue;
        }
        levels[i] := if cfg.multi then Min(255, levels[i] + reach(i)) else reach(i);
      }
    }

    method Rest(wait: nat, period: nat, ghost age: Aging)
      requires Valid() && ValidPeriod(period) && IsAging(age, FadingRate(period))
      modifies levels, remainder
      ensures View() == age(old(View()), wait)
    {
      assert AgesAs(age, FadingRate(period), View(), wait);
      Advance(wait, period);
    }

    method Hit(press: Press, ghost apply: Application)
      requires Valid() && IsStriking(apply, cfg, board)
      modifies levels, remainder
      ensures View() == apply(old(View()), press)
    {
      assert StrikesAs(apply, cfg, board, View(), press);
      Apply(press);
    }

    /** Replays the queue under any functions that agree with this effect's own. */
    method Catch(from: int, end: int, period: nat, ghost age: Aging, ghost apply: Application)
      requires Valid() && ValidPeriod(period) && from <= end
      requires IsAging(age, FadingRate(period)) && IsStriking(apply, cfg, board)
      modifies levels, remainder
      ensures View() == Replay(old(View()), pending, from, end, age, apply)
    {
      var cursor := from;
      ghost var goal := Replay(View(), pending, cursor, end, age, apply);
      for i := 0 to |pending|
        invariant cursor <= end
        invariant Replay(View(), pending[i..], cursor, end, age, apply) == goal
      {
        var at := Clamp(pending[i].timestamp, cursor, end);
        ReplayTurn(View(), pending, i, cursor, end, age, apply);
        Rest(at - cursor, period, age);
        Hit(pending[i], apply);
        cursor := at;
      }
      Rest(end - cursor, period, age);
    }

    /** The time-keeping half of a render. */
    method Render(now: int, elapsed: nat, period: nat) returns (evolving: bool)
      requires Valid() && ValidPeriod(period)
      modifies this`pending, levels, remainder
      ensures Valid() && pending == []
      ensures View() == Replay(old(View()), old(pending), FrameStart(now, elapsed), FrameEnd(now),
                               AgingAt(FadingRate(period)), Striking(cfg, board))
      ensures evolving <==> Lit(View())
    {
      var end: int := FrameEnd(now);
      ghost var age, apply := AgingAt(FadingRate(period)), Striking(cfg, board);
      ActionsAgree(cfg, board, period);
      Catch(end - Min(end, elapsed), end, period, age, apply);
      pending := [];
      evolving := Evolving();
    }

    method Evolving() returns (evolving: bool)
      requires Valid()
      ensures evolving <==> Lit(View())
    {
      evolving := false;
      for i := 0 to levels.Length
        invariant evolving <==> exists k :: 0 <= k < i && View()[k].level != 0
      {
        assert View()[i].level == levels[i];
        evolving := evolving || levels[i] != 0;
      }
    }

    /** A full queue drops the newest press. */
    method OnEvent(press: Press, pressed: bool) returns (accepted: bool)
      requires Valid()
      modifies this`pending
      ensures Valid()
      ensures accepted <==> pressed && LedFor(board, press.position).Some? && |old(pending)| < 16
      ensures pending == if accepted then old(pending) + [press] else old(pending)
    {
      if !pressed || LedFor(board, press.position).None? || |pending| == PENDING_EVENTS {
        return false;
      }
      pending := pending + [press];
      return true;
    }

    /** What one scene pass does to this effect: at most sixteen deliveries, then a render if the frame asked for one or
        a press was taken here. The queue is empty between passes, so no press is ever dropped for want of room. */
    method Pass(keys: seq<Key>, asked: bool, now: int, elapsed: nat, period: nat) returns (painted: bool)
      requires Valid() && pending == [] && |keys| <= Coordinator.MAX_DELIVERIES && ValidPeriod(period)
      modifies this`pending, levels, remainder
      ensures Valid() && pending == []
      ensures var kept := Kept(keys, Taking(board));
              && (painted <==> asked || kept != [])
              && View() == if painted
                           then Replay(old(View()), kept, FrameStart(now, elapsed), FrameEnd(now),
                                       AgingAt(FadingRate(period)), Striking(cfg, board))
                           else old(View())
    {
      ghost var takes := Taking(board);
      var changed := false;
      for i := 0 to |keys|
        invariant Valid() && pending == Kept(keys[..i], takes)
        invariant changed <==> pending != []
        invariant View() == old(View())
      {
        KeptMore(keys, takes, i);
        var accepted := OnEvent(keys[i].press, keys[i].pressed);
        changed := changed || accepted;
      }
      assert keys[..|keys|] == keys;
      painted := asked || changed;
      if painted {
        var evolving := Render(now, elapsed, period);
      }
    }
  }
}
