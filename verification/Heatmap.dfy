/** The heatmap effect: each press heats its key and the keys around it. */
module Heatmap {
  import opened Arith
  import opened Board
  import opened Cooling
  import Coordinator
  import opened KeyHeat
  import opened Roots

  datatype Config = Config(decreaseDelay: nat, spread: nat, areaLimit: Byte, increaseStep: Byte)

  /** Ranges enforced when the configuration is built; a zero delay becomes one. */
  predicate ValidConfig(cfg: Config) {
    1 <= cfg.decreaseDelay <= 65535 && cfg.spread <= 65535
  }

  function CoolingRate(cfg: Config): (r: Rate)
    requires ValidConfig(cfg)
    ensures ValidRate(r)
  {
    Rate(cfg.decreaseDelay, false)
  }

  /** Heat is lost one level every `decreaseDelay` milliseconds, down to nothing, whatever the length of the wait. */
  lemma HeatIsLostByTheDelay(cfg: Config, heat: Heat, elapsed: nat, i: nat)
    requires ValidConfig(cfg) && i < |heat| && heat[i].remainder == 0
    ensures Age(heat, elapsed, CoolingRate(cfg))[i].level == Max(0, heat[i].level - elapsed / cfg.decreaseDelay)
  {
    FreshCellAges(heat, elapsed, CoolingRate(cfg), i);
  }

  // ----- Heating -----

  /** Heat reaching an LED `squared` away from the press. */
  function Contribution(cfg: Config, squared: nat): (c: nat)
    ensures c <= cfg.increaseStep && c <= cfg.areaLimit
    ensures c > 0 ==> squared < cfg.spread * cfg.spread
    ensures squared < cfg.spread * cfg.spread ==>
              && cfg.spread * c <= cfg.increaseStep * (cfg.spread - Root(squared))
              && (c < cfg.areaLimit ==> cfg.increaseStep * (cfg.spread - Root(squared)) < cfg.spread * c + cfg.spread)
  {
    if cfg.spread == 0 || squared >= cfg.spread * cfg.spread then 0
    else
      RootBelow(squared, cfg.spread);
      Share(cfg.increaseStep, cfg.spread - Root(squared), cfg.spread, cfg.areaLimit)
  }

  /** `part` of `whole` shares of a step, rounded down, and no more than a limit. */
  function Share(step: nat, part: nat, whole: nat, limit: nat): (share: nat)
    requires 0 < whole && part <= whole
    ensures share <= step && share <= limit
    ensures whole * share <= step * part
    ensures share < limit ==> step * part < whole * share + whole
  {
    Portion(step, part, whole);
    WholeShares(step * part, whole, limit);
    Min(step * part / whole, limit)
  }

  lemma WholeShares(total: nat, whole: nat, limit: nat)
    requires whole > 0
    ensures whole * Min(total / whole, limit) <= total
    ensures total / whole < limit ==> total < whole * (total / whole) + whole
  {
    assert total == total / whole * whole + total % whole;
    MulAtLeast(Min(total / whole, limit), total / whole, whole);
  }

  lemma Portion(step: nat, part: nat, whole: nat)
    requires 0 < whole && part <= whole
    ensures 0 <= step * part / whole <= step
  {
    MulAtLeast(part, whole, step);
    DivAtLeast(step * part, step + 1, whole);
    assert (step + 1) * whole == step * whole + whole;
  }

  /** Heat never grows with distance. */
  lemma ContributionFades(cfg: Config, nearer: nat, farther: nat)
    requires nearer <= farther
    ensures Contribution(cfg, farther) <= Contribution(cfg, nearer)
  {
    if Contribution(cfg, farther) > 0 {
      RootMonotone(nearer, farther);
      RootBelow(farther, cfg.spread);
      var near, far := cfg.spread - Root(nearer), cfg.spread - Root(farther);
      MulAtLeast(far, near, cfg.increaseStep);
      DivMonotone(cfg.increaseStep * far, cfg.increaseStep * near, cfg.spread);
    }
  }

  function Saturated(level: nat): (r: Byte) {
    Min(255, level)
  }

  /** What LED `i` gains from a press on `led`. */
  function Gain(cfg: Config, board: Layout, led: nat, i: nat): (gain: nat)
    requires led < |board.coords| && i < |board.coords|
    ensures gain <= cfg.increaseStep
  {
    if i == led then cfg.increaseStep else Contribution(cfg, Apart(board.coords[led], board.coords[i]))
  }

  function Heated(c: Cell, gain: nat): Cell {
    c.(level := Saturated(c.level + gain))
  }

  function Warm(cfg: Config, board: Layout, heat: Heat, press: Press): (r: Heat)
    ensures |r| == |heat|
  {
    var led := LedFor(board, press.position);
    if cfg.increaseStep == 0 || led.None? || |heat| != |board.coords| then heat
    else seq(|heat|, i requires 0 <= i < |heat| => Heated(heat[i], Gain(cfg, board, led.value, i)))
  }

  /** What a press does: its own LED gains the whole step, others what reaches them, and none more than full heat. */
  lemma PressHeats(cfg: Config, board: Layout, heat: Heat, press: Press, i: nat)
    requires |heat| == |board.coords| && i < |heat| && LedFor(board, press.position).Some?
    ensures var led, after := LedFor(board, press.position).value, Warm(cfg, board, heat, press);
            var dx, dy := board.coords[i].x - board.coords[led].x, board.coords[i].y - board.coords[led].y;
            && after[i].remainder == heat[i].remainder
            && (i == led ==> after[i].level == Min(255, heat[i].level + cfg.increaseStep))
            && (i != led && dx * dx + dy * dy >= cfg.spread * cfg.spread ==> after[i].level == heat[i].level)
            && (i != led ==>
                  after[i].level == Min(255, heat[i].level + Contribution(cfg, SquaredDistance(dx, dy))))
  {
  }

  predicate WarmsAs(apply: Application, cfg: Config, board: Layout, heat: Heat, press: Press) {
    apply(heat, press) == Warm(cfg, board, heat, press)
  }

  ghost predicate IsWarming(apply: Application, cfg: Config, board: Layout) {
    forall h, p :: WarmsAs(apply, cfg, board, h, p)
  }

  function Warming(cfg: Config, board: Layout): Application {
    (heat, press) => Warm(cfg, board, heat, press)
  }

  /** A press that names an LED lights it, with no loss under way, so a paused clock shows. */
  lemma PressLights(cfg: Config, board: Layout, heat: Heat, press: Press)
    requires Dark(heat) && |heat| == |board.coords|
    requires cfg.increaseStep > 0 && LedFor(board, press.position).Some?
    ensures JustLit(Warm(cfg, board, heat, press))
  {
    var led := LedFor(board, press.position).value;
    assert Warm(cfg, board, heat, press)[led] == Heated(Cell(0, 0), cfg.increaseStep);
  }

  lemma WarmStaysClean(cfg: Config, board: Layout, heat: Heat, press: Press)
    requires Clean(heat)
    ensures Clean(Warm(cfg, board, heat, press))
  {
  }

  lemma {:induction false} ReplayStaysClean(cfg: Config, board: Layout, heat: Heat, presses: seq<Press>, cursor: int,
                                            end: int, age: Aging, apply: Application)
    requires ValidConfig(cfg) && IsAging(age, CoolingRate(cfg)) && IsWarming(apply, cfg, board)
    requires Clean(heat) && cursor <= end
    ensures Clean(Replay(heat, presses, cursor, end, age, apply))
    ensures |Replay(heat, presses, cursor, end, age, apply)| == |heat|
    decreases |presses|
  {
    if presses == [] {
      assert AgesAs(age, CoolingRate(cfg), heat, end - cursor);
      AgeStaysClean(heat, end - cursor, CoolingRate(cfg));
    } else {
      var at := Clamp(presses[0].timestamp, cursor, end);
      assert AgesAs(age, CoolingRate(cfg), heat, at - cursor);
      AgeStaysClean(heat, at - cursor, CoolingRate(cfg));
      var cooled := age(heat, at - cursor);
      assert WarmsAs(apply, cfg, board, cooled, presses[0]);
      WarmStaysClean(cfg, board, cooled, presses[0]);
      ReplayStaysClean(cfg, board, apply(cooled, presses[0]), presses[1..], at, end, age, apply);
    }
  }

  lemma ActionsAgree(cfg: Config, board: Layout)
    requires ValidConfig(cfg)
    ensures IsAging(AgingAt(CoolingRate(cfg)), CoolingRate(cfg))
    ensures IsWarming(Warming(cfg, board), cfg, board)
    ensures LosesHeat(AgingAt(CoolingRate(cfg)))
  {
    AgingLosesHeat(CoolingRate(cfg));
  }

  /** Heat and remainders after any two ways of cutting the same presses into frames are the same. */
  lemma {:induction false} FramesDoNotMatter(cfg: Config, board: Layout, heat: Heat, one: seq<Frame>,
                                             other: seq<Frame>, cursor: int)
    requires ValidConfig(cfg) && Timely(one, cursor, true) && Timely(other, cursor, true)
    requires AllPresses(one) == AllPresses(other) && LastEnd(one, cursor) == LastEnd(other, cursor)
    ensures Play(heat, one, cursor, true, AgingAt(CoolingRate(cfg)), Warming(cfg, board))
         == Play(heat, other, cursor, true, AgingAt(CoolingRate(cfg)), Warming(cfg, board))
  {
    ActionsAgree(cfg, board);
    CadenceIsIrrelevant(heat, one, other, cursor, AgingAt(CoolingRate(cfg)), Warming(cfg, board));
  }

  /** Whether a press heats anything; others are never queued. */
  predicate Heats(cfg: Config, board: Layout, press: Press) {
    cfg.increaseStep > 0 && LedFor(board, press.position).Some?
  }

  /** When a frame leaves everything dark, the next press counts from its own timestamp only if rendered at once. */
  lemma PausedClockAnchors(cfg: Config, board: Layout, g: Glow, early: seq<Press>, press: Press, m: int, end: int)
    requires ValidConfig(cfg) && Clean(g.heat) && |g.heat| == |board.coords|
    requires Running(g, end) && g.clock.lastRender <= m <= press.timestamp <= end && NoLaterThan(early, m)
    ensures var age, apply := AgingAt(CoolingRate(cfg)), Warming(cfg, board);
            var split := RenderAt(g, m, early, age, apply);
            RenderAt(split, end, [press], age, apply) == RenderAt(g, end, early + [press], age, apply)
            <==> Lit(split.heat) || press.timestamp == end || !Heats(cfg, board, press)
  {
    var age, apply := AgingAt(CoolingRate(cfg)), Warming(cfg, board);
    ActionsAgree(cfg, board);
    var split := RenderAt(g, m, early, age, apply);
    if Lit(split.heat) {
      LitSplitIsInvisible(g, early, [press], m, end, age, apply);
    } else {
      RunningRender(g, m, early, age, apply);
      ReplayStaysClean(cfg, board, g.heat, early, g.clock.lastRender, m, age, apply);
      assert WarmsAs(apply, cfg, board, split.heat, press);
      if Heats(cfg, board, press) {
        PressLights(cfg, board, split.heat, press);
      }
      DarkSplitAnchorsThePress(g, early, press, m, end, age, apply);
    }
  }

  // ----- Reachable differences -----

  /** From boot: one press, time for its heat to go, a frame that finds nothing, and a press rendered a millisecond
    * late. Without the frame in the middle the picture is another. */
  lemma LatePressAfterDarkShows(cfg: Config, board: Layout, position: nat)
    requires ValidConfig(cfg) && Heats(cfg, board, Press(position, 0))
    ensures var age, apply := AgingAt(CoolingRate(cfg)), Warming(cfg, board);
            var g := RenderAt(Boot(|board.coords|), 0, [Press(position, 0)], age, apply);
            var m := 255 * cfg.decreaseDelay;
            var late := Press(position, m);
            RenderAt(RenderAt(g, m, [], age, apply), m + 1, [late], age, apply)
            != RenderAt(g, m + 1, [late], age, apply)
  {
    var age, apply := AgingAt(CoolingRate(cfg)), Warming(cfg, board);
    ActionsAgree(cfg, board);
    var boot, first := Boot(|board.coords|), Press(position, 0);
    var g := RenderAt(boot, 0, [first], age, apply);
    PausedRender(boot, 0, [first], age, apply);
    AnchoredPress(boot.heat, first, 0, 0, age, apply);
    assert WarmsAs(apply, cfg, board, boot.heat, first);
    assert Waits(age, Warm(cfg, board, boot.heat, first));
    PressLights(cfg, board, boot.heat, first);
    WarmStaysClean(cfg, board, boot.heat, first);
    assert g.heat == Warm(cfg, board, boot.heat, first) && Lit(g.heat);
    var m := 255 * cfg.decreaseDelay;
    EmptiesInTime(g.heat, m, CoolingRate(cfg));
    RunningRender(g, m, [], age, apply);
    assert AgesAs(age, CoolingRate(cfg), g.heat, m);
    PausedClockAnchors(cfg, board, g, [], Press(position, m), m, m + 1);
    assert [] + [Press(position, m)] == [Press(position, m)];
  }

  /** With several later presses a delay can stay hidden: on one LED a second full press saturates whatever the first
    * has lost meanwhile. So the condition of `PausedClockAnchors` is exact for one press only. */
  lemma SaturationHidesTheDelay(cfg: Config, board: Layout, position: nat)
    requires ValidConfig(cfg) && cfg.increaseStep == 255 && cfg.decreaseDelay == 1
    requires |board.coords| == 1 && LedFor(board, position).Some?
    ensures var age, apply := AgingAt(CoolingRate(cfg)), Warming(cfg, board);
            var late := [Press(position, 0), Press(position, 1)];
            Replay([Cell(0, 0)], late, 0, 1, age, apply) == Replay([Cell(0, 0)], late, 1, 1, age, apply)
  {
    var age, apply := AgingAt(CoolingRate(cfg)), Warming(cfg, board);
    var p, q := Press(position, 0), Press(position, 1);
    var late, dark, full := [p, q], [Cell(0, 0)], [Cell(255, 0)];
    ActionsAgree(cfg, board);
    FullPress(cfg, board, Cell(0, 0), p);
    FullPress(cfg, board, Cell(254, 0), q);
    FullPress(cfg, board, Cell(255, 0), q);
    assert WarmsAs(apply, cfg, board, dark, p) && WarmsAs(apply, cfg, board, [Cell(254, 0)], q);
    assert WarmsAs(apply, cfg, board, full, q);
    assert Waits(age, dark) && Waits(age, full);
    assert AgesAs(age, CoolingRate(cfg), full, 1);
    assert Age(full, 1, CoolingRate(cfg)) == [Cell(254, 0)];
    ReplayTurn(dark, late, 0, 0, 1, age, apply);
    ReplayTurn(full, late, 1, 0, 1, age, apply);
    ReplayTurn(dark, late, 0, 1, 1, age, apply);
    ReplayTurn(full, late, 1, 1, 1, age, apply);
    assert late[0..] == late && late[2..] == [];
  }

  lemma FullPress(cfg: Config, board: Layout, c: Cell, press: Press)
    requires cfg.increaseStep == 255 && |board.coords| == 1 && LedFor(board, press.position).Some? && c.remainder == 0
    ensures Warm(cfg, board, [c], press) == [Cell(255, 0)]
  {
  }

  lemma EmptiesInTime(heat: Heat, elapsed: nat, r: Rate)
    requires ValidRate(r) && !r.sweep && elapsed == 255 * r.divisor
    ensures !Lit(Age(heat, elapsed, r))
  {
    forall i | 0 <= i < |heat| ensures Age(heat, elapsed, r)[i].level == 0 {
      DecayToNothing(heat[i], elapsed, r.divisor);
    }
  }

  /** The presses that are queued: those that can heat something. */
  function Taking(cfg: Config, board: Layout): Press -> bool {
    (press: Press) => cfg.increaseStep > 0 && LedFor(board, press.position).Some?
  }

  // ----- The effect in place -----

  class Effect {
    const cfg: Config
    const board: Layout
    const temp: array<Byte>
    const remainder: array<nat>
    var pending: seq<Press>

    ghost predicate Valid()
      reads this
    {
      && ValidConfig(cfg) && ValidLayout(board)
      && temp.Length == remainder.Length == |board.coords|
      && |pending| <= PENDING_EVENTS
    }

    ghost function View(): (h: Heat)
      requires temp.Length == remainder.Length
      reads temp, remainder
    {
      seq(temp.Length, i requires 0 <= i < temp.Length reads temp, remainder => Cell(temp[i], remainder[i]))
    }

    constructor (cfg: Config, board: Layout)
      requires ValidConfig(cfg) && ValidLayout(board)
      ensures Valid() && this.cfg == cfg && this.board == board && pending == []
      ensures Dark(View())
      ensures fresh(temp) && fresh(remainder)
    {
      this.cfg, this.board, pending := cfg, board, [];
      temp := new Byte[|board.coords|](_ => 0);
      remainder := new nat[|board.coords|](_ => 0);
    }

    method Advance(elapsed: nat)
      requires Valid()
      modifies temp, remainder
      ensures View() == Age(old(View()), elapsed, CoolingRate(cfg))
      ensures forall i :: 0 <= i < temp.Length && old(remainder[i]) == 0 ==>
                temp[i] == Max(0, old(temp[i]) - elapsed / cfg.decreaseDelay)
    {
      ghost var start := View();
      forall i | 0 <= i < temp.Length && start[i].remainder == 0
        ensures Age(start, elapsed, CoolingRate(cfg))[i].level
             == Max(0, start[i].level - elapsed / cfg.decreaseDelay)
      {
        HeatIsLostByTheDelay(cfg, start, elapsed, i);
      }
      Cool(elapsed);
      assert forall i :: 0 <= i < temp.Length ==> View()[i].level == temp[i];
    }

    method Cool(elapsed: nat)
      requires Valid()
      modifies temp, remainder
      ensures View() == Age(old(View()), elapsed, CoolingRate(cfg))
    {
      if elapsed == 0 {
        return;
      }
      var delay := cfg.decreaseDelay;
      var spent := Min(elapsed, 255 * delay);
      ghost var was := View();
      for i := 0 to temp.Length
        invariant forall k :: 0 <= k < i ==> Cell(temp[k], remainder[k]) == Decay(was[k], spent, delay)
        invariant forall k :: i <= k < temp.Length ==> Cell(temp[k], remainder[k]) == was[k]
      {
        var next := Decay(Cell(temp[i], remainder[i]), spent, delay);
        temp[i], remainder[i] := next.level, next.remainder;
      }
      assert View() == Age(was, elapsed, CoolingRate(cfg));
    }

    method Apply(press: Press)
      requires Valid()
      modifies temp
      ensures View() == Warm(cfg, board, old(View()), press)
    {
      ghost var was := View();
      var origin := LedFor(board, press.position);
      if cfg.increaseStep == 0 || origin.None? {
        assert View() == was;
        return;
      }
      Heat(origin.value, i requires 0 <= i < |board.coords| => Gain(cfg, board, origin.value, i));
      assert View() == Warm(cfg, board, was, press);
    }

    method Heat(led: nat, ghost gain: nat --> nat)
      requires Valid() && led < temp.Length
      requires forall i :: 0 <= i < temp.Length ==> gain.requires(i) && GainsAs(gain, led, i)
      modifies temp
      ensures forall k :: 0 <= k < temp.Length ==> temp[k] == Saturated(old(temp[k]) + gain(k))
    {
      assert GainsAs(gain, led, led);
      temp[led] := Min(255, temp[led] + cfg.increaseStep);
      if cfg.spread == 0 {
        assert forall i :: 0 <= i < temp.Length ==> GainsAs(gain, led, i);
        return;
      }
      for i := 0 to temp.Length
        invariant temp[led] == Saturated(old(temp[led]) + gain(led))
        invariant forall k :: 0 <= k < i ==> temp[k] == Saturated(old(temp[k]) + gain(k))
        invariant forall k :: i <= k < temp.Length && k != led ==> temp[k] == old(temp[k])
      {
        if i == led {
          continue;
        }
        var heat := HeatReaching(led, i, gain);
        if heat != 0 {
          temp[i] := Min(255, temp[i] + heat);
        }
      }
    }

    predicate GainsAs(gain: nat --> nat, led: nat, i: nat)
      requires led < |board.coords| && i < |board.coords| && gain.requires(i)
    {
      gain(i) == Gain(cfg, board, led, i)
    }

    method HeatReaching(led: nat, i: nat, ghost gain: nat --> nat) returns (heat: nat)
      requires Valid() && led < temp.Length && i < temp.Length && i != led
      requires gain.requires(i) && GainsAs(gain, led, i)
      ensures heat == gain(i)
    {
      var a, b := board.coords[led], board.coords[i];
      var squared := Apart(a, b);
      if squared >= cfg.spread * cfg.spread {
        return 0;
      }
      ApartFits(a, b);
      var distance := CoordDistance(squared);
      RootBelow(squared, cfg.spread);
      heat := cfg.increaseStep * (cfg.spread - distance) / cfg.spread;
      heat := Min(heat, cfg.areaLimit);
    }

    method Rest(wait: nat, ghost age: Aging)
      requires Valid() && IsAging(age, CoolingRate(cfg))
      modifies temp, remainder
      ensures View() == age(old(View()), wait)
    {
      assert AgesAs(age, CoolingRate(cfg), View(), wait);
      Advance(wait);
    }

    method Hit(press: Press, ghost apply: Application)
      requires Valid() && IsWarming(apply, cfg, board)
      modifies temp, remainder
      ensures View() == apply(old(View()), press)
    {
      assert WarmsAs(apply, cfg, board, View(), press);
      Apply(press);
    }

    /** Replays the queue under any functions that agree with this effect's own. */
    method Catch(from: int, end: int, ghost age: Aging, ghost apply: Application)
      requires Valid() && from <= end
      requires IsAging(age, CoolingRate(cfg)) && IsWarming(apply, cfg, board)
      modifies temp, remainder
      ensures View() == Replay(old(View()), pending, from, end, age, apply)
    {
      var cursor := from;
      ghost var goal := Replay(View(), pending, cursor, end, age, apply);
      for i := 0 to |pending|
        invariant cursor <= end
        invariant Replay(View(), pending[i..], cursor, end, age, apply) == goal
      {
        var at := Clamp(pending[i].timestamp, cursor, end);
        ReplayTurn(View(), pending, i, cursor, end, age, apply);
        Rest(at - cursor, age);
        Hit(pending[i], apply);
        cursor := at;
      }
      Rest(end - cursor, age);
    }

    /** The time-keeping half of a render: queued presses at their own times, then the rest of the frame. */
    method Render(now: int, elapsed: nat) returns (evolving: bool)
      requires Valid()
      modifies this`pending, temp, remainder
      ensures Valid() && pending == []
      ensures View() == Replay(old(View()), old(pending), FrameStart(now, elapsed), FrameEnd(now),
                               AgingAt(CoolingRate(cfg)), Warming(cfg, board))
      ensures evolving <==> Lit(View())
    {
      var end: int := FrameEnd(now);
      ghost var age, apply := AgingAt(CoolingRate(cfg)), Warming(cfg, board);
      ActionsAgree(cfg, board);
      Catch(end - Min(end, elapsed), end, age, apply);
      pending := [];
      evolving := Evolving();
    }

    method Evolving() returns (evolving: bool)
      requires Valid()
      ensures evolving <==> Lit(View())
    {
      evolving := false;
      for i := 0 to temp.Length
        invariant evolving <==> exists k :: 0 <= k < i && View()[k].level != 0
      {
        assert View()[i].level == temp[i];
        evolving := evolving || temp[i] != 0;
      }
    }

    /** A full queue drops the newest press. */
    method OnEvent(press: Press, pressed: bool) returns (accepted: bool)
      requires Valid()
      modifies this`pending
      ensures Valid()
      ensures accepted <==> pressed && cfg.increaseStep > 0 && LedFor(board, press.position).Some?
                            && |old(pending)| < 16
      ensures pending == if accepted then old(pending) + [press] else old(pending)
    {
      if !pressed || cfg.increaseStep == 0 || LedFor(board, press.position).None? || |pending| == PENDING_EVENTS {
        return false;
      }
      pending := pending + [press];
      return true;
    }

    /** What one scene pass does to this effect: at most sixteen deliveries, then a render if the frame asked for one or
        a press was taken here. The queue is empty between passes, so no press is ever dropped for want of room. */
    method Pass(keys: seq<Key>, asked: bool, now: int, elapsed: nat) returns (painted: bool)
      requires Valid() && pending == [] && |keys| <= Coordinator.MAX_DELIVERIES
      modifies this`pending, temp, remainder
      ensures Valid() && pending == []
      ensures var kept := Kept(keys, Taking(cfg, board));
              && (painted <==> asked || kept != [])
              && View() == if painted
                           then Replay(old(View()), kept, FrameStart(now, elapsed), FrameEnd(now),
                                       AgingAt(CoolingRate(cfg)), Warming(cfg, board))
                           else old(View())
    {
      ghost var takes := Taking(cfg, board);
      var changed := false;
      for i := 0 to |keys|
        invariant Valid() && pending == Kept(keys[..i], takes)
        invariant changed <==> pending != []
        invariant View() == old(View())
      {
        KeptMore(keys, takes, i);
        var accepted := OnEvent(keys[i].press, keys[i].pressed);
        changed := changed || accepted;
      }
      assert keys[..|keys|] == keys;
      painted := asked || changed;
      if painted {
        var evolving := Render(now, elapsed);
      }
    }
  }
}
