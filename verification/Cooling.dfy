/** How stored heat wears off: integer decay whose outcome does not depend on how the time is sliced. */
module Cooling {
  import opened Arith

  /** A level and the part of the next unit of loss that has already elapsed. */
  datatype Cell = Cell(level: Byte, remainder: nat)

  type Heat = seq<Cell>

  function Settle(level: Byte, loss: nat, remainder: nat): Cell {
    if loss >= level then Cell(0, 0) else Cell(level - loss, remainder)
  }

  /** `kp_rgb_decay_u8`. */
  function Decay(c: Cell, scaled: nat, divisor: nat): (r: Cell)
    requires divisor > 0
    ensures r.level <= c.level
    ensures r.remainder < divisor
    ensures r.level == 0 ==> r.remainder == 0
  {
    var total := scaled + c.remainder;
    Settle(c.level, total / divisor, total % divisor)
  }

  /** What a cell holds, in units of a `divisor`-th of a level. */
  function Energy(c: Cell, divisor: nat): int {
    c.level * divisor - c.remainder
  }

  /** Decay spends exactly the time it is given, down to nothing. */
  lemma DecaySpends(c: Cell, scaled: nat, divisor: nat)
    requires divisor > 0
    ensures Energy(Decay(c, scaled, divisor), divisor)
         == if Energy(c, divisor) <= scaled then 0 else Energy(c, divisor) - scaled
  {
    var total := scaled + c.remainder;
    DivAtLeast(total, c.level, divisor);
    assert total == total / divisor * divisor + total % divisor;
    assert (c.level - total / divisor) * divisor == c.level * divisor - total / divisor * divisor;
  }

  lemma SettleTwice(level: Byte, first: nat, left: nat, second: nat, other: nat, rest: nat, spare: nat)
    ensures var once := Settle(level, first, left);
            && (first < level ==> Settle(once.level, second, rest) == Settle(level, first + second, rest))
            && (first >= level ==> once == Cell(0, 0) && Settle(once.level, other, spare) == Cell(0, 0)
                                   && Settle(level, first + second, rest) == Cell(0, 0))
  {
  }

  /** Decay is an action of elapsed time, with no assumption on the remainder. */
  lemma DecayAdds(c: Cell, a: nat, b: nat, divisor: nat)
    requires divisor > 0
    ensures Decay(c, a + b, divisor) == Decay(Decay(c, a, divisor), b, divisor)
  {
    var total := a + c.remainder;
    var first, left := Parts(total, divisor);
    var second, rest := Parts(left + b, divisor);
    var other, spare := Parts(b, divisor);
    DivInstalments(total, b, divisor);
    DecayIs(c, a, divisor, first, left);
    DecayIs(c, a + b, divisor, first + second, rest);
    if first < c.level {
      DecayIs(Cell(c.level - first, left), b, divisor, second, rest);
    } else {
      DecayIs(Cell(0, 0), b, divisor, other, spare);
    }
    SettleTwice(c.level, first, left, second, other, rest, spare);
  }

  lemma Parts(total: nat, divisor: nat) returns (quotient: nat, remainder: nat)
    requires divisor > 0
    ensures quotient == total / divisor && remainder == total % divisor
  {
    quotient, remainder := total / divisor, total % divisor;
  }

  lemma DecayIs(c: Cell, scaled: nat, divisor: nat, loss: nat, remainder: nat)
    requires divisor > 0 && loss == (scaled + c.remainder) / divisor && remainder == (scaled + c.remainder) % divisor
    ensures Decay(c, scaled, divisor) == Settle(c.level, loss, remainder)
  {
  }

  lemma DecayToNothing(c: Cell, scaled: nat, divisor: nat)
    requires divisor > 0 && scaled >= 255 * divisor
    ensures Decay(c, scaled, divisor) == Cell(0, 0)
  {
    DivAtLeast(scaled + c.remainder, 255, divisor);
  }

  /** Losing one level, or sweeping all 255, takes `divisor` milliseconds. */
  datatype Rate = Rate(divisor: nat, sweep: bool)

  predicate ValidRate(r: Rate) {
    r.divisor > 0
  }

  /** Milliseconds beyond the time to empty a full cell take nothing more away. */
  function Spent(elapsed: nat, r: Rate): nat {
    if r.sweep then Min(elapsed, r.divisor) * 255 else Min(elapsed, 255 * r.divisor)
  }

  function Age(heat: Heat, elapsed: nat, r: Rate): (aged: Heat)
    requires ValidRate(r)
    ensures |aged| == |heat|
  {
    if elapsed == 0 then heat
    else seq(|heat|, i requires 0 <= i < |heat| => Decay(heat[i], Spent(elapsed, r), r.divisor))
  }

  /** Two capped waits spend what one spends, or enough to empty any cell. */
  lemma SpentAdds(x: nat, y: nat, r: Rate)
    requires ValidRate(r)
    ensures || Spent(x, r) + Spent(y, r) == Spent(x + y, r)
            || (Spent(x, r) + Spent(y, r) >= 255 * r.divisor && Spent(x + y, r) == 255 * r.divisor)
  {
  }

  lemma CellAges(c: Cell, x: nat, y: nat, r: Rate)
    requires ValidRate(r)
    ensures Decay(c, Spent(x + y, r), r.divisor) == Decay(Decay(c, Spent(x, r), r.divisor), Spent(y, r), r.divisor)
  {
    var a, b, both := Spent(x, r), Spent(y, r), Spent(x + y, r);
    SpentAdds(x, y, r);
    DecayAdds(c, a, b, r.divisor);
    if a + b != both {
      DecayToNothing(c, a + b, r.divisor);
      DecayToNothing(c, both, r.divisor);
    }
  }

  /** Waiting `x` and then `y` milliseconds is waiting `x + y`, caps and all. */
  lemma AgeAdds(heat: Heat, x: nat, y: nat, r: Rate)
    requires ValidRate(r)
    ensures Age(heat, x + y, r) == Age(Age(heat, x, r), y, r)
  {
    forall i | 0 <= i < |heat| ensures Age(heat, x + y, r)[i] == Age(Age(heat, x, r), y, r)[i] {
      CellAges(heat[i], x, y, r);
    }
  }

  /** What time takes away, cap or no cap: the energy of every cell falls by one unit a millisecond, or by 255 in a
    * sweep, down to nothing; no time changes nothing. */
  lemma AgeSpends(heat: Heat, elapsed: nat, r: Rate, i: nat)
    requires ValidRate(r) && i < |heat|
    ensures elapsed == 0 ==> Age(heat, elapsed, r) == heat
    ensures elapsed > 0 ==>
              var before, lost := Energy(heat[i], r.divisor), if r.sweep then elapsed * 255 else elapsed;
              && Energy(Age(heat, elapsed, r)[i], r.divisor) == (if before <= lost then 0 else before - lost)
              && Age(heat, elapsed, r)[i].remainder < r.divisor
              && (Age(heat, elapsed, r)[i].level == 0 ==> Age(heat, elapsed, r)[i].remainder == 0)
  {
    if elapsed > 0 {
      DecaySpends(heat[i], Spent(elapsed, r), r.divisor);
      SpentIsEnough(heat[i], elapsed, r);
    }
  }

  lemma SpentIsEnough(c: Cell, elapsed: nat, r: Rate)
    requires ValidRate(r)
    ensures var lost := if r.sweep then elapsed * 255 else elapsed;
            Spent(elapsed, r) == lost || (Spent(elapsed, r) >= Energy(c, r.divisor) && lost >= Energy(c, r.divisor))
  {
    MulAtLeast(c.level, 255, r.divisor);
  }

  /** A level and remainder are all there is to its energy. */
  lemma EnergyDecides(c: Cell, d: Cell, divisor: nat)
    requires c.remainder < divisor && d.remainder < divisor && Energy(c, divisor) == Energy(d, divisor)
    ensures c == d
  {
    assert c.level * divisor - d.level * divisor == (c.level - d.level) * divisor;
    if c.level > d.level {
      MulAtLeast(1, c.level - d.level, divisor);
    } else if d.level > c.level {
      assert d.level * divisor - c.level * divisor == (d.level - c.level) * divisor;
      MulAtLeast(1, d.level - c.level, divisor);
    }
  }

  /** A cell with no loss under way has lost the whole part of the time over the divisor. */
  lemma FreshCellAges(heat: Heat, elapsed: nat, r: Rate, i: nat)
    requires ValidRate(r) && i < |heat| && heat[i].remainder == 0
    ensures var lost := (if r.sweep then elapsed * 255 else elapsed) / r.divisor;
            Age(heat, elapsed, r)[i].level == if heat[i].level <= lost then 0 else heat[i].level - lost
  {
    var lost := if r.sweep then elapsed * 255 else elapsed;
    AgeSpends(heat, elapsed, r, i);
    if elapsed > 0 {
      LevelFromEnergy(heat[i], Age(heat, elapsed, r)[i], lost, r.divisor);
    } else {
      DivModUnique(0, 0, 0, r.divisor);
    }
  }

  lemma LevelFromEnergy(c: Cell, d: Cell, lost: nat, divisor: nat)
    requires divisor > 0 && c.remainder == 0 && d.remainder < divisor && (d.level == 0 ==> d.remainder == 0)
    requires Energy(d, divisor) == if Energy(c, divisor) <= lost then 0 else Energy(c, divisor) - lost
    ensures d.level == if c.level <= lost / divisor then 0 else c.level - lost / divisor
  {
    DivAtLeast(lost, c.level, divisor);
    if Energy(c, divisor) <= lost {
      EnergyDecides(d, Cell(0, 0), divisor);
    } else {
      assert lost == (c.level - d.level) * divisor + d.remainder;
      DivModUnique(lost, c.level - d.level, d.remainder, divisor);
    }
  }

  // ----- What the rest of the model relies on -----

  type Aging = (Heat, nat) -> Heat

  predicate Dark(heat: Heat) {
    forall i :: 0 <= i < |heat| ==> heat[i] == Cell(0, 0)
  }

  predicate Lit(heat: Heat) {
    exists i :: 0 <= i < |heat| && heat[i].level != 0
  }

  /** Some cell is lit and has not begun to lose its next unit. */
  predicate JustLit(heat: Heat) {
    exists i :: 0 <= i < |heat| && heat[i].level > 0 && heat[i].remainder == 0
  }

  predicate AddsUp(age: Aging, heat: Heat, x: nat, y: nat) {
    age(age(heat, x), y) == age(heat, x + y)
  }

  predicate Waits(age: Aging, heat: Heat) {
    age(heat, 0) == heat
  }

  predicate KeepsDark(age: Aging, heat: Heat, elapsed: nat) {
    Dark(heat) ==> age(heat, elapsed) == heat
  }

  predicate Shows(age: Aging, heat: Heat, elapsed: nat) {
    JustLit(heat) && elapsed > 0 ==> age(heat, elapsed) != heat
  }

  /** Elapsed time acts: it adds up, none of it does nothing, darkness stays and any of it shows on fresh light. */
  ghost predicate LosesHeat(age: Aging) {
    && (forall h, x, y :: AddsUp(age, h, x, y))
    && (forall h :: Waits(age, h))
    && (forall h, x :: KeepsDark(age, h, x))
    && (forall h, x :: Shows(age, h, x))
  }

  function AgingAt(r: Rate): Aging
    requires ValidRate(r)
  {
    (heat: Heat, elapsed: nat) => Age(heat, elapsed, r)
  }

  /** A dark cell has no part of a loss under way. */
  predicate Clean(heat: Heat) {
    forall i :: 0 <= i < |heat| && heat[i].level == 0 ==> heat[i].remainder == 0
  }

  lemma AgeStaysClean(heat: Heat, elapsed: nat, r: Rate)
    requires ValidRate(r) && Clean(heat)
    ensures Clean(Age(heat, elapsed, r))
  {
  }

  predicate AgesAs(age: Aging, r: Rate, heat: Heat, elapsed: nat)
    requires ValidRate(r)
  {
    age(heat, elapsed) == Age(heat, elapsed, r)
  }

  /** `age` is the aging of rate `r`, point by point. */
  ghost predicate IsAging(age: Aging, r: Rate)
    requires ValidRate(r)
  {
    forall h, x :: AgesAs(age, r, h, x)
  }

  lemma AgingLosesHeat(r: Rate)
    requires ValidRate(r)
    ensures LosesHeat(AgingAt(r))
  {
    forall h, x: nat, y: nat ensures AddsUp(AgingAt(r), h, x, y) {
      AgeAdds(h, x, y, r);
    }
    forall h: Heat, x: nat ensures KeepsDark(AgingAt(r), h, x) && Shows(AgingAt(r), h, x) {
      if Dark(h) {
        DarkStaysDark(h, x, r);
      }
      if JustLit(h) && x > 0 {
        FreshLightShows(h, x, r);
      }
    }
  }

  lemma FreshLightShows(heat: Heat, elapsed: nat, r: Rate)
    requires ValidRate(r) && JustLit(heat) && elapsed > 0
    ensures Age(heat, elapsed, r) != heat
  {
    var i :| 0 <= i < |heat| && heat[i].level > 0 && heat[i].remainder == 0;
    LossShows(heat[i], elapsed, r);
    assert Age(heat, elapsed, r)[i] != heat[i];
  }

  lemma DarkStaysDark(dark: Heat, elapsed: nat, r: Rate)
    requires ValidRate(r)
    requires Dark(dark)
    ensures Age(dark, elapsed, r) == dark
  {
    assert Decay(Cell(0, 0), Spent(elapsed, r), r.divisor) == Cell(0, 0);
    assert Age(dark, elapsed, r) == dark;
  }

  lemma LossShows(c: Cell, elapsed: nat, r: Rate)
    requires ValidRate(r) && elapsed > 0 && c.level > 0 && c.remainder == 0
    ensures Decay(c, Spent(elapsed, r), r.divisor) != c
  {
    DecaySpends(c, Spent(elapsed, r), r.divisor);
    MulAtLeast(1, c.level, r.divisor);
  }
}
