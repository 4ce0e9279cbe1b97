/** The battery bar: LEDs in reading order, the first ones lit in proportion to the charge. */
module Battery {
  import opened Arith
  import opened Board
  import opened Composition
  import opened Indices

  // ----- Reading order -----

  datatype Reading = Reading(coords: seq<Coord>, xPrimary: bool, reverse: bool)

  predicate Known(r: Reading, leds: seq<nat>) {
    forall i :: 0 <= i < |leds| ==> leds[i] < |r.coords|
  }

  /** `kp_ovl_battery_before`. */
  predicate Before(r: Reading, a: nat, b: nat)
    requires a < |r.coords| && b < |r.coords|
  {
    var ca, cb := r.coords[a], r.coords[b];
    if r.xPrimary then
      if ca.x != cb.x then (if r.reverse then ca.x > cb.x else ca.x < cb.x)
      else (if r.reverse then ca.y > cb.y else ca.y < cb.y)
    else
    if ca.y != cb.y then (if r.reverse then ca.y > cb.y else ca.y < cb.y)
    else (if r.reverse then ca.x > cb.x else ca.x < cb.x)
  }

  /** From the last element backwards past those that come after `v`. */
  function Insert(r: Reading, sorted: seq<nat>, v: nat): (s: seq<nat>)
    requires Known(r, sorted) && v < |r.coords|
    ensures |s| == |sorted| + 1 && Known(r, s)
  {
    if sorted == [] || !Before(r, v, sorted[|sorted| - 1]) then sorted + [v]
    else Insert(r, sorted[..|sorted| - 1], v) + [sorted[|sorted| - 1]]
  }

  function Sorted(r: Reading, leds: seq<nat>): (s: seq<nat>)
    requires Known(r, leds)
    ensures |s| == |leds| && Known(r, s)
  {
    if leds == [] then [] else Insert(r, Sorted(r, leds[..|leds| - 1]), leds[|leds| - 1])
  }

  lemma {:induction false} InsertPermutes(r: Reading, sorted: seq<nat>, v: nat)
    requires Known(r, sorted) && v < |r.coords|
    ensures multiset(Insert(r, sorted, v)) == multiset(sorted) + multiset{v}
  {
    if sorted != [] && Before(r, v, sorted[|sorted| - 1]) {
      InsertPermutes(r, sorted[..|sorted| - 1], v);
      assert sorted == sorted[..|sorted| - 1] + [sorted[|sorted| - 1]];
    }
  }

  lemma {:induction false} SortPermutes(r: Reading, leds: seq<nat>)
    requires Known(r, leds)
    ensures multiset(Sorted(r, leds)) == multiset(leds)
  {
    if leds != [] {
      var shorter, last := leds[..|leds| - 1], leds[|leds| - 1];
      SortPermutes(r, shorter);
      InsertPermutes(r, Sorted(r, shorter), last);
      assert leds == shorter + [last];
      assert Sorted(r, leds) == Insert(r, Sorted(r, shorter), last);
    }
  }

  // ----- Stable and sorted, and nothing else is -----

  function Position(leds: seq<nat>, led: nat): (p: nat)
    requires led in leds
    ensures p < |leds| && leds[p] == led
  {
    if leds[|leds| - 1] == led then |leds| - 1 else Position(leds[..|leds| - 1], led)
  }

  /** Reading order, ties going to whichever is listed first. */
  predicate Precedes(r: Reading, leds: seq<nat>, a: nat, b: nat)
    requires Known(r, leds) && a in leds && b in leds
  {
    Before(r, a, b) || (!Before(r, b, a) && Position(leds, a) < Position(leds, b))
  }

  /** `s` lists the LEDs of `leds` in stable reading order. */
  predicate InOrder(r: Reading, leds: seq<nat>, s: seq<nat>)
    requires Known(r, leds)
  {
    && (forall i :: 0 <= i < |s| ==> s[i] in leds)
    && forall i, j :: 0 <= i < j < |s| ==> Precedes(r, leds, s[i], s[j])
  }

  lemma PrecedesIsStrict(r: Reading, leds: seq<nat>, a: nat, b: nat, c: nat)
    requires Known(r, leds) && a in leds && b in leds && c in leds
    ensures !Precedes(r, leds, a, a)
    ensures Precedes(r, leds, a, b) && Precedes(r, leds, b, c) ==> Precedes(r, leds, a, c)
    ensures a != b ==> Precedes(r, leds, a, b) || Precedes(r, leds, b, a)
  {
  }

  lemma {:induction false} MembersKept(r: Reading, leds: seq<nat>, x: nat)
    requires Known(r, leds)
    ensures x in Sorted(r, leds) <==> x in leds
  {
    SortPermutes(r, leds);
    assert x in multiset(Sorted(r, leds)) <==> x in Sorted(r, leds);
    assert x in multiset(leds) <==> x in leds;
  }

  /** Adding a later LED does not change how earlier ones compare. */
  lemma PrecedesGrows(r: Reading, leds: seq<nat>, a: nat, b: nat)
    requires Known(r, leds) && Unique(leds) && leds != []
    requires a in leds[..|leds| - 1] && b in leds[..|leds| - 1]
    ensures Precedes(r, leds, a, b) == Precedes(r, leds[..|leds| - 1], a, b)
  {
  }

  lemma AppendKeepsOrder(r: Reading, leds: seq<nat>, s: seq<nat>, x: nat)
    requires Known(r, leds) && InOrder(r, leds, s) && x in leds
    requires forall i :: 0 <= i < |s| ==> Precedes(r, leds, s[i], x)
    ensures InOrder(r, leds, s + [x])
  {
  }

  lemma {:induction false} InsertedFrom(r: Reading, s: seq<nat>, v: nat, x: nat)
    requires Known(r, s) && v < |r.coords|
    ensures x in Insert(r, s, v) <==> x in s || x == v
  {
    InsertPermutes(r, s, v);
    assert x in Insert(r, s, v) <==> x in multiset(Insert(r, s, v));
    assert x in s <==> x in multiset(s);
  }

  lemma {:induction false} InsertKeepsOrder(r: Reading, leds: seq<nat>, s: seq<nat>, v: nat)
    requires Known(r, leds) && v in leds && InOrder(r, leds, s) && Known(r, s)
    requires forall i :: 0 <= i < |s| ==> Position(leds, s[i]) < Position(leds, v)
    ensures InOrder(r, leds, Insert(r, s, v))
  {
    if s != [] {
      var shorter, last := s[..|s| - 1], s[|s| - 1];
      if Before(r, v, last) {
        InsertKeepsOrder(r, leds, shorter, v);
        var inserted := Insert(r, shorter, v);
        forall i | 0 <= i < |inserted| ensures Precedes(r, leds, inserted[i], last) {
          InsertedFrom(r, shorter, v, inserted[i]);
          if inserted[i] in shorter {
            var k :| 0 <= k < |shorter| && shorter[k] == inserted[i];
            assert s[k] == inserted[i];
          }
        }
        AppendKeepsOrder(r, leds, inserted, last);
      } else {
        forall i | 0 <= i < |s| ensures Precedes(r, leds, s[i], v) {
          PrecedesIsStrict(r, leds, s[i], last, v);
        }
        AppendKeepsOrder(r, leds, s, v);
      }
    }
  }

  lemma {:induction false} SortIsStable(r: Reading, leds: seq<nat>)
    requires Known(r, leds) && Unique(leds)
    ensures InOrder(r, leds, Sorted(r, leds))
  {
    if leds != [] {
      var shorter := leds[..|leds| - 1];
      var s := Sorted(r, shorter);
      SortIsStable(r, shorter);
      forall i | 0 <= i < |s| ensures s[i] in shorter {
        MembersKept(r, shorter, s[i]);
      }
      forall i, j | 0 <= i < j < |s| ensures Precedes(r, leds, s[i], s[j]) {
        PrecedesGrows(r, leds, s[i], s[j]);
      }
      assert Position(leds, leds[|leds| - 1]) == |leds| - 1;
      forall i | 0 <= i < |s| ensures Position(leds, s[i]) < |leds| - 1 {
        assert s[i] in shorter;
      }
      InsertKeepsOrder(r, leds, s, leds[|leds| - 1]);
    }
  }

  lemma SameLast(r: Reading, leds: seq<nat>, s: seq<nat>, t: seq<nat>)
    requires Known(r, leds) && InOrder(r, leds, s) && InOrder(r, leds, t)
    requires multiset(s) == multiset(t) && s != [] && t != []
    ensures s[|s| - 1] == t[|t| - 1]
  {
    var x, y := s[|s| - 1], t[|t| - 1];
    assert x in multiset(t) && y in multiset(s);
    var k :| 0 <= k < |t| && t[k] == x;
    var l :| 0 <= l < |s| && s[l] == y;
    PrecedesIsStrict(r, leds, x, y, x);
  }

  lemma InOrderPrefix(r: Reading, leds: seq<nat>, s: seq<nat>)
    requires Known(r, leds) && InOrder(r, leds, s) && s != []
    ensures InOrder(r, leds, s[..|s| - 1])
  {
  }

  lemma SameSize(s: seq<nat>, t: seq<nat>)
    requires multiset(s) == multiset(t)
    ensures |s| == |t|
  {
    assert |s| == |multiset(s)| && |t| == |multiset(t)|;
  }

  lemma DropSameLast(s: seq<nat>, t: seq<nat>)
    requires s != [] && t != [] && multiset(s) == multiset(t) && s[|s| - 1] == t[|t| - 1]
    ensures multiset(s[..|s| - 1]) == multiset(t[..|t| - 1])
  {
    assert s == s[..|s| - 1] + [s[|s| - 1]] && t == t[..|t| - 1] + [t[|t| - 1]];
    assert multiset(s[..|s| - 1]) == multiset(s) - multiset{s[|s| - 1]};
    assert multiset(t[..|t| - 1]) == multiset(t) - multiset{t[|t| - 1]};
  }

  /** There is only one stable reading order, whatever produced it. */
  lemma {:induction false} OrderIsUnique(r: Reading, leds: seq<nat>, s: seq<nat>, t: seq<nat>)
    requires Known(r, leds) && InOrder(r, leds, s) && InOrder(r, leds, t)
    requires multiset(s) == multiset(t)
    ensures s == t
    decreases |s|
  {
    SameSize(s, t);
    if s != [] {
      SameLast(r, leds, s, t);
      InOrderPrefix(r, leds, s);
      InOrderPrefix(r, leds, t);
      DropSameLast(s, t);
      Rejoin(s, t);
      OrderIsUnique(r, leds, s[..|s| - 1], t[..|t| - 1]);
    }
  }

  /** Of all arrangements of the targets, sorting gives the one in stable reading order. */
  lemma {:induction false} SortedIsTheOrder(r: Reading, leds: seq<nat>, s: seq<nat>)
    requires Known(r, leds) && Unique(leds) && multiset(s) == multiset(leds)
    ensures InOrder(r, leds, s) <==> s == Sorted(r, leds)
  {
    SortIsStable(r, leds);
    SortPermutes(r, leds);
    if InOrder(r, leds, s) {
      OrderIsUnique(r, leds, s, Sorted(r, leds));
    }
  }

  lemma Rejoin(s: seq<nat>, t: seq<nat>)
    requires |s| == |t| > 0 && s[|s| - 1] == t[|t| - 1]
    ensures s[..|s| - 1] == t[..|t| - 1] ==> s == t
  {
    assert s == s[..|s| - 1] + [s[|s| - 1]] && t == t[..|t| - 1] + [t[|t| - 1]];
  }

  // ----- The chosen axis -----

  function Low(values: seq<nat>): nat
    requires values != []
  {
    if |values| == 1 then values[0] else Min(Low(values[..|values| - 1]), values[|values| - 1])
  }

  function High(values: seq<nat>): nat
    requires values != []
  {
    if |values| == 1 then values[0] else Max(High(values[..|values| - 1]), values[|values| - 1])
  }

  lemma {:induction false} LowAndHighBound(values: seq<nat>, i: nat)
    requires i < |values|
    ensures Low(values) <= values[i] <= High(values)
  {
    if i < |values| - 1 {
      LowAndHighBound(values[..|values| - 1], i);
    }
  }

  function Xs(coords: seq<Coord>, leds: seq<nat>): (xs: seq<nat>)
    requires forall i :: 0 <= i < |leds| ==> leds[i] < |coords|
    ensures |xs| == |leds|
  {
    seq(|leds|, i requires 0 <= i < |leds| => coords[leds[i]].x)
  }

  function Ys(coords: seq<Coord>, leds: seq<nat>): (ys: seq<nat>)
    requires forall i :: 0 <= i < |leds| ==> leds[i] < |coords|
    ensures |ys| == |leds|
  {
    seq(|leds|, i requires 0 <= i < |leds| => coords[leds[i]].y)
  }

  /** Along the longer extent of the targets; horizontally when they are equal. */
  function ReadingOf(coords: seq<Coord>, leds: seq<nat>, reverse: bool): Reading
    requires leds != [] && forall i :: 0 <= i < |leds| ==> leds[i] < |coords|
  {
    var xs, ys := Xs(coords, leds), Ys(coords, leds);
    Reading(coords, High(xs) - Low(xs) >= High(ys) - Low(ys), reverse)
  }

  /** A value of the list that the others do not exceed, and one they do not fall below. */
  lemma {:induction false} LowAndHighOccur(values: seq<nat>)
    requires values != []
    ensures exists i :: 0 <= i < |values| && values[i] == Low(values)
    ensures exists i :: 0 <= i < |values| && values[i] == High(values)
  {
    if |values| == 1 {
      assert values[0] == Low(values) == High(values);
    } else {
      var shorter, last := values[..|values| - 1], |values| - 1;
      LowAndHighOccur(shorter);
      var i :| 0 <= i < |shorter| && shorter[i] == Low(shorter);
      var j :| 0 <= j < |shorter| && shorter[j] == High(shorter);
      assert values[i] == Low(shorter) && values[j] == High(shorter);
      assert values[last] == Low(values) || values[i] == Low(values);
      assert values[last] == High(values) || values[j] == High(values);
    }
  }

  /** Two targets are `d` apart along an axis, and no two are farther apart. */
  ghost predicate Extends(values: seq<nat>, d: int) {
    && (exists i, j :: 0 <= i < |values| && 0 <= j < |values| && values[i] as int - values[j] as int == d)
    && (forall i, j :: 0 <= i < |values| && 0 <= j < |values| ==> values[i] as int - values[j] as int <= d)
  }

  lemma {:induction false} SpanExtends(values: seq<nat>)
    requires values != []
    ensures Extends(values, High(values) - Low(values))
  {
    LowAndHighOccur(values);
    var low :| 0 <= low < |values| && values[low] == Low(values);
    var high :| 0 <= high < |values| && values[high] == High(values);
    assert values[high] as int - values[low] as int == High(values) as int - Low(values) as int;
    forall i, j | 0 <= i < |values| && 0 <= j < |values|
      ensures values[i] as int - values[j] as int <= High(values) as int - Low(values) as int
    {
      LowAndHighBound(values, i);
      LowAndHighBound(values, j);
    }
  }

  /** The bar runs along x unless the targets extend strictly farther along y. */
  lemma LongerAxisIsChosen(coords: seq<Coord>, leds: seq<nat>, reverse: bool, dx: int, dy: int)
    requires leds != [] && forall i :: 0 <= i < |leds| ==> leds[i] < |coords|
    requires Extends(seq(|leds|, i requires 0 <= i < |leds| => coords[leds[i]].x), dx)
    requires Extends(seq(|leds|, i requires 0 <= i < |leds| => coords[leds[i]].y), dy)
    ensures var r := ReadingOf(coords, leds, reverse);
            r.coords == coords && r.reverse == reverse && (r.xPrimary <==> dx >= dy)
  {
    var xs := seq(|leds|, i requires 0 <= i < |leds| => coords[leds[i]].x);
    var ys := seq(|leds|, i requires 0 <= i < |leds| => coords[leds[i]].y);
    assert xs == Xs(coords, leds) && ys == Ys(coords, leds);
    SpanExtends(xs);
    SpanExtends(ys);
    ExtentIsUnique(xs, dx, High(xs) - Low(xs));
    ExtentIsUnique(ys, dy, High(ys) - Low(ys));
  }

  lemma ExtentIsUnique(values: seq<nat>, d: int, e: int)
    requires Extends(values, d) && Extends(values, e)
    ensures d == e
  {
  }

  /** Along the bar coordinates never step back: first by the main axis, then by the other, both turned round when the
    * bar is reversed. */
  lemma {:induction false} OrderAscends(r: Reading, leds: seq<nat>, i: nat, j: nat)
    requires Known(r, leds) && Unique(leds) && i < j < |leds|
    ensures var s := Sorted(r, leds);
            && s[i] < |r.coords| && s[j] < |r.coords|
            && var near, far := if r.reverse then r.coords[s[j]] else r.coords[s[i]],
                                if r.reverse then r.coords[s[i]] else r.coords[s[j]];
               if r.xPrimary then near.x < far.x || (near.x == far.x && near.y <= far.y)
               else near.y < far.y || (near.y == far.y && near.x <= far.x)
  {
    SortIsStable(r, leds);
    assert Precedes(r, leds, Sorted(r, leds)[i], Sorted(r, leds)[j]);
  }

  // ----- How many are lit -----

  /** The charge rounded to the nearest LED, half up. */
  function LitCount(count: nat, soc: nat): nat {
    (count * soc + 50) / 100
  }

  /** The division in two parts, which keeps intermediate values small, gives the same count. */
  lemma SplitFormula(count: nat, soc: nat)
    ensures count / 100 * soc + (count % 100 * soc + 50) / 100 == LitCount(count, soc)
  {
    var q, m := count / 100, count % 100;
    assert count * soc == m * soc + 100 * (q * soc) by {
      assert count == m + 100 * q;
      assert (m + 100 * q) * soc == m * soc + 100 * (q * soc);
    }
    ModShift(m * soc + 50, q * soc, 100);
  }

  lemma LitCountFits(count: nat, soc: nat, more: nat)
    requires soc <= more <= 100
    ensures LitCount(count, soc) <= LitCount(count, more) <= count
    ensures LitCount(count, 0) == 0 && LitCount(count, 100) == count
    ensures -50 <= 100 * LitCount(count, soc) - count * soc <= 50
  {
    MulAtLeast(soc, more, count);
    MulAtLeast(more, 100, count);
    assert count * soc == soc * count && count * more == more * count;
    DivMonotone(count * soc + 50, count * more + 50, 100);
    DivMonotone(count * more + 50, count * 100 + 50, 100);
  }

  /** The hue mode runs between its end points, rounding toward the empty one. */
  function HueAt(empty: nat, full: nat, soc: nat): (hue: int)
    requires soc <= 100
    ensures empty <= full ==> empty <= hue <= full
    ensures full <= empty ==> full <= hue <= empty
    ensures soc == 0 ==> hue == empty
    ensures soc == 100 ==> hue == full
    ensures if empty <= full then 100 * (hue - empty) <= (full - empty) * soc < 100 * (hue - empty) + 100
            else 100 * (empty - hue) <= (empty - full) * soc < 100 * (empty - hue) + 100
  {
    MixStep(full - empty, soc);
    empty + TruncDiv((full - empty) * soc, 100)
  }

  // ----- The picture -----

  function BarColour(order: seq<nat>, lit: nat, on: Rgb, off: Rgb): nat -> Rgb {
    (led: nat) => if led in order[..Min(lit, |order|)] then on else off
  }

  /** Mixing along the bar paints what mixing along the targets would: each target once, the first `lit` in
    * reading order with the on colour and the rest with the off colour. */
  lemma {:induction false} BarIsAnImage(r: Reading, leds: seq<nat>, pixels: Pixels, lit: nat, on: Rgb, off: Rgb,
                                        opacity: nat)
    requires Known(r, leds) && Unique(leds) && Below(leds, |pixels|)
    ensures Below(Sorted(r, leds), |pixels|)
    ensures var order := Sorted(r, leds);
            Mixed(pixels, order, BarColour(order, lit, on, off), opacity)
            == Mixed(pixels, leds, BarColour(order, lit, on, off), opacity)
  {
    var order := Sorted(r, leds);
    var colour := BarColour(order, lit, on, off);
    SortIsStable(r, leds);
    forall i | 0 <= i < |order| ensures order[i] < |pixels| {
      MembersKept(r, leds, order[i]);
      assert order[i] in leds;
    }
    assert Unique(order) by {
      forall i, j | 0 <= i < j < |order| ensures order[i] != order[j] {
        PrecedesIsStrict(r, leds, order[i], order[j], order[i]);
      }
    }
    forall p | 0 <= p < |pixels|
      ensures Mixed(pixels, order, colour, opacity)[p] == Mixed(pixels, leds, colour, opacity)[p]
    {
      MixedAt(pixels, order, colour, opacity, p);
      MixedAt(pixels, leds, colour, opacity, p);
      MembersKept(r, leds, p);
    }
  }

  // ----- In place -----

  lemma Reassemble(s: seq<nat>, v: nat, j: nat)
    requires j < |s|
    ensures s[..|s| - 1][..j] + [v] + s[..|s| - 1][j..] + [s[|s| - 1]] == s[..j] + [v] + s[j..]
  {
  }

  /** Insertion puts `v` where a backwards scan stops. */
  lemma {:induction false} InsertStops(r: Reading, s: seq<nat>, v: nat, j: nat)
    requires Known(r, s) && v < |r.coords| && j <= |s|
    requires forall k :: j <= k < |s| ==> Before(r, v, s[k])
    requires j > 0 ==> !Before(r, v, s[j - 1])
    ensures Insert(r, s, v) == s[..j] + [v] + s[j..]
  {
    if j == |s| {
      assert s[..j] == s;
    } else {
      InsertStops(r, s[..|s| - 1], v, j);
      Reassemble(s, v, j);
    }
  }

  method InsertInPlace(r: Reading, idx: array<nat>, i: nat)
    requires i < idx.Length && Known(r, idx[..])
    modifies idx
    ensures idx[..i + 1] == Insert(r, old(idx[..i]), old(idx[i]))
    ensures idx[i + 1..] == old(idx[i + 1..])
  {
    var value := idx[i];
    var j := i;
    ghost var was := idx[..];
    assert forall k :: 0 <= k < |was| ==> was[k] < |r.coords|;
    while j > 0 && Before(r, value, idx[j - 1])
      invariant 0 <= j <= i
      invariant forall k :: 0 <= k <= j ==> idx[k] == was[k]
      invariant forall k :: j < k <= i ==> idx[k] == was[k - 1]
      invariant forall k :: i < k < idx.Length ==> idx[k] == was[k]
      invariant forall k :: j <= k < i ==> Before(r, value, was[k])
      decreases j
    {
      idx[j] := idx[j - 1];
      j := j - 1;
    }
    idx[j] := value;
    InsertStops(r, was[..i], value, j);
    Placed(was[..i], idx[..i + 1], value, j);
    SameFrom(was, idx[..], i + 1);
  }

  lemma SameFrom(s: seq<nat>, t: seq<nat>, i: nat)
    requires i <= |s| == |t| && forall k :: i <= k < |s| ==> t[k] == s[k]
    ensures t[i..] == s[i..]
  {
    forall k | 0 <= k < |s| - i ensures t[i..][k] == s[i..][k] {
      assert t[i..][k] == t[i + k];
    }
  }

  /** A sequence that agrees with `s` around a gap at `j`, and holds `v` there. */
  lemma Placed(s: seq<nat>, t: seq<nat>, v: nat, j: nat)
    requires j <= |s| && |t| == |s| + 1 && t[j] == v
    requires forall k :: 0 <= k < j ==> t[k] == s[k]
    requires forall k :: j < k < |t| ==> t[k] == s[k - 1]
    ensures t == s[..j] + [v] + s[j..]
  {
    var u := s[..j] + [v] + s[j..];
    assert |t| == |u|;
    forall k | 0 <= k < |t| ensures t[k] == u[k] {
      if k > j {
        assert u[k] == s[j..][k - j - 1];
      }
    }
  }

  lemma {:induction false} SortedGrows(r: Reading, leds: seq<nat>, i: nat)
    requires i < |leds| && Known(r, leds)
    ensures Sorted(r, leds[..i + 1]) == Insert(r, Sorted(r, leds[..i]), leds[i])
  {
    assert leds[..i + 1][..i] == leds[..i];
  }

  /** `kp_ovl_battery_order`. */
  method Order(coords: seq<Coord>, idx: array<nat>, reverse: bool)
    requires idx.Length > 0 && forall i :: 0 <= i < idx.Length ==> idx[i] < |coords|
    modifies idx
    ensures idx[..] == Sorted(ReadingOf(coords, old(idx[..]), reverse), old(idx[..]))
  {
    var xPrimary := LongerAcross(coords, idx);
    SortAlong(Reading(coords, xPrimary, reverse), idx);
  }

  method SortAlong(r: Reading, idx: array<nat>)
    requires idx.Length > 0 && Known(r, idx[..])
    modifies idx
    ensures idx[..] == Sorted(r, old(idx[..]))
  {
    ghost var was := idx[..];
    SortedGrows(r, was, 0);
    for i := 1 to idx.Length
      invariant idx[..i] == Sorted(r, was[..i]) && idx[i..] == was[i..]
    {
      AllKnown(r, idx, was, i);
      SortedGrows(r, was, i);
      assert idx[i] == idx[i..][0] == was[i];
      InsertInPlace(r, idx, i);
      assert was[i + 1..] == was[i..][1..];
    }
    assert was[..idx.Length] == was && idx[..idx.Length] == idx[..];
  }

  lemma {:induction false} AllKnown(r: Reading, idx: array<nat>, was: seq<nat>, i: nat)
    requires Known(r, was) && i <= |was| == idx.Length
    requires idx[..i] == Sorted(r, was[..i]) && idx[i..] == was[i..]
    ensures Known(r, idx[..])
  {
    assert idx[..] == idx[..i] + idx[i..];
  }

  lemma ExtentGrows(values: seq<nat>, i: nat)
    requires 0 < i < |values|
    ensures Low(values[..i + 1]) == Min(Low(values[..i]), values[i])
    ensures High(values[..i + 1]) == Max(High(values[..i]), values[i])
  {
    assert values[..i + 1][..i] == values[..i];
  }

  method LongerAcross(coords: seq<Coord>, idx: array<nat>) returns (xPrimary: bool)
    requires idx.Length > 0 && forall i :: 0 <= i < idx.Length ==> idx[i] < |coords|
    ensures xPrimary == ReadingOf(coords, idx[..], false).xPrimary
  {
    ghost var xs, ys := Xs(coords, idx[..]), Ys(coords, idx[..]);
    var minX, maxX := coords[idx[0]].x, coords[idx[0]].x;
    var minY, maxY := coords[idx[0]].y, coords[idx[0]].y;
    for i := 1 to idx.Length
      invariant minX == Low(xs[..i]) && maxX == High(xs[..i])
      invariant minY == Low(ys[..i]) && maxY == High(ys[..i])
    {
      var c := coords[idx[i]];
      ExtentGrows(xs, i);
      ExtentGrows(ys, i);
      minX, maxX := Min(minX, c.x), Max(maxX, c.x);
      minY, maxY := Min(minY, c.y), Max(maxY, c.y);
    }
    assert xs[..|xs|] == xs && ys[..|ys|] == ys;
    xPrimary := maxX - minX >= maxY - minY;
  }

  /** The two modes, and the colours or hues they run between; conversion of a hue to a colour is any function. */
  datatype Style =
    | Bar(on: Rgb, off: Rgb)
    | Hue(empty: nat, full: nat, rgb: int -> Rgb)

  /** The colour each target deserves at a charge. */
  function ColourOf(coords: seq<Coord>, leds: seq<nat>, reverse: bool, charge: nat, style: Style): nat -> Rgb
    requires leds != [] && Below(leds, |coords|)
  {
    match style
    case Bar(on, off) =>
      BarColour(Sorted(ReadingOf(coords, leds, reverse), leds), LitCount(|leds|, Min(charge, 100)), on, off)
    case Hue(empty, full, rgb) =>
      (led: nat) => rgb(HueAt(empty, full, Min(charge, 100)))
  }

  /** The first targets along the bar, in proportion to the charge, deserve the on colour, the others the off colour; in
    * the hue mode all deserve the same one. */
  lemma {:induction false} ColoursAlongTheBar(coords: seq<Coord>, leds: seq<nat>, reverse: bool, charge: nat,
                                              style: Style, k: nat)
    requires leds != [] && Below(leds, |coords|) && Unique(leds) && k < |leds|
    ensures var led := Sorted(ReadingOf(coords, leds, reverse), leds)[k];
            var soc := if charge < 100 then charge else 100;
            match style
            case Bar(on, off) =>
              ColourOf(coords, leds, reverse, charge, style)(led)
              == if k < (|leds| * soc + 50) / 100 then on else off
            case Hue(empty, full, rgb) =>
              ColourOf(coords, leds, reverse, charge, style)(led) == rgb(HueAt(empty, full, soc))
  {
    if style.Bar? {
      BarColoursAlong(ReadingOf(coords, leds, reverse), leds, Min(charge, 100), style.on, style.off, k);
    }
  }

  lemma {:induction false} BarColoursAlong(r: Reading, leds: seq<nat>, soc: nat, on: Rgb, off: Rgb, k: nat)
    requires Known(r, leds) && Unique(leds) && k < |leds| && soc <= 100
    ensures var order := Sorted(r, leds);
            BarColour(order, LitCount(|leds|, soc), on, off)(order[k])
            == if k < (|leds| * soc + 50) / 100 then on else off
  {
    SortedIsUnique(r, leds);
    LitCountFits(|leds|, soc, soc);
    FirstLit(Sorted(r, leds), LitCount(|leds|, soc), k);
  }

  lemma {:induction false} SortedIsUnique(r: Reading, leds: seq<nat>)
    requires Known(r, leds) && Unique(leds)
    ensures Unique(Sorted(r, leds))
  {
    SortIsStable(r, leds);
    var order := Sorted(r, leds);
    forall i, j | 0 <= i < j < |order| ensures order[i] != order[j] {
      PrecedesIsStrict(r, leds, order[i], order[j], order[i]);
    }
  }

  /** The bar overlay, remembering the order of its own targets after the first frame. */
  class Bar {
    const coords: seq<Coord>
    const targets: seq<nat>
    const reverse: bool
    const canonicalOrder: array<nat>
    var ready: bool

    ghost predicate Valid()
      reads this, canonicalOrder
    {
      && targets != [] && canonicalOrder.Length == |targets|
      && Unique(targets)
      && (forall i :: 0 <= i < |targets| ==> targets[i] < |coords|)
      && (ready ==> canonicalOrder[..] == Sorted(ReadingOf(coords, targets, reverse), targets))
    }

    constructor (coords: seq<Coord>, targets: seq<nat>, reverse: bool)
      requires targets != [] && Unique(targets)
      requires forall i :: 0 <= i < |targets| ==> targets[i] < |coords|
      ensures Valid() && !ready && fresh(canonicalOrder)
      ensures this.coords == coords && this.targets == targets && this.reverse == reverse
    {
      this.coords, this.targets, this.reverse, ready := coords, targets, reverse, false;
      canonicalOrder := new nat[|targets|](_ => 0);
    }

    method Fill(order: array<nat>, leds: seq<nat>)
      requires order.Length == |leds|
      modifies order
      ensures order[..] == leds
    {
      for i := 0 to |leds|
        invariant order[..i] == leds[..i]
      {
        order[i] := leds[i];
      }
    }

    /** Cached or not, the order is that of a fresh sort. */
    method CanonicalOrder() returns (order: array<nat>)
      requires Valid()
      modifies this`ready, canonicalOrder
      ensures Valid() && ready && order == canonicalOrder
      ensures order[..] == Sorted(ReadingOf(coords, targets, reverse), targets)
    {
      order := canonicalOrder;
      if !ready {
        Fill(order, targets);
        Order(coords, order, reverse);
        ready := true;
      }
    }

    /** A frame over other targets or coordinates is sorted afresh. */
    method OtherOrder(others: seq<Coord>, leds: seq<nat>) returns (order: array<nat>)
      requires leds != [] && forall i :: 0 <= i < |leds| ==> leds[i] < |others|
      ensures fresh(order)
      ensures order[..] == Sorted(ReadingOf(others, leds, reverse), leds)
    {
      order := new nat[|leds|](_ => 0);
      Fill(order, leds);
      Order(others, order, reverse);
    }

    method PaintBar(pixels: array<Rgb>, order: array<nat>, charge: nat, on: Rgb, off: Rgb, opacity: nat)
      requires Below(order[..], pixels.Length) && Unique(order[..])
      modifies pixels
      ensures var lit := LitCount(order.Length, Min(charge, 100));
              && lit <= order.Length
              && pixels[..] == Mixed(old(pixels[..]), order[..], BarColour(order[..], lit, on, off), opacity)
    {
      var count := order.Length;
      var soc := Min(charge, 100);
      var lit := count / 100 * soc + (count % 100 * soc + 50) / 100;
      SplitFormula(count, soc);
      LitCountFits(count, soc, soc);
      ghost var colour := BarColour(order[..], lit, on, off);
      for i := 0 to count
        invariant pixels[..] == Mixed(old(pixels[..]), order[..i], colour, opacity)
      {
        var led := order[i];
        FirstLit(order[..], lit, i);
        assert order[..i + 1][..i] == order[..i];
        pixels[led] := Mix(pixels[led], if i < lit then on else off, opacity);
      }
      assert order[..count] == order[..];
    }

    /** The hue mode: one colour for every target. */
    method PaintFlat(pixels: array<Rgb>, leds: seq<nat>, colour: Rgb, ghost source: nat -> Rgb, opacity: nat)
      requires Below(leds, pixels.Length) && forall led :: source(led) == colour
      modifies pixels
      ensures pixels[..] == Mixed(old(pixels[..]), leds, source, opacity)
    {
      for i := 0 to |leds|
        invariant pixels[..] == Mixed(old(pixels[..]), leds[..i], source, opacity)
      {
        var led := leds[i];
        assert leds[..i + 1][..i] == leds[..i];
        assert source(led) == colour;
        pixels[led] := Mix(pixels[led], colour, opacity);
      }
      assert leds[..|leds|] == leds;
    }

    /** A frame over any targets and coordinates, in either mode: every target is mixed once with the colour its place
      * deserves. Only frames over the overlay's own targets, called canonical, use the remembered order. */
    method Render(pixels: array<Rgb>, others: seq<Coord>, leds: seq<nat>, canonical: bool, charge: nat, style: Style,
                  opacity: nat)
      requires Valid() && Unique(leds) && Below(leds, pixels.Length) && Below(leds, |others|)
      requires canonical ==> others == coords && leds == targets
      modifies this`ready, canonicalOrder, pixels
      ensures Valid()
      ensures ready == (old(ready) || (canonical && style.Bar?))
      ensures if leds == [] then pixels[..] == old(pixels[..])
              else pixels[..] == Mixed(old(pixels[..]), leds, ColourOf(others, leds, reverse, charge, style), opacity)
    {
      if leds == [] {
        return;
      }
      if style.Hue? {
        var colour := style.rgb(HueAt(style.empty, style.full, Min(charge, 100)));
        PaintFlat(pixels, leds, colour, ColourOf(others, leds, reverse, charge, style), opacity);
        return;
      }
      var order;
      if canonical {
        order := CanonicalOrder();
      } else {
        order := OtherOrder(others, leds);
      }
      ghost var r := ReadingOf(others, leds, reverse);
      OrderPaints(r, leds, pixels[..], charge, style.on, style.off, opacity);
      PaintBar(pixels, order, charge, style.on, style.off, opacity);
    }
  }

  lemma {:induction false} OrderPaints(r: Reading, leds: seq<nat>, pixels: Pixels, charge: nat, on: Rgb, off: Rgb,
                                       opacity: nat)
    requires Known(r, leds) && Unique(leds) && Below(leds, |pixels|)
    ensures Below(Sorted(r, leds), |pixels|) && Unique(Sorted(r, leds))
    ensures var colour := BarColour(Sorted(r, leds), LitCount(|leds|, Min(charge, 100)), on, off);
            Mixed(pixels, Sorted(r, leds), colour, opacity) == Mixed(pixels, leds, colour, opacity)
  {
    BarIsAnImage(r, leds, pixels, LitCount(|leds|, Min(charge, 100)), on, off, opacity);
    SortedIsUnique(r, leds);
  }

  /** Of unique LEDs, exactly the first `lit` take the on colour. */
  lemma FirstLit(order: seq<nat>, lit: nat, i: nat)
    requires Unique(order) && i < |order| && lit <= |order|
    ensures order[i] in order[..lit] <==> i < lit
  {
    if i < lit {
      assert order[..lit][i] == order[i];
    } else {
      forall k | 0 <= k < lit ensures order[..lit][k] != order[i] {
        assert order[..lit][k] == order[k];
      }
    }
  }
}
