/** Painting a scene from overlays, and why the ones under a covering overlay can be skipped. */
module Composition {
  import opened Arith
  import opened Indices
  import opened Options

  datatype Rgb = Rgb(r: Byte, g: Byte, b: Byte)

  type Pixels = seq<Rgb>

  const BLACK := Rgb(0, 0, 0)

  // ----- Colour arithmetic -----

  /** C division: truncates toward zero. */
  function TruncDiv(a: int, b: int): int
    requires b > 0
  {
    if a >= 0 then a / b else -(-a / b)
  }

  function Percent(pct: nat): nat {
    if pct < 100 then pct else 100
  }

  /** The cast to eight bits never discards anything: a mix lies between its two inputs. */
  function MixChannel(base: Byte, over: Byte, pct: nat): (r: Byte)
    ensures r == base + TruncDiv((over - base) * Percent(pct), 100)
    ensures base <= over ==> base <= r <= over
    ensures over <= base ==> over <= r <= base
    ensures pct == 0 ==> r == base
    ensures pct >= 100 ==> r == over
    ensures var p := if pct < 100 then pct else 100;
            if base <= over then 100 * (r - base) <= (over - base) * p < 100 * (r - base) + 100
            else 100 * (base - r) <= (base - over) * p < 100 * (base - r) + 100
  {
    var step := TruncDiv((over - base) * Percent(pct), 100);
    MixStep(over - base, Percent(pct));
    (base + step) % 256
  }

  lemma MixStep(distance: int, pct: nat)
    requires pct <= 100
    ensures distance >= 0 ==> 0 <= TruncDiv(distance * pct, 100) <= distance
    ensures distance <= 0 ==> distance <= TruncDiv(distance * pct, 100) <= 0
    ensures pct == 100 ==> TruncDiv(distance * pct, 100) == distance
  {
    if distance >= 0 {
      PortionFits(distance, pct);
    } else {
      PortionFits(-distance, pct);
      assert -(distance * pct) == -distance * pct;
    }
  }

  lemma PortionFits(distance: nat, pct: nat)
    requires pct <= 100
    ensures 0 <= distance * pct <= distance * 100
  {
    assert distance * 100 == distance * pct + distance * (100 - pct);
  }

  predicate Within(x: Byte, a: Byte, b: Byte) {
    a <= x <= b || b <= x <= a
  }

  /** Channel by channel: each lies between the two it is mixed from, `pct` hundredths of the way. */
  function Mix(base: Rgb, over: Rgb, pct: nat): (m: Rgb)
    ensures pct == 0 ==> m == base
    ensures pct >= 100 ==> m == over
    ensures Within(m.r, base.r, over.r) && Within(m.g, base.g, over.g) && Within(m.b, base.b, over.b)
    ensures m.r == MixChannel(base.r, over.r, pct)
    ensures m.g == MixChannel(base.g, over.g, pct)
    ensures m.b == MixChannel(base.b, over.b, pct)
  {
    Rgb(MixChannel(base.r, over.r, pct), MixChannel(base.g, over.g, pct), MixChannel(base.b, over.b, pct))
  }

  function ScaleChannel(v: Byte, pct: nat): (r: Byte)
    ensures r <= v
    ensures pct >= 100 ==> r == v
    ensures pct == 0 ==> r == 0
    ensures 100 * r <= v * Percent(pct) < 100 * r + 100
  {
    PortionFits(v, Percent(pct));
    v * Percent(pct) / 100
  }

  /** Channel by channel: black at nothing, unchanged at a hundred, and the hundredth part rounded down in between. */
  function Scale(c: Rgb, pct: nat): (d: Rgb)
    ensures pct >= 100 ==> d == c
    ensures pct == 0 ==> d == BLACK
    ensures var p := if pct < 100 then pct else 100;
            && 100 * d.r <= c.r * p < 100 * d.r + 100
            && 100 * d.g <= c.g * p < 100 * d.g + 100
            && 100 * d.b <= c.b * p < 100 * d.b + 100
  {
    Rgb(ScaleChannel(c.r, pct), ScaleChannel(c.g, pct), ScaleChannel(c.b, pct))
  }

  function Dimmed(scene: Pixels, pct: nat): (r: Pixels)
    ensures |r| == |scene|
  {
    seq(|scene|, i requires 0 <= i < |scene| => Scale(scene[i], pct))
  }

  // ----- Layers -----

  /** What decides where, how strongly and whether an overlay paints. */
  datatype Common = Common(targets: seq<nat>, opacity: nat, replacing: bool, active: bool)

  /** Effect: a nested effect painting the shared scratch buffer, mixed onto the scene afterwards.
    * Image: colours of its own, mixed straight onto the scene.
    * Filter: any other overlay, computing its target pixels from the scene. */
  datatype Painter =
    | Effect(child: (Pixels, nat) -> Rgb)
    | Image(colour: nat -> Rgb)
    | Filter(transform: (Pixels, nat) -> Rgb)

  datatype Layer = Layer(common: Common, painter: Painter)

  datatype Canvas = Canvas(scene: Pixels, scratch: Pixels)

  predicate Below(leds: seq<nat>, n: nat) {
    forall i :: 0 <= i < |leds| ==> leds[i] < n
  }

  predicate Sized(c: Canvas, n: nat) {
    |c.scene| == n && |c.scratch| == n
  }

  /** `kp_rgb_overlay_covers_all`. */
  predicate Covers(l: Layer, n: nat) {
    l.common.replacing && l.common.opacity == 100 && n > 0 && |l.common.targets| == n
  }

  /** `kp_rgb_overlay_gate`. */
  predicate Gated(l: Layer) {
    l.common.opacity != 0 && |l.common.targets| != 0 && l.common.active
  }

  predicate AgreeOn(a: Pixels, b: Pixels, leds: seq<nat>) {
    |a| == |b| && Below(leds, |a|) && forall i :: 0 <= i < |leds| ==> a[leds[i]] == b[leds[i]]
  }

  /** What the interface asks of overlay authors: targets resolved uniquely, nested effects that look only at the
    * pixels they were given, and no claim of replacing pixels that the image depends on. */
  ghost predicate Disciplined(l: Layer, n: nat) {
    && Unique(l.common.targets) && Below(l.common.targets, n)
    && match l.painter
       case Effect(child) =>
         forall a, b, i :: AgreeOn(a, b, l.common.targets) && i in l.common.targets ==> child(a, i) == child(b, i)
       case Image(_) => true
       case Filter(transform) =>
         l.common.replacing && l.common.opacity == 100 ==>
           forall a, b, i :: i in l.common.targets ==> transform(a, i) == transform(b, i)
  }

  // ----- Painting -----

  function Cleared(pixels: Pixels, leds: seq<nat>): (r: Pixels)
    requires Below(leds, |pixels|)
    ensures |r| == |pixels|
    ensures forall i :: 0 <= i < |pixels| ==> r[i] == if i in leds then BLACK else pixels[i]
  {
    if leds == [] then pixels
    else
      var shorter := leds[..|leds| - 1];
      assert leds == shorter + [leds[|leds| - 1]];
      Cleared(pixels, shorter)[leds[|leds| - 1] := BLACK]
  }

  /** Each target in turn takes the value `paint` gives it. */
  function Painted(pixels: Pixels, leds: seq<nat>, paint: nat -> Rgb): (r: Pixels)
    requires Below(leds, |pixels|)
    ensures |r| == |pixels|
    ensures forall i :: 0 <= i < |pixels| ==> r[i] == if i in leds then paint(i) else pixels[i]
  {
    if leds == [] then pixels
    else
      var shorter := leds[..|leds| - 1];
      assert leds == shorter + [leds[|leds| - 1]];
      Painted(pixels, shorter, paint)[leds[|leds| - 1] := paint(leds[|leds| - 1])]
  }

  /** Each listed pixel in turn is mixed with its source: a repeated LED would be mixed twice. */
  function Mixed(pixels: Pixels, leds: seq<nat>, source: nat -> Rgb, strength: nat): (r: Pixels)
    requires Below(leds, |pixels|)
    ensures |r| == |pixels|
  {
    if leds == [] then pixels
    else
      var before := Mixed(pixels, leds[..|leds| - 1], source, strength);
      var led := leds[|leds| - 1];
      before[led := Mix(before[led], source(led), strength)]
  }

  /** With unique LEDs every pixel is mixed once and the order of the list is irrelevant. */
  lemma {:induction false} MixedAt(pixels: Pixels, leds: seq<nat>, source: nat -> Rgb, strength: nat, i: nat)
    requires Below(leds, |pixels|) && Unique(leds) && i < |pixels|
    ensures Mixed(pixels, leds, source, strength)[i]
         == if i in leds then Mix(pixels[i], source(i), strength) else pixels[i]
  {
    if leds != [] {
      var shorter := leds[..|leds| - 1];
      MixedAt(pixels, shorter, source, strength, i);
      assert leds == shorter + [leds[|leds| - 1]];
      if i in shorter {
        assert i != leds[|leds| - 1];
      }
    }
  }

  function At(pixels: Pixels): (r: nat -> Rgb)
  {
    (i: nat) => if i < |pixels| then pixels[i] else BLACK
  }

  function Render(l: Layer, c: Canvas): (r: Canvas)
    requires |c.scene| == |c.scratch| && Below(l.common.targets, |c.scene|)
    ensures Sized(r, |c.scene|)
  {
    var leds := l.common.targets;
    match l.painter
    case Effect(child) =>
      var black := Cleared(c.scratch, leds);
      var layer := Painted(black, leds, (i: nat) => child(black, i));
      Canvas(Mixed(c.scene, leds, At(layer), l.common.opacity), layer)
    case Image(colour) => c.(scene := Mixed(c.scene, leds, colour, l.common.opacity))
    case Filter(transform) => c.(scene := Painted(c.scene, leds, (i: nat) => transform(c.scene, i)))
  }

  /** Reference meaning of a scene: every gated overlay, bottom to top. */
  function Compose(layers: seq<Layer>, c: Canvas): (r: Canvas)
    requires |c.scene| == |c.scratch|
    requires forall l :: l in layers ==> Below(l.common.targets, |c.scene|)
    ensures Sized(r, |c.scene|)
  {
    if layers == [] then c
    else Compose(layers[1..], if Gated(layers[0]) then Render(layers[0], c) else c)
  }

  // ----- What a picture shows -----

  /** One layer, one pixel: outside its targets nothing changes; inside them a nested effect sees its targets black and
    * is mixed in at the overlay's opacity, an image likewise with its own colours, and a filter sees the scene and
    * decides alone. */
  lemma RenderedPixel(l: Layer, c: Canvas, n: nat, i: nat)
    requires Sized(c, n) && Disciplined(l, n) && i < n
    ensures i !in l.common.targets ==> Render(l, c).scene[i] == c.scene[i]
    ensures i in l.common.targets ==>
              match l.painter
              case Image(colour) => Render(l, c).scene[i] == Mix(c.scene[i], colour(i), l.common.opacity)
              case Filter(transform) => Render(l, c).scene[i] == transform(c.scene, i)
              case Effect(child) =>
                var black := Cleared(c.scratch, l.common.targets);
                && (forall k :: k in l.common.targets ==> black[k] == Rgb(0, 0, 0))
                && Render(l, c).scene[i] == Mix(c.scene[i], child(black, i), l.common.opacity)
  {
    match l.painter
    case Effect(child) =>
      var black := Cleared(c.scratch, l.common.targets);
      var layer := Painted(black, l.common.targets, (k: nat) => child(black, k));
      MixedAt(c.scene, l.common.targets, At(layer), l.common.opacity, i);
    case Image(colour) => MixedAt(c.scene, l.common.targets, colour, l.common.opacity, i);
    case Filter(_) =>
  }

  /** Overlays that are switched off, transparent or without targets leave the scene alone. */
  lemma {:induction false} HiddenLayersPaintNothing(layers: seq<Layer>, c: Canvas)
    requires |c.scene| == |c.scratch| && forall l :: l in layers ==> Below(l.common.targets, |c.scene|)
    requires forall l :: l in layers ==> !l.common.active || l.common.opacity == 0 || l.common.targets == []
    ensures Compose(layers, c) == c
  {
    if layers != [] {
      HiddenLayersPaintNothing(layers[1..], c);
    }
  }

  /** Layers are painted bottom to top: the last one is rendered onto the picture of all below it, if it is gated. */
  lemma {:induction false} TopmostIsPaintedLast(layers: seq<Layer>, c: Canvas)
    requires layers != [] && |c.scene| == |c.scratch|
    requires forall l :: l in layers ==> Below(l.common.targets, |c.scene|)
    ensures var top, below := layers[|layers| - 1], Compose(layers[..|layers| - 1], c);
            Compose(layers, c)
            == if top.common.active && top.common.opacity > 0 && top.common.targets != [] then Render(top, below)
               else below
  {
    if |layers| == 1 {
      assert layers[1..] == [] && layers[..0] == [];
    } else {
      var next := if Gated(layers[0]) then Render(layers[0], c) else c;
      TopmostIsPaintedLast(layers[1..], next);
      assert layers[1..][..|layers| - 2] == layers[..|layers| - 1][1..];
    }
  }

  /** An active, opaque image over every LED on top of the scene shows exactly its own colours. */
  lemma TopImageShows(layers: seq<Layer>, c: Canvas, n: nat)
    requires Sized(c, n) && AllDisciplined(layers, n) && layers != []
    requires var top := layers[|layers| - 1];
             top.painter.Image? && top.common.active && top.common.opacity == 100 && |top.common.targets| == n
    ensures forall l :: l in layers ==> Below(l.common.targets, n)
    ensures forall i :: 0 <= i < n ==> Compose(layers, c).scene[i] == layers[|layers| - 1].painter.colour(i)
  {
    var top, below := layers[|layers| - 1], Compose(layers[..|layers| - 1], c);
    TopmostIsPaintedLast(layers, c);
    forall i | 0 <= i < n
      ensures Compose(layers, c).scene[i] == top.painter.colour(i)
    {
      UniqueBelowIsAll(top.common.targets, n, i);
      RenderedPixel(top, below, n, i);
    }
  }

  lemma ImageAtFullBrightness(layers: seq<Layer>, c: Canvas, shown: Pixels, level: nat, n: nat)
    requires Sized(c, n) && AllDisciplined(layers, n) && |shown| == n
    requires forall l :: l in layers ==> Below(l.common.targets, n)
    requires shown == Dimmed(Compose(layers, c).scene, level)
    ensures level == 100 && layers != [] ==>
              var top := layers[|layers| - 1];
              top.painter.Image? && top.common.active && top.common.opacity == 100 && |top.common.targets| == n ==>
                forall i :: 0 <= i < n ==> shown[i] == top.painter.colour(i)
  {
    if level == 100 && layers != [] {
      var top := layers[|layers| - 1];
      if top.painter.Image? && top.common.active && top.common.opacity == 100 && |top.common.targets| == n {
        TopImageShows(layers, c, n);
      }
    }
  }

  // ----- Why hidden layers can be skipped -----

  lemma {:induction false} MixedOnto(a: Pixels, b: Pixels, leds: seq<nat>, source: nat -> Rgb, over: nat -> Rgb,
                                     strength: nat)
    requires |a| == |b| && Below(leds, |a|) && Unique(leds)
    requires forall i :: i in leds ==> source(i) == over(i)
    requires a == b || (strength == 100 && |leds| == |a|)
    ensures Mixed(a, leds, source, strength) == Mixed(b, leds, over, strength)
  {
    forall i | 0 <= i < |a|
      ensures Mixed(a, leds, source, strength)[i] == Mixed(b, leds, over, strength)[i]
    {
      MixedAt(a, leds, source, strength, i);
      MixedAt(b, leds, over, strength, i);
      if a != b {
        UniqueBelowIsAll(leds, |a|, i);
      }
    }
  }

  /** A layer paints the same scene whatever is left in the scratch buffer, and a covering one whatever is below. */
  lemma RenderIgnores(l: Layer, c: Canvas, d: Canvas, n: nat)
    requires Sized(c, n) && Sized(d, n) && Disciplined(l, n)
    requires c.scene == d.scene || Covers(l, n)
    ensures Render(l, c).scene == Render(l, d).scene
  {
    var leds := l.common.targets;
    match l.painter
    case Effect(child) =>
      var black, blank := Cleared(c.scratch, leds), Cleared(d.scratch, leds);
      assert AgreeOn(black, blank, leds);
      MixedOnto(c.scene, d.scene, leds, At(Render(l, c).scratch), At(Render(l, d).scratch), l.common.opacity);
    case Image(colour) =>
      MixedOnto(c.scene, d.scene, leds, colour, colour, l.common.opacity);
    case Filter(transform) =>
      if c.scene != d.scene {
        forall i | 0 <= i < n ensures i in leds {
          UniqueBelowIsAll(leds, n, i);
        }
        assert Render(l, c).scene == Render(l, d).scene;
      }
  }

  ghost predicate AllDisciplined(layers: seq<Layer>, n: nat) {
    forall i :: 0 <= i < |layers| ==> Disciplined(layers[i], n)
  }

  lemma {:induction false} ScratchIsIrrelevant(layers: seq<Layer>, c: Canvas, d: Canvas, n: nat)
    requires Sized(c, n) && Sized(d, n) && c.scene == d.scene && AllDisciplined(layers, n)
    ensures Compose(layers, c).scene == Compose(layers, d).scene
  {
    if layers != [] {
      if Gated(layers[0]) {
        RenderIgnores(layers[0], c, d, n);
        ScratchIsIrrelevant(layers[1..], Render(layers[0], c), Render(layers[0], d), n);
      } else {
        ScratchIsIrrelevant(layers[1..], c, d, n);
      }
    }
  }

  /** Starting at any gated covering overlay, from any pixels at all, gives the scene of all the overlays. */
  lemma {:induction false} OcclusionPreservesPixels(layers: seq<Layer>, k: nat, c: Canvas, d: Canvas, n: nat)
    requires Sized(c, n) && Sized(d, n) && AllDisciplined(layers, n)
    requires k < |layers| && Covers(layers[k], n) && Gated(layers[k])
    ensures Compose(layers[k..], d).scene == Compose(layers, c).scene
    decreases k
  {
    if k == 0 {
      RenderIgnores(layers[0], c, d, n);
      ScratchIsIrrelevant(layers[1..], Render(layers[0], c), Render(layers[0], d), n);
      assert layers[0..] == layers;
    } else {
      assert layers[1..][k - 1..] == layers[k..];
      OcclusionPreservesPixels(layers[1..], k - 1, if Gated(layers[0]) then Render(layers[0], c) else c, d, n);
    }
  }

  // ----- The compositor itself -----

  /** `kp_last_covering_overlay`. */
  method LastCoveringOverlay(layers: seq<Layer>, n: nat) returns (last: Option<nat>)
    ensures last.Some? ==> last.value < |layers| && Covers(layers[last.value], n) && Gated(layers[last.value])
    ensures forall i :: 0 <= i < |layers| && (last.None? || last.value < i) ==>
                          !(Covers(layers[i], n) && Gated(layers[i]))
  {
    last := None;
    for i := 0 to |layers|
      invariant last.Some? ==> last.value < i && Covers(layers[last.value], n) && Gated(layers[last.value])
      invariant forall k :: 0 <= k < i && (last.None? || last.value < k) ==>
                              !(Covers(layers[k], n) && Gated(layers[k]))
    {
      if !Covers(layers[i], n) {
        continue;
      }
      if Gated(layers[i]) {
        last := Some(i);
      }
    }
  }

  /** `kp_rgb_overlay_paint_pixels`. */
  method PaintPixels(pixels: array<Rgb>, leds: seq<nat>, source: nat -> Rgb, strength: nat)
    requires Below(leds, pixels.Length)
    modifies pixels
    ensures pixels[..] == Mixed(old(pixels[..]), leds, source, strength)
  {
    for i := 0 to |leds|
      invariant pixels[..] == Mixed(old(pixels[..]), leds[..i], source, strength)
    {
      var led := leds[i];
      assert leds[..i + 1][..i] == leds[..i];
      pixels[led] := Mix(pixels[led], source(led), strength);
    }
    assert leds[..|leds|] == leds;
  }

  method RenderInto(l: Layer, scene: array<Rgb>, scratch: array<Rgb>)
    requires scene != scratch && scene.Length == scratch.Length && Below(l.common.targets, scene.Length)
    modifies scene, scratch
    ensures Canvas(scene[..], scratch[..]) == Render(l, Canvas(old(scene[..]), old(scratch[..])))
  {
    var leds := l.common.targets;
    match l.painter {
      case Effect(child) =>
        for i := 0 to |leds|
          invariant scene[..] == old(scene[..])
          invariant scratch[..] == Cleared(old(scratch[..]), leds[..i])
        {
          assert leds[..i + 1][..i] == leds[..i];
          scratch[leds[i]] := BLACK;
        }
        assert leds[..|leds|] == leds;
        var black := scratch[..];
        PaintTargets(scratch, leds, (i: nat) => child(black, i));
        var painted := scratch[..];
        PaintPixels(scene, leds, At(painted), l.common.opacity);
      case Image(colour) =>
        PaintPixels(scene, leds, colour, l.common.opacity);
      case Filter(transform) =>
        var below := scene[..];
        PaintTargets(scene, leds, (i: nat) => transform(below, i));
    }
  }

  method PaintTargets(pixels: array<Rgb>, leds: seq<nat>, paint: nat -> Rgb)
    requires Below(leds, pixels.Length)
    modifies pixels
    ensures pixels[..] == Painted(old(pixels[..]), leds, paint)
  {
    for i := 0 to |leds|
      invariant pixels[..] == Painted(old(pixels[..]), leds[..i], paint)
    {
      assert leds[..i + 1][..i] == leds[..i];
      pixels[leds[i]] := paint(leds[i]);
    }
    assert leds[..|leds|] == leds;
  }

  function Dark(n: nat): (r: Pixels)
    ensures |r| == n
  {
    seq(n, _ => BLACK)
  }

  method DimScene(scene: array<Rgb>, level: nat)
    modifies scene
    ensures scene[..] == Dimmed(old(scene[..]), level)
  {
    ghost var was := scene[..];
    for i := 0 to scene.Length
      invariant forall k :: 0 <= k < i ==> scene[k] == Scale(was[k], level)
      invariant forall k :: i <= k < scene.Length ==> scene[k] == was[k]
    {
      scene[i] := Scale(scene[i], level);
    }
  }

  /** The painting half of a scene pass: starts at the last covering overlay, yet produces the picture of all of
    * them, at the brightness the power state allows. */
  method PaintScene(layers: seq<Layer>, scene: array<Rgb>, scratch: array<Rgb>, cap: nat, brightness: nat)
    requires scene != scratch && scene.Length == scratch.Length && cap <= 100 && brightness <= 100
    requires AllDisciplined(layers, scene.Length)
    modifies scene, scratch
    ensures scene[..] == Dimmed(Compose(layers, Canvas(Dark(scene.Length), old(scratch[..]))).scene,
                                cap * brightness / 100)
    ensures cap == 100 && brightness == 100 && layers != [] ==>
              var top := layers[|layers| - 1];
              top.painter.Image? && top.common.active && top.common.opacity == 100 &&
              |top.common.targets| == scene.Length ==>
                forall i :: 0 <= i < scene.Length ==> scene[i] == top.painter.colour(i)
  {
    var n := scene.Length;
    ghost var dirty := scratch[..];
    var first := LastCoveringOverlay(layers, n);
    for i := 0 to n
      invariant scratch[..] == dirty
      invariant forall k :: 0 <= k < i ==> scene[k] == BLACK
    {
      scene[i] := BLACK;
    }
    ghost var start := Canvas(Dark(n), dirty);
    assert scene[..] == Dark(n);
    var bottom := if first.None? then 0 else first.value;
    var i := bottom;
    ghost var goal := Compose(layers[bottom..], start).scene;
    while i < |layers|
      invariant bottom <= i <= |layers|
      invariant Compose(layers[i..], Canvas(scene[..], scratch[..])).scene == goal
    {
      assert layers[i..][1..] == layers[i + 1..] && layers[i..][0] == layers[i];
      if Gated(layers[i]) {
        RenderInto(layers[i], scene, scratch);
      }
      i := i + 1;
    }
    assert layers[i..] == [];
    assert goal == Compose(layers, start).scene by {
      if first.None? {
        assert layers[0..] == layers;
      } else {
        OcclusionPreservesPixels(layers, bottom, start, start, n);
      }
    }
    var level := cap * brightness / 100;
    DimScene(scene, level);
    ImageAtFullBrightness(layers, start, scene[..], level, n);
  }
}
