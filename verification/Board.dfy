/** Where LEDs sit and which key each lies under. */
module Board {
  import opened Roots
  import opened Options

  /** Effects queue at most this many presses between renders. */
  const PENDING_EVENTS := 16

  datatype Coord = Coord(x: nat, y: nat)

  /** Coordinates per LED, and the LED under each key position that has one. */
  datatype Layout = Layout(coords: seq<Coord>, leds: map<nat, nat>)

  predicate ValidLayout(l: Layout) {
    forall c :: c in l.coords ==> c.x <= 65535 && c.y <= 65535
  }

  /** `kp_rgb_led_for_position` followed by `kp_rgb_led_coord`. */
  function LedFor(l: Layout, position: nat): (led: Option<nat>)
    ensures led.Some? ==> led.value < |l.coords|
    ensures led.Some? <==> position in l.leds && l.leds[position] < |l.coords|
    ensures led.Some? ==> led.value == l.leds[position]
  {
    if position in l.leds && l.leds[position] < |l.coords| then Some(l.leds[position]) else None
  }

  /** Squared distance. */
  function Apart(a: Coord, b: Coord): nat {
    SquaredDistance(b.x - a.x, b.y - a.y)
  }

  lemma ApartFits(a: Coord, b: Coord)
    requires a.x <= 65535 && a.y <= 65535 && b.x <= 65535 && b.y <= 65535
    ensures Apart(a, b) <= FARTHEST
  {
    DistanceFits(b.x - a.x, b.y - a.y);
  }
}
