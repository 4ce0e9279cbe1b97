/** The replay cursor: one walk over the snapshot, item by item, for one peripheral. */
module SyncWalk {
  import opened Commands
  import opened Items

  datatype Phase = AtBrightness | AtPower | AtGates | AtColor | AtPeriod | AtSelection

  datatype Cursor = Cursor(phase: Phase, gateWord: nat, selector: nat, member: nat)

  datatype Source = Source(
    seen: bool,
    pending: bool,
    captured: bool,
    cursor: Cursor,
    generation: nat,
    readyAt: int,
    clockDue: int)

  const Start := Cursor(AtBrightness, 0, 0, 0)

  function ResetCursor(src: Source): Source {
    src.(cursor := Start, captured := false)
  }

  predicate ValidCursor(cfg: Config, c: Cursor) {
    match c.phase
    case AtBrightness => c == Start
    case AtPower => c == Start.(phase := AtPower)
    case AtGates => c.gateWord < cfg.words && c.selector == 0 && c.member == 0
    case AtSelection => c.selector < |cfg.selectors|
    case _ => c.selector < |cfg.selectors| && c.member < |cfg.selectors[c.selector].defaults|
  }

  /** The item the next state send will carry. */
  function CursorItem(cfg: Config, c: Cursor): (item: Item)
    requires ValidCursor(cfg, c)
    ensures ValidItem(cfg, item)
  {
    match c.phase
    case AtBrightness => Brightness
    case AtPower => Power
    case AtGates => Gate(c.gateWord)
    case AtColor => Color(c.selector, c.member)
    case AtPeriod => Period(c.selector, c.member)
    case AtSelection => Selection(c.selector)
  }

  function Advance(cfg: Config, src: Source): Source
    requires ValidConfig(cfg) && ValidCursor(cfg, src.cursor)
  {
    var c := src.cursor;
    match c.phase
    case AtBrightness => src.(cursor := c.(phase := AtPower))
    case AtPower => src.(cursor := c.(phase := AtGates))
    case AtGates =>
      if c.gateWord + 1 < cfg.words then src.(cursor := c.(gateWord := c.gateWord + 1))
      else
        var moved := src.(cursor := c.(gateWord := c.gateWord + 1, phase := AtColor));
        if |cfg.selectors| == 0 then moved.(pending := false, captured := false) else moved
    case AtColor => src.(cursor := c.(phase := AtPeriod))
    case AtPeriod =>
      var m := c.member + 1;
      src.(cursor := c.(member := m,
                        phase := if m == |cfg.selectors[c.selector].defaults| then AtSelection else AtColor))
    case AtSelection =>
      var moved := src.(cursor := c.(selector := c.selector + 1, member := 0));
      if c.selector + 1 == |cfg.selectors| then moved.(pending := false, captured := false)
      else moved.(cursor := moved.cursor.(phase := AtColor))
  }

  // ----- The order of the walk -----

  /** Items belonging to selectors before `s`. */
  function Before(cfg: Config, s: nat): nat
    requires s <= |cfg.selectors|
  {
    if s == 0 then 0 else Before(cfg, s - 1) + 2 * |cfg.selectors[s - 1].defaults| + 1
  }

  function Position(cfg: Config, item: Item): nat
    requires ValidItem(cfg, item)
  {
    match item
    case Brightness => 0
    case Power => 1
    case Gate(w) => 2 + w
    case Color(s, m) => 2 + cfg.words + Before(cfg, s) + 2 * m
    case Period(s, m) => 2 + cfg.words + Before(cfg, s) + 2 * m + 1
    case Selection(s) => 2 + cfg.words + Before(cfg, s) + 2 * |cfg.selectors[s].defaults|
  }

  function Total(cfg: Config): nat {
    2 + cfg.words + Before(cfg, |cfg.selectors|)
  }

  lemma {:induction false} BeforeMonotone(cfg: Config, s: nat, t: nat)
    requires s < t <= |cfg.selectors|
    ensures Before(cfg, s) + 2 * |cfg.selectors[s].defaults| + 1 <= Before(cfg, t)
    decreases t
  {
    if s + 1 < t {
      BeforeMonotone(cfg, s, t - 1);
    }
  }

  lemma PositionInRange(cfg: Config, item: Item)
    requires ValidItem(cfg, item)
    ensures Position(cfg, item) < Total(cfg)
  {
    if item.Color? || item.Period? || item.Selection? {
      BeforeMonotone(cfg, item.selector, |cfg.selectors|);
    }
  }

  /** Positions identify items, so no item is sent twice in a walk. */
  lemma PositionInjective(cfg: Config, a: Item, b: Item)
    requires ValidItem(cfg, a) && ValidItem(cfg, b) && Position(cfg, a) == Position(cfg, b)
    ensures a == b
  {
    if (a.Color? || a.Period? || a.Selection?) && (b.Color? || b.Period? || b.Selection?) {
      if a.selector < b.selector {
        BeforeMonotone(cfg, a.selector, b.selector);
      } else if b.selector < a.selector {
        BeforeMonotone(cfg, b.selector, a.selector);
      }
    }
  }

  /** A successful send moves exactly one position on, or ends the walk at the last. */
  ghost predicate MovesOn(cfg: Config, src: Source)
    requires ValidConfig(cfg) && ValidCursor(cfg, src.cursor)
  {
    var p, n := Position(cfg, CursorItem(cfg, src.cursor)), Advance(cfg, src);
    if p + 1 < Total(cfg)
    then n == src.(cursor := n.cursor) && ValidCursor(cfg, n.cursor) &&
         Position(cfg, CursorItem(cfg, n.cursor)) == p + 1
    else p + 1 == Total(cfg) && n == src.(cursor := n.cursor, pending := false, captured := false)
  }

  lemma ControlMovesOn(cfg: Config, src: Source)
    requires ValidConfig(cfg) && ValidCursor(cfg, src.cursor)
    requires src.cursor.phase in {AtBrightness, AtPower, AtGates}
    ensures MovesOn(cfg, src)
  {
    if |cfg.selectors| > 0 {
      BeforeMonotone(cfg, 0, |cfg.selectors|);
    }
  }

  lemma MemberMovesOn(cfg: Config, src: Source)
    requires ValidConfig(cfg) && ValidCursor(cfg, src.cursor)
    requires src.cursor.phase in {AtColor, AtPeriod}
    ensures MovesOn(cfg, src)
  {
    BeforeMonotone(cfg, src.cursor.selector, |cfg.selectors|);
  }

  lemma SelectionMovesOn(cfg: Config, src: Source)
    requires ValidConfig(cfg) && ValidCursor(cfg, src.cursor)
    requires src.cursor.phase == AtSelection
    ensures MovesOn(cfg, src)
  {
    var s := src.cursor.selector;
    assert Before(cfg, s + 1) == Before(cfg, s) + 2 * |cfg.selectors[s].defaults| + 1;
    if s + 1 < |cfg.selectors| {
      BeforeMonotone(cfg, s + 1, |cfg.selectors|);
    }
  }

  lemma AdvanceMovesOn(cfg: Config, src: Source)
    requires ValidConfig(cfg) && ValidCursor(cfg, src.cursor)
    ensures MovesOn(cfg, src)
  {
    if src.cursor.phase in {AtColor, AtPeriod} {
      MemberMovesOn(cfg, src);
    } else if src.cursor.phase == AtSelection {
      SelectionMovesOn(cfg, src);
    } else {
      ControlMovesOn(cfg, src);
    }
  }

  /** The source after `k` successful sends of a fresh walk. */
  function WalkAt(cfg: Config, src: Source, k: nat): (r: Source)
    requires ValidConfig(cfg) && src.pending && src.cursor == Start && k <= Total(cfg)
    ensures r.pending <==> k < Total(cfg)
    ensures r.pending ==> ValidCursor(cfg, r.cursor) && Position(cfg, CursorItem(cfg, r.cursor)) == k
  {
    if k == 0 then src
    else
      var previous := WalkAt(cfg, src, k - 1);
      AdvanceMovesOn(cfg, previous);
      Advance(cfg, previous)
  }

  /** A walk sends every snapshot item, each exactly once, and then stops being pending. */
  lemma {:induction false} WalkSendsEachItemOnce(cfg: Config, src: Source, item: Item)
    requires ValidConfig(cfg) && src.pending && src.cursor == Start && ValidItem(cfg, item)
    ensures Position(cfg, item) < Total(cfg)
    ensures CursorItem(cfg, WalkAt(cfg, src, Position(cfg, item)).cursor) == item
    ensures forall k | 0 <= k < Total(cfg) && k != Position(cfg, item) ::
              CursorItem(cfg, WalkAt(cfg, src, k).cursor) != item
    ensures !WalkAt(cfg, src, Total(cfg)).pending
  {
    PositionInRange(cfg, item);
    PositionInjective(cfg, item, CursorItem(cfg, WalkAt(cfg, src, Position(cfg, item)).cursor));
  }
}
