/** Replicated control state, the wire commands that change it, and their canonical
    absolute form.

    One half (the central) resolves a relative command against its own state and sends the
    resulting absolute command to the other halves. The theorems here say that the absolute
    form no longer depends on anybody's state, so every half ends with the same values.
  */
module Commands {
  import Arith

  // ----- Command words (param1); 0..14 are ZMK's underglow opcodes -----

  const TOG := 0
  const ON := 1
  const OFF := 2
  const HUI := 3
  const HUD := 4
  const SAI := 5
  const SAD := 6
  const BRI := 7
  const BRD := 8
  const SPI := 9
  const SPD := 10
  const EFF := 11
  const EFR := 12
  const EFS := 13
  const COLOR_HSB := 14
  const OVL_STATE := 0x101
  const RESET := 0x102
  const CLOCK := 0x103
  const BRT_SET := 0x107
  const SELECTOR_COLOR := 0x108
  const SELECTOR_PERIOD := 0x109

  const MARKER := 0x8000     // bit 15 of param1 pairs a conversion with its callback
  const HUE_MAX := 360
  const SAT_MAX := 100
  const BRT_MAX := 100
  const PERIOD_FALLBACK := 4000

  type u16 = x: int | 0 <= x < 0x1_0000
  type u32 = x: int | 0 <= x < 0x1_0000_0000

  datatype Error = EINVAL | ENOTSUP | ENODEV | ENOENT | EALREADY | EOVERFLOW

  datatype Result<+T> = Ok(value: T) | Err(error: Error)

  datatype Binding = Binding(param1: u32, param2: u32)

  // ----- State -----

  datatype Hsb = Hsb(h: nat, s: nat, b: nat)

  /** The user parameters of one effect, in a devicetree-assigned selector slot. */
  datatype Params = Params(color: Hsb, period: nat)

  datatype Selector = Selector(members: seq<Params>, index: nat)

  datatype State = State(on: bool, brightness: nat, gates: seq<u32>, selectors: seq<Selector>)

  /** The central's replicated state with the generation that numbers its publications. */
  datatype Central = Central(state: State, generation: nat)

  datatype SelectorConfig = SelectorConfig(defaults: seq<Params>, initial: u16)

  datatype Config = Config(
    initialOn: bool,
    initialBrightness: nat,
    words: nat,
    selectors: seq<SelectorConfig>,
    periodMin: nat,
    periodMax: nat,
    hueStep: int,
    satStep: int,
    brtStep: int,
    periodStep: int)

  predicate ValidParams(cfg: Config, p: Params) {
    p.color.h < HUE_MAX && p.color.s <= SAT_MAX && p.color.b <= BRT_MAX &&
    cfg.periodMin <= p.period <= cfg.periodMax
  }

  /** What the build-time assertions and the default initialisers establish. */
  predicate ValidConfig(cfg: Config) {
    && cfg.initialBrightness <= BRT_MAX
    && 1 <= cfg.words <= 2048
    && 1 <= cfg.periodMin <= cfg.periodMax <= 60000
    && (forall s | 0 <= s < |cfg.selectors| ::
          && 1 <= |cfg.selectors[s].defaults| <= 0xFFFF
          && forall m | 0 <= m < |cfg.selectors[s].defaults| :: ValidParams(cfg, cfg.selectors[s].defaults[m]))
  }

  predicate ValidSelector(cfg: Config, count: nat, sel: Selector) {
    && |sel.members| == count
    && sel.index < count
    && forall m | 0 <= m < |sel.members| :: ValidParams(cfg, sel.members[m])
  }

  /** A started half: every selection is in range and every parameter is one a command could set. */
  predicate ValidState(cfg: Config, st: State) {
    && st.brightness <= BRT_MAX
    && |st.gates| == cfg.words
    && |st.selectors| == |cfg.selectors|
    && forall s | 0 <= s < |st.selectors| :: ValidSelector(cfg, |cfg.selectors[s].defaults|, st.selectors[s])
  }

  // ----- Packing -----

  function PackHsb(c: Hsb): u32
    requires c.h < 0x1_0000 && c.s < 256 && c.b < 256
  {
    c.h * 0x1_0000 + c.s * 256 + c.b
  }

  function UnpackHsb(w: u32): Hsb {
    Hsb(w / 0x1_0000, w / 256 % 256, w % 256)
  }

  function MemberCommand(opcode: u16, slot: u16): u32 {
    opcode + slot * 0x1_0000
  }

  function Opcode(command: u32): u16 {
    command % 0x1_0000
  }

  function Slot(command: u32): u16 {
    command / 0x1_0000
  }

  /** `command & ~BIT(15)` */
  function Strip(command: u32): u32 {
    if command / MARKER % 2 == 1 then command - MARKER else command
  }

  predicate Marked(command: u32) {
    command / MARKER % 2 == 1
  }

  lemma HsbRoundTrip(c: Hsb)
    requires c.h < 0x1_0000 && c.s < 256 && c.b < 256
    ensures UnpackHsb(PackHsb(c)) == c
    ensures var w := PackHsb(c); w / 0x1_0000 == c.h && w / 256 % 256 == c.s && w % 256 == c.b
  {
    var w := PackHsb(c);
    assert w / 256 == c.h * 256 + c.s;
  }

  lemma MemberCommandRoundTrip(opcode: u16, slot: u16)
    requires opcode < MARKER
    ensures Opcode(MemberCommand(opcode, slot)) == opcode
    ensures Slot(MemberCommand(opcode, slot)) == slot
    ensures !Marked(MemberCommand(opcode, slot))
    ensures MemberCommand(opcode, slot) % 0x1_0000 == opcode && MemberCommand(opcode, slot) / 0x1_0000 == slot
  {
    var w := MemberCommand(opcode, slot);
    assert w / MARKER == slot * 2;
  }

  // ----- Conversion of a relative command to its absolute form -----

  /** C's `%` for a positive divisor: the remainder takes the sign of the dividend. */
  function CRem(x: int, d: int): int
    requires d > 0
  {
    if x >= 0 then x % d else -((-x) % d)
  }

  function EffectPeriod(cfg: Config, p: Params): int {
    Arith.Clamp(if p.period != 0 then p.period else PERIOD_FALLBACK, cfg.periodMin, cfg.periodMax)
  }

  function CalcIndex(count: nat, current: nat, delta: int): int
    requires count > 0
  {
    CRem(current + CRem(delta, count) + count, count)
  }

  /** A step up for direction 1, down for -1. */
  function Signed(dir: int, step: int): int {
    if dir == 1 then step else -step
  }

  function NudgeHue(cfg: Config, h: nat, dir: int): int {
    var hue := CRem(h + Signed(dir, cfg.hueStep), HUE_MAX);
    if hue < 0 then hue + HUE_MAX else hue
  }

  predicate KnownSelectorCommand(command: u32) {
    command in {HUI, HUD, SAI, SAD, SPI, SPD, EFF, EFR, EFS, COLOR_HSB, SELECTOR_COLOR, SELECTOR_PERIOD, RESET}
  }

  predicate ValidColorWord(argument: u32) {
    var c := UnpackHsb(argument);
    c.h <= HUE_MAX && c.s <= SAT_MAX && c.b <= BRT_MAX
  }

  /** The opcode and argument a command resolves to, before range validation. */
  function Resolve(cfg: Config, sel: Selector, command: u32, argument: u32, p: Params): Result<Binding>
    requires ValidParams(cfg, p) && 1 <= cfg.periodMin <= cfg.periodMax <= 60000
    requires sel.index < |sel.members| <= 0xFFFF
  {
    var dir := if command in {EFF, HUI, SAI, SPI} then 1 else -1;
    if command in {EFF, EFR, HUI, HUD, SAI, SAD, SPD} && argument != 0 then
      Err(EINVAL)
    else if command in {EFF, EFR} then
      CalcIndexRange(|sel.members|, sel.index, dir);
      Ok(Binding(EFS, CalcIndex(|sel.members|, sel.index, dir)))
    else if command in {HUI, HUD} then
      Ok(Binding(SELECTOR_COLOR, PackHsb(p.color.(h := NudgeHue(cfg, p.color.h, dir)))))
    else if command in {SAI, SAD} then
      Ok(Binding(SELECTOR_COLOR, PackHsb(p.color.(s := Arith.Clamp(p.color.s + Signed(dir, cfg.satStep), 0, SAT_MAX)))))
    else if command in {SPI, SPD} then
      Ok(Binding(SELECTOR_PERIOD,
                 if argument == 0
                 then Arith.Clamp(EffectPeriod(cfg, p) + Signed(dir, cfg.periodStep), cfg.periodMin, cfg.periodMax)
                 else argument))
    else if command == COLOR_HSB then
      Ok(Binding(SELECTOR_COLOR, argument))
    else
      Ok(Binding(command, argument))
  }

  /** Range checks, and the member the command addresses. */
  function Package(cfg: Config, slot: u16, resolved: Result<Binding>): Result<Binding> {
    match resolved
    case Err(e) => Err(e)
    case Ok(r) =>
      if r.param1 == SELECTOR_COLOR && !ValidColorWord(r.param2) then Err(EINVAL)
      else if r.param1 == SELECTOR_PERIOD && !(cfg.periodMin <= r.param2 <= cfg.periodMax) then Err(EINVAL)
      else Ok(if r.param1 == EFS then r else Binding(MemberCommand(Opcode(r.param1), slot), r.param2))
  }

  /** Rewrites a binding to the absolute command that every half will apply. */
  function Convert(cfg: Config, sel: Selector, b: Binding): Result<Binding>
    requires ValidConfig(cfg) && |sel.members| <= 0xFFFF && ValidSelector(cfg, |sel.members|, sel)
  {
    var opcode := Opcode(b.param1);
    var addressed := opcode == SELECTOR_COLOR || opcode == SELECTOR_PERIOD;
    if b.param1 == RESET then
      if b.param2 == 0 then Ok(b) else Err(EINVAL)
    else if !KnownSelectorCommand(b.param1) && !addressed then
      Err(ENOTSUP)
    else if addressed && Slot(b.param1) >= |sel.members| then
      Err(EINVAL)
    else if b.param1 == EFS then
      if b.param2 >= |sel.members| then Err(EINVAL) else Ok(b)
    else
      var slot := if addressed then Slot(b.param1) else sel.index;
      Package(cfg, slot, Resolve(cfg, sel, if addressed then opcode else b.param1, b.param2, sel.members[slot]))
  }

  // ----- Effect of a command on a half -----

  datatype Reply = Reply(central: Central, result: Result<()>)

  /** Stores a member's parameters; publishes when they differ. */
  function StoreParams(c: Central, s: nat, m: nat, p: Params): Central
    requires s < |c.state.selectors| && m < |c.state.selectors[s].members|
  {
    var sel := c.state.selectors[s];
    if sel.members[m] != p then
      Central(c.state.(selectors := c.state.selectors[s := sel.(members := sel.members[m := p])]),
              c.generation + 1)
    else c
  }

  function SelectSlot(c: Central, s: nat, slot: nat): Central
    requires s < |c.state.selectors|
  {
    var sel := c.state.selectors[s];
    if sel.index != slot then
      Central(c.state.(selectors := c.state.selectors[s := sel.(index := slot)]), c.generation + 1)
    else c
  }

  /** Members `m..` of selector `s` back to their defaults, one publication per change. */
  function DefaultMembers(cfg: Config, c: Central, s: nat, m: nat): Central
    requires s < |c.state.selectors| && s < |cfg.selectors|
    requires m <= |c.state.selectors[s].members| == |cfg.selectors[s].defaults|
    decreases |cfg.selectors[s].defaults| - m
  {
    if m == |cfg.selectors[s].defaults| then c
    else DefaultMembers(cfg, StoreParams(c, s, m, cfg.selectors[s].defaults[m]), s, m + 1)
  }

  function InitialSlot(sc: SelectorConfig): nat {
    if sc.initial < |sc.defaults| then sc.initial else 0
  }

  function ResetSelector(cfg: Config, c: Central, s: nat): Central
    requires ValidConfig(cfg) && ValidState(cfg, c.state) && s < |cfg.selectors|
  {
    DefaultMembersShape(cfg, c, s, 0);
    SelectSlot(DefaultMembers(cfg, c, s, 0), s, InitialSlot(cfg.selectors[s]))
  }

  function Dispatch(cfg: Config, c: Central, s: nat, b: Binding): Reply
    requires ValidConfig(cfg) && ValidState(cfg, c.state) && s < |cfg.selectors|
  {
    var sel := c.state.selectors[s];
    match Convert(cfg, sel, b)
    case Err(e) => Reply(c, Err(e))
    case Ok(a) =>
      if a.param1 == RESET then Reply(ResetSelector(cfg, c, s), Ok(()))
      else if a.param1 == EFS then Reply(SelectSlot(c, s, a.param2), Ok(()))
      else
        var m := Slot(a.param1);
        if m >= |sel.members| then Reply(c, Err(ENOENT))
        else if Opcode(a.param1) == SELECTOR_COLOR then
          var color := UnpackHsb(a.param2);
          if ValidColorWord(a.param2) then
            Reply(StoreParams(c, s, m, sel.members[m].(color := color.(h := color.h % HUE_MAX))), Ok(()))
          else Reply(c, Err(EINVAL))
        else if cfg.periodMin <= a.param2 <= cfg.periodMax then
          Reply(StoreParams(c, s, m, sel.members[m].(period := a.param2)), Ok(()))
        else Reply(c, Err(EINVAL))
  }

  function SetUserOn(c: Central, on: bool): Central {
    if c.state.on != on then Central(c.state.(on := on), c.generation + 1) else c
  }

  function SetBrightness(c: Central, brightness: nat): Central {
    if c.state.brightness != brightness then Central(c.state.(brightness := brightness), c.generation + 1)
    else c
  }

  function SetWord(c: Central, w: nat, bits: u32): Central
    requires w < |c.state.gates|
  {
    if c.state.gates[w] != bits then Central(c.state.(gates := c.state.gates[w := bits]), c.generation + 1)
    else c
  }

  /** Global settings assigned together, with a single publication. */
  function SetGlobals(c: Central, on: bool, brightness: nat): Central {
    if c.state.on != on || c.state.brightness != brightness
    then Central(c.state.(on := on, brightness := brightness), c.generation + 1)
    else c
  }

  function NudgeBrightness(cfg: Config, brightness: nat, dir: int): int {
    Arith.Clamp(brightness + Signed(dir, cfg.brtStep), 0, BRT_MAX)
  }

  function ResetSelectors(cfg: Config, c: Central, s: nat): Central
    requires ValidConfig(cfg) && ValidState(cfg, c.state) && s <= |cfg.selectors|
    decreases |cfg.selectors| - s
  {
    if s == |cfg.selectors| then c
    else
      ResetSelectorEffect(cfg, c, s);
      ResetSelectors(cfg, ResetSelector(cfg, c, s), s + 1)
  }

  function ResetState(cfg: Config, c: Central): Central
    requires ValidConfig(cfg) && ValidState(cfg, c.state)
  {
    ResetSelectors(cfg, SetGlobals(c, cfg.initialOn, cfg.initialBrightness), 0)
  }

  /** The matrix endpoint's handler. */
  function Control(cfg: Config, c: Central, b: Binding): Reply
    requires ValidConfig(cfg) && ValidState(cfg, c.state)
  {
    if Opcode(b.param1) == OVL_STATE then
      if Slot(b.param1) >= cfg.words then Reply(c, Err(EINVAL))
      else Reply(SetWord(c, Slot(b.param1), b.param2), Ok(()))
    else if b.param1 == TOG then Reply(SetUserOn(c, !c.state.on), Ok(()))
    else if b.param1 == ON then Reply(SetUserOn(c, true), Ok(()))
    else if b.param1 == OFF then Reply(SetUserOn(c, false), Ok(()))
    else if b.param1 == BRI || b.param1 == BRD then
      Reply(SetBrightness(c, NudgeBrightness(cfg, c.state.brightness, if b.param1 == BRI then 1 else -1)), Ok(()))
    else if b.param1 == BRT_SET then
      if b.param2 > BRT_MAX then Reply(c, Err(EINVAL)) else Reply(SetBrightness(c, b.param2), Ok(()))
    else if b.param1 == RESET then
      if b.param2 != 0 then Reply(c, Err(EINVAL)) else Reply(ResetState(cfg, c), Ok(()))
    else if b.param1 == CLOCK then Reply(c, Ok(()))
    else Reply(c, Err(ENOTSUP))
  }

  /** Conversion at the matrix endpoint, before the invocation is marked. */
  function ConvertControl(cfg: Config, st: State, b: Binding): Result<Binding>
  {
    if Marked(b.param1) then Err(ENOTSUP)
    else if Opcode(b.param1) == OVL_STATE then
      if Slot(b.param1) >= cfg.words then Err(EINVAL) else Ok(b)
    else if b.param1 == TOG then Ok(b.(param1 := if st.on then OFF else ON))
    else if b.param1 == BRI || b.param1 == BRD then
      Ok(Binding(BRT_SET, NudgeBrightness(cfg, st.brightness, if b.param1 == BRI then 1 else -1)))
    else if b.param1 in {ON, OFF, BRT_SET, RESET, CLOCK} then Ok(b)
    else Err(ENOTSUP)
  }

  // ----- Messages -----

  datatype Endpoint = Matrix | Overlay(selector: nat)

  datatype Message = Message(to: Endpoint, binding: Binding, pressed: bool)

  /** What a half does with a received or locally invoked binding. */
  function Receive(cfg: Config, c: Central, m: Message): Central
    requires ValidConfig(cfg) && ValidState(cfg, c.state)
  {
    var b := m.binding.(param1 := Strip(m.binding.param1));
    if !m.pressed then c
    else match m.to
      case Matrix => Control(cfg, c, b).central
      case Overlay(s) => if s < |cfg.selectors| then Dispatch(cfg, c, s, b).central else c
  }

  /** The same on a half whose generation nobody reads. */
  function Apply(cfg: Config, st: State, m: Message): State
    requires ValidConfig(cfg) && ValidState(cfg, st)
  {
    Receive(cfg, Central(st, 0), m).state
  }

  // ----- Addressed commands -----

  predicate ValidAddressed(cfg: Config, opcode: u16, argument: u32) {
    (opcode == SELECTOR_COLOR && ValidColorWord(argument)) ||
    (opcode == SELECTOR_PERIOD && cfg.periodMin <= argument <= cfg.periodMax)
  }

  /** What an addressed command leaves in its member, whatever was there. */
  function Addressed(p: Params, opcode: u16, argument: u32): Params {
    if opcode == SELECTOR_COLOR then
      var color := UnpackHsb(argument);
      p.(color := color.(h := color.h % HUE_MAX))
    else p.(period := argument)
  }

  /** An in-range addressed command is already absolute. */
  lemma AddressedConverts(cfg: Config, sel: Selector, opcode: u16, m: u16, argument: u32)
    requires ValidConfig(cfg) && |sel.members| <= 0xFFFF && ValidSelector(cfg, |sel.members|, sel)
    requires m < |sel.members| && ValidAddressed(cfg, opcode, argument)
    ensures var b := Binding(MemberCommand(opcode, m), argument); Convert(cfg, sel, b) == Ok(b)
  {
    MemberCommandRoundTrip(opcode, m);
  }

  lemma DispatchAddressed(cfg: Config, c: Central, s: nat, b: Binding)
    requires ValidConfig(cfg) && ValidState(cfg, c.state) && s < |cfg.selectors|
    requires Slot(b.param1) < |c.state.selectors[s].members| && ValidAddressed(cfg, Opcode(b.param1), b.param2)
    ensures var m := Slot(b.param1);
            Dispatch(cfg, c, s, b)
            == Reply(StoreParams(c, s, m, Addressed(c.state.selectors[s].members[m], Opcode(b.param1), b.param2)),
                     Ok(()))
  {
  }

  // ----- Shape and validity -----

  lemma CalcIndexRange(count: nat, current: nat, delta: int)
    requires current < count
    ensures CalcIndex(count, current, delta) == (current + delta) % count < count
  {
    var r := CRem(delta, count);
    var q := if delta < 0 then -((-delta) / count) else delta / count;
    if delta < 0 {
      assert -delta == (-delta) / count * count + (-delta) % count;
    } else {
      assert delta == delta / count * count + delta % count;
    }
    assert delta == q * count + r && -(count as int) < r < count;
    assert (q - 1) * count == q * count - count;
    Arith.ModShift(current + r + count, q - 1, count);
  }

  function WithMembers(st: State, s: nat, members: seq<Params>): State
    requires s < |st.selectors|
  {
    st.(selectors := st.selectors[s := st.selectors[s].(members := members)])
  }

  lemma {:induction false} DefaultMembersShape(cfg: Config, c: Central, s: nat, m: nat)
    requires s < |c.state.selectors| && s < |cfg.selectors|
    requires m <= |c.state.selectors[s].members| == |cfg.selectors[s].defaults|
    ensures var d := DefaultMembers(cfg, c, s, m);
            && d.state == WithMembers(c.state, s, c.state.selectors[s].members[..m] + cfg.selectors[s].defaults[m..])
            && d.generation >= c.generation
            && (d.generation == c.generation <==> d.state == c.state)
    decreases |cfg.selectors[s].defaults| - m
  {
    var ms, ds := c.state.selectors[s].members, cfg.selectors[s].defaults;
    if m == |ds| {
      assert ms[..m] + ds[m..] == ms;
      assert c.state.selectors[s := c.state.selectors[s]] == c.state.selectors;
    } else {
      var n := StoreParams(c, s, m, ds[m]);
      assert n.state == WithMembers(c.state, s, ms[m := ds[m]]) by {
        if ms[m] == ds[m] {
          assert ms[m := ds[m]] == ms;
          assert c.state.selectors[s := c.state.selectors[s]] == c.state.selectors;
        }
      }
      DefaultMembersShape(cfg, n, s, m + 1);
      assert ms[m := ds[m]][..m + 1] + ds[m + 1..] == ms[..m] + ds[m..];
      WithMembersTwice(c.state, s, ms[m := ds[m]], ms[..m] + ds[m..]);
      if n != c {
        assert WithMembers(c.state, s, ms[..m] + ds[m..]).selectors[s].members[m] == ds[m];
      }
    }
  }

  lemma WithMembersTwice(st: State, s: nat, a: seq<Params>, b: seq<Params>)
    requires s < |st.selectors|
    ensures WithMembers(WithMembers(st, s, a), s, b) == WithMembers(st, s, b)
  {
    assert WithMembers(WithMembers(st, s, a), s, b).selectors == WithMembers(st, s, b).selectors;
  }

  /** A selector reset sets exactly the selector's own state, from the configuration alone. */
  lemma ResetSelectorEffect(cfg: Config, c: Central, s: nat)
    requires ValidConfig(cfg) && ValidState(cfg, c.state) && s < |cfg.selectors|
    ensures var d := ResetSelector(cfg, c, s);
            && d.state == c.state.(selectors := c.state.selectors[
                s := Selector(cfg.selectors[s].defaults, InitialSlot(cfg.selectors[s]))])
            && ValidState(cfg, d.state)
            && d.generation >= c.generation
            && (d.generation == c.generation <==> d.state == c.state)
  {
    var ds, slot := cfg.selectors[s].defaults, InitialSlot(cfg.selectors[s]);
    var d := DefaultMembers(cfg, c, s, 0);
    DefaultMembersShape(cfg, c, s, 0);
    assert c.state.selectors[s].members[..0] + ds[0..] == ds;
    SelectSlotState(d, s, slot);
    WithSelectorTwice(c.state, s, c.state.selectors[s].(members := ds), Selector(ds, slot));
    assert WithSelector(c.state, s, Selector(ds, slot)).selectors[s] == Selector(ds, slot);
  }

  function WithSelector(st: State, s: nat, sel: Selector): State
    requires s < |st.selectors|
  {
    st.(selectors := st.selectors[s := sel])
  }

  lemma WithSelectorTwice(st: State, s: nat, a: Selector, b: Selector)
    requires s < |st.selectors|
    ensures WithSelector(WithSelector(st, s, a), s, b) == WithSelector(st, s, b)
  {
    assert WithSelector(WithSelector(st, s, a), s, b).selectors == WithSelector(st, s, b).selectors;
  }

  lemma SelectSlotState(c: Central, s: nat, slot: nat)
    requires s < |c.state.selectors|
    ensures SelectSlot(c, s, slot).state == WithSelector(c.state, s, c.state.selectors[s].(index := slot))
    ensures SelectSlot(c, s, slot).generation == c.generation + if c.state.selectors[s].index == slot then 0 else 1
  {
    assert c.state.selectors[s := c.state.selectors[s]] == c.state.selectors;
  }
}
