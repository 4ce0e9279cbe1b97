/** The replicated state seen as a set of separately transmitted items. */
module Items {
  import opened Commands

  datatype Item =
    | Brightness
    | Power
    | Gate(word: nat)
    | Color(selector: nat, member: nat)
    | Period(selector: nat, member: nat)
    | Selection(selector: nat)

  predicate ValidItem(cfg: Config, item: Item) {
    match item
    case Brightness => true
    case Power => true
    case Gate(w) => w < cfg.words
    case Color(s, m) => s < |cfg.selectors| && m < |cfg.selectors[s].defaults|
    case Period(s, m) => s < |cfg.selectors| && m < |cfg.selectors[s].defaults|
    case Selection(s) => s < |cfg.selectors|
  }

  /** The argument word that carries an item's current value. */
  function Get(cfg: Config, st: State, item: Item): u32
    requires ValidConfig(cfg) && ValidState(cfg, st) && ValidItem(cfg, item)
  {
    match item
    case Brightness => st.brightness
    case Power => if st.on then 1 else 0
    case Gate(w) => st.gates[w]
    case Color(s, m) => PackHsb(st.selectors[s].members[m].color)
    case Period(s, m) => st.selectors[s].members[m].period
    case Selection(s) => st.selectors[s].index
  }

  /** The absolute command that makes a half's item equal to the sender's. */
  function WireFor(cfg: Config, st: State, item: Item): Message
    requires ValidConfig(cfg) && ValidState(cfg, st) && ValidItem(cfg, item)
  {
    match item
    case Brightness => Message(Matrix, Binding(BRT_SET, st.brightness), true)
    case Power => Message(Matrix, Binding(if st.on then ON else OFF, 0), true)
    case Gate(w) => Message(Matrix, Binding(MemberCommand(OVL_STATE, w), st.gates[w]), true)
    case Color(s, m) =>
      Message(Overlay(s), Binding(MemberCommand(SELECTOR_COLOR, m), PackHsb(st.selectors[s].members[m].color)), true)
    case Period(s, m) =>
      Message(Overlay(s), Binding(MemberCommand(SELECTOR_PERIOD, m), st.selectors[s].members[m].period), true)
    case Selection(s) => Message(Overlay(s), Binding(EFS, st.selectors[s].index), true)
  }

  /** States that agree on every item are the same state. */
  lemma ItemsDetermineState(cfg: Config, a: State, b: State)
    requires ValidConfig(cfg) && ValidState(cfg, a) && ValidState(cfg, b)
    requires forall item | ValidItem(cfg, item) :: Get(cfg, a, item) == Get(cfg, b, item)
    ensures a == b
  {
    assert Get(cfg, a, Brightness) == Get(cfg, b, Brightness);
    assert Get(cfg, a, Power) == Get(cfg, b, Power);
    forall w | 0 <= w < cfg.words
      ensures a.gates[w] == b.gates[w]
    {
      assert Get(cfg, a, Gate(w)) == Get(cfg, b, Gate(w));
    }
    forall s | 0 <= s < |cfg.selectors|
      ensures a.selectors[s] == b.selectors[s]
    {
      assert Get(cfg, a, Selection(s)) == Get(cfg, b, Selection(s));
      forall m | 0 <= m < |cfg.selectors[s].defaults|
        ensures a.selectors[s].members[m] == b.selectors[s].members[m]
      {
        SameMember(cfg, a, b, s, m);
      }
      assert a.selectors[s].members == b.selectors[s].members;
    }
    assert a.gates == b.gates && a.selectors == b.selectors;
  }

  lemma SameMember(cfg: Config, a: State, b: State, s: nat, m: nat)
    requires ValidConfig(cfg) && ValidState(cfg, a) && ValidState(cfg, b)
    requires ValidItem(cfg, Color(s, m))
    requires Get(cfg, a, Color(s, m)) == Get(cfg, b, Color(s, m))
    requires Get(cfg, a, Period(s, m)) == Get(cfg, b, Period(s, m))
    ensures a.selectors[s].members[m] == b.selectors[s].members[m]
  {
    HsbRoundTrip(a.selectors[s].members[m].color);
    HsbRoundTrip(b.selectors[s].members[m].color);
  }

  /** `dst` with one item taken from `src`. */
  function Copy(cfg: Config, src: State, dst: State, item: Item): State
    requires ValidConfig(cfg) && ValidState(cfg, src) && ValidState(cfg, dst) && ValidItem(cfg, item)
  {
    match item
    case Brightness => dst.(brightness := src.brightness)
    case Power => dst.(on := src.on)
    case Gate(w) => dst.(gates := dst.gates[w := src.gates[w]])
    case Color(s, m) =>
      var ms := dst.selectors[s].members;
      WithMembers(dst, s, ms[m := ms[m].(color := src.selectors[s].members[m].color)])
    case Period(s, m) =>
      var ms := dst.selectors[s].members;
      WithMembers(dst, s, ms[m := ms[m].(period := src.selectors[s].members[m].period)])
    case Selection(s) => dst.(selectors := dst.selectors[s := dst.selectors[s].(index := src.selectors[s].index)])
  }

  lemma StoreParamsState(c: Central, s: nat, m: nat, p: Params)
    requires s < |c.state.selectors| && m < |c.state.selectors[s].members|
    ensures StoreParams(c, s, m, p).state == WithMembers(c.state, s, c.state.selectors[s].members[m := p])
  {
    var sel := c.state.selectors[s];
    if sel.members[m] == p {
      assert sel.members[m := p] == sel.members;
      assert c.state.selectors[s := sel] == c.state.selectors;
    }
  }

  /** Receiving an unmarked addressed command stores the addressed parameters. */
  lemma ApplyAddressed(cfg: Config, dst: State, s: nat, opcode: u16, m: u16, argument: u32)
    requires ValidConfig(cfg) && ValidState(cfg, dst) && s < |cfg.selectors|
    requires m < |dst.selectors[s].members| && ValidAddressed(cfg, opcode, argument)
    ensures var ms := dst.selectors[s].members;
            Apply(cfg, dst, Message(Overlay(s), Binding(MemberCommand(opcode, m), argument), true))
            == WithMembers(dst, s, ms[m := Addressed(ms[m], opcode, argument)])
  {
    MemberCommandRoundTrip(opcode, m);
    DispatchAddressed(cfg, Central(dst, 0), s, Binding(MemberCommand(opcode, m), argument));
    StoreParamsState(Central(dst, 0), s, m, Addressed(dst.selectors[s].members[m], opcode, argument));
  }

  lemma PackedColorStored(cfg: Config, p: Params, q: Params)
    requires ValidParams(cfg, p)
    ensures ValidColorWord(PackHsb(p.color))
    ensures Addressed(q, SELECTOR_COLOR, PackHsb(p.color)) == q.(color := p.color)
  {
    HsbRoundTrip(p.color);
    assert p.color.h % HUE_MAX == p.color.h;
  }

  lemma ColorWireEffect(cfg: Config, src: State, dst: State, s: nat, m: nat)
    requires ValidConfig(cfg) && ValidState(cfg, src) && ValidState(cfg, dst) && ValidItem(cfg, Color(s, m))
    ensures Apply(cfg, dst, WireFor(cfg, src, Color(s, m))) == Copy(cfg, src, dst, Color(s, m))
  {
    PackedColorStored(cfg, src.selectors[s].members[m], dst.selectors[s].members[m]);
    ApplyAddressed(cfg, dst, s, SELECTOR_COLOR, m, PackHsb(src.selectors[s].members[m].color));
  }

  lemma PeriodWireEffect(cfg: Config, src: State, dst: State, s: nat, m: nat)
    requires ValidConfig(cfg) && ValidState(cfg, src) && ValidState(cfg, dst) && ValidItem(cfg, Period(s, m))
    ensures Apply(cfg, dst, WireFor(cfg, src, Period(s, m))) == Copy(cfg, src, dst, Period(s, m))
  {
    assert ValidParams(cfg, src.selectors[s].members[m]);
    ApplyAddressed(cfg, dst, s, SELECTOR_PERIOD, m, src.selectors[s].members[m].period);
  }

  lemma SelectionWireEffect(cfg: Config, src: State, dst: State, item: Item)
    requires ValidConfig(cfg) && ValidState(cfg, src) && ValidState(cfg, dst) && ValidItem(cfg, item)
    requires item.Selection?
    ensures Apply(cfg, dst, WireFor(cfg, src, item)) == Copy(cfg, src, dst, item)
  {
    var s := item.selector;
    assert dst.selectors[s := dst.selectors[s]] == dst.selectors;
  }

  lemma ControlWireEffect(cfg: Config, src: State, dst: State, item: Item)
    requires ValidConfig(cfg) && ValidState(cfg, src) && ValidState(cfg, dst) && ValidItem(cfg, item)
    requires item.Brightness? || item.Power? || item.Gate?
    ensures Apply(cfg, dst, WireFor(cfg, src, item)) == Copy(cfg, src, dst, item)
  {
    if item.Gate? {
      MemberCommandRoundTrip(OVL_STATE, item.word);
      assert dst.gates[item.word := dst.gates[item.word]] == dst.gates;
    }
  }

  lemma CopyItem(cfg: Config, src: State, dst: State, item: Item, other: Item)
    requires ValidConfig(cfg) && ValidState(cfg, src) && ValidState(cfg, dst)
    requires ValidItem(cfg, item) && ValidItem(cfg, other)
    ensures var r := Copy(cfg, src, dst, item);
            && ValidState(cfg, r)
            && Get(cfg, r, other) == Get(cfg, if other == item then src else dst, other)
  {
    if item.Color? || item.Period? || item.Selection? {
      CopyKeepsSelectors(cfg, src, dst, item);
    }
  }

  lemma CopyKeepsSelectors(cfg: Config, src: State, dst: State, item: Item)
    requires ValidConfig(cfg) && ValidState(cfg, src) && ValidState(cfg, dst) && ValidItem(cfg, item)
    requires item.Color? || item.Period? || item.Selection?
    ensures ValidState(cfg, Copy(cfg, src, dst, item))
  {
    var s := item.selector;
    assert ValidSelector(cfg, |cfg.selectors[s].defaults|, Copy(cfg, src, dst, item).selectors[s]);
  }

  /** Sending an item's wire form sets that item on any receiver, whatever it held, and
      leaves every other item alone. */
  lemma WireSetsItem(cfg: Config, src: State, dst: State, item: Item)
    requires ValidConfig(cfg) && ValidState(cfg, src) && ValidState(cfg, dst) && ValidItem(cfg, item)
    ensures ValidState(cfg, Apply(cfg, dst, WireFor(cfg, src, item)))
    ensures forall other | ValidItem(cfg, other) ::
              Get(cfg, Apply(cfg, dst, WireFor(cfg, src, item)), other) ==
              Get(cfg, if other == item then src else dst, other)
  {
    if item.Color? {
      ColorWireEffect(cfg, src, dst, item.selector, item.member);
    } else if item.Period? {
      PeriodWireEffect(cfg, src, dst, item.selector, item.member);
    } else if item.Selection? {
      SelectionWireEffect(cfg, src, dst, item);
    } else {
      ControlWireEffect(cfg, src, dst, item);
    }
    CopyItem(cfg, src, dst, item, item);
    forall other | ValidItem(cfg, other)
      ensures Get(cfg, Apply(cfg, dst, WireFor(cfg, src, item)), other) ==
              Get(cfg, if other == item then src else dst, other)
    {
      CopyItem(cfg, src, dst, item, other);
    }
  }
}
