/** Everything that can change the central's replicated state, and the generation counter
    that lets a replay notice it. */
module Publication {
  import opened Commands

  datatype Op =
    | Invoke(message: Message)                                  // a local behavior callback
    | Refresh(words: seq<u32>)                                  // overlay gates re-evaluated
    | Restore(on: bool, brightness: nat, slots: seq<u16>)       // settings loaded
    | Select(selector: nat, slot: u16)                          // selection API

  predicate ValidOp(cfg: Config, op: Op) {
    match op
    case Invoke(_) => true
    case Refresh(words) => |words| == cfg.words
    case Restore(_, brightness, slots) => brightness <= BRT_MAX && |slots| == |cfg.selectors|
    case Select(s, _) => s < |cfg.selectors|
  }

  function RestoreSlots(cfg: Config, c: Central, slots: seq<u16>, s: nat): Central
    requires |slots| == |cfg.selectors| == |c.state.selectors| && s <= |slots|
    decreases |slots| - s
  {
    if s == |slots| then c
    else
      var slot := if slots[s] < |cfg.selectors[s].defaults| then slots[s] else InitialSlot(cfg.selectors[s]);
      RestoreSlots(cfg, SelectSlot(c, s, slot), slots, s + 1)
  }

  function Mutate(cfg: Config, c: Central, op: Op): Central
    requires ValidConfig(cfg) && ValidState(cfg, c.state) && ValidOp(cfg, op)
  {
    match op
    case Invoke(m) => Receive(cfg, c, m)
    case Refresh(words) =>
      if c.state.gates != words then Central(c.state.(gates := words), c.generation + 1) else c
    case Restore(on, brightness, slots) => RestoreSlots(cfg, SetGlobals(c, on, brightness), slots, 0)
    case Select(s, slot) =>
      if slot < |c.state.selectors[s].members| then SelectSlot(c, s, slot) else c
  }

  /** The generation moves exactly when the replicated state does. */
  ghost predicate Published(c: Central, d: Central) {
    d.generation >= c.generation && (d.generation == c.generation <==> d.state == c.state)
  }

  function DefaultSelectors(cfg: Config): seq<Selector> {
    seq(|cfg.selectors|, s requires 0 <= s < |cfg.selectors| =>
      Selector(cfg.selectors[s].defaults, InitialSlot(cfg.selectors[s])))
  }

  lemma {:induction false} ResetSelectorsEffect(cfg: Config, c: Central, s: nat)
    requires ValidConfig(cfg) && ValidState(cfg, c.state) && s <= |cfg.selectors|
    ensures var d := ResetSelectors(cfg, c, s);
            && d.state == c.state.(selectors := c.state.selectors[..s] + DefaultSelectors(cfg)[s..])
            && ValidState(cfg, d.state)
            && Published(c, d)
    decreases |cfg.selectors| - s
  {
    var old_, new_ := c.state.selectors, DefaultSelectors(cfg);
    if s == |cfg.selectors| {
      assert old_[..s] + new_[s..] == old_;
    } else {
      ResetSelectorEffect(cfg, c, s);
      ResetSelectorsEffect(cfg, ResetSelector(cfg, c, s), s + 1);
      assert old_[s := new_[s]][..s + 1] + new_[s + 1..] == old_[..s] + new_[s..];
      if old_[..s] + new_[s..] == old_ {
        assert (old_[..s] + new_[s..])[s] == new_[s];
        assert old_[s := new_[s]] == old_;
      }
    }
  }

  lemma {:induction false} RestoreSlotsEffect(cfg: Config, c: Central, slots: seq<u16>, s: nat)
    requires ValidConfig(cfg) && ValidState(cfg, c.state) && |slots| == |cfg.selectors| && s <= |slots|
    ensures var d := RestoreSlots(cfg, c, slots, s);
            && ValidState(cfg, d.state)
            && d.state == c.state.(selectors := d.state.selectors)
            && (forall t | 0 <= t < s :: d.state.selectors[t] == c.state.selectors[t])
            && Published(c, d)
    decreases |slots| - s
  {
    if s == |slots| {
      assert c.state == c.state.(selectors := c.state.selectors);
    } else {
      var slot := if slots[s] < |cfg.selectors[s].defaults| then slots[s] else InitialSlot(cfg.selectors[s]);
      var n := SelectSlot(c, s, slot);
      RestoreSlotsEffect(cfg, n, slots, s + 1);
      assert RestoreSlots(cfg, c, slots, s).state.selectors[s] == n.state.selectors[s];
    }
  }

  /** Restoring selects, in every selector, the stored slot, or the configured initial one when that is out of range, or
      the first when even that is; nothing else of a selector changes. */
  lemma {:induction false} RestoreSelects(cfg: Config, c: Central, slots: seq<u16>, s: nat, t: nat)
    requires ValidConfig(cfg) && ValidState(cfg, c.state) && |slots| == |cfg.selectors| && s <= |slots|
    requires s <= t < |slots|
    ensures var d, sc := RestoreSlots(cfg, c, slots, s), cfg.selectors[t];
            && |d.state.selectors| == |c.state.selectors|
            && d.state.selectors[t] == c.state.selectors[t].(index :=
                 if slots[t] < |sc.defaults| then slots[t] else if sc.initial < |sc.defaults| then sc.initial else 0)
    decreases |slots| - s
  {
    var slot := if slots[s] < |cfg.selectors[s].defaults| then slots[s] else InitialSlot(cfg.selectors[s]);
    var n := SelectSlot(c, s, slot);
    RestoreSlotsEffect(cfg, n, slots, s + 1);
    if s < t {
      RestoreSelects(cfg, n, slots, s + 1, t);
    }
  }

  /** What the three changes that are not commands leave behind. */
  lemma ChangesSet(cfg: Config, c: Central, op: Op)
    requires ValidConfig(cfg) && ValidState(cfg, c.state) && ValidOp(cfg, op)
    ensures var st := Mutate(cfg, c, op).state;
            match op
            case Invoke(_) => true
            case Refresh(words) => st == c.state.(gates := words)
            case Restore(on, brightness, slots) =>
              && st.on == on && st.brightness == brightness && st.gates == c.state.gates
              && |st.selectors| == |c.state.selectors|
              && forall t :: 0 <= t < |slots| ==>
                   var sc := cfg.selectors[t];
                   st.selectors[t] == c.state.selectors[t].(index :=
                     if slots[t] < |sc.defaults| then slots[t]
                     else if sc.initial < |sc.defaults| then sc.initial else 0)
            case Select(s, slot) =>
              st == if slot < |cfg.selectors[s].defaults|
                    then c.state.(selectors := c.state.selectors[s := c.state.selectors[s].(index := slot)])
                    else c.state
  {
    match op
    case Restore(on, brightness, slots) =>
      var g := SetGlobals(c, on, brightness);
      RestoreSlotsEffect(cfg, g, slots, 0);
      forall t | 0 <= t < |slots|
        ensures var sc := cfg.selectors[t];
                Mutate(cfg, c, op).state.selectors[t] == c.state.selectors[t].(index :=
                  if slots[t] < |sc.defaults| then slots[t]
                  else if sc.initial < |sc.defaults| then sc.initial else 0)
      {
        RestoreSelects(cfg, g, slots, 0, t);
      }
    case Select(s, slot) =>
      assert c.state.selectors[s := c.state.selectors[s]] == c.state.selectors;
    case Refresh(_) =>
    case Invoke(_) =>
  }

  lemma DispatchPublishes(cfg: Config, c: Central, s: nat, b: Binding)
    requires ValidConfig(cfg) && ValidState(cfg, c.state) && s < |cfg.selectors|
    ensures var d := Dispatch(cfg, c, s, b).central; ValidState(cfg, d.state) && Published(c, d)
  {
    var sel := c.state.selectors[s];
    var converted := Convert(cfg, sel, b);
    if converted.Ok? {
      var a := converted.value;
      if a.param1 == RESET {
        ResetSelectorEffect(cfg, c, s);
      } else if a.param1 == EFS {
        SelectionInRange(cfg, sel, b);
        SelectPublishes(cfg, c, s, a.param2);
      } else if Slot(a.param1) < |sel.members| {
        var p := sel.members[Slot(a.param1)];
        var color := UnpackHsb(a.param2);
        StorePublishes(cfg, c, s, Slot(a.param1), p.(color := color.(h := color.h % HUE_MAX)));
        StorePublishes(cfg, c, s, Slot(a.param1), p.(period := a.param2));
      }
    }
  }

  lemma SelectionInRange(cfg: Config, sel: Selector, b: Binding)
    requires ValidConfig(cfg) && |sel.members| <= 0xFFFF && ValidSelector(cfg, |sel.members|, sel)
    requires Convert(cfg, sel, b).Ok? && Convert(cfg, sel, b).value.param1 == EFS
    ensures Convert(cfg, sel, b).value.param2 < |sel.members|
  {
    CalcIndexRange(|sel.members|, sel.index, 1);
    CalcIndexRange(|sel.members|, sel.index, -1);
    var opcode := Opcode(b.param1);
    if opcode == SELECTOR_COLOR || opcode == SELECTOR_PERIOD {
      MemberCommandRoundTrip(opcode, Slot(b.param1));
    } else if b.param1 != EFS {
      MemberCommandRoundTrip(SELECTOR_COLOR, sel.index);
      MemberCommandRoundTrip(SELECTOR_PERIOD, sel.index);
    }
  }

  lemma SelectPublishes(cfg: Config, c: Central, s: nat, slot: nat)
    requires ValidConfig(cfg) && ValidState(cfg, c.state) && s < |cfg.selectors|
    requires slot < |c.state.selectors[s].members|
    ensures var d := SelectSlot(c, s, slot); ValidState(cfg, d.state) && Published(c, d)
  {
    if c.state.selectors[s].index != slot {
      assert SelectSlot(c, s, slot).state.selectors[s].index == slot;
    }
  }

  lemma StorePublishes(cfg: Config, c: Central, s: nat, m: nat, p: Params)
    requires ValidConfig(cfg) && ValidState(cfg, c.state)
    requires s < |cfg.selectors| && m < |c.state.selectors[s].members|
    ensures var d := StoreParams(c, s, m, p);
            (ValidParams(cfg, p) ==> ValidState(cfg, d.state)) && Published(c, d)
  {
    if c.state.selectors[s].members[m] != p {
      assert StoreParams(c, s, m, p).state.selectors[s].members[m] == p;
    }
  }

  lemma ControlPublishes(cfg: Config, c: Central, b: Binding)
    requires ValidConfig(cfg) && ValidState(cfg, c.state)
    ensures var d := Control(cfg, c, b).central; ValidState(cfg, d.state) && Published(c, d)
  {
    if Opcode(b.param1) == OVL_STATE {
      if Slot(b.param1) < cfg.words && c.state.gates[Slot(b.param1)] != b.param2 {
        assert SetWord(c, Slot(b.param1), b.param2).state.gates[Slot(b.param1)] == b.param2;
      }
    } else if b.param1 == RESET && b.param2 == 0 {
      var g := SetGlobals(c, cfg.initialOn, cfg.initialBrightness);
      ResetSelectorsEffect(cfg, g, 0);
      assert ResetState(cfg, c) == ResetSelectors(cfg, g, 0);
    }
  }

  /** Every mutator keeps the state one that commands can express, and bumps the generation
      if and only if the replicated state changed. */
  lemma MutationsArePublished(cfg: Config, c: Central, op: Op)
    requires ValidConfig(cfg) && ValidState(cfg, c.state) && ValidOp(cfg, op)
    ensures ValidState(cfg, Mutate(cfg, c, op).state)
    ensures Published(c, Mutate(cfg, c, op))
  {
    match op
    case Invoke(m) =>
      var b := m.binding.(param1 := Strip(m.binding.param1));
      ControlPublishes(cfg, c, b);
      if m.to.Overlay? && m.to.selector < |cfg.selectors| {
        DispatchPublishes(cfg, c, m.to.selector, b);
      }
    case Refresh(words) =>
    case Restore(on, brightness, slots) =>
      RestoreSlotsEffect(cfg, SetGlobals(c, on, brightness), slots, 0);
    case Select(s, slot) =>
      if slot < |c.state.selectors[s].members| {
        SelectPublishes(cfg, c, s, slot);
      }
  }

  /** A replica, whose generation is never read, is driven through valid states only. */
  lemma ApplyValid(cfg: Config, st: State, m: Message)
    requires ValidConfig(cfg) && ValidState(cfg, st)
    ensures ValidState(cfg, Apply(cfg, st, m))
  {
    MutationsArePublished(cfg, Central(st, 0), Invoke(m));
  }

  /** The state a command produces does not depend on the generation it is numbered with. */
  lemma GenerationIrrelevant(cfg: Config, c: Central, m: Message)
    requires ValidConfig(cfg) && ValidState(cfg, c.state)
    ensures Receive(cfg, c, m).state == Apply(cfg, c.state, m)
  {
    var z := Central(c.state, 0);
    var b := m.binding.(param1 := Strip(m.binding.param1));
    match m.to
    case Matrix =>
      if b.param1 == RESET && b.param2 == 0 {
        ResetSelectorsEffect(cfg, SetGlobals(c, cfg.initialOn, cfg.initialBrightness), 0);
        ResetSelectorsEffect(cfg, SetGlobals(z, cfg.initialOn, cfg.initialBrightness), 0);
      }
    case Overlay(s) =>
      if s < |cfg.selectors| {
        ResetSelectorEffect(cfg, c, s);
        ResetSelectorEffect(cfg, z, s);
      }
  }
}
