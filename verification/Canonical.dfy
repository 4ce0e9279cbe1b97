/** Canonicalisation: conversion on the central produces commands that mean the same thing
    on every half. */
module Canonical {
  import Arith
  import opened Commands
  import opened Items
  import opened Publication

  /** Conversion against the state of the addressed endpoint. */
  function ConvertFor(cfg: Config, st: State, to: Endpoint, b: Binding): Result<Binding>
    requires ValidConfig(cfg) && ValidState(cfg, st)
  {
    match to
    case Matrix => ConvertControl(cfg, st, b)
    case Overlay(s) =>
      if s >= |cfg.selectors| then Err(ENODEV)
      else if Marked(b.param1) then Err(ENOTSUP)
      else Convert(cfg, st.selectors[s], b)
  }

  /** The items an absolute command may write. */
  predicate Touches(to: Endpoint, a: Binding, item: Item) {
    match to
    case Matrix =>
      if Opcode(a.param1) == OVL_STATE then item == Gate(Slot(a.param1))
      else if a.param1 == RESET then !item.Gate?
      else if a.param1 == BRT_SET then item == Brightness
      else a.param1 in {ON, OFF} && item == Power
    case Overlay(s) =>
      if a.param1 == RESET then
        item == Selection(s) || ((item.Color? || item.Period?) && item.selector == s)
      else if a.param1 == EFS then item == Selection(s)
      else
        (Opcode(a.param1) == SELECTOR_COLOR && item == Color(s, Slot(a.param1))) ||
        (Opcode(a.param1) == SELECTOR_PERIOD && item == Period(s, Slot(a.param1)))
  }

  predicate Absolute(cfg: Config, to: Endpoint, a: Binding) {
    && !Marked(a.param1)
    && match to
       case Matrix =>
         if Opcode(a.param1) == OVL_STATE then Slot(a.param1) < cfg.words
         else a.param1 in {ON, OFF, BRT_SET, RESET, CLOCK}
       case Overlay(s) =>
         && s < |cfg.selectors|
         && (a.param1 == Commands.RESET ==> a.param2 == 0)
         && (a.param1 == EFS ==> a.param2 < |cfg.selectors[s].defaults|)
         && (a.param1 != Commands.RESET && a.param1 != EFS ==>
               Slot(a.param1) < |cfg.selectors[s].defaults| && ValidAddressed(cfg, Opcode(a.param1), a.param2))
  }

  lemma AddressedShape(command: u32)
    requires Opcode(command) == SELECTOR_COLOR || Opcode(command) == SELECTOR_PERIOD
    ensures !Marked(command) && command == MemberCommand(Opcode(command), Slot(command))
    ensures command != EFS && command != RESET
  {
    MemberCommandRoundTrip(Opcode(command), Slot(command));
  }

  /** A relative command resolves to one of the three absolute opcodes. */
  lemma ResolvedOpcode(cfg: Config, sel: Selector, command: u32, argument: u32, p: Params)
    requires ValidConfig(cfg) && ValidParams(cfg, p) && sel.index < |sel.members| <= 0xFFFF
    requires command in {HUI, HUD, SAI, SAD, SPI, SPD, EFF, EFR, COLOR_HSB}
    requires Resolve(cfg, sel, command, argument, p).Ok?
    ensures var r := Resolve(cfg, sel, command, argument, p).value;
            r.param1 in {EFS, SELECTOR_COLOR, SELECTOR_PERIOD} && (r.param1 == EFS ==> r.param2 < |sel.members|)
  {
    CalcIndexRange(|sel.members|, sel.index, 1);
    CalcIndexRange(|sel.members|, sel.index, -1);
  }

  lemma SelectorConversionIsAbsolute(cfg: Config, sel: Selector, s: nat, b: Binding)
    requires ValidConfig(cfg) && s < |cfg.selectors| && ValidSelector(cfg, |cfg.selectors[s].defaults|, sel)
    requires Convert(cfg, sel, b).Ok?
    ensures Absolute(cfg, Overlay(s), Convert(cfg, sel, b).value)
  {
    if Opcode(b.param1) == SELECTOR_COLOR || Opcode(b.param1) == SELECTOR_PERIOD {
      AddressedIsAbsolute(cfg, sel, s, b);
    } else if b.param1 != RESET && b.param1 != EFS {
      assert KnownSelectorCommand(b.param1);
      ResolvedIsAbsolute(cfg, sel, s, b);
    }
  }

  lemma AddressedIsAbsolute(cfg: Config, sel: Selector, s: nat, b: Binding)
    requires ValidConfig(cfg) && s < |cfg.selectors| && ValidSelector(cfg, |cfg.selectors[s].defaults|, sel)
    requires Convert(cfg, sel, b).Ok?
    requires Opcode(b.param1) == SELECTOR_COLOR || Opcode(b.param1) == SELECTOR_PERIOD
    ensures Convert(cfg, sel, b) == Ok(b) && Absolute(cfg, Overlay(s), b)
  {
    AddressedShape(b.param1);
  }

  lemma MemberCommandIsAbsolute(cfg: Config, s: nat, opcode: u16, m: u16, argument: u32)
    requires s < |cfg.selectors| && m < |cfg.selectors[s].defaults| && ValidAddressed(cfg, opcode, argument)
    ensures Absolute(cfg, Overlay(s), Binding(MemberCommand(opcode, m), argument))
  {
    MemberCommandRoundTrip(opcode, m);
    AddressedShape(MemberCommand(opcode, m));
  }

  lemma RelativeConversion(cfg: Config, sel: Selector, b: Binding)
    requires ValidConfig(cfg) && |sel.members| <= 0xFFFF && ValidSelector(cfg, |sel.members|, sel)
    requires b.param1 in {HUI, HUD, SAI, SAD, SPI, SPD, EFF, EFR, COLOR_HSB}
    ensures Convert(cfg, sel, b)
         == Package(cfg, sel.index, Resolve(cfg, sel, b.param1, b.param2, sel.members[sel.index]))
  {
    NotAddressed(b.param1);
  }

  lemma NotAddressed(command: u32)
    requires command in {HUI, HUD, SAI, SAD, SPI, SPD, EFF, EFR, COLOR_HSB}
    ensures Opcode(command) != SELECTOR_COLOR && Opcode(command) != SELECTOR_PERIOD
    ensures KnownSelectorCommand(command) && command != EFS && command != RESET
  {
    assert Opcode(command) == command;
  }

  lemma PackagedShape(cfg: Config, slot: u16, r: Binding)
    requires r.param1 in {EFS, SELECTOR_COLOR, SELECTOR_PERIOD} && Package(cfg, slot, Ok(r)).Ok?
    ensures if r.param1 == EFS then Package(cfg, slot, Ok(r)) == Ok(r)
            else ValidAddressed(cfg, r.param1, r.param2) &&
                 Package(cfg, slot, Ok(r)) == Ok(Binding(MemberCommand(r.param1, slot), r.param2))
  {
    assert Opcode(r.param1) == r.param1;
  }

  /** What a relative command converts to, from what it resolves to. */
  lemma ConvertedFromResolved(cfg: Config, sel: Selector, b: Binding)
    requires ValidConfig(cfg) && |sel.members| <= 0xFFFF && ValidSelector(cfg, |sel.members|, sel)
    requires Convert(cfg, sel, b).Ok?
    requires b.param1 in {HUI, HUD, SAI, SAD, SPI, SPD, EFF, EFR, COLOR_HSB}
    ensures var r := Resolve(cfg, sel, b.param1, b.param2, sel.members[sel.index]);
            && r.Ok?
            && if r.value.param1 == EFS then Convert(cfg, sel, b) == r && r.value.param2 < |sel.members|
               else ValidAddressed(cfg, r.value.param1, r.value.param2) &&
                    Convert(cfg, sel, b) == Ok(Binding(MemberCommand(r.value.param1, sel.index), r.value.param2))
  {
    RelativeConversion(cfg, sel, b);
    var r := Resolve(cfg, sel, b.param1, b.param2, sel.members[sel.index]);
    assert r.Ok?;
    ResolvedOpcode(cfg, sel, b.param1, b.param2, sel.members[sel.index]);
    PackagedShape(cfg, sel.index, r.value);
  }

  lemma ResolvedIsAbsolute(cfg: Config, sel: Selector, s: nat, b: Binding)
    requires ValidConfig(cfg) && s < |cfg.selectors| && ValidSelector(cfg, |cfg.selectors[s].defaults|, sel)
    requires Convert(cfg, sel, b).Ok?
    requires b.param1 in {HUI, HUD, SAI, SAD, SPI, SPD, EFF, EFR, COLOR_HSB}
    ensures Absolute(cfg, Overlay(s), Convert(cfg, sel, b).value)
  {
    ConvertedFromResolved(cfg, sel, b);
    var r := Resolve(cfg, sel, b.param1, b.param2, sel.members[sel.index]).value;
    if r.param1 != EFS {
      MemberCommandIsAbsolute(cfg, s, r.param1, sel.index, r.param2);
    }
  }

  lemma AbsoluteConvertsToItself(cfg: Config, st: State, to: Endpoint, a: Binding)
    requires ValidConfig(cfg) && ValidState(cfg, st) && Absolute(cfg, to, a)
    ensures ConvertFor(cfg, st, to, a) == Ok(a)
  {
    if to.Overlay? && a.param1 != RESET && a.param1 != EFS {
      AddressedShape(a.param1);
      AddressedConverts(cfg, st.selectors[to.selector], Opcode(a.param1), Slot(a.param1), a.param2);
    }
  }

  /** Conversion is idempotent, and its result converts to itself on every other half. */
  lemma ConversionIsStable(cfg: Config, st: State, other: State, to: Endpoint, b: Binding)
    requires ValidConfig(cfg) && ValidState(cfg, st) && ValidState(cfg, other)
    requires ConvertFor(cfg, st, to, b).Ok?
    ensures var a := ConvertFor(cfg, st, to, b).value;
            Absolute(cfg, to, a) && ConvertFor(cfg, other, to, a) == Ok(a)
  {
    if to.Overlay? {
      SelectorConversionIsAbsolute(cfg, st.selectors[to.selector], to.selector, b);
    }
    AbsoluteConvertsToItself(cfg, other, to, ConvertFor(cfg, st, to, b).value);
  }

  // ----- Agreement -----

  lemma MatrixReset(cfg: Config, p: State)
    requires ValidConfig(cfg) && ValidState(cfg, p)
    ensures Apply(cfg, p, Message(Matrix, Binding(RESET, 0), true))
            == State(cfg.initialOn, cfg.initialBrightness, p.gates, DefaultSelectors(cfg))
  {
    ResetReceived(cfg, p);
    ResetStateEffect(cfg, p);
  }

  lemma ResetReceived(cfg: Config, p: State)
    requires ValidConfig(cfg) && ValidState(cfg, p)
    ensures Apply(cfg, p, Message(Matrix, Binding(RESET, 0), true)) == ResetState(cfg, Central(p, 0)).state
  {
    assert Strip(RESET) == RESET && Opcode(RESET) != OVL_STATE;
  }

  lemma ResetStateEffect(cfg: Config, p: State)
    requires ValidConfig(cfg) && ValidState(cfg, p)
    ensures ResetState(cfg, Central(p, 0)).state
            == State(cfg.initialOn, cfg.initialBrightness, p.gates, DefaultSelectors(cfg))
  {
    var g := SetGlobals(Central(p, 0), cfg.initialOn, cfg.initialBrightness);
    ResetSelectorsEffect(cfg, g, 0);
    assert g.state.selectors[..0] + DefaultSelectors(cfg)[0..] == DefaultSelectors(cfg);
  }

  lemma OverlayReset(cfg: Config, p: State, s: nat)
    requires ValidConfig(cfg) && ValidState(cfg, p) && s < |cfg.selectors|
    ensures Apply(cfg, p, Message(Overlay(s), Binding(RESET, 0), true))
            == p.(selectors := p.selectors[s := DefaultSelectors(cfg)[s]])
  {
    ResetSelectorEffect(cfg, Central(p, 0), s);
  }

  lemma ResetAgrees(cfg: Config, p: State, q: State, to: Endpoint, item: Item)
    requires ValidConfig(cfg) && ValidState(cfg, p) && ValidState(cfg, q) && ValidItem(cfg, item)
    requires to.Overlay? ==> to.selector < |cfg.selectors|
    ensures var m := Message(to, Binding(RESET, 0), true);
            && ValidState(cfg, Apply(cfg, p, m)) && ValidState(cfg, Apply(cfg, q, m))
            && (Touches(to, m.binding, item) ==> Get(cfg, Apply(cfg, p, m), item) == Get(cfg, Apply(cfg, q, m), item))
            && (!Touches(to, m.binding, item) ==> Get(cfg, Apply(cfg, p, m), item) == Get(cfg, p, item))
  {
    var m := Message(to, Binding(RESET, 0), true);
    ApplyValid(cfg, p, m);
    ApplyValid(cfg, q, m);
    if to.Matrix? {
      MatrixReset(cfg, p);
      MatrixReset(cfg, q);
    } else {
      OverlayReset(cfg, p, to.selector);
      OverlayReset(cfg, q, to.selector);
    }
  }

  lemma AddressedAgrees(cfg: Config, p: State, q: State, s: nat, a: Binding, item: Item)
    requires ValidConfig(cfg) && ValidState(cfg, p) && ValidState(cfg, q) && ValidItem(cfg, item)
    requires Absolute(cfg, Overlay(s), a) && a.param1 != RESET && a.param1 != EFS
    ensures var m := Message(Overlay(s), a, true);
            && ValidState(cfg, Apply(cfg, p, m)) && ValidState(cfg, Apply(cfg, q, m))
            && (Touches(Overlay(s), a, item) ==> Get(cfg, Apply(cfg, p, m), item) == Get(cfg, Apply(cfg, q, m), item))
            && (!Touches(Overlay(s), a, item) ==> Get(cfg, Apply(cfg, p, m), item) == Get(cfg, p, item))
  {
    var m := Message(Overlay(s), a, true);
    AddressedShape(a.param1);
    ApplyValid(cfg, p, m);
    ApplyValid(cfg, q, m);
    ApplyAddressed(cfg, p, s, Opcode(a.param1), Slot(a.param1), a.param2);
    ApplyAddressed(cfg, q, s, Opcode(a.param1), Slot(a.param1), a.param2);
  }

  lemma SelectionAgrees(cfg: Config, p: State, q: State, s: nat, slot: u32, item: Item)
    requires ValidConfig(cfg) && ValidState(cfg, p) && ValidState(cfg, q) && ValidItem(cfg, item)
    requires Absolute(cfg, Overlay(s), Binding(EFS, slot))
    ensures var m := Message(Overlay(s), Binding(EFS, slot), true);
            && ValidState(cfg, Apply(cfg, p, m)) && ValidState(cfg, Apply(cfg, q, m))
            && (item == Selection(s) ==> Get(cfg, Apply(cfg, p, m), item) == Get(cfg, Apply(cfg, q, m), item) == slot)
            && (item != Selection(s) ==> Get(cfg, Apply(cfg, p, m), item) == Get(cfg, p, item))
  {
    var m := Message(Overlay(s), Binding(EFS, slot), true);
    ApplyValid(cfg, p, m);
    ApplyValid(cfg, q, m);
  }

  lemma ControlAgrees(cfg: Config, p: State, q: State, a: Binding, item: Item)
    requires ValidConfig(cfg) && ValidState(cfg, p) && ValidState(cfg, q) && ValidItem(cfg, item)
    requires Absolute(cfg, Matrix, a) && a.param1 != RESET
    requires a.param1 == BRT_SET ==> a.param2 <= BRT_MAX
    ensures var m := Message(Matrix, a, true);
            && ValidState(cfg, Apply(cfg, p, m)) && ValidState(cfg, Apply(cfg, q, m))
            && (Touches(Matrix, a, item) ==> Get(cfg, Apply(cfg, p, m), item) == Get(cfg, Apply(cfg, q, m), item))
            && (!Touches(Matrix, a, item) ==> Get(cfg, Apply(cfg, p, m), item) == Get(cfg, p, item))
  {
    var m := Message(Matrix, a, true);
    ApplyValid(cfg, p, m);
    ApplyValid(cfg, q, m);
  }

  /** A command a half will execute rather than reject for its argument. */
  predicate Accepted(a: Binding) {
    (a.param1 == BRT_SET ==> a.param2 <= BRT_MAX) && (a.param1 == RESET ==> a.param2 == 0)
  }

  /** Two halves that receive the same converted command agree afterwards on every item it
      addresses, and keep every other item. */
  lemma ConvertedCommandsAgree(cfg: Config, st: State, p: State, q: State, to: Endpoint, b: Binding, item: Item)
    requires ValidConfig(cfg) && ValidState(cfg, st) && ValidState(cfg, p) && ValidState(cfg, q)
    requires ValidItem(cfg, item)
    requires ConvertFor(cfg, st, to, b).Ok? && Accepted(ConvertFor(cfg, st, to, b).value)
    ensures var a := ConvertFor(cfg, st, to, b).value;
            var m := Message(to, a, true);
            && ValidState(cfg, Apply(cfg, p, m)) && ValidState(cfg, Apply(cfg, q, m))
            && (Touches(to, a, item) ==> Get(cfg, Apply(cfg, p, m), item) == Get(cfg, Apply(cfg, q, m), item))
            && (!Touches(to, a, item) ==> Get(cfg, Apply(cfg, p, m), item) == Get(cfg, p, item))
  {
    ConversionIsStable(cfg, st, p, to, b);
    var a := ConvertFor(cfg, st, to, b).value;
    if a.param1 == RESET {
      ResetAgrees(cfg, p, q, to, item);
    } else if to.Matrix? {
      ControlAgrees(cfg, p, q, a, item);
    } else if a.param1 == EFS {
      SelectionAgrees(cfg, p, q, to.selector, a.param2, item);
    } else {
      AddressedAgrees(cfg, p, q, to.selector, a, item);
    }
  }

  /** The two conversions that pass an argument the callback will refuse: they change nothing on any half. */
  lemma RefusedCommandsChangeNothing(cfg: Config, st: State, p: State, to: Endpoint, b: Binding)
    requires ValidConfig(cfg) && ValidState(cfg, st) && ValidState(cfg, p)
    requires ConvertFor(cfg, st, to, b).Ok? && !Accepted(ConvertFor(cfg, st, to, b).value)
    ensures Apply(cfg, p, Message(to, ConvertFor(cfg, st, to, b).value, true)) == p
  {
    var a := ConvertFor(cfg, st, to, b).value;
    ConversionIsStable(cfg, st, p, to, b);
    assert to.Matrix?;
    assert Strip(a.param1) == a.param1;
  }

  /** On the converting half the absolute command does what the relative one asked, and the
      invocation marker added for transport changes nothing. */
  lemma ConversionPreservesEffect(cfg: Config, st: State, to: Endpoint, b: Binding)
    requires ValidConfig(cfg) && ValidState(cfg, st)
    requires ConvertFor(cfg, st, to, b).Ok?
    ensures var a := ConvertFor(cfg, st, to, b).value;
            && Apply(cfg, st, Message(to, b, true)) == Apply(cfg, st, Message(to, a, true))
            && a.param1 + MARKER < 0x1_0000_0000
            && Apply(cfg, st, Message(to, Binding(a.param1 + MARKER, a.param2), true))
               == Apply(cfg, st, Message(to, a, true))
  {
    ConversionIsStable(cfg, st, st, to, b);
    var a := ConvertFor(cfg, st, to, b).value;
    MarkerStrips(a.param1);
    assert Strip(b.param1) == b.param1;
  }

  lemma MarkerStrips(command: u32)
    requires !Marked(command)
    ensures command + MARKER < 0x1_0000_0000 && Marked(command + MARKER) && Strip(command + MARKER) == command
  {
  }

  // ----- Which absolute commands may be reordered -----

  /** The command a message carries, without the invocation marker. */
  function Carried(m: Message): Binding {
    m.binding.(param1 := Strip(m.binding.param1))
  }

  /** What conversion puts on the link: an absolute command, marked or not. */
  predicate Converted(cfg: Config, m: Message) {
    m.pressed && Absolute(cfg, m.to, Carried(m))
  }

  predicate Writes(m: Message, item: Item) {
    Accepted(Carried(m)) && Touches(m.to, Carried(m), item)
  }

  ghost predicate ClashAt(cfg: Config, p: State, m: Message, n: Message, item: Item)
    requires ValidConfig(cfg) && ValidState(cfg, p) && ValidItem(cfg, item)
  {
    ApplyValid(cfg, p, m);
    ApplyValid(cfg, p, n);
    Writes(m, item) && Writes(n, item) && Get(cfg, Apply(cfg, p, m), item) != Get(cfg, Apply(cfg, p, n), item)
  }

  /** Both commands write some item, and they write it differently. What they write does not depend on `p`. */
  ghost predicate Clash(cfg: Config, p: State, m: Message, n: Message)
    requires ValidConfig(cfg) && ValidState(cfg, p) && Converted(cfg, m) && Converted(cfg, n)
  {
    exists item :: ValidItem(cfg, item) && ClashAt(cfg, p, m, n, item)
  }

  /** A converted command sets what it writes to the same value on every half and keeps the rest. */
  lemma WritesAgree(cfg: Config, p: State, q: State, m: Message, item: Item)
    requires ValidConfig(cfg) && ValidState(cfg, p) && ValidState(cfg, q) && ValidItem(cfg, item) && Converted(cfg, m)
    ensures ValidState(cfg, Apply(cfg, p, m)) && ValidState(cfg, Apply(cfg, q, m))
    ensures if Writes(m, item) then Get(cfg, Apply(cfg, p, m), item) == Get(cfg, Apply(cfg, q, m), item)
            else Get(cfg, Apply(cfg, p, m), item) == Get(cfg, p, item)
  {
    ApplyValid(cfg, p, m);
    ApplyValid(cfg, q, m);
    AbsoluteConvertsToItself(cfg, p, m.to, Carried(m));
    CarriedActsAlike(cfg, p, m);
    CarriedActsAlike(cfg, q, m);
    if Accepted(Carried(m)) {
      ConvertedCommandsAgree(cfg, p, p, q, m.to, Carried(m), item);
    } else {
      RefusedCommandsChangeNothing(cfg, p, p, m.to, Carried(m));
    }
  }

  lemma CarriedActsAlike(cfg: Config, p: State, m: Message)
    requires ValidConfig(cfg) && ValidState(cfg, p) && Converted(cfg, m)
    ensures Apply(cfg, p, m) == Apply(cfg, p, Message(m.to, Carried(m), true))
  {
    assert Strip(Carried(m).param1) == Carried(m).param1;
  }

  lemma ClashIgnoresState(cfg: Config, p: State, q: State, m: Message, n: Message)
    requires ValidConfig(cfg) && ValidState(cfg, p) && ValidState(cfg, q) && Converted(cfg, m) && Converted(cfg, n)
    requires Clash(cfg, p, m, n)
    ensures Clash(cfg, q, m, n) && Clash(cfg, q, n, m)
  {
    var item :| ValidItem(cfg, item) && ClashAt(cfg, p, m, n, item);
    ClashAtIgnoresState(cfg, p, q, m, n, item);
    assert ClashAt(cfg, q, n, m, item);
  }

  lemma ClashAtIgnoresState(cfg: Config, p: State, q: State, m: Message, n: Message, item: Item)
    requires ValidConfig(cfg) && ValidState(cfg, p) && ValidState(cfg, q) && Converted(cfg, m) && Converted(cfg, n)
    requires ValidItem(cfg, item) && ClashAt(cfg, p, m, n, item)
    ensures ClashAt(cfg, q, m, n, item) && ClashAt(cfg, q, n, m, item)
  {
    WritesAgree(cfg, p, q, m, item);
    WritesAgree(cfg, p, q, n, item);
  }

  /** What an item holds after two commands: what the later one to write it wrote. */
  lemma LastWriterWins(cfg: Config, p: State, m: Message, n: Message, item: Item)
    requires ValidConfig(cfg) && ValidState(cfg, p) && ValidItem(cfg, item) && Converted(cfg, m) && Converted(cfg, n)
    ensures ValidState(cfg, Apply(cfg, p, m)) && ValidState(cfg, Apply(cfg, p, n))
    ensures ValidState(cfg, Apply(cfg, Apply(cfg, p, m), n))
    ensures Get(cfg, Apply(cfg, Apply(cfg, p, m), n), item)
         == Get(cfg, if Writes(n, item) then Apply(cfg, p, n) else Apply(cfg, p, m), item)
  {
    WritesAgree(cfg, p, p, m, item);
    WritesAgree(cfg, p, p, n, item);
    WritesAgree(cfg, Apply(cfg, p, m), p, n, item);
  }

  /** Two converted commands may be exchanged, on any half, exactly when they do not clash. */
  lemma ExchangeIff(cfg: Config, p: State, m: Message, n: Message)
    requires ValidConfig(cfg) && ValidState(cfg, p) && Converted(cfg, m) && Converted(cfg, n)
    ensures ValidState(cfg, Apply(cfg, p, m)) && ValidState(cfg, Apply(cfg, p, n))
    ensures Apply(cfg, Apply(cfg, p, m), n) == Apply(cfg, Apply(cfg, p, n), m) <==> !Clash(cfg, p, m, n)
  {
    ApplyValid(cfg, p, m);
    ApplyValid(cfg, p, n);
    var mn, nm := Apply(cfg, Apply(cfg, p, m), n), Apply(cfg, Apply(cfg, p, n), m);
    ApplyValid(cfg, Apply(cfg, p, m), n);
    ApplyValid(cfg, Apply(cfg, p, n), m);
    if Clash(cfg, p, m, n) {
      var item :| ValidItem(cfg, item) && ClashAt(cfg, p, m, n, item);
      LastWriterWins(cfg, p, m, n, item);
      LastWriterWins(cfg, p, n, m, item);
    } else {
      forall item | ValidItem(cfg, item)
        ensures Get(cfg, mn, item) == Get(cfg, nm, item)
      {
        LastWriterWins(cfg, p, m, n, item);
        assert !ClashAt(cfg, p, m, n, item);
        LastWriterWins(cfg, p, n, m, item);
        WritesAgree(cfg, p, p, m, item);
        WritesAgree(cfg, p, p, n, item);
      }
      ItemsDetermineState(cfg, mn, nm);
    }
  }

  /** The halves differ in nothing but items the command writes. */
  ghost predicate DifferOnlyIn(cfg: Config, p: State, q: State, m: Message)
    requires ValidConfig(cfg) && ValidState(cfg, p) && ValidState(cfg, q)
  {
    forall item | ValidItem(cfg, item) && Get(cfg, p, item) != Get(cfg, q, item) :: Writes(m, item)
  }

  /** A converted command brings two halves together exactly when it writes every item on which they differ. */
  lemma AppliedAlikeIff(cfg: Config, p: State, q: State, m: Message)
    requires ValidConfig(cfg) && ValidState(cfg, p) && ValidState(cfg, q) && Converted(cfg, m)
    ensures ValidState(cfg, Apply(cfg, p, m)) && ValidState(cfg, Apply(cfg, q, m))
    ensures Apply(cfg, p, m) == Apply(cfg, q, m) <==> DifferOnlyIn(cfg, p, q, m)
  {
    ApplyValid(cfg, p, m);
    ApplyValid(cfg, q, m);
    var pm, qm := Apply(cfg, p, m), Apply(cfg, q, m);
    forall item | ValidItem(cfg, item)
      ensures Get(cfg, pm, item) == Get(cfg, qm, item) <==>
              Writes(m, item) || Get(cfg, p, item) == Get(cfg, q, item)
    {
      WritesAgree(cfg, p, q, m, item);
      WritesAgree(cfg, q, p, m, item);
    }
    if DifferOnlyIn(cfg, p, q, m) {
      ItemsDetermineState(cfg, pm, qm);
    }
  }

  // ----- What the relative commands mean -----

  /** Hue moves around the wheel; the C remainder with its correction is a true modulus. */
  lemma HueWraps(cfg: Config, h: nat, dir: int)
    requires h < HUE_MAX
    ensures NudgeHue(cfg, h, dir) == (h + Signed(dir, cfg.hueStep)) % HUE_MAX
  {
    var x := h + Signed(dir, cfg.hueStep);
    if x < 0 {
      var q := (-x) / HUE_MAX;
      assert x == (-((-x) % HUE_MAX)) + (-q) * HUE_MAX;
      Arith.ModShift(-((-x) % HUE_MAX), -q, HUE_MAX);
    }
  }

  lemma StepWraps(count: nat, current: nat)
    requires current < count
    ensures (current + 1) % count == if current + 1 == count then 0 else current + 1
    ensures (current - 1) % count == if current == 0 then count - 1 else current - 1
  {
    if current + 1 == count {
      Arith.DivModUnique(count, 1, 0, count);
    }
    if current == 0 {
      Arith.DivModUnique(-1, -1, count - 1, count);
    }
  }

  /** Next and previous are inverse on every selector, including one with a single member. */
  lemma NextThenPrevious(count: nat, current: nat)
    requires current < count
    ensures CalcIndex(count, CalcIndex(count, current, 1), -1) == current
    ensures CalcIndex(count, CalcIndex(count, current, -1), 1) == current
  {
    CalcIndexRange(count, current, 1);
    CalcIndexRange(count, current, -1);
    var up, down := CalcIndex(count, current, 1), CalcIndex(count, current, -1);
    CalcIndexRange(count, up, -1);
    CalcIndexRange(count, down, 1);
    StepWraps(count, current);
    StepWraps(count, up);
    StepWraps(count, down);
  }

  /** The colour a hue or saturation command asks for: hue wraps around the wheel, saturation stops at its ends. */
  function StepColor(cfg: Config, c: Hsb, command: u32): Hsb {
    if command == HUI then c.(h := (c.h + cfg.hueStep) % 360)
    else if command == HUD then c.(h := (c.h - cfg.hueStep) % 360)
    else if command == SAI then c.(s := Arith.Clamp(c.s + cfg.satStep, 0, 100))
    else c.(s := Arith.Clamp(c.s - cfg.satStep, 0, 100))
  }

  function StepPeriod(cfg: Config, period: int, command: u32): int {
    var stepped := if command == SPI then period + cfg.periodStep else period - cfg.periodStep;
    Arith.Clamp(stepped, cfg.periodMin, cfg.periodMax)
  }

  /** Hue and saturation commands step the selected member's colour and nothing else. */
  lemma ColorCommandsStep(cfg: Config, st: State, s: nat, command: u32)
    requires ValidConfig(cfg) && ValidState(cfg, st) && s < |cfg.selectors|
    requires command in {HUI, HUD, SAI, SAD}
    ensures var sel := st.selectors[s];
            var p := sel.members[sel.index];
            Apply(cfg, st, Message(Overlay(s), Binding(command, 0), true))
            == WithMembers(st, s, sel.members[sel.index := p.(color := StepColor(cfg, p.color, command))])
  {
    var sel := st.selectors[s];
    var p := sel.members[sel.index];
    var color := StepColor(cfg, p.color, command);
    ColorCommandConverts(cfg, sel, command);
    PackedColorStored(cfg, p.(color := color), p);
    ConversionPreservesEffect(cfg, st, Overlay(s), Binding(command, 0));
    ApplyAddressed(cfg, st, s, SELECTOR_COLOR, sel.index, PackHsb(color));
  }

  lemma ColorCommandConverts(cfg: Config, sel: Selector, command: u32)
    requires ValidConfig(cfg) && |sel.members| <= 0xFFFF && ValidSelector(cfg, |sel.members|, sel)
    requires command in {HUI, HUD, SAI, SAD}
    ensures var color := StepColor(cfg, sel.members[sel.index].color, command);
            && color.h < HUE_MAX && color.s <= SAT_MAX && color.b <= BRT_MAX
            && Convert(cfg, sel, Binding(command, 0))
               == Ok(Binding(MemberCommand(SELECTOR_COLOR, sel.index), PackHsb(color)))
  {
    var p := sel.members[sel.index];
    HueWraps(cfg, p.color.h, 1);
    HueWraps(cfg, p.color.h, -1);
    var color := StepColor(cfg, p.color, command);
    assert Resolve(cfg, sel, command, 0, p) == Ok(Binding(SELECTOR_COLOR, PackHsb(color)));
    HsbRoundTrip(color);
  }

  /** Speed commands step the selected member's period, within the configured range. */
  lemma PeriodCommandsStep(cfg: Config, st: State, s: nat, command: u32)
    requires ValidConfig(cfg) && ValidState(cfg, st) && s < |cfg.selectors|
    requires command in {SPI, SPD}
    ensures var sel := st.selectors[s];
            var p := sel.members[sel.index];
            Apply(cfg, st, Message(Overlay(s), Binding(command, 0), true))
            == WithMembers(st, s, sel.members[sel.index := p.(period := StepPeriod(cfg, p.period, command))])
  {
    var sel := st.selectors[s];
    var p := sel.members[sel.index];
    PeriodCommandConverts(cfg, sel, command);
    ConversionPreservesEffect(cfg, st, Overlay(s), Binding(command, 0));
    ApplyAddressed(cfg, st, s, SELECTOR_PERIOD, sel.index, StepPeriod(cfg, p.period, command));
  }

  lemma PeriodCommandConverts(cfg: Config, sel: Selector, command: u32)
    requires ValidConfig(cfg) && |sel.members| <= 0xFFFF && ValidSelector(cfg, |sel.members|, sel)
    requires command in {SPI, SPD}
    ensures var period := StepPeriod(cfg, sel.members[sel.index].period, command);
            Convert(cfg, sel, Binding(command, 0))
            == Ok(Binding(MemberCommand(SELECTOR_PERIOD, sel.index), period))
  {
  }

  /** A colour command sets the selected member's colour to the word it carries, hue, saturation and brightness from
      the highest byte down, a full turn of hue counting as none; a word out of range changes nothing. */
  lemma SetColorCommand(cfg: Config, st: State, s: nat, w: u32)
    requires ValidConfig(cfg) && ValidState(cfg, st) && s < |cfg.selectors|
    ensures var sel := st.selectors[s];
            var p := sel.members[sel.index];
            var inRange := w / 0x1_0000 <= 360 && w / 256 % 256 <= 100 && w % 256 <= 100;
            Apply(cfg, st, Message(Overlay(s), Binding(COLOR_HSB, w), true))
            == if inRange
               then WithMembers(st, s, sel.members[sel.index :=
                      p.(color := Hsb(w / 0x1_0000 % 360, w / 256 % 256, w % 256))])
               else st
  {
    var sel := st.selectors[s];
    ColorWordConverts(cfg, sel, w);
    if ValidColorWord(w) {
      ConversionPreservesEffect(cfg, st, Overlay(s), Binding(COLOR_HSB, w));
      ApplyAddressed(cfg, st, s, SELECTOR_COLOR, sel.index, w);
    }
  }

  lemma ColorWordConverts(cfg: Config, sel: Selector, w: u32)
    requires ValidConfig(cfg) && |sel.members| <= 0xFFFF && ValidSelector(cfg, |sel.members|, sel)
    ensures Convert(cfg, sel, Binding(COLOR_HSB, w))
         == if ValidColorWord(w) then Ok(Binding(MemberCommand(SELECTOR_COLOR, sel.index), w)) else Err(EINVAL)
  {
    NotAddressed(COLOR_HSB);
  }

  /** A speed command with an argument sets the selected member's period to it; out of range it changes nothing. */
  lemma SetPeriodCommand(cfg: Config, st: State, s: nat, period: u32)
    requires ValidConfig(cfg) && ValidState(cfg, st) && s < |cfg.selectors| && period != 0
    ensures var sel := st.selectors[s];
            Apply(cfg, st, Message(Overlay(s), Binding(SPI, period), true))
            == if cfg.periodMin <= period <= cfg.periodMax
               then WithMembers(st, s, sel.members[sel.index := sel.members[sel.index].(period := period)])
               else st
  {
    var sel := st.selectors[s];
    PeriodWordConverts(cfg, sel, period);
    if cfg.periodMin <= period <= cfg.periodMax {
      ConversionPreservesEffect(cfg, st, Overlay(s), Binding(SPI, period));
      ApplyAddressed(cfg, st, s, SELECTOR_PERIOD, sel.index, period);
    }
  }

  lemma PeriodWordConverts(cfg: Config, sel: Selector, period: u32)
    requires ValidConfig(cfg) && |sel.members| <= 0xFFFF && ValidSelector(cfg, |sel.members|, sel) && period != 0
    ensures Convert(cfg, sel, Binding(SPI, period))
         == if cfg.periodMin <= period <= cfg.periodMax
            then Ok(Binding(MemberCommand(SELECTOR_PERIOD, sel.index), period))
            else Err(EINVAL)
  {
    NotAddressed(SPI);
  }

  /** Which commands the matrix endpoint converts: any argument will do, the callback checks brightness and reset. */
  lemma ControlAccepts(cfg: Config, st: State, b: Binding)
    requires ValidConfig(cfg) && ValidState(cfg, st)
    ensures ConvertFor(cfg, st, Matrix, b).Ok? <==>
            || b.param1 in {TOG, ON, OFF, BRI, BRD, BRT_SET, RESET, CLOCK}
            || (b.param1 % 0x1_0000 == OVL_STATE && b.param1 / 0x1_0000 < cfg.words)
  {
    assert b.param1 / MARKER % 2 == b.param1 % 0x1_0000 / MARKER;
  }

  /** Which commands a selector converts, and so executes: relative steps take no argument, everything else one that is
      in range. */
  lemma SelectorAccepts(cfg: Config, st: State, s: nat, b: Binding)
    requires ValidConfig(cfg) && ValidState(cfg, st) && s < |cfg.selectors|
    ensures var count, slot, opcode := |cfg.selectors[s].defaults|, b.param1 / 0x1_0000, b.param1 % 0x1_0000;
            var inRange := b.param2 / 0x1_0000 <= 360 && b.param2 / 256 % 256 <= 100 && b.param2 % 256 <= 100;
            var timely := cfg.periodMin <= b.param2 <= cfg.periodMax;
            ConvertFor(cfg, st, Overlay(s), b).Ok? <==>
            || (b.param1 in {RESET, EFF, EFR, HUI, HUD, SAI, SAD, SPD, SPI} && b.param2 == 0)
            || (b.param1 == SPI && timely)
            || (b.param1 == EFS && b.param2 < count)
            || (b.param1 == COLOR_HSB && inRange)
            || (opcode == SELECTOR_COLOR && slot < count && inRange)
            || (opcode == SELECTOR_PERIOD && slot < count && timely)
  {
    var sel := st.selectors[s];
    assert b.param1 / MARKER % 2 == b.param1 % 0x1_0000 / MARKER;
    if b.param1 in {EFF, EFR, HUI, HUD, SAI, SAD, SPI, SPD} && b.param2 == 0 {
      StepConverts(cfg, sel, b.param1);
    } else if b.param1 == COLOR_HSB {
      ColorWordConverts(cfg, sel, b.param2);
    } else if b.param1 == SPI {
      PeriodWordConverts(cfg, sel, b.param2);
    }
  }

  lemma StepConverts(cfg: Config, sel: Selector, command: u32)
    requires ValidConfig(cfg) && |sel.members| <= 0xFFFF && ValidSelector(cfg, |sel.members|, sel)
    requires command in {EFF, EFR, HUI, HUD, SAI, SAD, SPI, SPD}
    ensures Convert(cfg, sel, Binding(command, 0)).Ok?
  {
    if command in {HUI, HUD, SAI, SAD} {
      ColorCommandConverts(cfg, sel, command);
    } else if command in {SPI, SPD} {
      PeriodCommandConverts(cfg, sel, command);
    } else {
      CalcIndexRange(|sel.members|, sel.index, if command == EFF then 1 else -1);
    }
  }

  /** Next and previous move the selection around the ring of members and nothing else. */
  lemma SelectionCommandsStep(cfg: Config, st: State, s: nat, command: u32)
    requires ValidConfig(cfg) && ValidState(cfg, st) && s < |cfg.selectors|
    requires command in {EFF, EFR}
    ensures var sel := st.selectors[s];
            Apply(cfg, st, Message(Overlay(s), Binding(command, 0), true))
            == WithSelector(st, s, sel.(index := (sel.index + if command == EFF then 1 else -1) % |sel.members|))
  {
    var sel := st.selectors[s];
    var dir := if command == EFF then 1 else -1;
    CalcIndexRange(|sel.members|, sel.index, dir);
    var slot := CalcIndex(|sel.members|, sel.index, dir);
    assert Convert(cfg, sel, Binding(command, 0)) == Ok(Binding(EFS, slot));
    assert Apply(cfg, st, Message(Overlay(s), Binding(command, 0), true)) == SelectSlot(Central(st, 0), s, slot).state;
    SelectSlotState(Central(st, 0), s, slot);
  }

  /** The absolute commands of the matrix endpoint: a level up to a hundred, on, off and one gate word; the clock
      correction leaves the state alone. */
  lemma ControlCommandsSet(cfg: Config, st: State, v: u32, w: nat)
    requires ValidConfig(cfg) && ValidState(cfg, st) && w < cfg.words
    ensures Apply(cfg, st, Message(Matrix, Binding(BRT_SET, v), true)) == if v <= 100 then st.(brightness := v) else st
    ensures Apply(cfg, st, Message(Matrix, Binding(ON, v), true)) == st.(on := true)
    ensures Apply(cfg, st, Message(Matrix, Binding(OFF, v), true)) == st.(on := false)
    ensures Apply(cfg, st, Message(Matrix, Binding(CLOCK, v), true)) == st
    ensures w * 0x1_0000 + OVL_STATE < 0x1_0000_0000
    ensures Apply(cfg, st, Message(Matrix, Binding(w * 0x1_0000 + OVL_STATE, v), true))
         == st.(gates := st.gates[w := v])
  {
    GateCommandSets(cfg, st, w, v);
  }

  lemma GateCommandSets(cfg: Config, st: State, w: nat, v: u32)
    requires ValidConfig(cfg) && ValidState(cfg, st) && w < cfg.words
    ensures MemberCommand(OVL_STATE, w) == w * 0x1_0000 + OVL_STATE
    ensures Apply(cfg, st, Message(Matrix, Binding(MemberCommand(OVL_STATE, w), v), true))
         == st.(gates := st.gates[w := v])
  {
    MemberCommandRoundTrip(OVL_STATE, w);
    assert st.gates[w := st.gates[w]] == st.gates;
  }

  /** A reset of everything restores the configured switch, brightness, parameters and selections and keeps the gates;
      a reset of one overlay restores its parameters and selection alone. Both refuse an argument. */
  lemma ResetsSet(cfg: Config, st: State, s: nat, v: u32)
    requires ValidConfig(cfg) && ValidState(cfg, st) && s < |cfg.selectors|
    ensures var everything := Apply(cfg, st, Message(Matrix, Binding(RESET, v), true));
            if v != 0 then everything == st
            else && everything.on == cfg.initialOn && everything.brightness == cfg.initialBrightness
                 && everything.gates == st.gates && |everything.selectors| == |cfg.selectors|
                 && forall t :: 0 <= t < |cfg.selectors| ==>
                      var sc := cfg.selectors[t];
                      everything.selectors[t]
                      == Selector(sc.defaults, if sc.initial < |sc.defaults| then sc.initial else 0)
    ensures var one, sc := Apply(cfg, st, Message(Overlay(s), Binding(RESET, v), true)), cfg.selectors[s];
            one == if v != 0 then st
                   else st.(selectors := st.selectors[s :=
                          Selector(sc.defaults, if sc.initial < |sc.defaults| then sc.initial else 0)])
  {
    if v == 0 {
      MatrixReset(cfg, st);
      OverlayReset(cfg, st, s);
    }
  }

  /** Brightness commands step within 0 to 100; toggle inverts the user's intent. */
  lemma GlobalCommandsStep(cfg: Config, st: State)
    requires ValidConfig(cfg) && ValidState(cfg, st)
    ensures Apply(cfg, st, Message(Matrix, Binding(BRI, 0), true))
         == st.(brightness := Arith.Clamp(st.brightness + cfg.brtStep, 0, 100))
    ensures Apply(cfg, st, Message(Matrix, Binding(BRD, 0), true))
         == st.(brightness := Arith.Clamp(st.brightness - cfg.brtStep, 0, 100))
    ensures Apply(cfg, st, Message(Matrix, Binding(TOG, 0), true)) == st.(on := !st.on)
  {
  }
}
