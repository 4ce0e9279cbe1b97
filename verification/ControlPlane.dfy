/** A half's control state as the code keeps it: fields changed step by step, each operation refining its reference. */
module ControlPlane {
  import opened Commands
  import opened Publication

  class Half {
    const cfg: Config
    var on: bool
    var brightness: nat
    var gates: seq<u32>
    const selectors: array<Selector>
    var generation: nat

    ghost function View(): Central
      reads this, selectors
    {
      Central(State(on, brightness, gates, selectors[..]), generation)
    }

    ghost predicate Valid()
      reads this, selectors
    {
      ValidConfig(cfg) && ValidState(cfg, View().state)
    }

    constructor (cfg: Config)
      requires ValidConfig(cfg)
      ensures Valid() && this.cfg == cfg && fresh(selectors)
      ensures View() == Central(State(cfg.initialOn, cfg.initialBrightness, seq(cfg.words, _ => 0),
                                      DefaultSelectors(cfg)), 0)
    {
      this.cfg, on, brightness := cfg, cfg.initialOn, cfg.initialBrightness;
      gates, generation := seq(cfg.words, _ => 0), 0;
      selectors := new Selector[|cfg.selectors|](
        i requires 0 <= i < |cfg.selectors| => Selector(cfg.selectors[i].defaults, InitialSlot(cfg.selectors[i])));
      new;
      assert selectors[..] == DefaultSelectors(cfg);
    }

    /** Stores only a difference, and numbers it. */
    method Store(s: nat, m: nat, p: Params)
      requires s < selectors.Length && m < |selectors[s].members|
      modifies this`generation, selectors
      ensures View() == StoreParams(old(View()), s, m, p)
    {
      var sel := selectors[s];
      if sel.members[m] != p {
        selectors[s] := sel.(members := sel.members[m := p]);
        generation := generation + 1;
      }
    }

    /** `kp_rgb_set_color_locked` on a known effect. */
    method SetColor(s: nat, m: nat, color: Hsb) returns (result: Result<()>)
      requires s < selectors.Length && m < |selectors[s].members|
      modifies this`generation, selectors
      ensures result == if color.h <= HUE_MAX && color.s <= SAT_MAX && color.b <= BRT_MAX then Ok(()) else Err(EINVAL)
      ensures View() == if result.Ok?
                        then StoreParams(old(View()), s, m,
                                         old(selectors[s].members[m]).(color := color.(h := color.h % HUE_MAX)))
                        else old(View())
    {
      if color.h > HUE_MAX || color.s > SAT_MAX || color.b > BRT_MAX {
        return Err(EINVAL);
      }
      Store(s, m, selectors[s].members[m].(color := color.(h := color.h % HUE_MAX)));
      return Ok(());
    }

    /** `kp_rgb_set_period_locked` on a known effect. */
    method SetPeriod(s: nat, m: nat, period: nat) returns (result: Result<()>)
      requires s < selectors.Length && m < |selectors[s].members|
      modifies this`generation, selectors
      ensures result == if cfg.periodMin <= period <= cfg.periodMax then Ok(()) else Err(EINVAL)
      ensures View() == if result.Ok?
                        then StoreParams(old(View()), s, m, old(selectors[s].members[m]).(period := period))
                        else old(View())
    {
      if period < cfg.periodMin || period > cfg.periodMax {
        return Err(EINVAL);
      }
      Store(s, m, selectors[s].members[m].(period := period));
      return Ok(());
    }

    /** Repaints and publishes when the selection moves. */
    method Publish(s: nat, slot: nat)
      requires s < selectors.Length
      modifies this`generation, selectors
      ensures View() == SelectSlot(old(View()), s, slot)
    {
      var previous := selectors[s].index;
      selectors[s] := selectors[s].(index := slot);
      if previous != slot {
        generation := generation + 1;
      }
      assert View().state.selectors == SelectSlot(old(View()), s, slot).state.selectors;
    }

    /** `kp_rgb_selector_select_locked`: whether the selection changed, or why it could not. */
    method Select(s: nat, slot: u16) returns (changed: Result<bool>)
      requires s < selectors.Length && s < |cfg.selectors|
      requires |selectors[s].members| == |cfg.selectors[s].defaults|
      modifies this`generation, selectors
      ensures changed == if slot >= |cfg.selectors[s].defaults| then Err(EINVAL)
                         else Ok(old(selectors[s].index) != slot)
      ensures View() == if changed.Ok? then SelectSlot(old(View()), s, slot) else old(View())
    {
      if slot >= |selectors[s].members| {
        return Err(EINVAL);
      }
      if selectors[s].index == slot {
        return Ok(false);
      }
      Publish(s, slot);
      return Ok(true);
    }

    /** `kp_rgb_selector_apply_defaults_locked`. */
    method ApplyDefaults(s: nat)
      requires Valid() && s < |cfg.selectors|
      modifies this`generation, selectors
      ensures View() == DefaultMembers(cfg, old(View()), s, 0)
    {
      ghost var goal := DefaultMembers(cfg, View(), s, 0);
      for m := 0 to |selectors[s].members|
        invariant selectors.Length == |cfg.selectors| && |selectors[s].members| == |cfg.selectors[s].defaults|
        invariant DefaultMembers(cfg, View(), s, m) == goal
      {
        Store(s, m, cfg.selectors[s].defaults[m]);
      }
    }

    /** `kp_rgb_selector_overlay_reset_locked`: defaults, then the initial selection or the first slot. */
    method Reset(s: nat)
      requires Valid() && s < |cfg.selectors|
      modifies this`generation, selectors
      ensures Valid()
      ensures View() == ResetSelector(cfg, old(View()), s)
    {
      ResetSelectorEffect(cfg, View(), s);
      DefaultMembersShape(cfg, View(), s, 0);
      ApplyDefaults(s);
      var slot := cfg.selectors[s].initial;
      if slot >= |selectors[s].members| {
        slot := 0;
      }
      Publish(s, slot);
    }

    /** `kp_rgb_selector_overlays_defaults_locked`. */
    method ResetAll()
      requires Valid()
      modifies this`generation, selectors
      ensures Valid()
      ensures View() == ResetSelectors(cfg, old(View()), 0)
    {
      ghost var goal := ResetSelectors(cfg, View(), 0);
      for s := 0 to |cfg.selectors|
        invariant Valid()
        invariant ResetSelectors(cfg, View(), s) == goal
      {
        Reset(s);
      }
    }

    /** On and brightness assigned together, numbered once. */
    method Assign(newOn: bool, newBrightness: nat)
      modifies this`on, this`brightness, this`generation
      ensures View() == SetGlobals(old(View()), newOn, newBrightness)
    {
      if on != newOn || brightness != newBrightness {
        generation := generation + 1;
      }
      on, brightness := newOn, newBrightness;
    }

    /** `kp_rgb_reset_state`. */
    method ResetEverything()
      requires Valid()
      modifies this, selectors
      ensures Valid()
      ensures View() == Commands.ResetState(cfg, old(View()))
    {
      Assign(cfg.initialOn, cfg.initialBrightness);
      ResetAll();
    }

    /** `kp_rgb_settings_restore_locked`: a stored slot that no longer exists becomes the initial one. */
    method Restore(newOn: bool, newBrightness: nat, slots: seq<u16>)
      requires Valid() && newBrightness <= BRT_MAX && |slots| == |cfg.selectors|
      modifies this, selectors
      ensures Valid()
      ensures View() == Mutate(cfg, old(View()), Op.Restore(newOn, newBrightness, slots))
    {
      Assign(newOn, newBrightness);
      ghost var goal := RestoreSlots(cfg, View(), slots, 0);
      for s := 0 to |slots|
        invariant Valid()
        invariant RestoreSlots(cfg, View(), slots, s) == goal
      {
        var slot := slots[s];
        if slot >= |selectors[s].members| {
          slot := InitialSlot(cfg.selectors[s]);
        }
        SelectSlotState(View(), s, slot);
        var changed := Select(s, slot);
      }
    }

    method SetGateWord(w: nat, bits: u32) returns (changed: bool)
      requires w < |gates|
      modifies this`gates, this`generation
      ensures changed == (old(gates[w]) != bits)
      ensures View() == SetWord(old(View()), w, bits)
    {
      changed := gates[w] != bits;
      if changed {
        gates := gates[w := bits];
        generation := generation + 1;
      }
    }

    /** `kp_rgb_selector_dispatch_locked`. */
    method Dispatch(s: nat, binding: Binding) returns (result: Result<()>)
      requires Valid() && s < |cfg.selectors|
      modifies this`generation, selectors
      ensures Reply(View(), result) == Commands.Dispatch(cfg, old(View()), s, binding)
    {
      var converted := Convert(cfg, selectors[s], binding);
      if converted.Err? {
        return Err(converted.error);
      }
      var command := converted.value;
      if command.param1 == RESET {
        Reset(s);
        return Ok(());
      }
      if command.param1 == EFS {
        SelectionInRange(cfg, selectors[s], binding);
        var changed := Select(s, command.param2);
        return Ok(());
      }
      var slot := Slot(command.param1);
      if slot >= |selectors[s].members| {
        return Err(ENOENT);
      }
      if Opcode(command.param1) == SELECTOR_COLOR {
        result := SetColor(s, slot, UnpackHsb(command.param2));
      } else {
        result := SetPeriod(s, slot, command.param2);
      }
    }
  }
}
