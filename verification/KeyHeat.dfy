/** Heat left by key presses and worn off by time: what heatmap and reactive share. */
module KeyHeat {
  import opened Arith
  import opened Cooling
  import opened SelectorLifecycle

  datatype Press = Press(position: nat, timestamp: int)

  type Application = (Heat, Press) -> Heat

  // ----- Presses inside an interval -----

  /** Age to each press in turn, apply it, and age to the end. */
  function Replay(heat: Heat, presses: seq<Press>, cursor: int, end: int, age: Aging, apply: Application): Heat
    requires cursor <= end
    decreases |presses|
  {
    if presses == [] then age(heat, end - cursor)
    else
      var at := Clamp(presses[0].timestamp, cursor, end);
      Replay(apply(age(heat, at - cursor), presses[0]), presses[1..], at, end, age, apply)
  }

  /** One turn of the loop that replays queued presses in order. */
  lemma {:induction false} ReplayTurn(heat: Heat, presses: seq<Press>, i: nat, cursor: int, end: int, age: Aging,
                                      apply: Application)
    requires cursor <= end && i < |presses|
    ensures var at := Clamp(presses[i].timestamp, cursor, end);
            cursor <= at <= end
            && Replay(heat, presses[i..], cursor, end, age, apply)
               == Replay(apply(age(heat, at - cursor), presses[i]), presses[i + 1..], at, end, age, apply)
  {
    assert presses[i..][0] == presses[i] && presses[i..][1..] == presses[i + 1..];
  }

  predicate NoLaterThan(presses: seq<Press>, t: int) {
    forall p :: p in presses ==> p.timestamp <= t
  }

  predicate StartsFrom(presses: seq<Press>, t: int) {
    presses == [] || presses[0].timestamp >= t
  }

  /** Cutting an interval at `m` changes nothing when the presses up to `m` are replayed in the first half. */
  lemma {:induction false} SplitReplay(heat: Heat, early: seq<Press>, late: seq<Press>, cursor: int, m: int, end: int,
                                       age: Aging, apply: Application)
    requires LosesHeat(age) && cursor <= m <= end && NoLaterThan(early, m) && StartsFrom(late, m)
    ensures Replay(heat, early + late, cursor, end, age, apply)
         == Replay(Replay(heat, early, cursor, m, age, apply), late, m, end, age, apply)
    decreases |early|
  {
    if early != [] {
      var at := Clamp(early[0].timestamp, cursor, m);
      assert at == Clamp(early[0].timestamp, cursor, end);
      assert (early + late)[0] == early[0] && (early + late)[1..] == early[1..] + late;
      SplitReplay(apply(age(heat, at - cursor), early[0]), early[1..], late, at, m, end, age, apply);
    } else {
      assert early + late == late;
      if late == [] {
        assert AddsUp(age, heat, m - cursor, end - m);
      } else {
        var at := Clamp(late[0].timestamp, cursor, end);
        assert at == Clamp(late[0].timestamp, m, end);
        assert AddsUp(age, heat, m - cursor, at - m);
      }
    }
  }

  /** One render: its end, and the presses queued for it. */
  datatype Frame = Frame(end: int, presses: seq<Press>)

  /** Each frame ends no earlier than the one before and brings presses stamped in between; the first may bring late
      ones. */
  predicate Timely(frames: seq<Frame>, cursor: int, first: bool) {
    frames == [] ||
    (&& cursor <= frames[0].end && NoLaterThan(frames[0].presses, frames[0].end)
     && (first || forall p :: p in frames[0].presses ==> cursor <= p.timestamp)
     && Timely(frames[1..], frames[0].end, false))
  }

  function AllPresses(frames: seq<Frame>): seq<Press> {
    if frames == [] then [] else frames[0].presses + AllPresses(frames[1..])
  }

  function LastEnd(frames: seq<Frame>, cursor: int): int {
    if frames == [] then cursor else LastEnd(frames[1..], frames[0].end)
  }

  function Play(heat: Heat, frames: seq<Frame>, cursor: int, first: bool, age: Aging, apply: Application): Heat
    requires Timely(frames, cursor, first)
    decreases |frames|
  {
    if frames == [] then heat
    else
      Play(Replay(heat, frames[0].presses, cursor, frames[0].end, age, apply), frames[1..], frames[0].end, false, age,
           apply)
  }

  lemma {:induction false} LaterPresses(frames: seq<Frame>, cursor: int)
    requires Timely(frames, cursor, false)
    ensures cursor <= LastEnd(frames, cursor)
    ensures forall p :: p in AllPresses(frames) ==> cursor <= p.timestamp
    decreases |frames|
  {
    if frames != [] {
      LaterPresses(frames[1..], frames[0].end);
    }
  }

  /** Any number of frames amounts to one. */
  lemma {:induction false} FramesFuse(heat: Heat, frames: seq<Frame>, cursor: int, first: bool, age: Aging,
                                      apply: Application)
    requires LosesHeat(age) && Timely(frames, cursor, first)
    ensures cursor <= LastEnd(frames, cursor)
    ensures Play(heat, frames, cursor, first, age, apply)
         == Replay(heat, AllPresses(frames), cursor, LastEnd(frames, cursor), age, apply)
    decreases |frames|
  {
    if frames == [] {
      assert Waits(age, heat);
    } else {
      var m := frames[0].end;
      LaterPresses(frames[1..], m);
      FramesFuse(Replay(heat, frames[0].presses, cursor, m, age, apply), frames[1..], m, false, age, apply);
      SplitReplay(heat, frames[0].presses, AllPresses(frames[1..]), cursor, m, LastEnd(frames, cursor), age, apply);
    }
  }

  /** Levels and remainders depend on the presses and the time reached, never on where frames fall. */
  lemma {:induction false} CadenceIsIrrelevant(heat: Heat, one: seq<Frame>, other: seq<Frame>, cursor: int,
                                               age: Aging, apply: Application)
    requires LosesHeat(age) && Timely(one, cursor, true) && Timely(other, cursor, true)
    requires AllPresses(one) == AllPresses(other) && LastEnd(one, cursor) == LastEnd(other, cursor)
    ensures Play(heat, one, cursor, true, age, apply) == Play(heat, other, cursor, true, age, apply)
  {
    FramesFuse(heat, one, cursor, true, age, apply);
    FramesFuse(heat, other, cursor, true, age, apply);
  }

  // ----- The render clock -----

  datatype Glow = Glow(heat: Heat, clock: Callback)

  /** A freshly reset effect of an active overlay, not animating. */
  function Boot(count: nat): Glow {
    Glow(seq(count, _ => Cell(0, 0)), Callback(true, true, false, 0))
  }

  function FrameEnd(now: int): nat {
    if now < 0 then 0 else now
  }

  function FrameStart(now: int, elapsed: nat): nat {
    FrameEnd(now) - Min(FrameEnd(now), elapsed)
  }

  /** A render as the engine clocks it: no time passes across a pause, and nothing lit pauses the clock. */
  function RenderAt(g: Glow, now: int, presses: seq<Press>, age: Aging, apply: Application): Glow
  {
    var heat := Replay(g.heat, presses, FrameStart(now, Elapsed(g.clock, now)), FrameEnd(now), age, apply);
    Glow(heat, g.clock.(lastRender := now, animating := Lit(heat)))
  }

  predicate Running(g: Glow, now: int) {
    g.clock.animating && 0 <= g.clock.lastRender <= now <= g.clock.lastRender + UINT32_MAX
  }

  lemma {:induction false} RunningRender(g: Glow, now: int, presses: seq<Press>, age: Aging, apply: Application)
    requires Running(g, now)
    ensures RenderAt(g, now, presses, age, apply).heat == Replay(g.heat, presses, g.clock.lastRender, now, age, apply)
  {
  }

  lemma {:induction false} PausedRender(g: Glow, now: int, presses: seq<Press>, age: Aging, apply: Application)
    requires !g.clock.animating && 0 <= now
    ensures RenderAt(g, now, presses, age, apply).heat == Replay(g.heat, presses, now, now, age, apply)
  {
  }

  /** An extra render in between is invisible as long as it finds something lit. */
  lemma LitSplitIsInvisible(g: Glow, early: seq<Press>, late: seq<Press>, m: int, end: int, age: Aging,
                            apply: Application)
    requires LosesHeat(age) && Running(g, end) && g.clock.lastRender <= m <= end
    requires NoLaterThan(early, m) && StartsFrom(late, m)
    requires Lit(RenderAt(g, m, early, age, apply).heat)
    ensures RenderAt(RenderAt(g, m, early, age, apply), end, late, age, apply)
         == RenderAt(g, end, early + late, age, apply)
  {
    SplitReplay(g.heat, early, late, g.clock.lastRender, m, end, age, apply);
  }

  /** With nothing lit, a split matters exactly when the next press lights something and is older than its frame: the
    * paused clock anchors that press at the frame instead of at its timestamp. */
  lemma DarkSplitAnchorsThePress(g: Glow, early: seq<Press>, press: Press, m: int, end: int, age: Aging,
                                 apply: Application)
    requires LosesHeat(age) && Running(g, end) && g.clock.lastRender <= m <= press.timestamp <= end
    requires NoLaterThan(early, m)
    requires Dark(RenderAt(g, m, early, age, apply).heat)
    requires var dark := RenderAt(g, m, early, age, apply).heat;
             apply(dark, press) == dark || JustLit(apply(dark, press))
    ensures RenderAt(RenderAt(g, m, early, age, apply), end, [press], age, apply)
         == RenderAt(g, end, early + [press], age, apply)
        <==> press.timestamp == end ||
             apply(RenderAt(g, m, early, age, apply).heat, press) == RenderAt(g, m, early, age, apply).heat
  {
    SplitHeat(g, early, press, m, end, age, apply);
    WholeHeat(g, early, press, m, end, age, apply);
    var lit := apply(RenderAt(g, m, early, age, apply).heat, press);
    assert Shows(age, lit, end - press.timestamp) && Waits(age, lit);
    assert KeepsDark(age, lit, end - press.timestamp);
  }

  /** Presses that are all rendered at their own time, however many, hide the split. */
  lemma PromptPressesHideTheSplit(g: Glow, early: seq<Press>, late: seq<Press>, m: int, end: int, age: Aging,
                                  apply: Application)
    requires LosesHeat(age) && Running(g, end) && g.clock.lastRender <= m <= end
    requires NoLaterThan(early, m) && forall p :: p in late ==> p.timestamp >= end
    requires Dark(RenderAt(g, m, early, age, apply).heat)
    ensures RenderAt(RenderAt(g, m, early, age, apply), end, late, age, apply)
         == RenderAt(g, end, early + late, age, apply)
  {
    var paused := RenderAt(g, m, early, age, apply);
    assert !Lit(paused.heat);
    RunningRender(g, m, early, age, apply);
    RunningRender(g, end, early + late, age, apply);
    PausedRender(paused, end, late, age, apply);
    SplitReplay(g.heat, early, late, g.clock.lastRender, m, end, age, apply);
    if late == [] {
      assert KeepsDark(age, paused.heat, end - m) && KeepsDark(age, paused.heat, 0);
    } else {
      assert late[0] in late;
      assert KeepsDark(age, paused.heat, end - m) && KeepsDark(age, paused.heat, 0);
    }
  }

  lemma SplitHeat(g: Glow, early: seq<Press>, press: Press, m: int, end: int, age: Aging, apply: Application)
    requires LosesHeat(age) && 0 <= end && press.timestamp <= end
    requires Dark(RenderAt(g, m, early, age, apply).heat)
    ensures RenderAt(RenderAt(g, m, early, age, apply), end, [press], age, apply).heat
         == apply(RenderAt(g, m, early, age, apply).heat, press)
  {
    var paused := RenderAt(g, m, early, age, apply);
    assert !Lit(paused.heat);
    PausedRender(paused, end, [press], age, apply);
    AnchoredPress(paused.heat, press, end, end, age, apply);
    assert Waits(age, apply(paused.heat, press));
  }

  lemma WholeHeat(g: Glow, early: seq<Press>, press: Press, m: int, end: int, age: Aging, apply: Application)
    requires LosesHeat(age) && Running(g, end) && g.clock.lastRender <= m <= press.timestamp <= end
    requires NoLaterThan(early, m)
    requires Dark(RenderAt(g, m, early, age, apply).heat)
    ensures RenderAt(g, end, early + [press], age, apply).heat
         == age(apply(RenderAt(g, m, early, age, apply).heat, press), end - press.timestamp)
  {
    RunningRender(g, m, early, age, apply);
    RunningRender(g, end, early + [press], age, apply);
    SplitReplay(g.heat, early, [press], g.clock.lastRender, m, end, age, apply);
    AnchoredPress(RenderAt(g, m, early, age, apply).heat, press, m, end, age, apply);
  }

  /** Darkness does not age, so only the time after the press counts. */
  lemma {:induction false} AnchoredPress(dark: Heat, press: Press, cursor: int, end: int, age: Aging,
                                         apply: Application)
    requires LosesHeat(age) && cursor <= end && press.timestamp <= end
    requires Dark(dark)
    ensures Replay(dark, [press], cursor, end, age, apply)
         == age(apply(dark, press), end - Clamp(press.timestamp, cursor, end))
  {
    assert KeepsDark(age, dark, Clamp(press.timestamp, cursor, end) - cursor);
    assert [press][1..] == [];
  }

  // ----- One scene pass -----

  /** A delivered key event. */
  datatype Key = Key(press: Press, pressed: bool)

  /** The presses an effect takes, none lost. */
  function Kept(keys: seq<Key>, takes: Press -> bool): (kept: seq<Press>)
    ensures |kept| <= |keys|
  {
    if keys == [] then []
    else
      var kept, last := Kept(keys[..|keys| - 1], takes), keys[|keys| - 1];
      if last.pressed && takes(last.press) then kept + [last.press] else kept
  }

  lemma KeptMore(keys: seq<Key>, takes: Press -> bool, i: nat)
    requires i < |keys|
    ensures Kept(keys[..i + 1], takes)
         == Kept(keys[..i], takes) + if keys[i].pressed && takes(keys[i].press) then [keys[i].press] else []
  {
    assert keys[..i + 1][..i] == keys[..i];
  }
}
