/** Overlay gates: evaluated by the half that owns them, the shared ones packed thirty-two to a word. */
module OverlayState {
  import opened Arith
  import opened Commands

  const WORD_BITS := 32

  function Pow2(k: nat): (p: nat)
    ensures p >= 1
  {
    if k == 0 then 1 else 2 * Pow2(k - 1)
  }

  /** Bit `k` of a word: `(word >> k) & 1`. */
  predicate Bit(word: nat, k: nat) {
    word / Pow2(k) % 2 == 1
  }

  /** Bits set one by one, lowest first. */
  function Pack(bits: seq<bool>): (word: nat)
    ensures word < Pow2(|bits|)
  {
    if bits == [] then 0
    else Pack(bits[..|bits| - 1]) + if bits[|bits| - 1] then Pow2(|bits| - 1) else 0
  }

  lemma {:induction false} Pow2Splits(a: nat, b: nat)
    ensures Pow2(a + b) == Pow2(a) * Pow2(b)
  {
    if b > 0 {
      Pow2Splits(a, b - 1);
      assert Pow2(a) * Pow2(b) == 2 * (Pow2(a) * Pow2(b - 1));
    }
  }

  /** A higher bit leaves lower ones as they were. */
  lemma {:induction false} LowerBitKept(word: nat, k: nat, high: nat)
    requires k < high
    ensures Bit(word + Pow2(high), k) == Bit(word, k)
  {
    var half := Pow2(high - k - 1);
    Pow2Splits(high - k, k);
    assert Pow2(high - k) == 2 * half;
    ModShift(word, 2 * half, Pow2(k));
    ModShift(word / Pow2(k), half, 2);
  }

  lemma {:induction false} TopBit(low: nat, bit: bool, k: nat)
    requires low < Pow2(k)
    ensures Bit(low + if bit then Pow2(k) else 0, k) == bit
  {
    if bit {
      DivModUnique(low + Pow2(k), 1, low, Pow2(k));
    } else {
      DivModUnique(low, 0, low, Pow2(k));
    }
  }

  /** Reading a packed word gives back every bit. */
  lemma {:induction false} PackedBit(bits: seq<bool>, k: nat)
    requires k < |bits|
    ensures Bit(Pack(bits), k) == bits[k]
  {
    var shorter, last := bits[..|bits| - 1], |bits| - 1;
    assert Pack(bits) == Pack(shorter) + if bits[last] then Pow2(last) else 0;
    if k < last {
      PackedBit(shorter, k);
      assert shorter[k] == bits[k];
      if bits[last] {
        LowerBitKept(Pack(shorter), k, last);
      }
    } else {
      TopBit(Pack(shorter), bits[last], last);
    }
  }

  /** A word of thirty-two bits fits its width. */
  lemma {:induction false} WordFits(bits: seq<bool>)
    requires |bits| <= WORD_BITS
    ensures Pack(bits) < 0x1_0000_0000
  {
    PowMonotone(|bits|, WORD_BITS);
    assert Pow2(32) == 0x1_0000_0000 by {
      Pow2Splits(16, 16);
      Pow2Splits(8, 8);
      assert Pow2(8) == 256;
    }
  }

  lemma {:induction false} PowMonotone(a: nat, b: nat)
    requires a <= b
    ensures Pow2(a) <= Pow2(b)
  {
    if a < b {
      PowMonotone(a, b - 1);
    }
  }

  // ----- Reference -----

  datatype Role = Standalone | Central | Peripheral

  /** Per overlay: evaluated by each half for itself, opacity above zero and at least one target. */
  datatype Overlay = Overlay(local: bool, visible: bool)

  /** Peripherals leave shared overlays to the central. */
  predicate Evaluates(role: Role, o: Overlay) {
    o.local || !role.Peripheral?
  }

  /** The shared overlays that are active, as bits. */
  function SharedBits(overlays: seq<Overlay>, active: seq<bool>): (bits: seq<bool>)
    requires |overlays| == |active|
    ensures |bits| == |overlays|
  {
    seq(|overlays|, i requires 0 <= i < |overlays| => !overlays[i].local && active[i])
  }

  function WordCount(overlays: nat): nat {
    if overlays == 0 then 1 else (overlays + WORD_BITS - 1) / WORD_BITS
  }

  function WordOf(overlays: seq<Overlay>, active: seq<bool>, w: nat): (word: u32)
    requires |overlays| == |active|
  {
    var bits := SharedBits(overlays, active);
    var from, to := Min(w * WORD_BITS, |bits|), Min((w + 1) * WORD_BITS, |bits|);
    WordFits(bits[from..to]);
    Pack(bits[from..to])
  }

  function WordsOf(overlays: seq<Overlay>, active: seq<bool>): (words: seq<u32>)
    requires |overlays| == |active|
    ensures |words| == WordCount(|overlays|)
  {
    seq(WordCount(|overlays|), (w: nat) => WordOf(overlays, active, w))
  }

  /** `kp_rgb_overlay_gate`. */
  predicate Gate(overlays: seq<Overlay>, gates: seq<bool>, words: seq<u32>, i: nat)
    requires i < |overlays| == |gates| && |words| == WordCount(|overlays|)
  {
    WordOfIndex(|overlays|, i);
    && overlays[i].visible
    && if overlays[i].local then gates[i] else Bit(words[i / WORD_BITS], i % WORD_BITS)
  }

  lemma WordOfIndex(count: nat, i: nat)
    requires i < count
    ensures i / WORD_BITS < WordCount(count)
  {
  }

  /** The words carry every shared gate: bit `i % 32` of word `i / 32` is the state of overlay `i`. */
  lemma {:induction false} WordsCarryGates(overlays: seq<Overlay>, active: seq<bool>, i: nat)
    requires |overlays| == |active| && i < |overlays| && !overlays[i].local
    ensures i / 32 < |WordsOf(overlays, active)|
    ensures WordsOf(overlays, active)[i / 32] / Pow2(i % 32) % 2 == if active[i] then 1 else 0
  {
    WordOfIndex(|overlays|, i);
    var bits, w := SharedBits(overlays, active), i / WORD_BITS;
    var from, to := w * WORD_BITS, Min((w + 1) * WORD_BITS, |bits|);
    PackedBit(bits[from..to], i % WORD_BITS);
    assert bits[from..to][i % WORD_BITS] == bits[i];
  }

  /** Gates `from..to` re-evaluated, where this half evaluates them. */
  function Refreshed(role: Role, overlays: seq<Overlay>, active: seq<bool>, gates: seq<bool>, from: nat, to: nat)
    : (r: seq<bool>)
    requires |overlays| == |active| == |gates|
    ensures |r| == |gates|
  {
    seq(|gates|, i requires 0 <= i < |gates| =>
      if from <= i < to && Evaluates(role, overlays[i]) then active[i] else gates[i])
  }

  /** After a refresh the central's gates are the conditions of the visible overlays, shared or local. */
  lemma CentralGatesAreConditions(role: Role, overlays: seq<Overlay>, active: seq<bool>, gates: seq<bool>, i: nat)
    requires |overlays| == |active| == |gates| && i < |overlays| && !role.Peripheral?
    ensures Gate(overlays, Refreshed(role, overlays, active, gates, 0, |overlays|), WordsOf(overlays, active), i)
       <==> overlays[i].visible && active[i]
  {
    if !overlays[i].local {
      WordsCarryGates(overlays, active, i);
    }
  }

  /** A peripheral that holds the central's words shows the central's shared gates and its own local ones. */
  lemma PeripheralGatesFollow(overlays: seq<Overlay>, central: seq<bool>, own: seq<bool>, gates: seq<bool>, i: nat)
    requires |overlays| == |central| == |own| == |gates| && i < |overlays|
    ensures Gate(overlays, Refreshed(Peripheral, overlays, own, gates, 0, |overlays|), WordsOf(overlays, central), i)
       <==> overlays[i].visible && if overlays[i].local then own[i] else central[i]
  {
    if !overlays[i].local {
      WordsCarryGates(overlays, central, i);
    }
  }

  // ----- The registry in place -----

  class Registry {
    const role: Role
    const overlays: seq<Overlay>
    const gates: array<bool>
    const words: array<u32>
    var generation: nat

    ghost predicate Valid()
      reads this
    {
      gates.Length == |overlays| && words.Length == WordCount(|overlays|)
    }

    constructor (role: Role, overlays: seq<Overlay>)
      ensures Valid() && this.role == role && this.overlays == overlays && generation == 0
      ensures fresh(gates) && fresh(words)
    {
      this.role, this.overlays, generation := role, overlays, 0;
      gates := new bool[|overlays|](_ => false);
      words := new u32[WordCount(|overlays|)](_ => 0);
    }

    /** One word's overlays: updates their gates, and packs the shared ones. */
    method RefreshWord(w: nat, active: seq<bool>) returns (next: u32, changed: bool)
      requires Valid() && |active| == |overlays| && w * WORD_BITS <= |overlays|
      modifies gates
      ensures !role.Peripheral? ==> next == WordOf(overlays, active, w)
      ensures gates[..] == Refreshed(role, overlays, active, old(gates[..]), w * WORD_BITS, (w + 1) * WORD_BITS)
      ensures changed <==> gates[..] != old(gates[..])
    {
      next, changed := 0, false;
      ghost var was := gates[..];
      var from, to := w * WORD_BITS, Min((w + 1) * WORD_BITS, |overlays|);
      for i := from to to
        invariant gates[..] == Refreshed(role, overlays, active, was, from, i)
        invariant changed <==> gates[..] != was
        invariant !role.Peripheral? ==> next == Pack(SharedBits(overlays, active)[from..i])
      {
        RefreshedGrows(role, overlays, active, was, from, i);
        next := PackedNext(next, from, i, active);
        var moved := RefreshOne(i, active);
        changed := changed || moved;
      }
      RefreshedTo(role, overlays, active, was, from, (w + 1) * WORD_BITS);
    }

    method RefreshOne(i: nat, active: seq<bool>) returns (moved: bool)
      requires Valid() && |active| == |overlays| && i < |overlays|
      modifies gates
      ensures gates[..] == old(gates[..])[i := if Evaluates(role, overlays[i]) then active[i] else old(gates[i])]
      ensures moved <==> gates[i] != old(gates[i])
    {
      if !overlays[i].local && role.Peripheral? {
        return false;
      }
      moved := gates[i] != active[i];
      gates[i] := active[i];
    }

    /** The word with overlay `i`'s bit set when it is shared and active; earlier overlays never set that bit. */
    method PackedNext(word: u32, from: nat, i: nat, active: seq<bool>) returns (next: u32)
      requires |active| == |overlays| && from <= i < |overlays| && i < from + WORD_BITS
      ensures !role.Peripheral? && word == Pack(SharedBits(overlays, active)[from..i]) ==>
                next == Pack(SharedBits(overlays, active)[from..i + 1])
    {
      ghost var bits := SharedBits(overlays, active);
      assert bits[from..i + 1][..i - from] == bits[from..i];
      WordFits(bits[from..i + 1]);
      next := word;
      if !overlays[i].local && active[i] {
        next := (word + Pow2(i - from)) % 0x1_0000_0000;
      }
    }

    /** `kp_rgb_overlay_refresh`: however many words change, they are published once. */
    method Refresh(active: seq<bool>) returns (changed: bool)
      requires Valid() && |active| == |overlays|
      modifies this`generation, gates, words
      ensures gates[..] == Refreshed(role, overlays, active, old(gates[..]), 0, |overlays|)
      ensures forall i :: 0 <= i < |overlays| ==>
                gates[i] == if overlays[i].local || role != Peripheral then active[i] else old(gates[i])
      ensures words[..] == if role.Peripheral? then old(words[..]) else WordsOf(overlays, active)
      ensures generation == old(generation) + if words[..] == old(words[..]) then 0 else 1
      ensures changed <==> gates[..] != old(gates[..]) || words[..] != old(words[..])
    {
      changed := false;
      var synchronizedChanged := false;
      ghost var was, before := gates[..], words[..];
      for w := 0 to words.Length
        invariant gates[..] == Refreshed(role, overlays, active, was, 0, w * WORD_BITS)
        invariant changed <==> gates[..] != was
        invariant synchronizedChanged <==> words[..] != before
        invariant forall k :: 0 <= k < w ==>
          words[k] == if role.Peripheral? then before[k] else WordOf(overlays, active, k)
        invariant forall k :: w <= k < words.Length ==> words[k] == before[k]
        invariant generation == old(generation)
      {
        ghost var mid := gates[..];
        var next, moved := RefreshWord(w, active);
        RefreshedTwice(role, overlays, active, was, w * WORD_BITS, (w + 1) * WORD_BITS);
        changed := changed || moved;
        assert words[..][w] == before[w];
        if !role.Peripheral? {
          synchronizedChanged := synchronizedChanged || words[w] != next;
          words[w] := next;
        }
      }
      RefreshedTo(role, overlays, active, was, 0, words.Length * WORD_BITS);
      assert !role.Peripheral? ==> words[..] == WordsOf(overlays, active);
      if synchronizedChanged {
        generation := generation + 1;
      }
      changed := changed || synchronizedChanged;
    }
  }

  lemma RefreshedGrows(role: Role, overlays: seq<Overlay>, active: seq<bool>, gates: seq<bool>, from: nat, i: nat)
    requires |overlays| == |active| == |gates| && from <= i < |gates|
    ensures var before := Refreshed(role, overlays, active, gates, from, i);
            var after := Refreshed(role, overlays, active, gates, from, i + 1);
            && before[i] == gates[i]
            && after == before[i := if Evaluates(role, overlays[i]) then active[i] else gates[i]]
            && (after != gates <==> before != gates || after[i] != gates[i])
  {
    var before := Refreshed(role, overlays, active, gates, from, i);
    var after := Refreshed(role, overlays, active, gates, from, i + 1);
    assert after == before[i := after[i]];
    if before != gates {
      var k :| 0 <= k < |gates| && before[k] != gates[k];
      assert after[k] == before[k];
    }
  }

  /** Nothing lies beyond the last overlay. */
  lemma RefreshedTo(role: Role, overlays: seq<Overlay>, active: seq<bool>, gates: seq<bool>, from: nat, to: nat)
    requires |overlays| == |active| == |gates|
    ensures Refreshed(role, overlays, active, gates, from, Min(to, |gates|))
         == Refreshed(role, overlays, active, gates, from, to)
  {
  }

  lemma RefreshedTwice(role: Role, overlays: seq<Overlay>, active: seq<bool>, gates: seq<bool>, mid: nat, to: nat)
    requires |overlays| == |active| == |gates| && mid <= to
    ensures var once := Refreshed(role, overlays, active, gates, 0, mid);
            && Refreshed(role, overlays, active, once, mid, to) == Refreshed(role, overlays, active, gates, 0, to)
            && (Refreshed(role, overlays, active, gates, 0, to) != gates
                <==> once != gates || Refreshed(role, overlays, active, once, mid, to) != once)
  {
    var once := Refreshed(role, overlays, active, gates, 0, mid);
    var twice := Refreshed(role, overlays, active, once, mid, to);
    assert twice == Refreshed(role, overlays, active, gates, 0, to);
    if once != gates {
      var i :| 0 <= i < |gates| && once[i] != gates[i];
      assert twice[i] == once[i];
    }
  }
}
