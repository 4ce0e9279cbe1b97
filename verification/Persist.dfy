/** The stored settings record: a six-byte header and one little-endian word per selection. */
module Persist {
  import opened Arith
  import opened Options

  const VERSION := 1
  const HEADER := 6

  /** Two-byte unsigned values. */
  type Word = x: int | 0 <= x < 65536

  datatype Settings = Settings(userOn: bool, brightness: Byte, count: Word)

  /** A decoded header and the selections copied out. */
  datatype Decoded = Decoded(settings: Settings, slots: seq<Word>)

  function Size(count: nat): nat {
    HEADER + 2 * count
  }

  function ReadWord(low: Byte, high: Byte): Word {
    low + 256 * high
  }

  /** A word survives being cut into two bytes, and two bytes being read as a word. */
  lemma WordRoundTrip(w: Word, low: Byte, high: Byte)
    ensures ReadWord(w % 256, w / 256) == w
    ensures ReadWord(low, high) % 256 == low && ReadWord(low, high) / 256 == high
  {
  }

  // ----- Reference -----

  function Slots(slots: seq<Word>): (bytes: seq<Byte>)
    ensures |bytes| == 2 * |slots|
  {
    seq(2 * |slots|, k requires 0 <= k < 2 * |slots| => if k % 2 == 0 then slots[k / 2] % 256 else slots[k / 2] / 256)
  }

  lemma SlotBytes(slots: seq<Word>, i: nat)
    requires i < |slots|
    ensures Slots(slots)[2 * i] == slots[i] % 256 && Slots(slots)[2 * i + 1] == slots[i] / 256
  {
  }

  /** The record of valid settings. */
  function Record(s: Settings, slots: seq<Word>): (bytes: seq<Byte>)
    requires |slots| == s.count
    ensures |bytes| == Size(s.count)
  {
    [VERSION, if s.userOn then 1 else 0, s.brightness, 0, s.count % 256, s.count / 256] + Slots(slots)
  }

  predicate HeaderValid(prefix: seq<Byte>) {
    |prefix| >= HEADER && prefix[0] == VERSION && prefix[1] <= 1 && prefix[2] <= 100 && prefix[3] == 0
  }

  function HeaderCount(prefix: seq<Byte>): Word
    requires |prefix| >= HEADER
  {
    ReadWord(prefix[4], prefix[5])
  }

  function SlotsIn(bytes: seq<Byte>, n: nat): (slots: seq<Word>)
    requires Size(n) <= |bytes|
    ensures |slots| == n
  {
    seq(n, i requires 0 <= i < n => ReadWord(bytes[HEADER + 2 * i], bytes[HEADER + 2 * i + 1]))
  }

  /** What decoding a prefix of a record of `recordLen` bytes yields, copying out at most `capacity` selections. */
  function Decode(prefix: seq<Byte>, recordLen: nat, capacity: nat): Option<Decoded> {
    if !HeaderValid(prefix) || |prefix| > recordLen then None
    else
      var count := HeaderCount(prefix);
      var copied := Min(count, capacity);
      if recordLen != Size(count) || |prefix| < Size(copied) then None
      else Some(Decoded(Settings(prefix[1] != 0, prefix[2], count), SlotsIn(prefix, copied)))
  }

  // ----- The format -----

  /** The bytes of a record: version one, the switch, the brightness, a zero, the number of selections and each of them,
    * low byte first. */
  lemma RecordBytes(s: Settings, slots: seq<Word>, i: nat)
    requires |slots| == s.count
    ensures var bytes := Record(s, slots);
            && |bytes| == 6 + 2 * |slots|
            && bytes[0] == 1 && bytes[1] == (if s.userOn then 1 else 0) && bytes[2] == s.brightness && bytes[3] == 0
            && bytes[4] as int + 256 * bytes[5] as int == |slots|
            && (i < |slots| ==> bytes[6 + 2 * i] as int + 256 * bytes[7 + 2 * i] as int == slots[i])
  {
    if i < |slots| {
      SlotBytes(slots, i);
    }
  }

  /** Exactly which prefixes are accepted, and what they say. */
  lemma DecodeAccepts(prefix: seq<Byte>, recordLen: nat, capacity: nat)
    ensures Decode(prefix, recordLen, capacity).Some? <==>
            && 6 <= |prefix| <= recordLen
            && prefix[0] == 1 && prefix[1] <= 1 && prefix[2] <= 100 && prefix[3] == 0
            && var count := prefix[4] as int + 256 * prefix[5] as int;
               recordLen == 6 + 2 * count && |prefix| >= 6 + 2 * Min(count, capacity)
    ensures Decode(prefix, recordLen, capacity).Some? ==>
              var d := Decode(prefix, recordLen, capacity).value;
              && d.settings.userOn == (prefix[1] == 1) && d.settings.brightness == prefix[2]
              && d.settings.count == prefix[4] as int + 256 * prefix[5] as int
              && |d.slots| == Min(d.settings.count, capacity)
              && forall i :: 0 <= i < |d.slots| ==>
                   d.slots[i] == prefix[6 + 2 * i] as int + 256 * prefix[6 + 2 * i + 1] as int
  {
  }

  // ----- Round trips -----

  lemma DecodeAfterEncode(s: Settings, slots: seq<Word>, capacity: nat)
    requires |slots| == s.count && s.brightness <= 100
    ensures Decode(Record(s, slots), Size(s.count), capacity)
         == Some(Decoded(s, slots[..Min(s.count, capacity)]))
  {
    var bytes := Record(s, slots);
    WordRoundTrip(s.count, 0, 0);
    var copied := Min(s.count, capacity);
    forall i | 0 <= i < copied ensures SlotsIn(bytes, copied)[i] == slots[i] {
      SlotBytes(slots, i);
      WordRoundTrip(slots[i], 0, 0);
    }
    assert HeaderCount(bytes) == s.count && SlotsIn(bytes, copied) == slots[..copied];
  }

  /** Decoding everything and encoding it again gives back the exact bytes. */
  lemma EncodeAfterDecode(bytes: seq<Byte>, capacity: nat)
    requires var d := Decode(bytes, |bytes|, capacity); d.Some? && d.value.settings.count <= capacity
    ensures var d := Decode(bytes, |bytes|, capacity).value;
            |d.slots| == d.settings.count && Record(d.settings, d.slots) == bytes
  {
    var d := Decode(bytes, |bytes|, capacity).value;
    WordRoundTrip(0, bytes[4], bytes[5]);
    TailKept(bytes, |d.slots|);
    assert bytes == bytes[..HEADER] + bytes[HEADER..];
    assert bytes[..HEADER] == [bytes[0], bytes[1], bytes[2], bytes[3], bytes[4], bytes[5]];
  }

  lemma TailKept(bytes: seq<Byte>, n: nat)
    requires Size(n) == |bytes|
    ensures Slots(SlotsIn(bytes, n)) == bytes[HEADER..]
  {
    var again := Slots(SlotsIn(bytes, n));
    forall k | 0 <= k < |again| ensures again[k] == bytes[HEADER..][k] {
      SlotKept(bytes, n, k / 2);
      assert k == 2 * (k / 2) || k == 2 * (k / 2) + 1;
    }
  }

  lemma SlotKept(bytes: seq<Byte>, n: nat, i: nat)
    requires Size(n) <= |bytes| && i < n
    ensures Slots(SlotsIn(bytes, n))[2 * i] == bytes[HEADER + 2 * i]
    ensures Slots(SlotsIn(bytes, n))[2 * i + 1] == bytes[HEADER + 2 * i + 1]
  {
    SlotBytes(SlotsIn(bytes, n), i);
    WordRoundTrip(0, bytes[HEADER + 2 * i], bytes[HEADER + 2 * i + 1]);
  }

  /** A prefix that holds the selections asked for decodes as the whole record does; a shorter one is refused. */
  lemma PrefixDecodes(record: seq<Byte>, n: nat, capacity: nat)
    requires n <= |record| && Decode(record, |record|, capacity).Some?
    ensures var count := Decode(record, |record|, capacity).value.settings.count;
            Decode(record[..n], |record|, capacity)
            == if n >= Size(Min(count, capacity)) then Decode(record, |record|, capacity) else None
  {
    var copied := Min(HeaderCount(record), capacity);
    if n >= Size(copied) {
      assert SlotsIn(record[..n], copied) == SlotsIn(record, copied);
    }
  }

  // ----- In place -----

  const EINVAL := -22

  method WriteWord(bytes: array<Byte>, at: nat, value: Word)
    requires at + 2 <= bytes.Length
    modifies bytes
    ensures bytes[at] == value % 256 && bytes[at + 1] == value / 256
    ensures forall k :: 0 <= k < bytes.Length && k != at && k != at + 1 ==> bytes[k] == old(bytes[k])
  {
    bytes[at] := value % 256;
    bytes[at + 1] := value / 256;
  }

  method FillHeader(s: Settings, bytes: array<Byte>)
    requires bytes.Length >= HEADER
    modifies bytes
    ensures bytes[..HEADER] == [VERSION, if s.userOn then 1 else 0, s.brightness, 0, s.count % 256, s.count / 256]
  {
    bytes[0] := VERSION;
    bytes[1] := if s.userOn then 1 else 0;
    bytes[2] := s.brightness;
    bytes[3] := 0;
    WriteWord(bytes, 4, s.count);
  }

  method FillSlots(s: Settings, selections: array<Word>, bytes: array<Byte>)
    requires s.count <= selections.Length && bytes.Length == Size(s.count)
    requires bytes[..HEADER] == [VERSION, if s.userOn then 1 else 0, s.brightness, 0, s.count % 256, s.count / 256]
    modifies bytes
    ensures bytes[..] == Record(s, selections[..s.count])
  {
    ghost var goal := Record(s, selections[..s.count]);
    for i := 0 to s.count
      invariant forall k :: 0 <= k < Size(i) ==> bytes[k] == goal[k]
    {
      SlotBytes(selections[..s.count], i);
      WriteWord(bytes, HEADER + 2 * i, selections[i]);
    }
    assert bytes[..] == goal;
  }

  /** `kp_rgb_persist_encode`: null pointers are accepted as arguments and refused. */
  method EncodeInto(state: Option<Settings>, selections: array?<Word>, bytes: array?<Byte>) returns (err: int)
    requires selections != null && state.Some? ==> state.value.count <= selections.Length
    modifies bytes
    ensures err == 0 <==> && state.Some? && bytes != null && state.value.brightness <= 100
                          && (state.value.count == 0 || selections != null)
                          && bytes.Length == Size(state.value.count)
    ensures err == 0 && state.value.count > 0 ==>
              bytes[..] == Record(state.value, selections[..state.value.count])
    ensures err == 0 && state.value.count == 0 ==> bytes[..] == Record(state.value, [])
    ensures err != 0 ==> err == EINVAL && (bytes != null ==> bytes[..] == old(bytes[..]))
  {
    if state.None? || bytes == null {
      return EINVAL;
    }
    var s := state.value;
    if s.brightness > 100 || (s.count != 0 && selections == null) || bytes.Length != Size(s.count) {
      return EINVAL;
    }
    if s.count == 0 {
      FillHeader(s, bytes);
      assert bytes[..] == Record(s, []);
    } else {
      FillHeader(s, bytes);
      FillSlots(s, selections, bytes);
    }
    return 0;
  }

  method CopySlots(prefix: array<Byte>, selections: array<Word>, copied: nat)
    requires Size(copied) <= prefix.Length && copied <= selections.Length
    modifies selections
    ensures selections[..] == SlotsIn(prefix[..], copied) + old(selections[..])[copied..]
  {
    ghost var slots := SlotsIn(prefix[..], copied);
    for i := 0 to copied
      invariant forall k :: 0 <= k < i ==> selections[k] == slots[k]
      invariant forall k :: i <= k < selections.Length ==> selections[k] == old(selections[k])
    {
      selections[i] := ReadWord(prefix[HEADER + 2 * i], prefix[HEADER + 2 * i + 1]);
    }
  }

  /** `kp_rgb_persist_decode`: on any error the outputs are left as they were. */
  method DecodeFrom(prefix: array?<Byte>, recordLen: nat, state: array?<Settings>, selections: array?<Word>,
                    capacity: nat) returns (err: int)
    requires state != null ==> state.Length == 1
    requires selections != null ==> capacity <= selections.Length
    modifies state, selections
    ensures prefix == null || state == null ==> err == EINVAL
    ensures prefix != null && state != null ==>
              (err == 0 <==> && Decode(prefix[..], recordLen, capacity).Some?
                             && (Min(HeaderCount(prefix[..]), capacity) == 0 || selections != null))
    ensures err == 0 ==>
              && state[0] == Decode(prefix[..], recordLen, capacity).value.settings
              && (selections != null ==>
                    var slots := Decode(prefix[..], recordLen, capacity).value.slots;
                    |slots| <= selections.Length && selections[..] == slots + old(selections[..])[|slots|..])
    ensures err != 0 ==>
              && err == EINVAL
              && (state != null ==> state[0] == old(state[0]))
              && (selections != null ==> selections[..] == old(selections[..]))
  {
    if prefix == null || state == null || prefix.Length < HEADER || prefix.Length > recordLen || prefix[0] != VERSION
       || prefix[1] > 1 || prefix[2] > 100 || prefix[3] != 0 {
      return EINVAL;
    }
    var count := ReadWord(prefix[4], prefix[5]);
    var copied := if count < capacity then count else capacity;
    if recordLen != Size(count) || prefix.Length < Size(copied) || (copied != 0 && selections == null) {
      return EINVAL;
    }
    if selections != null {
      CopySlots(prefix, selections, copied);
    }
    state[0] := Settings(prefix[1] != 0, prefix[2], count);
    return 0;
  }
}
