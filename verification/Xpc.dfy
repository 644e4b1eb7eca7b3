/**
 The XPC cable driver: bits packed into shift requests for the CPLD, and the captured bits brought
 back into place.
 */
module Cpld {
  import opened Bits
  import opened JtagPins

  const CPLD_MAX_BYTES := 4096
  const MAX_TRANSFER := 2 * CPLD_MAX_BYTES - 1

  /** One state change: the line levels, whether to pulse the clock and whether to sample TDO. */
  datatype Slot = Slot(tdi: bool, tms: bool, clock: bool, sample: bool)

  /** Four changes fill two bytes: TDI and TMS nibbles, clock and sample nibbles. */
  function SlotAt(buf: seq<Byte>, k: nat): Slot
    requires 2 * (k / 4) + 1 < |buf|
  {
    var lo, hi := buf[2 * (k / 4)], buf[2 * (k / 4) + 1];
    Slot(lo[k % 4], lo[4 + k % 4], hi[k % 4], hi[4 + k % 4])
  }

  /** The bytes of n changes. */
  function SlotBytes(n: nat): nat
  {
    2 * ((n + 3) / 4)
  }

  function Slots(buf: seq<Byte>, n: nat): (r: seq<Slot>)
    requires SlotBytes(n) <= |buf|
    ensures |r| == n
  {
    seq(n, k requires 0 <= k < n => SlotAt(buf, k))
  }

  function Clocked(slots: seq<Slot>): seq<Edge>
  {
    if slots == [] then []
    else
      var s := slots[|slots| - 1];
      Clocked(slots[..|slots| - 1]) + if s.clock then [Edge(s.tdi, s.tms)] else []
  }

  function Samples(slots: seq<Slot>): (n: nat)
    ensures n <= |slots|
  {
    if slots == [] then 0 else Samples(slots[..|slots| - 1]) + if slots[|slots| - 1].sample then 1 else 0
  }

  /** The levels sampled, when the first pulse is number from. */
  function Sampled(env: Env, from: nat, slots: seq<Slot>): (r: seq<bool>)
    ensures |r| == Samples(slots)
  {
    if slots == [] then []
    else
      var before := slots[..|slots| - 1];
      Sampled(env, from, before)
        + if slots[|slots| - 1].sample then [env.tdo(from + |Clocked(before)|)] else []
  }

  /** The bytes of n samples: whole 16-bit units. */
  function SampleBytes(n: nat): nat
  {
    2 * ((n + 15) / 16)
  }

  /** The gap in front of a last unit of 16 or 32 bits that is not full. */
  function Gap(n: nat): (g: nat)
    ensures g < 16 && n + g == 8 * SampleBytes(n)
  {
    (16 - n % 16) % 16
  }

  /** Full 32-bit words are in place; what is left comes right-justified in 16 or 32 bits. */
  function Layout(c: seq<bool>, noise: seq<bool>): (r: seq<bool>)
    requires |noise| == 16
    ensures |r| == 8 * SampleBytes(|c|)
  {
    var whole := 32 * (|c| / 32);
    c[..whole] + noise[..Gap(|c|)] + c[whole..]
  }

  class Device {
    const env: Env
    var pulses: seq<Edge>

    constructor (env: Env)
      ensures this.env == env && pulses == []
    {
      this.env, pulses := env, [];
    }

    /**
     The A6 request: at most 8191 changes whose number is no multiple of 4, described in inLen
     bytes of the buffer, which receives outLen bytes in return.
     */
    method Shift(bits: nat, inLen: nat, buf: array<Byte>, outLen: nat)
      requires 0 < bits <= MAX_TRANSFER && bits % 4 != 0
      requires inLen == SlotBytes(bits) <= buf.Length
      requires outLen == SampleBytes(|Sampled(env, |pulses|, Slots(buf[..], bits))|) <= buf.Length
      modifies this, buf
      ensures pulses == old(pulses) + Clocked(Slots(old(buf[..]), bits))
      ensures var c := Sampled(env, |old(pulses)|, Slots(old(buf[..]), bits));
        buf[..outLen] == Pack(Layout(c, Noise(env, |old(pulses)|)), outLen)
    {
      var slots := Slots(buf[..], bits);
      var response := Pack(Layout(Sampled(env, |pulses|, slots), Noise(env, |pulses|)), outLen);
      pulses := pulses + Clocked(slots);
      Receive(buf, response);
    }
  }

  function Noise(env: Env, n: nat): (r: seq<bool>)
    ensures |r| == 16
  {
    env.noise(n) + env.noise(n)
  }

  method Receive(buf: array<Byte>, bytes: seq<Byte>)
    requires |bytes| <= buf.Length
    modifies buf
    ensures buf[..|bytes|] == bytes
  {
    for k := 0 to |bytes|
      invariant buf[..k] == bytes[..k]
    {
      buf[k] := bytes[k];
    }
  }
}

module Xpc {
  import opened Bits
  import opened JtagPins
  import opened Cpld

  // ---------- Collecting changes ----------

  function Flag(high: bool, i: nat): Byte
    requires i < 4
  {
    Shl(NatBits(if high then 0x10 else 0x01, 8), i)
  }

  lemma {:induction false} FlagIsBit(b: Byte, high: bool, i: nat)
    requires i < 4
    ensures Or(b, Flag(high, i)) == b[(if high then 4 + i else i) := true]
  {
    var at := if high then 4 + i else i;
    forall j | 0 <= j < 8
      ensures Flag(high, i)[j] <==> j == at
    {
      if i <= j {
        FlagBits(high, j - i);
      }
    }
  }

  lemma {:induction false} FlagBits(high: bool, j: nat)
    requires j < 8
    ensures NatBits(if high then 0x10 else 0x01, 8)[j] <==> j == if high then 4 else 0
  {
    if high {
      assert NatBits(16, 8) == [false] + NatBits(8, 7);
      assert NatBits(8, 7) == [false] + NatBits(4, 6);
      assert NatBits(4, 6) == [false] + NatBits(2, 5);
      assert NatBits(2, 5) == [false] + NatBits(1, 4);
      if j > 4 {
        HighBitsZero(1, 1, 4, j - 4);
      }
    } else if j > 0 {
      HighBitsZero(1, 1, 8, j);
    }
  }

  /** b |= 1 << i or b |= 0x10 << i, if v. */
  function Marked(b: Byte, v: bool, high: bool, i: nat): Byte
    requires i < 4
  {
    if v then Or(b, Flag(high, i)) else b
  }

  lemma {:induction false} MarkedAt(b: Byte, v: bool, high: bool, i: nat)
    requires i < 4 && !b[if high then 4 + i else i]
    ensures Marked(b, v, high, i) == b[(if high then 4 + i else i) := v]
  {
    if v {
      FlagIsBit(b, high, i);
    }
  }

  /** A byte with v and w written to the blank places i and 4 + i. */
  function MarkTwo(b: Byte, v: bool, w: bool, i: nat): Byte
    requires i < 4
  {
    Marked(Marked(b, v, false, i), w, true, i)
  }

  lemma {:induction false} MarkTwoAt(b: Byte, v: bool, w: bool, i: nat)
    requires i < 4 && !b[i] && !b[4 + i]
    ensures MarkTwo(b, v, w, i) == b[i := v][4 + i := w]
  {
    MarkedAt(b, v, false, i);
    MarkedAt(b[i := v], w, true, i);
  }

  function PlannedAt(slots: seq<Slot>, k: nat): Slot
  {
    if k < |slots| then slots[k] else Slot(false, false, false, false)
  }

  /** The buffer holds the changes, and blanks up to the end of the last two bytes. */
  ghost predicate Holds(buf: seq<Byte>, slots: seq<Slot>)
  {
    |buf| == CPLD_MAX_BYTES && |slots| <= MAX_TRANSFER
    && forall k :: 0 <= k < 4 * ((|slots| + 3) / 4) ==> SlotAt(buf, k) == PlannedAt(slots, k)
  }

  /** The buffer with two fresh bytes in front of the first of four changes. */
  function Cleared(buf: seq<Byte>, n: nat): seq<Byte>
    requires n <= MAX_TRANSFER && |buf| == CPLD_MAX_BYTES
  {
    if n % 4 == 0 then buf[2 * (n / 4) := Zeros(8)][2 * (n / 4) + 1 := Zeros(8)] else buf
  }

  function Put(buf: seq<Byte>, n: nat, s: Slot): seq<Byte>
    requires n <= MAX_TRANSFER && |buf| == CPLD_MAX_BYTES
  {
    var p, i := 2 * (n / 4), n % 4;
    buf[p := MarkTwo(buf[p], s.tdi, s.tms, i)][p + 1 := MarkTwo(buf[p + 1], s.clock, s.sample, i)]
  }

  lemma {:induction false} ClearedBlank(buf: seq<Byte>, slots: seq<Slot>)
    requires Holds(buf, slots) && |slots| < MAX_TRANSFER
    ensures forall k :: 0 <= k < 4 * (|slots| / 4) + 4 ==> SlotAt(Cleared(buf, |slots|), k) == PlannedAt(slots, k)
  {
  }

  lemma {:induction false} PutAt(buf: seq<Byte>, n: nat, s: Slot, k: nat)
    requires |buf| == CPLD_MAX_BYTES && n < MAX_TRANSFER && k < 4 * (n / 4) + 4
    requires SlotAt(buf, n) == Slot(false, false, false, false)
    ensures SlotAt(Put(buf, n, s), k) == if k == n then s else SlotAt(buf, k)
  {
    var p, i := 2 * (n / 4), n % 4;
    MarkTwoAt(buf[p], s.tdi, s.tms, i);
    MarkTwoAt(buf[p + 1], s.clock, s.sample, i);
  }

  /** The buffer after one more change. */
  lemma {:induction false} PutHolds(buf: seq<Byte>, slots: seq<Slot>, s: Slot)
    requires Holds(buf, slots) && |slots| < MAX_TRANSFER
    ensures Holds(Put(Cleared(buf, |slots|), |slots|, s), slots + [s])
  {
    var n := |slots|;
    ClearedBlank(buf, slots);
    assert SlotAt(Cleared(buf, n), n) == PlannedAt(slots, n);
    forall k | 0 <= k < 4 * ((n + 1 + 3) / 4)
      ensures SlotAt(Put(Cleared(buf, n), n, s), k) == PlannedAt(slots + [s], k)
    {
      PutAt(Cleared(buf, n), n, s, k);
    }
  }

  /** xpc_ext_transfer_state_t; slots is what has been put into the buffer. */
  class Transfer {
    var inBits: nat
    var outBits: nat
    const buf: array<Byte>
    ghost var slots: seq<Slot>

    constructor ()
      ensures Valid() && slots == [] && fresh(buf)
    {
      inBits, outBits := 0, 0;
      buf := new Byte[CPLD_MAX_BYTES](_ => Zeros(8));
      slots := [];
    }

    ghost predicate Valid()
      reads this, buf
    {
      Holds(buf[..], slots) && inBits == |slots| && outBits == Samples(slots)
    }

    /** Empties the state for the next transfer. */
    method Reset()
      requires buf.Length == CPLD_MAX_BYTES
      modifies this
      ensures Valid() && slots == []
    {
      inBits, outBits, slots := 0, 0, [];
    }

    method AddBit(clock: bool, tms: bool, tdi: bool, sample: bool)
      requires Valid() && inBits < MAX_TRANSFER
      modifies this, buf
      ensures Valid() && slots == old(slots) + [Slot(tdi, tms, clock, sample)]
    {
      ghost var s := Slot(tdi, tms, clock, sample);
      PutHolds(buf[..], slots, s);
      Place(clock, tms, tdi, sample);
      inBits := inBits + 1;
      if sample {
        outBits := outBits + 1;
      }
      slots := slots + [s];
    }

    method Place(clock: bool, tms: bool, tdi: bool, sample: bool)
      requires buf.Length == CPLD_MAX_BYTES && inBits < MAX_TRANSFER
      modifies buf
      ensures buf[..] == Put(Cleared(old(buf[..]), inBits), inBits, Slot(tdi, tms, clock, sample))
    {
      var bitIdx := inBits % 4;
      var bufIdx := (inBits - bitIdx) / 2;
      if bitIdx == 0 {
        buf[bufIdx] := Zeros(8);
        buf[bufIdx + 1] := Zeros(8);
      }
      assert buf[..] == Cleared(old(buf[..]), inBits);
      buf[bufIdx] := MarkTwo(buf[bufIdx], tdi, tms, bitIdx);
      buf[bufIdx + 1] := MarkTwo(buf[bufIdx + 1], clock, sample, bitIdx);
    }

    /** Sends the changes; what was sampled is stored from the first word of tdo on. */
    method DoTransfer(device: Device, tdo: array?<Word>)
      requires Valid() && inBits > 0 && inBits % 4 != 0
      requires tdo != null ==> Samples(slots) <= 32 * tdo.Length
      modifies this, buf, device, tdo
      ensures Valid() && slots == []
      ensures device.pulses == old(device.pulses) + Clocked(old(slots))
      ensures tdo != null ==>
        WordBits(tdo[..]) == Stored(WordBits(old(tdo[..])), Sampled(device.env, |old(device.pulses)|, old(slots)))
    {
      ghost var c := Sampled(device.env, |device.pulses|, slots);
      ghost var noise := Noise(device.env, |device.pulses|);
      var bytes := Request(device);
      if outBits > 0 && tdo != null {
        Align(bytes, outBits, tdo, c, noise);
      } else if tdo != null {
        NothingStored(WordBits(tdo[..]));
      }
      Reset();
    }

    /** The exchange with the CPLD; its answer overwrites the buffer. */
    method Request(device: Device) returns (bytes: seq<Byte>)
      requires Valid() && inBits > 0 && inBits % 4 != 0
      modifies buf, device
      ensures device.pulses == old(device.pulses) + Clocked(slots)
      ensures Laid(bytes, Sampled(device.env, |old(device.pulses)|, slots), Noise(device.env, |old(device.pulses)|))
    {
      HeldSlots(buf[..], slots);
      var inLen, outLen := InLen(inBits), OutLen(outBits);
      device.Shift(inBits, inLen, buf, outLen);
      bytes := buf[..outLen];
    }
  }

  function InLen(inBits: nat): (n: nat)
    ensures n == SlotBytes(inBits) && (inBits <= MAX_TRANSFER ==> n <= CPLD_MAX_BYTES)
  {
    2 * (inBits / 4) + if inBits % 4 != 0 then 2 else 0
  }

  function OutLen(outBits: nat): (n: nat)
    ensures n == SampleBytes(outBits) && (outBits <= MAX_TRANSFER ==> n <= CPLD_MAX_BYTES)
  {
    2 * (outBits / 16) + if outBits % 16 != 0 then 2 else 0
  }

  lemma {:induction false} HeldSlots(buf: seq<Byte>, slots: seq<Slot>)
    requires Holds(buf, slots)
    ensures Slots(buf, |slots|) == slots
  {
    forall k | 0 <= k < |slots|
      ensures SlotAt(buf, k) == slots[k]
    {
      assert SlotAt(buf, k) == PlannedAt(slots, k);
    }
  }

  // ---------- Putting captured bits back into place ----------

  function WordBits(words: seq<Word>): (r: seq<bool>)
    ensures |r| == 32 * |words|
  {
    StreamBits(words, 32 * |words|)
  }

  /** The bits of n rounded up to whole words. */
  function Rounded(n: nat): (r: nat)
    ensures n <= r < n + 32 && r % 32 == 0
  {
    32 * ((n + 31) / 32)
  }

  lemma {:induction false} RoundedFits(n: nat, words: nat)
    requires n <= 32 * words
    ensures Rounded(n) <= 32 * words
  {
  }

  /** c at the start, zeros up to the end of its last word, and the old bits behind it. */
  function Stored(was: seq<bool>, c: seq<bool>): (r: seq<bool>)
    requires |was| % 32 == 0 && |c| <= |was|
    ensures |r| == |was|
  {
    RoundedFits(|c|, |was| / 32);
    c + Zeros(Rounded(|c|) - |c|) + was[Rounded(|c|)..]
  }

  lemma {:induction false} NothingStored(was: seq<bool>)
    requires |was| % 32 == 0
    ensures Stored(was, []) == was
  {
  }

  /** The response bytes hold c in the CPLD's layout. */
  ghost predicate Laid(bytes: seq<Byte>, c: seq<bool>, noise: seq<bool>)
  {
    |noise| == 16 && |bytes| == SampleBytes(|c|) && bytes == Pack(Layout(c, noise), |bytes|)
  }

  /** Where bit i of c is found. */
  function PlaceOf(n: nat, i: nat): nat
  {
    if i < 32 * (n / 32) then i else i + Gap(n)
  }

  lemma {:induction false} LaidAt(bytes: seq<Byte>, c: seq<bool>, noise: seq<bool>, i: nat)
    requires Laid(bytes, c, noise) && i < |c|
    ensures var p := PlaceOf(|c|, i); p / 8 < |bytes| && bytes[p / 8][p % 8] == c[i]
  {
    var p, l := PlaceOf(|c|, i), Layout(c, noise);
    assert l[p] == c[i];
    var q := p / 8;
    assert p == 8 * q + p % 8 && q < |bytes|;
    assert bytes[q] == l[8 * q..8 * q + 8];
  }

  method Align(bytes: seq<Byte>, outBits: nat, tdo: array<Word>, ghost c: seq<bool>, ghost noise: seq<bool>)
    requires Laid(bytes, c, noise) && outBits == |c| <= 32 * tdo.Length
    modifies tdo
    ensures WordBits(tdo[..]) == Stored(WordBits(old(tdo[..])), c)
  {
    CopyWords(bytes, outBits, tdo, c, noise);
    if outBits % 32 != 0 {
      CopyRest(bytes, outBits, tdo, c, noise);
    }
    AlignedBits(old(tdo[..]), tdo[..], c);
  }

  /** The full words. */
  method CopyWords(bytes: seq<Byte>, outBits: nat, tdo: array<Word>, ghost c: seq<bool>, ghost noise: seq<bool>)
    requires Laid(bytes, c, noise) && outBits == |c| <= 32 * tdo.Length
    modifies tdo
    ensures forall k :: 0 <= k < |c| / 32 ==> tdo[k] == c[32 * k..32 * k + 32]
    ensures forall k :: |c| / 32 <= k < tdo.Length ==> tdo[k] == old(tdo[k])
  {
    for k := 0 to outBits / 32
      invariant forall l :: 0 <= l < k ==> tdo[l] == c[32 * l..32 * l + 32]
      invariant forall l :: k <= l < tdo.Length ==> tdo[l] == old(tdo[l])
    {
      FullWord(bytes, c, noise, k);
      tdo[k] := FourBytes(bytes, 4 * k);
    }
  }

  /** The word in memory at p, on a little-endian host. */
  function FourBytes(bytes: seq<Byte>, p: nat): (w: Word)
    requires p + 3 < |bytes|
    ensures forall o :: 0 <= o < 32 ==> w[o] == bytes[p + o / 8][o % 8]
  {
    var a: seq<bool>, b: seq<bool>, c: seq<bool>, d: seq<bool> := bytes[p], bytes[p + 1], bytes[p + 2], bytes[p + 3];
    a + b + c + d
  }

  lemma {:induction false} FullWord(bytes: seq<Byte>, c: seq<bool>, noise: seq<bool>, k: nat)
    requires Laid(bytes, c, noise) && k < |c| / 32
    ensures 4 * k + 3 < |bytes| && FourBytes(bytes, 4 * k) == c[32 * k..32 * k + 32]
  {
    forall o | 0 <= o < 32
      ensures 4 * k + 3 < |bytes| && FourBytes(bytes, 4 * k)[o] == c[32 * k..32 * k + 32][o]
    {
      LaidAt(bytes, c, noise, 32 * k + o);
      assert (32 * k + o) / 8 == 4 * k + o / 8 && (32 * k + o) % 8 == o % 8;
    }
  }

  /** The bits behind the last full word, moved down by the gap. */
  method CopyRest(bytes: seq<Byte>, outBits: nat, tdo: array<Word>, ghost c: seq<bool>, ghost noise: seq<bool>)
    requires Laid(bytes, c, noise) && outBits == |c| <= 32 * tdo.Length && outBits % 32 != 0
    modifies tdo
    ensures tdo[|c| / 32] == c[32 * (|c| / 32)..] + Zeros(32 - |c| % 32)
    ensures forall k :: 0 <= k < tdo.Length && k != |c| / 32 ==> tdo[k] == old(tdo[k])
  {
    var shift := outBits % 16;
    if shift != 0 {
      shift := 16 - shift;
    }
    ghost var w, rest := outBits / 32, c[32 * (outBits / 32)..];
    for i := 32 * (outBits / 32) to outBits
      invariant forall k :: 0 <= k < tdo.Length && k != w ==> tdo[k] == old(tdo[k])
      invariant i > 32 * w ==> tdo[w] == Begun(rest, i - 32 * w)
    {
      MoveDown(bytes, shift, tdo, i, c, noise, w, rest);
    }
    assert rest[..|rest|] == rest;
  }

  method MoveDown(bytes: seq<Byte>, shift: nat, tdo: array<Word>, i: nat, ghost c: seq<bool>, ghost noise: seq<bool>,
                  ghost w: nat, ghost rest: seq<bool>)
    requires Laid(bytes, c, noise) && shift == Gap(|c|)
    requires w == |c| / 32 && w < tdo.Length && rest == c[32 * w..] && 32 * w <= i < |c|
    requires i > 32 * w ==> tdo[w] == Begun(rest, i - 32 * w)
    modifies tdo
    ensures forall k :: 0 <= k < tdo.Length && k != w ==> tdo[k] == old(tdo[k])
    ensures tdo[w] == Begun(rest, i - 32 * w + 1)
  {
    var bitNum := i + shift;
    LaidAt(bytes, c, noise, i);
    assert PlaceOf(|c|, i) == bitNum;
    ghost var n := i - 32 * w;
    BegunNext(rest, n);
    StoreBit(tdo, i, bytes[bitNum / 8][bitNum % 8], rest[..n], w);
  }

  /** A word into which the first n bits of s have been put. */
  function Begun(s: seq<bool>, n: nat): Word
    requires n <= |s| && n <= 32
  {
    s[..n] + Zeros(32 - n)
  }

  lemma {:induction false} BegunNext(s: seq<bool>, n: nat)
    requires n < |s| && n < 32
    ensures s[..n] + [s[n]] + Zeros(31 - n) == Begun(s, n + 1)
  {
  }

  method StoreBit(tdo: array<Word>, outDone: nat, bitVal: bool, ghost done: seq<bool>, ghost w: nat)
    requires w < tdo.Length && outDone == 32 * w + |done| && |done| < 32
    requires done != [] ==> tdo[w] == done + Zeros(32 - |done|)
    modifies tdo
    ensures forall k :: 0 <= k < tdo.Length && k != w ==> tdo[k] == old(tdo[k])
    ensures tdo[w] == done + [bitVal] + Zeros(31 - |done|)
  {
    if outDone % 32 == 0 {
      tdo[outDone / 32] := Zeros(32);
    }
    if bitVal {
      OneWordBit(done);
      tdo[outDone / 32] := Or(tdo[outDone / 32], Shl(NatBits(1, 32), outDone % 32));
    }
  }

  lemma {:induction false} OneWordBit(done: seq<bool>)
    requires |done| < 32
    ensures Or(done + Zeros(32 - |done|), Shl(NatBits(1, 32), |done|)) == done + [true] + Zeros(31 - |done|)
  {
    var mask, n := Shl(NatBits(1, 32), |done|), |done|;
    forall j | 0 <= j < 32
      ensures mask[j] <==> j == n
    {
      OneShifted(n, j);
    }
    assert Or(done + Zeros(32 - n), mask) == done + [true] + Zeros(31 - n);
  }

  lemma {:induction false} OneShifted(n: nat, j: nat)
    requires n < 32 && j < 32
    ensures Shl(NatBits(1, 32), n)[j] <==> j == n
  {
    if j > n {
      HighBitsZero(1, 1, 32, j - n);
    }
  }

  lemma {:induction false} AlignedBits(was: seq<Word>, now: seq<Word>, c: seq<bool>)
    requires |was| == |now| && |c| <= 32 * |was|
    requires forall k :: 0 <= k < |c| / 32 ==> now[k] == c[32 * k..32 * k + 32]
    requires |c| % 32 != 0 ==> now[|c| / 32] == c[32 * (|c| / 32)..] + Zeros(32 - |c| % 32)
    requires forall k :: (|c| + 31) / 32 <= k < |was| ==> now[k] == was[k]
    ensures WordBits(now) == Stored(WordBits(was), c)
  {
    forall i | 0 <= i < 32 * |now|
      ensures WordBits(now)[i] == Stored(WordBits(was), c)[i]
    {
      var k, o := i / 32, i % 32;
      assert i == 32 * k + o && k < |now|;
      AlignedBit(was, now, c, k, o);
    }
  }

  lemma {:induction false} AlignedBit(was: seq<Word>, now: seq<Word>, c: seq<bool>, k: nat, o: nat)
    requires |was| == |now| && |c| <= 32 * |was| && k < |was| && o < 32
    requires k < |c| / 32 ==> now[k] == c[32 * k..32 * k + 32]
    requires k == |c| / 32 && |c| % 32 != 0 ==> now[k] == c[32 * k..] + Zeros(32 - |c| % 32)
    requires (|c| + 31) / 32 <= k ==> now[k] == was[k]
    ensures WordBits(now)[32 * k + o] == Stored(WordBits(was), c)[32 * k + o]
  {
    WordBitAt(now, k, o);
    WordBitAt(was, k, o);
    StoredAt(WordBits(was), c, 32 * k + o);
  }

  lemma {:induction false} WordBitAt(words: seq<Word>, k: nat, o: nat)
    requires k < |words| && o < 32
    ensures WordBits(words)[32 * k + o] == words[k][o]
  {
  }

  lemma {:induction false} StoredAt(was: seq<bool>, c: seq<bool>, i: nat)
    requires |was| % 32 == 0 && |c| <= |was| && i < |was|
    ensures Stored(was, c)[i] == if i < |c| then c[i] else if i < Rounded(|c|) then false else was[i]
  {
  }

  // ---------- Whole streams ----------

  /** The changes that pulse the given levels, sampling each time. */
  function Driven(edges: seq<Edge>): (r: seq<Slot>)
    ensures |r| == |edges|
  {
    seq(|edges|, k requires 0 <= k < |edges| => Slot(edges[k].tdi, edges[k].tms, true, true))
  }

  lemma {:induction false} DrivenMeans(env: Env, from: nat, edges: seq<Edge>)
    ensures Clocked(Driven(edges)) == edges
    ensures Sampled(env, from, Driven(edges)) == Captured(env, from, |edges|)
    decreases |edges|
  {
    if edges != [] {
      var n := |edges| - 1;
      DrivenMeans(env, from, edges[..n]);
      assert Driven(edges)[..n] == Driven(edges[..n]);
      assert edges == edges[..n] + [edges[n]];
    }
  }

  /** A dummy change does nothing. */
  lemma {:induction false} DummyMeans(env: Env, from: nat, slots: seq<Slot>)
    ensures var d := slots + [Slot(false, false, false, false)];
      Clocked(d) == Clocked(slots) && Sampled(env, from, d) == Sampled(env, from, slots)
  {
    assert (slots + [Slot(false, false, false, false)])[..|slots|] == slots;
  }

  lemma {:induction false} DrivenNext(edges: seq<Edge>, base: nat, i: nat)
    requires base <= i < |edges|
    ensures Driven(edges[base..i + 1]) == Driven(edges[base..i]) + [Slot(edges[i].tdi, edges[i].tms, true, true)]
  {
  }

  /** What is left in the input words: every transfer stores from the first word on. */
  function StoredAll(was: seq<bool>, c: seq<bool>): (r: seq<bool>)
    requires |was| % 32 == 0 && |c| <= |was|
    ensures |r| == |was|
    decreases |c|
  {
    if |c| <= MAX_TRANSFER then Stored(was, c)
    else StoredAll(Stored(was, c[..MAX_TRANSFER]), c[MAX_TRANSFER..])
  }

  /** A full transfer done, the rest of c to come. */
  lemma {:induction false} FullTransfer(was: seq<bool>, c: seq<bool>)
    requires |was| % 32 == 0 && MAX_TRANSFER <= |c| <= |was|
    ensures StoredAll(was, c) == StoredAll(Stored(was, c[..MAX_TRANSFER]), c[MAX_TRANSFER..])
  {
    if |c| == MAX_TRANSFER {
      assert c[..MAX_TRANSFER] == c;
      NothingStored(Stored(was, c));
    }
  }

  lemma {:induction false} FirstBitStored(was: seq<bool>, c: seq<bool>) returns (b: nat)
    requires |was| % 32 == 0 && 0 < |c| <= |was|
    ensures b < |c| && StoredAll(was, c)[0] == c[b]
    ensures |c| > MAX_TRANSFER ==> b > 0
    decreases |c|
  {
    if |c| <= MAX_TRANSFER {
      b := 0;
    } else {
      b := FirstBitStored(Stored(was, c[..MAX_TRANSFER]), c[MAX_TRANSFER..]);
      b := b + MAX_TRANSFER;
    }
  }

  /**
   The captured bits come back in order, whatever they are, exactly when they fit in one transfer:
   a second one overwrites what the first one stored.
   */
  lemma {:induction false} ReadBackExact(was: seq<bool>, len: nat)
    requires |was| % 32 == 0 && len <= |was|
    ensures (forall c: seq<bool> | |c| == len :: StoredAll(was, c)[..len] == c) <==> len <= MAX_TRANSFER
  {
    if len > MAX_TRANSFER {
      var c := [true] + Zeros(len - 1);
      var b := FirstBitStored(was, c);
      assert |c| == len && !StoredAll(was, c)[..len][0];
    }
  }

  /** What a call is to achieve: pulses after start, and captured bits c stored over was. */
  datatype Goal = Goal(env: Env, start: seq<Edge>, edges: seq<Edge>, was: seq<bool>, c: seq<bool>)

  ghost predicate Sound(g: Goal)
  {
    g.c == Captured(g.env, |g.start|, |g.edges|)
  }

  /** One transfer carries the pulses and the captured bits from base to i. */
  lemma {:induction false} TransferMeans(g: Goal, base: nat, i: nat)
    requires Sound(g) && base <= i <= |g.edges|
    ensures var e := g.edges[base..i];
      && Clocked(Driven(e)) == e && (g.start + g.edges[..base]) + e == g.start + g.edges[..i]
      && Sampled(g.env, |g.start + g.edges[..base]|, Driven(e)) == g.c[base..i]
  {
    DrivenMeans(g.env, |g.start + g.edges[..base]|, g.edges[base..i]);
    assert (g.start + g.edges[..base]) + g.edges[base..i] == g.start + g.edges[..i];
  }

  lemma {:induction false} FullTransferAt(now: seq<bool>, c: seq<bool>, base: nat)
    requires |now| % 32 == 0 && base + MAX_TRANSFER <= |c| <= |now|
    ensures StoredAll(now, c[base..])
      == StoredAll(Stored(now, c[base..base + MAX_TRANSFER]), c[base + MAX_TRANSFER..])
  {
    FullTransfer(now, c[base..]);
    assert c[base..][..MAX_TRANSFER] == c[base..base + MAX_TRANSFER];
    assert c[base..][MAX_TRANSFER..] == c[base + MAX_TRANSFER..];
  }

  class Driver {
    const device: Device

    constructor (env: Env)
      ensures fresh(device) && device.env == env && device.pulses == []
    {
      device := new Device(env);
    }

    /** base changes have been transferred and the rest up to i collected. */
    ghost predicate Ongoing(g: Goal, xts: Transfer, instream: array?<Word>, base: nat, i: nat)
      reads xts, xts.buf, device, instream
    {
      && Sound(g) && g.env == device.env && base <= i <= |g.edges|
      && xts.Valid() && xts.slots == Driven(g.edges[base..i])
      && device.pulses == g.start + g.edges[..base]
      && (instream != null ==>
            && |g.was| == 32 * instream.Length && |g.c| <= |g.was|
            && StoredAll(g.was, g.c) == StoredAll(WordBits(instream[..]), g.c[base..]))
    }

    method Collect(ghost g: Goal, xts: Transfer, instream: array?<Word>, ghost base: nat, ghost i: nat, tms: bool,
                   tdi: bool)
      requires Ongoing(g, xts, instream, base, i) && i < |g.edges| && i - base < MAX_TRANSFER
      requires g.edges[i] == Edge(tdi, tms)
      modifies xts, xts.buf
      ensures Ongoing(g, xts, instream, base, i + 1)
    {
      DrivenNext(g.edges, base, i);
      xts.AddBit(true, tms, tdi, true);
    }

    /** A transfer in the middle of the stream. */
    method Send(ghost g: Goal, xts: Transfer, instream: array?<Word>, ghost base: nat, ghost i: nat)
      requires Ongoing(g, xts, instream, base, i) && i - base == MAX_TRANSFER
      modifies xts, xts.buf, device, instream
      ensures Ongoing(g, xts, instream, i, i)
    {
      TransferMeans(g, base, i);
      if instream != null {
        FullTransferAt(WordBits(instream[..]), g.c, base);
      }
      xts.DoTransfer(device, instream);
      assert g.edges[i..i] == [];
    }

    method SendIfFull(ghost g: Goal, xts: Transfer, instream: array?<Word>, ghost base: nat, ghost i: nat)
      returns (ghost base': nat)
      requires Ongoing(g, xts, instream, base, i) && i - base <= MAX_TRANSFER
      modifies xts, xts.buf, device, instream
      ensures base' <= i && Ongoing(g, xts, instream, base', i) && i - base' < MAX_TRANSFER
    {
      base' := base;
      if xts.inBits == MAX_TRANSFER {
        Send(g, xts, instream, base, i);
        base' := i;
      }
    }

    /** The last transfer, made longer by a dummy where its size is a multiple of 4. */
    method Finish(ghost g: Goal, xts: Transfer, instream: array?<Word>, ghost base: nat)
      requires Ongoing(g, xts, instream, base, |g.edges|) && |g.edges| - base < MAX_TRANSFER
      modifies xts, xts.buf, device, instream
      ensures device.pulses == g.start + g.edges
      ensures instream != null ==> WordBits(instream[..]) == StoredAll(g.was, g.c)
    {
      assert g.edges[..|g.edges|] == g.edges && g.c[base..|g.c|] == g.c[base..];
      TransferMeans(g, base, |g.edges|);
      if xts.inBits > 0 {
        SendRest(xts, instream);
      } else if instream != null {
        NothingStored(WordBits(instream[..]));
      }
    }

    method SendRest(xts: Transfer, instream: array?<Word>)
      requires xts.Valid() && 0 < |xts.slots| < MAX_TRANSFER
      requires instream != null ==> Samples(xts.slots) <= 32 * instream.Length
      modifies xts, xts.buf, device, instream
      ensures device.pulses == old(device.pulses) + Clocked(old(xts.slots))
      ensures instream != null ==>
        WordBits(instream[..])
          == Stored(WordBits(old(instream[..])), Sampled(device.env, |old(device.pulses)|, old(xts.slots)))
    {
      Pad(xts);
      xts.DoTransfer(device, instream);
    }

    method Pad(xts: Transfer)
      requires xts.Valid() && 0 < |xts.slots| < MAX_TRANSFER
      modifies xts, xts.buf
      ensures xts.Valid() && 0 < xts.inBits && xts.inBits % 4 != 0
      ensures Clocked(xts.slots) == Clocked(old(xts.slots))
      ensures Sampled(device.env, |device.pulses|, xts.slots) == Sampled(device.env, |device.pulses|, old(xts.slots))
    {
      if xts.inBits % 4 == 0 {
        DummyMeans(device.env, |device.pulses|, xts.slots);
        xts.AddBit(false, false, false, false);
      }
    }

    /** One turn of the loop: the next bit is collected, and a full buffer is sent. */
    method Advance(ghost g: Goal, xts: Transfer, outstream: array?<Word>, instream: array?<Word>, ghost base: nat,
                   i: nat, len: nat, setLastBit: bool) returns (ghost base': nat)
      requires Ongoing(g, xts, instream, base, i) && i - base < MAX_TRANSFER && i < len
      requires outstream != null ==> len <= 32 * outstream.Length
      requires g.edges == StreamPulses(Outgoing(Words(outstream), len), setLastBit)
      modifies xts, xts.buf, device, instream
      ensures base' <= i + 1 && Ongoing(g, xts, instream, base', i + 1) && i + 1 - base' < MAX_TRANSFER
    {
      var bitval := outstream != null && outstream[i / 32][i % 32];
      var tms := if i == len - 1 then setLastBit else false;
      Collect(g, xts, instream, base, i, tms, bitval);
      base' := SendIfFull(g, xts, instream, base, i + 1);
    }

    /** The loop over all bits. */
    method CollectAll(ghost g: Goal, xts: Transfer, outstream: array?<Word>, instream: array?<Word>, len: nat,
                      setLastBit: bool)
      returns (ghost base: nat)
      requires Ongoing(g, xts, instream, 0, 0) && (outstream == null || outstream != instream)
      requires outstream != null ==> len <= 32 * outstream.Length
      requires g.edges == StreamPulses(Outgoing(Words(outstream), len), setLastBit)
      modifies xts, xts.buf, device, instream
      ensures base <= len && Ongoing(g, xts, instream, base, len) && len - base < MAX_TRANSFER
    {
      base := 0;
      var i := 0;
      while i < len
        invariant base <= i <= len && Words(outstream) == old(Words(outstream))
        invariant Ongoing(g, xts, instream, base, i) && i - base < MAX_TRANSFER
      {
        base := Advance(g, xts, outstream, instream, base, i, len, setLastBit);
        i := i + 1;
      }
    }

    method ReadWriteStream(outstream: array?<Word>, instream: array?<Word>, len: nat, setLastBit: bool)
      requires outstream != null ==> len <= 32 * outstream.Length
      requires instream != null ==> len <= 32 * instream.Length
      requires outstream == null || outstream != instream
      modifies device, instream
      ensures device.pulses == old(device.pulses) + StreamPulses(Outgoing(old(Words(outstream)), len), setLastBit)
      ensures instream != null ==>
        WordBits(instream[..])
          == StoredAll(WordBits(old(instream[..])), Captured(device.env, |old(device.pulses)|, len))
    {
      var xts := new Transfer();
      ghost var out := Words(outstream);
      ghost var g := Goal(device.env, device.pulses, StreamPulses(Outgoing(out, len), setLastBit),
        if instream != null then WordBits(instream[..]) else [], Captured(device.env, |device.pulses|, len));
      ghost var base;
      assert g.edges[0..0] == [] && g.edges[..0] == [] && g.c[0..] == g.c;
      base := CollectAll(g, xts, outstream, instream, len, setLastBit);
      Finish(g, xts, instream, base);
    }
  }

  ghost function Words(a: array?<Word>): seq<Word>
    reads a
  {
    if a == null then [] else a[..]
  }

  /** The bits sent; without a buffer, zeros. */
  function Outgoing(words: seq<Word>, len: nat): (r: seq<bool>)
    ensures |r| == len
  {
    seq(len, i requires 0 <= i < len => i / 32 < |words| && words[i / 32][i % 32])
  }
}
