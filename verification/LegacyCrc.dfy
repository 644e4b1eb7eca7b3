/**
 The legacy debug interface: words go out most significant bit first while a running CRC is kept
 in a signed 32-bit variable.
 */
module LegacyCrc {
  import opened Bits
  import Crc

  /** The set bits of LEGACY_CRC_POLY, 0x04c11db7. */
  predicate Tap(i: int)
  {
    i in {0, 1, 2, 4, 5, 7, 8, 10, 11, 12, 16, 22, 23, 26}
  }

  /** LEGACY_CRC_POLY as an unsigned long. */
  function Poly(): (p: seq<bool>)
    ensures |p| == 64 && forall i :: 0 <= i < 64 ==> p[i] == Tap(i)
  {
    seq(64, i => Tap(i))
  }

  /** The value as the source writes it. */
  lemma {:induction false} PolyValue()
    ensures NatOf(Poly()) == 0x04c11db7
  {
    TapsValue(Poly());
  }

  lemma {:induction false} TapsValue(p: seq<bool>)
    requires |p| == 64 && forall i :: 0 <= i < 64 ==> p[i] == Tap(i)
    ensures NatOf(p) == 0x04c11db7
  {
    TapDigits(p);
    NatOfDigits(p, 0x7, 0xb, 0xd, 0x1, 0x1, 0xc, 0x4, 0x0);
  }

  lemma {:induction false} TapDigits(p: seq<bool>)
    requires |p| == 64 && forall i :: 0 <= i < 64 ==> p[i] == Tap(i)
    ensures Nibble(p, 0) == 0x7 && Nibble(p, 4) == 0xb && Nibble(p, 8) == 0xd && Nibble(p, 12) == 0x1
    ensures Nibble(p, 16) == 0x1 && Nibble(p, 20) == 0xc && Nibble(p, 24) == 0x4 && Nibble(p, 28) == 0x0
  {
  }

  /** The mask 0xfffffff: the source writes seven f's, so only 28 bits are set. */
  function Mask28(cond: bool): (r: seq<bool>)
    ensures |r| == 64 && forall i :: 0 <= i < 64 ==> r[i] == (i < 28 && cond)
  {
    Mask(cond, 28) + Zeros(36)
  }

  /** legacy_crc_calc on a 64-bit unsigned long. */
  function CrcCalc(crc: seq<bool>, inputBit: bool): (r: seq<bool>)
    requires |crc| == 64
    ensures |r| == 64
  {
    var d := Mask28(inputBit);
    var crc32 := Mask28(crc[31]);
    Xor(Shl(crc, 1), And(Xor(d, crc32), Poly()))
  }

  /** Passing the int accumulator to an unsigned long parameter sign-extends it. */
  function SignExtend(w: Word): (r: seq<bool>)
    ensures |r| == 64
  {
    w + Mask(w[31], 32)
  }

  /** One accumulator update: widen, calculate, truncate back to int. */
  function Step(w: Word, b: bool): Word
  {
    CrcCalc(SignExtend(w), b)[..32]
  }

  function Fold(w: Word, s: seq<bool>): Word
    decreases s
  {
    if s == [] then w else Fold(Step(w, s[0]), s[1..])
  }

  lemma {:induction false} FoldConcat(w: Word, a: seq<bool>, b: seq<bool>)
    ensures Fold(w, a + b) == Fold(Fold(w, a), b)
    decreases a
  {
    if a == [] {
      assert a + b == b;
    } else {
      assert (a + b)[1..] == a[1..] + b;
      FoldConcat(Step(w, a[0]), a[1..], b);
    }
  }

  /** A step of the legacy generator is the mirror image of a step of the advanced one. */
  lemma {:induction false} StepReversed(w: Word, b: bool)
    ensures Reverse(Step(w, b)) == Crc.Step(Reverse(w), b)
  {
    var l, r := Step(w, b), Crc.Step(Reverse(w), b);
    forall i | 0 <= i < 32
      ensures l[31 - i] == r[i]
    {
      assert Tap(31 - i) == Crc.Tap(i);
    }
  }

  lemma {:induction false} FoldReversed(w: Word, s: seq<bool>)
    ensures Reverse(Fold(w, s)) == Crc.Fold(Reverse(w), s)
    decreases s
  {
    if s != [] {
      StepReversed(w, s[0]);
      FoldReversed(Step(w, s[0]), s[1..]);
    }
  }

  /** The low len bits of w, most significant first: the order of a legacy transfer. */
  function MsbFirst(w: Word, len: nat): (s: seq<bool>)
    requires len <= 32
    ensures |s| == len
  {
    Reverse(w[..len])
  }

  /** The low n bits of w turned around, and zeros. */
  function Turned(w: Word, n: nat): Word
    requires n <= 32
  {
    Reverse(w[..n]) + Zeros(32 - n)
  }

  /** One more bit enters at the bottom, and unless it is the last one all move up. */
  lemma {:induction false} TurnNext(w: Word, n: nat)
    requires n < 32
    ensures var out := Or(Shl(Turned(w, n), 1), [w[n]] + Zeros(31)); out == Turned(w, n + 1)
    ensures Shr(w[n..] + Zeros(n), 1) == w[n + 1..] + Zeros(n + 1)
  {
  }

  /** The loop both stream functions use to turn the low len bits of a word around. */
  method ReverseLow(stream: Word, len: nat) returns (outdata: Word)
    requires len <= 32
    ensures outdata == Turned(stream, len)
  {
    outdata := Zeros(32);
    var rest: Word := stream;
    for i := 0 to len
      invariant i < len ==> rest == stream[i..] + Zeros(i)
      invariant outdata == if i < len then Shl(Turned(stream, i), 1) else Turned(stream, len)
    {
      TurnNext(stream, i);
      outdata := Or(outdata, [rest[0]] + Zeros(31));
      if i < len - 1 {
        outdata := Shl(outdata, 1);
        rest := Shr(rest, 1);
      }
    }
  }

  /** The loop that runs an accumulator over a word from bit len-1 down to bit 0. */
  method FoldMsbFirst(crc: Word, word: Word, len: nat) returns (r: Word)
    requires len <= 32
    ensures r == Fold(crc, MsbFirst(word, len))
  {
    ghost var bits := MsbFirst(word, len);
    r := crc;
    var i := len - 1;
    while i >= 0
      invariant -1 <= i < len
      invariant Fold(crc, bits) == Fold(r, bits[len - 1 - i..])
    {
      assert bits[len - 1 - i] == word[i];
      r := Step(r, Shr(word, i)[0]);
      assert bits[len - 1 - i..][1..] == bits[len - i..];
      i := i - 1;
    }
  }

  /** The static accumulators of the legacy driver, and the line it writes to. */
  class Port {
    var crcR: Word
    var crcW: Word
    var wire: seq<bool>

    constructor ()
      ensures crcR == crcW == Ones(32) && wire == []
    {
      crcR, crcW, wire := Ones(32), Ones(32), [];
    }

    /**
     legacy_write_stream: bit-reverse the word into outdata, shift that out LSB first, then run
     the CRC over the untouched copy from bit len-1 down to bit 0.
     */
    method WriteStream(stream: Word, len: nat)
      requires len <= 32
      modifies this`crcW, this`wire
      ensures wire == old(wire) + MsbFirst(stream, len)
      ensures crcW == Fold(old(crcW), MsbFirst(stream, len))
    {
      var outdata := ReverseLow(stream, len);
      assert outdata[..len] == MsbFirst(stream, len);
      wire := wire + outdata[..len];
      crcW := FoldMsbFirst(crcW, stream, len);
    }

    /**
     legacy_read_stream: the word goes out unreversed while indata comes in; the bits received,
     first bit highest, are the result. What indata holds above len is unknown.
     */
    method ReadStream(stream: Word, len: nat, indata: Word) returns (data: Word)
      requires len <= 32
      modifies this
      ensures wire == old(wire) + stream[..len]
      ensures MsbFirst(data, len) == indata[..len] && forall k :: len <= k < 32 ==> !data[k]
      ensures crcR == Fold(old(crcR), indata[..len])
      ensures crcW == Fold(old(crcW), MsbFirst(stream, len))
    {
      wire := wire + stream[..len];
      data := ReverseLow(indata, len);
      assert MsbFirst(data, len) == indata[..len];
      crcW := FoldMsbFirst(crcW, stream, len);
      crcR := FoldMsbFirst(crcR, data, len);
    }
  }

  /** Two inputs of at most 32 bits that drive an accumulator to the same value are the same. */
  lemma {:induction false} FoldDetects(w: Word, a: seq<bool>, b: seq<bool>)
    requires |a| == |b| <= 32
    ensures Fold(w, a) == Fold(w, b) <==> a == b
  {
    if a != b {
      FoldReversed(w, a);
      FoldReversed(w, b);
      Crc.BurstDetected(Reverse(w), a, b, 0);
    }
  }

  /**
   During a read the word goes out lowest bit first while the write accumulator runs over it
   highest bit first: the accumulator is the CRC of the wire exactly when the word reads the same
   both ways, as the zero word of every caller does.
   */
  lemma {:induction false} ReadKeepsWire(w: Word, stream: Word, len: nat)
    requires len <= 32
    ensures Fold(w, MsbFirst(stream, len)) == Fold(w, stream[..len])
       <==> forall k :: 0 <= k < len ==> stream[k] == stream[len - 1 - k]
    ensures Fold(w, MsbFirst(Zeros(32), len)) == Fold(w, Zeros(32)[..len])
  {
    FoldDetects(w, MsbFirst(stream, len), stream[..len]);
    assert MsbFirst(Zeros(32), len) == Zeros(32)[..len];
    if MsbFirst(stream, len) == stream[..len] {
      forall k | 0 <= k < len
        ensures stream[k] == stream[len - 1 - k]
      {
        assert MsbFirst(stream, len)[k] == stream[..len][k];
      }
    }
  }

  datatype Transfer = Transfer(word: Word, len: nat)

  /** The bits of a run of transfers, in wire order. */
  function Wire(calls: seq<Transfer>): seq<bool>
    requires forall t :: t in calls ==> t.len <= 32
  {
    if calls == [] then [] else MsbFirst(calls[0].word, calls[0].len) + Wire(calls[1..])
  }

  /** The accumulator after a run of transfers. */
  function Run(w: Word, calls: seq<Transfer>): Word
    requires forall t :: t in calls ==> t.len <= 32
    decreases calls
  {
    if calls == [] then w
    else Run(Fold(w, MsbFirst(calls[0].word, calls[0].len)), calls[1..])
  }

  /**
   The two CRCs are one code: after any run of transfers from 0xffffffff the accumulator is the
   CRC of the wire bits, and it is the bit reversal of the advanced CRC of those bits.
   */
  lemma {:induction false} OneCode(calls: seq<Transfer>)
    requires forall t :: t in calls ==> t.len <= 32
    ensures Run(Ones(32), calls) == Fold(Ones(32), Wire(calls))
    ensures Reverse(Run(Ones(32), calls)) == Crc.Fold(Ones(32), Wire(calls))
  {
    RunIsFold(Ones(32), calls);
    FoldReversed(Ones(32), Wire(calls));
    assert Reverse(Ones(32)) == Ones(32);
  }

  lemma {:induction false} RunIsFold(w: Word, calls: seq<Transfer>)
    requires forall t :: t in calls ==> t.len <= 32
    ensures Run(w, calls) == Fold(w, Wire(calls))
    decreases calls
  {
    if calls != [] {
      var first := MsbFirst(calls[0].word, calls[0].len);
      RunIsFold(Fold(w, first), calls[1..]);
      FoldConcat(w, first, Wire(calls[1..]));
    }
  }

  /** Sending the accumulator after a run leaves the receiver's generator at zero. */
  lemma {:induction false} OwnCrcClears(calls: seq<Transfer>)
    requires forall t :: t in calls ==> t.len <= 32
    ensures var own := Run(Ones(32), calls);
            Fold(Ones(32), Wire(calls) + MsbFirst(own, 32)) == Zeros(32)
  {
    var own := Run(Ones(32), calls);
    var trailer := MsbFirst(own, 32);
    OneCode(calls);
    assert own[..32] == own;
    Crc.OwnCrc(Ones(32), Wire(calls), trailer);
    FoldReversed(Ones(32), Wire(calls) + trailer);
    assert Reverse(Ones(32)) == Ones(32);
    ReverseZero(Fold(Ones(32), Wire(calls) + trailer));
  }

  lemma {:induction false} ReverseZero(w: Word)
    ensures Reverse(w) == Zeros(32) ==> w == Zeros(32)
  {
    if Reverse(w) == Zeros(32) {
      forall i | 0 <= i < 32
        ensures !w[i]
      {
        assert Reverse(w)[31 - i] == w[i];
      }
    }
  }
}
