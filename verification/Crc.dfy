/**
 The two CRC generators of the debug protocols: the reflected CRC-32 of the advanced debug unit
 and the MSB-first CRC-32 of the legacy one.
 */
module Crc {
  import opened Bits

  /** The set bits of 0xedb88320; they are also the taps of the hardware generator. */
  predicate Tap(i: int)
  {
    i in {5, 8, 9, 15, 19, 20, 21, 23, 24, 26, 27, 29, 30, 31}
  }

  /** ADBG_CRC_POLY. */
  function Poly(): (p: Word)
    ensures forall i :: 0 <= i < 32 ==> p[i] == Tap(i)
  {
    seq(32, i => Tap(i))
  }

  /** The value as the source writes it. */
  lemma {:induction false} PolyValue()
    ensures NatOf(Poly()) == 0xedb88320
  {
    TapsValue(Poly());
  }

  lemma {:induction false} TapsValue(p: seq<bool>)
    requires |p| == 32 && forall i :: 0 <= i < 32 ==> p[i] == Tap(i)
    ensures NatOf(p) == 0xedb88320
  {
    TapDigits(p);
    NatOfDigits(p, 0x0, 0x2, 0x3, 0x8, 0x8, 0xb, 0xd, 0xe);
  }

  lemma {:induction false} TapDigits(p: seq<bool>)
    requires |p| == 32 && forall i :: 0 <= i < 32 ==> p[i] == Tap(i)
    ensures Nibble(p, 0) == 0x0 && Nibble(p, 4) == 0x2 && Nibble(p, 8) == 0x3 && Nibble(p, 12) == 0x8
    ensures Nibble(p, 16) == 0x8 && Nibble(p, 20) == 0xb && Nibble(p, 24) == 0xd && Nibble(p, 28) == 0xe
  {
  }

  /** One bit through the generator. */
  function Step(c: Word, b: bool): Word
  {
    Xor(Shr(c, 1), And(Mask(b != c[0], 32), Poly()))
  }

  function Fold(c: Word, s: seq<bool>): Word
    decreases s
  {
    if s == [] then c else Fold(Step(c, s[0]), s[1..])
  }

  /** The bitwise loop of adbg_compute_crc folds the low bits of the data word, LSB first. */
  method ComputeCrc(crcIn: Word, dataIn: Word, lengthBits: int) returns (crcOut: Word)
    requires lengthBits <= 32
    ensures crcOut == Fold(crcIn, dataIn[..if lengthBits < 0 then 0 else lengthBits])
  {
    ghost var n := if lengthBits < 0 then 0 else lengthBits;
    crcOut := crcIn;
    var i := 0;
    while i < lengthBits
      invariant 0 <= i <= n
      invariant Fold(crcIn, dataIn[..n]) == Fold(crcOut, dataIn[i..n])
    {
      ghost var before := crcOut;
      var d := Mask(Shr(dataIn, i)[0], 32);
      var c := Mask(crcOut[0], 32);
      crcOut := Shr(crcOut, 1);
      crcOut := Xor(crcOut, And(Xor(d, c), Poly()));
      assert crcOut == Step(before, dataIn[i]);
      assert dataIn[i..n][1..] == dataIn[i + 1..n];
      i := i + 1;
    }
  }

  lemma {:induction false} FoldConcat(c: Word, a: seq<bool>, b: seq<bool>)
    ensures Fold(c, a + b) == Fold(Fold(c, a), b)
    decreases a
  {
    if a == [] {
      assert a + b == b;
    } else {
      assert (a + b)[1..] == a[1..] + b;
      FoldConcat(Step(c, a[0]), a[1..], b);
    }
  }

  // ---------- Linearity, and the states that reach zero ----------

  lemma {:induction false} FoldLinear(c1: Word, c2: Word, a: seq<bool>, b: seq<bool>)
    requires |a| == |b|
    ensures Xor(Fold(c1, a), Fold(c2, b)) == Fold(Xor(c1, c2), Xor(a, b))
    decreases a
  {
    if a != [] {
      assert Xor(Step(c1, a[0]), Step(c2, b[0])) == Step(Xor(c1, c2), a[0] != b[0]);
      assert Xor(a, b)[1..] == Xor(a[1..], b[1..]);
      FoldLinear(Step(c1, a[0]), Step(c2, b[0]), a[1..], b[1..]);
    }
  }

  lemma {:induction false} XorZero(p: seq<bool>, q: seq<bool>)
    requires |p| == |q|
    ensures Xor(p, q) == Zeros(|p|) <==> p == q
  {
    if Xor(p, q) == Zeros(|p|) {
      forall i | 0 <= i < |p|
        ensures p[i] == q[i]
      {
        assert Xor(p, q)[i] == Zeros(|p|)[i];
      }
    }
  }

  lemma {:induction false} StepCases(c: Word, b: bool)
    ensures b == c[0] ==> Step(c, b) == c[1..] + [false]
    ensures b != c[0] ==> Step(c, b)[31]
  {
  }

  lemma {:induction false} FoldInjective(c1: Word, c2: Word, s: seq<bool>)
    requires c1 != c2
    ensures Fold(c1, s) != Fold(c2, s)
    decreases s
  {
    if s != [] {
      var d1, d2 := Step(c1, s[0]), Step(c2, s[0]);
      if d1 == d2 {
        assert d1[31] == (s[0] != c1[0]) && d2[31] == (s[0] != c2[0]);
        forall i | 1 <= i < 32
          ensures c1[i] == c2[i]
        {
          assert d1[i - 1] == d2[i - 1];
        }
      }
      FoldInjective(d1, d2, s[1..]);
    }
  }

  /**
   A state is driven to zero by k <= 32 input bits exactly when it fits in k bits and the input
   is those bits.
   */
  lemma {:induction false} ReachesZero(c: Word, s: seq<bool>)
    requires |s| <= 32
    ensures Fold(c, s) == Zeros(32) <==> c == s + Zeros(32 - |s|)
    decreases s
  {
    if s == [] {
      assert [] + Zeros(32) == Zeros(32);
    } else {
      var next := Step(c, s[0]);
      ReachesZero(next, s[1..]);
      StepCases(c, s[0]);
      var target := s[1..] + Zeros(32 - |s[1..]|);
      assert target[31] == false;
      assert target == (s + Zeros(32 - |s|))[1..] + [false];
      if c[0] == s[0] {
        if next == target {
          assert c[1..] == next[..31];
        }
      }
    }
  }

  // ---------- Error detection ----------

  /** a and b agree everywhere outside the 32 positions from lo on. */
  ghost predicate DifferInWindow(a: seq<bool>, b: seq<bool>, lo: nat)
  {
    |a| == |b| && forall i :: 0 <= i < |a| && !(lo <= i < lo + 32) ==> a[i] == b[i]
  }

  /** Every error burst of up to 32 bits changes the CRC, whatever the start state. */
  lemma {:induction false} BurstDetected(c: Word, a: seq<bool>, b: seq<bool>, lo: nat)
    requires DifferInWindow(a, b, lo) && a != b
    ensures Fold(c, a) != Fold(c, b)
  {
    var start := if lo <= |a| then lo else |a|;
    var stop := if lo + 32 <= |a| then lo + 32 else |a|;
    var x, y := a[start..stop], b[start..stop];
    assert a == a[..start] + x + a[stop..];
    assert b == b[..start] + y + b[stop..];
    assert a[..start] == b[..start] && a[stop..] == b[stop..];
    var mid := Fold(c, a[..start]);
    FoldConcat(c, a[..start] + x, a[stop..]);
    FoldConcat(c, b[..start] + y, b[stop..]);
    FoldConcat(c, a[..start], x);
    FoldConcat(c, b[..start], y);
    WindowDetected(mid, x, y);
    FoldInjective(Fold(mid, x), Fold(mid, y), a[stop..]);
  }

  lemma {:induction false} WindowDetected(c: Word, x: seq<bool>, y: seq<bool>)
    requires |x| == |y| <= 32 && x != y
    ensures Fold(c, x) != Fold(c, y)
  {
    FoldLinear(c, c, x, y);
    XorZero(c, c);
    XorZero(Fold(c, x), Fold(c, y));
    ReachesZero(Zeros(32), Xor(x, y));
    var k :| 0 <= k < |x| && x[k] != y[k];
    assert Xor(x, y)[k] != Zeros(32)[k];
  }

  lemma {:induction false} GeneratorFoldsToZero()
    ensures Fold(Zeros(32), [true] + Poly()) == Zeros(32)
  {
    var p := Poly();
    assert Step(Zeros(32), true) == p;
    assert ([true] + p)[1..] == p;
    assert p + Zeros(0) == p;
    ReachesZero(p, p);
  }

  lemma {:induction false} DifferenceUnseen(c: Word, x: seq<bool>, g: seq<bool>)
    requires |x| == |g| && Fold(Zeros(32), g) == Zeros(32)
    ensures Fold(c, x) == Fold(c, Xor(x, g))
  {
    var y := Xor(x, g);
    FoldLinear(c, c, x, y);
    XorZero(c, c);
    XorZero(Fold(c, x), Fold(c, y));
    assert Xor(x, y) == g;
  }

  /** The bound is sharp: flipping the 33 bits of the generator itself is never noticed. */
  lemma {:induction false} Burst33Missed(c: Word, pre: seq<bool>, x: seq<bool>, post: seq<bool>)
    requires |x| == 33
    ensures var g := [true] + Poly();
            Xor(x, g) != x && Fold(c, pre + x + post) == Fold(c, pre + Xor(x, g) + post)
  {
    var g := [true] + Poly();
    var y := Xor(x, g);
    assert y[0] != x[0];
    GeneratorFoldsToZero();
    DifferenceUnseen(Fold(c, pre), x, g);
    FoldConcat(c, pre + x, post);
    FoldConcat(c, pre + y, post);
    FoldConcat(c, pre, x);
    FoldConcat(c, pre, y);
  }

  /** A 32-bit trailer brings the state to zero exactly when it is the message's own CRC. */
  lemma {:induction false} OwnCrc(c: Word, m: seq<bool>, trailer: Word)
    ensures Fold(c, m + trailer) == Zeros(32) <==> trailer == Fold(c, m)
  {
    FoldConcat(c, m, trailer);
    ReachesZero(Fold(c, m), trailer);
    assert trailer + Zeros(0) == trailer;
  }

  // ---------- Byte-wise and word-wise folding ----------

  /** The low byte of w after a right shift by k, as the C cast to uint8_t takes it. */
  function ByteAt(w: Word, k: nat): Byte
    requires k < 32
  {
    Shr(w, k)[..8]
  }

  /** Folding a word is folding its four bytes, low byte first. */
  lemma {:induction false} ByteWise(c: Word, w: Word)
    ensures Fold(c, w)
         == Fold(Fold(Fold(Fold(c, ByteAt(w, 0)), ByteAt(w, 8)), ByteAt(w, 16)), ByteAt(w, 24))
  {
    assert w == w[..24] + ByteAt(w, 24);
    assert w[..24] == w[..16] + ByteAt(w, 16);
    assert w[..16] == ByteAt(w, 0) + ByteAt(w, 8);
    FoldConcat(c, w[..24], ByteAt(w, 24));
    FoldConcat(c, w[..16], ByteAt(w, 16));
    FoldConcat(c, ByteAt(w, 0), ByteAt(w, 8));
  }
}
