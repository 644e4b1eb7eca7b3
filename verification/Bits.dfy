/**
 Machine words as sequences of bits, least significant bit first, with the C operators the
 sources use on them. Index i of a word is its bit i, so a word is also the order in which its
 bits travel on the wire.
 */
module Bits {

  type Word = w: seq<bool> | |w| == 32 witness seq(32, i => false)

  type Byte = b: seq<bool> | |b| == 8 witness seq(8, i => false)

  function Zeros(n: nat): (r: seq<bool>)
    ensures |r| == n && forall i :: 0 <= i < n ==> !r[i]
  {
    seq(n, i => false)
  }

  function Ones(n: nat): (r: seq<bool>)
    ensures |r| == n && forall i :: 0 <= i < n ==> r[i]
  {
    seq(n, i => true)
  }

  /** The C idiom `cond ? 0xff..ff : 0` on n bits. */
  function Mask(cond: bool, n: nat): (r: seq<bool>)
    ensures |r| == n && forall i :: 0 <= i < n ==> r[i] == cond
  {
    seq(n, i => cond)
  }

  function And(a: seq<bool>, b: seq<bool>): (r: seq<bool>)
    requires |a| == |b|
    ensures |r| == |a| && forall i :: 0 <= i < |a| ==> r[i] == (a[i] && b[i])
  {
    seq(|a|, i requires 0 <= i < |a| => a[i] && b[i])
  }

  function Or(a: seq<bool>, b: seq<bool>): (r: seq<bool>)
    requires |a| == |b|
    ensures |r| == |a| && forall i :: 0 <= i < |a| ==> r[i] == (a[i] || b[i])
  {
    seq(|a|, i requires 0 <= i < |a| => a[i] || b[i])
  }

  function Xor(a: seq<bool>, b: seq<bool>): (r: seq<bool>)
    requires |a| == |b|
    ensures |r| == |a| && forall i :: 0 <= i < |a| ==> r[i] == (a[i] != b[i])
  {
    seq(|a|, i requires 0 <= i < |a| => a[i] != b[i])
  }

  function Not(a: seq<bool>): (r: seq<bool>)
    ensures |r| == |a| && forall i :: 0 <= i < |a| ==> r[i] == !a[i]
  {
    seq(|a|, i requires 0 <= i < |a| => !a[i])
  }

  /** Left shift; like the C operator it is defined only for counts below the width. */
  function Shl(a: seq<bool>, n: nat): (r: seq<bool>)
    requires n < |a|
    ensures |r| == |a| && forall i :: 0 <= i < |a| ==> r[i] == (n <= i && a[i - n])
  {
    seq(|a|, i requires 0 <= i < |a| => n <= i && a[i - n])
  }

  /** Logical right shift; defined only for counts below the width. */
  function Shr(a: seq<bool>, n: nat): (r: seq<bool>)
    requires n < |a|
    ensures |r| == |a| && forall i :: 0 <= i < |a| ==> r[i] == (i + n < |a| && a[i + n])
  {
    seq(|a|, i requires 0 <= i < |a| => i + n < |a| && a[i + n])
  }

  function Reverse(s: seq<bool>): (r: seq<bool>)
    ensures |r| == |s| && forall i :: 0 <= i < |s| ==> r[i] == s[|s| - 1 - i]
  {
    seq(|s|, i requires 0 <= i < |s| => s[|s| - 1 - i])
  }

  // ---------- Bits and numbers ----------

  function Pow2(n: nat): (p: nat)
    ensures p > 0
  {
    if n == 0 then 1 else 2 * Pow2(n - 1)
  }

  /** The low n bits of v. */
  function NatBits(v: nat, n: nat): (s: seq<bool>)
    ensures |s| == n
  {
    if n == 0 then [] else [v % 2 == 1] + NatBits(v / 2, n - 1)
  }

  function NatOf(s: seq<bool>): nat
  {
    if s == [] then 0 else (if s[0] then 1 else 0) + 2 * NatOf(s[1..])
  }

  function Bit(b: bool): nat
  {
    if b then 1 else 0
  }

  /** The hexadecimal digit of the bits from k on. */
  function Nibble(s: seq<bool>, k: nat): nat
    requires k + 4 <= |s|
  {
    Bit(s[k]) + 2 * Bit(s[k + 1]) + 4 * Bit(s[k + 2]) + 8 * Bit(s[k + 3])
  }

  lemma {:induction false} NatOfFrom(s: seq<bool>, k: nat)
    requires k < |s|
    ensures NatOf(s[k..]) == Bit(s[k]) + 2 * NatOf(s[k + 1..])
  {
    assert s[k..][0] == s[k] && s[k..][1..] == s[k + 1..];
  }

  /** Numbers digit by digit. */
  lemma {:induction false} NatOfNibble(s: seq<bool>, k: nat, digit: nat)
    requires k + 4 <= |s| && Nibble(s, k) == digit
    ensures NatOf(s[k..]) == digit + 16 * NatOf(s[k + 4..])
  {
    NatOfFrom(s, k);
    NatOfFrom(s, k + 1);
    NatOfFrom(s, k + 2);
    NatOfFrom(s, k + 3);
  }

  /** A word is worth what its eight hexadecimal digits say. */
  lemma {:induction false} NatOfDigits(s: seq<bool>, a: nat, b: nat, c: nat, d: nat, e: nat, f: nat, g: nat, h: nat)
    requires |s| >= 32 && forall i :: 32 <= i < |s| ==> !s[i]
    requires Nibble(s, 0) == a && Nibble(s, 4) == b && Nibble(s, 8) == c && Nibble(s, 12) == d
    requires Nibble(s, 16) == e && Nibble(s, 20) == f && Nibble(s, 24) == g && Nibble(s, 28) == h
    ensures NatOf(s) == a + 16 * (b + 16 * (c + 16 * (d + 16 * (e + 16 * (f + 16 * (g + 16 * h))))))
  {
    NatOfNibble(s, 0, a);
    NatOfNibble(s, 4, b);
    NatOfNibble(s, 8, c);
    NatOfNibble(s, 12, d);
    NatOfNibble(s, 16, e);
    NatOfNibble(s, 20, f);
    NatOfNibble(s, 24, g);
    NatOfNibble(s, 28, h);
    NatOfZeros(s[32..]);
    assert s[0..] == s;
  }

  lemma {:induction false} NatOfZeros(s: seq<bool>)
    requires forall i :: 0 <= i < |s| ==> !s[i]
    ensures NatOf(s) == 0
  {
    if s != [] {
      NatOfZeros(s[1..]);
    }
  }

  lemma {:induction false} Pow2Grows(m: nat, n: nat)
    ensures Pow2(m) <= Pow2(m + n)
    decreases n
  {
    if n > 0 {
      Pow2Grows(m, n - 1);
    }
  }

  /** A number that fits m bits survives in m + n of them. */
  lemma {:induction false} NatInBits(v: nat, m: nat, n: nat)
    requires v < Pow2(m)
    ensures NatOf(NatBits(v, m + n)) == v
  {
    NatOfBits(v, m + n);
    Pow2Grows(m, n);
    SmallMod(v, Pow2(m + n));
  }

  lemma {:induction false} NatOfBits(v: nat, n: nat)
    ensures NatOf(NatBits(v, n)) == v % Pow2(n)
  {
    if n > 0 {
      NatOfBits(v / 2, n - 1);
      assert NatBits(v, n)[1..] == NatBits(v / 2, n - 1);
      var p := Pow2(n - 1);
      assert v == 2 * (v / 2) + v % 2;
      ModDouble(v, p);
    }
  }

  lemma {:induction false} ModDouble(v: nat, p: nat)
    requires p > 0
    ensures v % (2 * p) == v % 2 + 2 * ((v / 2) % p)
  {
    var q, r := (v / 2) / p, (v / 2) % p;
    assert v / 2 == q * p + r;
    assert v == (2 * p) * q + (v % 2 + 2 * r);
    ModUnique(v, 2 * p, q, v % 2 + 2 * r);
  }

  lemma {:induction false} ModUnique(v: nat, m: nat, q: int, r: nat)
    requires m > 0 && v == m * q + r && r < m
    ensures v % m == r && v / m == q
  {
    var q', r' := v / m, v % m;
    assert m * q' + r' == m * q + r;
    if q' > q {
      MulMono(m, q + 1, q');
    } else if q > q' {
      MulMono(m, q' + 1, q);
    }
  }

  lemma {:induction false} MulMono(m: nat, a: int, b: int)
    requires a <= b
    ensures m * a <= m * b
  {
  }

  lemma {:induction false} BitsOfNat(s: seq<bool>)
    ensures NatBits(NatOf(s), |s|) == s
    ensures NatOf(s) < Pow2(|s|)
  {
    if s != [] {
      BitsOfNat(s[1..]);
      assert s == [s[0]] + s[1..];
    }
  }

  lemma {:induction false} NatBitsAt(v: nat, n: nat, m: nat, i: nat)
    requires i < n && i < m
    ensures NatBits(v, n)[i] == NatBits(v, m)[i]
    decreases i
  {
    if i > 0 {
      NatBitsAt(v / 2, n - 1, m - 1, i - 1);
      assert NatBits(v, n)[i] == NatBits(v / 2, n - 1)[i - 1];
    }
  }

  lemma {:induction false} HighBitsZero(v: nat, k: nat, n: nat, i: nat)
    requires v < Pow2(k) && k <= i < n
    ensures !NatBits(v, n)[i]
    decreases k
  {
    if k > 0 {
      HighBitsZero(v / 2, k - 1, n - 1, i - 1);
    } else {
      ZeroBits(n);
    }
  }

  lemma {:induction false} ZeroBits(n: nat)
    ensures forall i :: 0 <= i < n ==> !NatBits(0, n)[i]
  {
    if n > 0 {
      ZeroBits(n - 1);
    }
  }

  lemma {:induction false} SmallMod(a: nat, m: nat)
    requires a < m
    ensures a % m == a
  {
  }

  /** A slice of the second part of a sequence. */
  lemma {:induction false} SliceAppend(a: seq<bool>, b: seq<bool>, o: nat, n: nat)
    requires o + n <= |b|
    ensures (a + b)[|a| + o..|a| + o + n] == b[o..o + n]
  {
  }

  /** The bits of a word array in transfer order. */
  function StreamBits(words: seq<Word>, n: nat): (r: seq<bool>)
    requires n <= 32 * |words|
    ensures |r| == n && forall i :: 0 <= i < n ==> r[i] == words[i / 32][i % 32]
  {
    seq(n, i requires 0 <= i < n => words[i / 32][i % 32])
  }

  // ---------- Short answers in wider variables ----------

  /** A variable after a one-bit read by a driver that leaves the bits above as they were. */
  function Answer(bit: bool, left: seq<bool>): (r: seq<bool>)
    requires left != []
    ensures |r| == |left|
  {
    left[0 := bit]
  }

  /** Something is left over above the lowest n bits. */
  predicate Dirty(left: seq<bool>, n: nat)
  {
    exists i :: n <= i < |left| && left[i]
  }

  /** if(v) in C. */
  predicate NonZero(v: seq<bool>)
  {
    v != Zeros(|v|)
  }

  lemma {:induction false} AnswerTest(bit: bool, left: seq<bool>)
    requires left != []
    ensures NonZero(Answer(bit, left)) <==> bit || Dirty(left, 1)
  {
    var v := Answer(bit, left);
    if bit {
      assert v[0] != Zeros(|v|)[0];
    } else if i :| 1 <= i < |left| && left[i] {
      assert v[i] != Zeros(|v|)[i];
    } else {
      assert v == Zeros(|v|);
    }
  }

  /** The test gives the module's answer, whatever it is, exactly when nothing is left over above it. */
  lemma {:induction false} TestExact(left: seq<bool>)
    requires left != []
    ensures (forall bit: bool :: NonZero(Answer(bit, left)) <==> bit) <==> !Dirty(left, 1)
  {
    AnswerTest(true, left);
    AnswerTest(false, left);
    assert NonZero(Answer(false, left)) <==> Dirty(left, 1);
  }
}
