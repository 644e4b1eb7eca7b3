/**
 The instruction-register side of a multi-device chain: how the IR bits of the other devices are
 counted, and how tap_set_ir packs one instruction among the all-ones BYPASS instructions.
 */
module IrPacking {
  import opened Bits

  function Sum(xs: seq<nat>): nat
  {
    if xs == [] then 0 else Sum(xs[..|xs| - 1]) + xs[|xs| - 1]
  }

  /**
   The loop of configure_chain: IR bits between the target and the cable input are postfix bits,
   those beyond it are prefix bits.
   */
  method CountIrBits(irLens: seq<nat>, target: nat) returns (postfix: nat, prefix: nat)
    requires target < |irLens|
    ensures postfix == Sum(irLens[..target]) && prefix == Sum(irLens[target + 1..])
  {
    postfix := 0;
    var total := 0;
    for i := 0 to |irLens|
      invariant i <= target ==> total == Sum(irLens[..i])
      invariant i > target ==> postfix == Sum(irLens[..target]) && total == Sum(irLens[target + 1..i])
    {
      if i == target {
        postfix := total;
        total := 0;
        assert irLens[target + 1..i + 1] == [];
        continue;
      }
      assert i < target ==> irLens[..i + 1][..i] == irLens[..i];
      assert i > target ==> irLens[target + 1..i + 1][..i - target - 1] == irLens[target + 1..i];
      total := total + irLens[i];
    }
    prefix := total;
    assert irLens[..|irLens|] == irLens;
    assert irLens[target + 1..|irLens|] == irLens[target + 1..];
  }

  /** Shifts with the count reduced mod 32, as the hardware does where C leaves them undefined. */
  function MachineShl(a: Word, n: nat): (r: Word)
    ensures n < 32 ==> r == Shl(a, n)
  {
    Shl(a, n % 32)
  }

  function MachineShr(a: Word, n: nat): (r: Word)
    ensures n < 32 ==> r == Shr(a, n)
  {
    Shr(a, n % 32)
  }

  /** What the scan should contain: the instruction, and BYPASS for everybody else. */
  function Wanted(ir: Word, postfix: nat, size: nat, prefix: nat): (r: seq<bool>)
    requires size <= 32
    ensures |r| == postfix + size + prefix
  {
    Ones(postfix) + ir[..size] + Ones(prefix)
  }

  /** The word that holds the first instruction bit. */
  function FirstWord(ir: Word, shift: nat, size: nat): (w: Word)
    requires shift < 32
    ensures forall j :: 0 <= j < 32 ==>
      w[j] == (j < shift || (shift <= j && ir[j - shift]) || (shift + size) % 32 <= j)
  {
    Or(Or(And(Ones(32), Shl(ir, shift)), Not(Shl(Ones(32), shift))), MachineShl(Ones(32), shift + size))
  }

  /** The word it spills into, when it does. */
  function SpillWord(ir: Word, shift: nat, size: nat): (w: Word)
    requires shift < 32 && size <= 32 && shift + size > 32
    ensures forall j :: 0 <= j < 32 ==>
      w[j] == ((j + 32 - shift < 32 && ir[j + 32 - shift]) || shift + size - 32 <= j)
  {
    var spilled := MachineShr(ir, 32 - shift);
    assert forall j :: 0 <= j < 32 ==> spilled[j] == (j + (32 - shift) < 32 && ir[j + (32 - shift)]);
    Or(And(Ones(32), spilled), MachineShl(Ones(32), size - (32 - shift)))
  }

  /** The array tap_set_ir leaves in ir_chain, the postfix bits being 32 * o + shift. */
  ghost predicate Packed(words: seq<Word>, ir: Word, o: nat, shift: nat, size: nat)
    requires shift < 32 && size <= 32
  {
    && o < |words| && (shift + size > 32 ==> o + 1 < |words|)
    && forall k :: 0 <= k < |words| ==> words[k] == PackedWord(ir, o, shift, size, k)
  }

  function PackedWord(ir: Word, o: nat, shift: nat, size: nat, k: nat): Word
    requires shift < 32 && size <= 32
  {
    if k == o then FirstWord(ir, shift, size)
    else if k == o + 1 && shift + size > 32 then SpillWord(ir, shift, size)
    else Ones(32)
  }

  lemma {:induction false} WordCount(postfix: nat, size: nat, prefix: nat)
    ensures var o, shift, n := postfix / 32, postfix % 32, (size + prefix + postfix) / 32 + 1;
            postfix == 32 * o + shift && o < n && (shift + size > 32 ==> o + 1 < n)
            && postfix + size + prefix <= 32 * n
  {
  }

  /** The packing code of tap_set_ir, statement by statement. */
  method PackIr(ir: Word, postfix: nat, size: nat, prefix: nat) returns (irChain: array<Word>)
    requires 1 <= size <= 32
    ensures fresh(irChain) && irChain.Length == (size + prefix + postfix) / 32 + 1
    ensures Packed(irChain[..], ir, postfix / 32, postfix % 32, size)
  {
    WordCount(postfix, size, prefix);
    var chainSize := size + prefix + postfix;
    var chainSizeWords := chainSize / 32 + 1;
    irChain := new Word[chainSizeWords](i => Zeros(32));
    for i := 0 to chainSizeWords
      invariant forall k :: 0 <= k < i ==> irChain[k] == Ones(32)
    {
      irChain[i] := Ones(32);
    }
    var startOffset := postfix / 32;
    var startShift := postfix - startOffset * 32;
    PlaceIr(irChain, ir, startOffset, startShift, size);
  }

  /** The read-modify-write of the one or two words that hold the instruction. */
  method PlaceIr(irChain: array<Word>, ir: Word, startOffset: nat, startShift: nat, size: nat)
    requires startShift < 32 && 1 <= size <= 32
    requires startOffset < irChain.Length && (startShift + size > 32 ==> startOffset + 1 < irChain.Length)
    requires forall k :: 0 <= k < irChain.Length ==> irChain[k] == Ones(32)
    modifies irChain
    ensures Packed(irChain[..], ir, startOffset, startShift, size)
  {
    irChain[startOffset] := And(irChain[startOffset], Shl(ir, startShift));
    irChain[startOffset] := Or(irChain[startOffset], Not(Shl(Ones(32), startShift)));
    irChain[startOffset] := Or(irChain[startOffset], MachineShl(Ones(32), startShift + size));
    assert irChain[startOffset] == FirstWord(ir, startShift, size);
    if startShift + size > 32 {
      irChain[startOffset + 1] := And(irChain[startOffset + 1], MachineShr(ir, 32 - startShift));
      irChain[startOffset + 1] := Or(irChain[startOffset + 1], MachineShl(Ones(32), size - (32 - startShift)));
      assert irChain[startOffset + 1] == SpillWord(ir, startShift, size);
    }
  }

  lemma {:induction false} WantedBit(ir: Word, postfix: nat, size: nat, prefix: nat, b: nat)
    requires size <= 32 && b < postfix + size + prefix
    ensures Wanted(ir, postfix, size, prefix)[b] == (b < postfix || b >= postfix + size || ir[b - postfix])
  {
  }

  /** Bit j of word k of the packed scan. */
  lemma {:induction false} PackedBit(ir: Word, o: nat, shift: nat, size: nat, k: nat, j: nat)
    requires shift < 32 && 1 <= size <= 32 && j < 32
    ensures var bit := PackedWord(ir, o, shift, size, k)[j];
            var b, postfix := 32 * k + j, 32 * o + shift;
            if k == o && shift <= j && shift + size >= 32 then bit
            else bit == (b < postfix || b >= postfix + size || ir[b - postfix])
  {
    if k == o + 1 && shift + size > 32 {
      assert 32 * k == 32 * o + 32;
    }
  }

  /** The first part of an instruction that the shift destroys when it does not fit one word. */
  ghost predicate LostBitsAreOnes(ir: Word, shift: nat)
    requires shift < 32
  {
    forall i :: 0 <= i < 32 - shift ==> ir[i]
  }

  /**
   The packed scan puts the instruction in the target and BYPASS everywhere else exactly when
   every shift count stays below 32, or the bits the overlong shift destroys were ones anyway.
   */
  lemma {:induction false} PackingExact(words: seq<Word>, ir: Word, o: nat, shift: nat, size: nat, prefix: nat)
    requires shift < 32 && 1 <= size <= 32 && Packed(words, ir, o, shift, size)
    requires 32 * o + shift + size + prefix <= 32 * |words|
    ensures StreamBits(words, 32 * o + shift + size + prefix) == Wanted(ir, 32 * o + shift, size, prefix)
       <==> shift + size < 32 || LostBitsAreOnes(ir, shift)
  {
    var forced := if shift + size >= 32 then 32 - shift else 0;
    PackingForced(words, ir, o, shift, size, prefix, forced);
  }

  lemma {:induction false} PackingForced(words: seq<Word>, ir: Word, o: nat, shift: nat, size: nat, prefix: nat,
                                         forced: nat)
    requires shift < 32 && 1 <= size <= 32 && Packed(words, ir, o, shift, size)
    requires 32 * o + shift + size + prefix <= 32 * |words|
    requires forced == if shift + size >= 32 then 32 - shift else 0
    ensures StreamBits(words, 32 * o + shift + size + prefix) == Wanted(ir, 32 * o + shift, size, prefix)
       <==> forall i :: 0 <= i < forced ==> ir[i]
  {
    var postfix := 32 * o + shift;
    var got, want := StreamBits(words, postfix + size + prefix), Wanted(ir, postfix, size, prefix);
    forall b | 0 <= b < |got|
      ensures SentRight(got, want, ir, postfix, size, forced, b)
    {
      SentBit(words, ir, o, shift, size, prefix, forced, b, got, want);
    }
    SameUnlessForced(got, want, ir, postfix, size, forced);
  }

  /** Bit b is sent as it should be, except that the first forced bits of the instruction are ones. */
  ghost predicate SentRight(got: seq<bool>, want: seq<bool>, ir: Word, postfix: nat, size: nat, forced: nat, b: nat)
    requires b < |got| == |want| && size <= 32
  {
    && got[b] == (postfix <= b < postfix + forced || want[b])
    && (postfix <= b < postfix + size ==> want[b] == ir[b - postfix])
  }

  /** Forcing some bits to one changes nothing exactly if they are ones. */
  lemma {:induction false} SameUnlessForced(got: seq<bool>, want: seq<bool>, ir: Word, postfix: nat, size: nat,
                                            forced: nat)
    requires |got| == |want| && forced <= size <= 32 && postfix + size <= |want|
    requires forall b :: 0 <= b < |got| ==> SentRight(got, want, ir, postfix, size, forced, b)
    ensures got == want <==> forall i :: 0 <= i < forced ==> ir[i]
  {
    if got == want {
      forall i | 0 <= i < forced
        ensures ir[i]
      {
        assert SentRight(got, want, ir, postfix, size, forced, postfix + i);
      }
    } else {
      var b :| 0 <= b < |got| && got[b] != want[b];
      assert SentRight(got, want, ir, postfix, size, forced, b);
    }
  }

  lemma {:induction false} SentBit(words: seq<Word>, ir: Word, o: nat, shift: nat, size: nat, prefix: nat, forced: nat,
                                   b: nat, got: seq<bool>, want: seq<bool>)
    requires shift < 32 && 1 <= size <= 32 && Packed(words, ir, o, shift, size)
    requires b < 32 * o + shift + size + prefix <= 32 * |words|
    requires forced == if shift + size >= 32 then 32 - shift else 0
    requires got == StreamBits(words, 32 * o + shift + size + prefix)
    requires want == Wanted(ir, 32 * o + shift, size, prefix)
    ensures SentRight(got, want, ir, 32 * o + shift, size, forced, b)
  {
    PackedBit(ir, o, shift, size, b / 32, b % 32);
    WantedBit(ir, 32 * o + shift, size, prefix, b);
  }

  /** A destroyed bit is always sent as a one. */
  lemma {:induction false} OverlongShift(words: seq<Word>, ir: Word, o: nat, shift: nat, size: nat, prefix: nat, i: nat)
    requires shift < 32 && 1 <= size <= 32 && Packed(words, ir, o, shift, size)
    requires 32 * o + shift + size + prefix <= 32 * |words| && shift + size >= 32 && i < 32 - shift
    ensures StreamBits(words, 32 * o + shift + size + prefix)[32 * o + shift + i]
  {
    var b := 32 * o + shift + i;
    assert b / 32 == o && b % 32 == shift + i;
    assert words[o] == FirstWord(ir, shift, size);
  }
}
