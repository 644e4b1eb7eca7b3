/**
 What a cable does to the JTAG lines, and bit streams in byte buffers.
 */
module JtagPins {
  import opened Bits
  import Tap

  /** One clock pulse: the levels of the two lines the engine drives. */
  datatype Edge = Edge(tdi: bool, tms: bool)

  /**
   What comes back: the level of TDO at each pulse, and what the unused parts of a response happen
   to hold.
   */
  datatype Env = Env(tdo: nat -> bool, noise: nat -> Byte)

  /** The bits of the bytes, each byte least significant bit first. */
  function BitsOf(bytes: seq<Byte>): (r: seq<bool>)
    ensures |r| == 8 * |bytes|
  {
    seq(8 * |bytes|, i requires 0 <= i < 8 * |bytes| => bytes[i / 8][i % 8])
  }

  lemma {:induction false} BitsOfAt(bytes: seq<Byte>, k: nat, j: nat)
    requires k < |bytes| && j < 8
    ensures BitsOf(bytes)[8 * k + j] == bytes[k][j]
  {
  }

  lemma {:induction false} BitsOfConcat(a: seq<Byte>, b: seq<Byte>)
    ensures BitsOf(a + b) == BitsOf(a) + BitsOf(b)
  {
    var x, y := BitsOf(a + b), BitsOf(a) + BitsOf(b);
    forall i | 0 <= i < |x|
      ensures x[i] == y[i]
    {
      if i >= 8 * |a| {
        assert (i - 8 * |a|) / 8 == i / 8 - |a| && (i - 8 * |a|) % 8 == i % 8;
      }
    }
  }

  function Pack(bits: seq<bool>, n: nat): (r: seq<Byte>)
    requires |bits| == 8 * n
    ensures |r| == n
  {
    seq(n, k requires 0 <= k < n => bits[8 * k..8 * k + 8])
  }

  lemma {:induction false} PackedBits(bits: seq<bool>, n: nat)
    requires |bits| == 8 * n
    ensures BitsOf(Pack(bits, n)) == bits
  {
  }

  lemma {:induction false} PackConcat(a: seq<bool>, b: seq<bool>, m: nat, n: nat)
    requires |a| == 8 * m && |b| == 8 * n
    ensures Pack(a + b, m + n) == Pack(a, m) + Pack(b, n)
  {
    var x, y := Pack(a + b, m + n), Pack(a, m) + Pack(b, n);
    forall k | 0 <= k < m + n
      ensures x[k] == y[k]
    {
      if k >= m {
        SliceAppend(a, b, 8 * (k - m), 8);
      }
    }
  }

  /** The bits in order with TMS low, except high with the last one on request. */
  function StreamPulses(bits: seq<bool>, withTms: bool): (r: seq<Edge>)
    ensures |r| == |bits|
  {
    seq(|bits|, i requires 0 <= i < |bits| => Edge(bits[i], withTms && i == |bits| - 1))
  }

  /** These are the clocks of a stream through the chain, as ShiftRun takes them. */
  lemma {:induction false} PulsesAreClocks(bits: seq<bool>, withTms: bool, i: nat)
    requires i < |bits|
    ensures var clock, pulse := Tap.StreamClocks(bits, withTms)[i], StreamPulses(bits, withTms)[i];
      clock == Tap.C(pulse.tms, pulse.tdi)
  {
  }

  function Captured(env: Env, from: nat, n: nat): (r: seq<bool>)
    ensures |r| == n
  {
    seq(n, i requires 0 <= i < n => env.tdo(from + i))
  }

  lemma {:induction false} CapturedConcat(env: Env, from: nat, m: nat, n: nat)
    ensures Captured(env, from, m + n) == Captured(env, from, m) + Captured(env, from + m, n)
  {
  }
}
