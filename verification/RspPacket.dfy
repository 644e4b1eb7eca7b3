/**
 Framing of the GDB remote serial protocol: sending, receiving with resynchronisation, and
 unescaping in place.
 */
module RspPacket {

  type byte = b: int | 0 <= b < 256

  const GDB_BUF_MAX := 16384

  const DOLLAR: byte := 0x24
  const HASH: byte := 0x23
  const STAR: byte := 0x2a
  const ESC: byte := 0x7d
  const BREAK: byte := 0x03
  const ACK: byte := 0x2b
  const NAK: byte := 0x2d

  /** b ^ 0x20. */
  function Xor20(b: byte): (r: byte)
    ensures r != b && (b == ESC ==> r == 0x5d)
  {
    if (b / 32) % 2 == 1 then b - 32 else b + 32
  }

  lemma {:induction false} Xor20Twice(b: byte)
    ensures Xor20(Xor20(b)) == b
  {
  }

  predicate NeedsEscape(b: byte)
  {
    b == DOLLAR || b == HASH || b == STAR || b == ESC
  }

  function Escaped(b: byte): seq<byte>
  {
    if NeedsEscape(b) then [ESC, Xor20(b)] else [b]
  }

  /** The body of a frame. */
  function Escape(p: seq<byte>): seq<byte>
  {
    if p == [] then [] else Escaped(p[0]) + Escape(p[1..])
  }

  function Checksum(s: seq<byte>): byte
  {
    if s == [] then 0 else (Checksum(s[..|s| - 1]) + s[|s| - 1]) % 256
  }

  function HexDigit(n: nat): byte
    requires n < 16
  {
    if n < 10 then 0x30 + n else 0x61 + n - 10
  }

  /** `hex`: the value of a digit of either case, or -1. */
  function Hex(c: byte): int
  {
    if 0x61 <= c <= 0x66 then c - 0x61 + 10
    else if 0x30 <= c <= 0x39 then c - 0x30
    else if 0x41 <= c <= 0x46 then c - 0x41 + 10
    else -1
  }

  /** The transmitted checksum as the unsigned char arithmetic of get_packet reads it. */
  function ReadChecksum(hi: byte, lo: byte): byte
  {
    ((Hex(hi) * 16) % 256 + Hex(lo)) % 256
  }

  function Trailer(sum: byte): (r: seq<byte>)
    ensures |r| == 3 && r[0] == HASH && ReadChecksum(r[1], r[2]) == sum
  {
    [HASH, HexDigit(sum / 16), HexDigit(sum % 16)]
  }

  function Frame(p: seq<byte>): seq<byte>
  {
    [DOLLAR] + Escape(p) + Trailer(Checksum(Escape(p)))
  }

  // ---------- What these mean on the wire ----------

  /** b ^ 0x20: the bit worth 32 is turned around, the bits below and above stay. */
  lemma {:induction false} Xor20IsXor(b: byte)
    ensures var r := Xor20(b);
      r % 32 == b % 32 && r / 64 == b / 64 && (r / 32 % 2 == 1 <==> b / 32 % 2 == 0)
  {
  }

  /** The characters that stand for something in a frame travel as '}' and their own xor value. */
  lemma {:induction false} SpecialsEscaped(b: byte)
    ensures b in {'$' as int, '#' as int, '*' as int, '}' as int} ==> Escaped(b) == ['}' as int, Xor20(b)]
    ensures b !in {'$' as int, '#' as int, '*' as int, '}' as int} ==> Escaped(b) == [b]
  {
  }

  /** No special character but '}' stands in a body, so none is taken for a frame or a repeat count. */
  lemma {:induction false} BodyHasNoSpecials(p: seq<byte>)
    ensures forall i :: 0 <= i < |Escape(p)| ==> Escape(p)[i] !in {'$' as int, '#' as int, '*' as int}
  {
    if p != [] {
      BodyHasNoSpecials(p[1..]);
    }
  }

  function Sum(s: seq<byte>): nat
  {
    if s == [] then 0 else s[0] + Sum(s[1..])
  }

  lemma {:induction false} SumSnoc(s: seq<byte>, b: byte)
    ensures Sum(s + [b]) == Sum(s) + b
  {
    if s == [] {
      assert s + [b] == [b];
    } else {
      assert (s + [b])[1..] == s[1..] + [b];
      SumSnoc(s[1..], b);
    }
  }

  /** The checksum is the sum of the characters modulo 256. */
  lemma {:induction false} ChecksumIsSum(s: seq<byte>)
    ensures Checksum(s) == Sum(s) % 256
  {
    if s != [] {
      var n := |s| - 1;
      ChecksumIsSum(s[..n]);
      SumSnoc(s[..n], s[n]);
      assert s == s[..n] + [s[n]];
      AddModulo(Sum(s[..n]), s[n]);
    }
  }

  lemma {:induction false} AddModulo(a: nat, b: nat)
    ensures (a % 256 + b) % 256 == (a + b) % 256
  {
  }

  /** The number that hexadecimal digits stand for, highest first. */
  function Number(digits: seq<byte>): int
  {
    if digits == [] then 0 else 16 * Number(digits[..|digits| - 1]) + Hex(digits[|digits| - 1])
  }

  /** The trailer is '#' and the checksum as two lower-case digits, the high one first. */
  lemma {:induction false} TrailerIsNumber(sum: byte)
    ensures var t := Trailer(sum);
      && t[0] == '#' as int && Number(t[1..]) == sum
      && forall k :: 1 <= k < 3 ==> '0' as int <= t[k] <= '9' as int || 'a' as int <= t[k] <= 'f' as int
  {
    var t := Trailer(sum);
    assert t[1..] == [t[1], t[2]] && [t[1], t[2]][..1] == [t[1]] && [t[1]][..0] == [];
    assert Number([t[1]]) == Hex(t[1]);
  }

  /** A digit stands for its place in the sixteen characters of the source. */
  lemma {:induction false} HexDigits(n: nat)
    requires n < 16
    ensures HexDigit(n) == "0123456789abcdef"[n] as int && Hex(HexDigit(n)) == n
  {
  }

  // ---------- The receiver as a state machine on the incoming stream ----------

  /** A packet with the input left over, or a closed connection; and the acks sent meanwhile. */
  datatype Got = Packet(body: seq<byte>, rest: seq<byte>, acks: seq<byte>) | Closed(acks: seq<byte>)

  function Wait(s: seq<byte>, acks: seq<byte>): Got
    decreases |s|, 0
  {
    if s == [] then Closed(acks)
    else if s[0] == DOLLAR then Body(s[1..], [], acks)
    else if s[0] == BREAK then Packet([BREAK], s[1..], acks)
    else Wait(s[1..], acks)
  }

  function Body(s: seq<byte>, buf: seq<byte>, acks: seq<byte>): Got
    decreases |s|, 1
  {
    if |buf| >= GDB_BUF_MAX - 1 then Wait(s, acks)
    else if s == [] then Closed(acks)
    else if s[0] == DOLLAR then Body(s[1..], [], acks)
    else if s[0] == HASH then Check(s[1..], buf, acks)
    else Body(s[1..], buf + [s[0]], acks)
  }

  function Check(s: seq<byte>, buf: seq<byte>, acks: seq<byte>): Got
    decreases |s|, 1
  {
    if |s| < 2 then Closed(acks)
    else if ReadChecksum(s[0], s[1]) == Checksum(buf) then Packet(buf, s[2..], acks + [ACK])
    else Wait(s[2..], acks + [NAK])
  }

  predicate Clean(b: seq<byte>)
  {
    forall i :: 0 <= i < |b| ==> b[i] != DOLLAR && b[i] != HASH
  }

  // ---------- What is accepted ----------

  /** s is some prefix, a complete frame around body, and rest. */
  ghost predicate Delimits(s: seq<byte>, body: seq<byte>, rest: seq<byte>)
  {
    exists pre: seq<byte>, hi: byte, lo: byte ::
      s == pre + [DOLLAR] + body + [HASH, hi, lo] + rest && ReadChecksum(hi, lo) == Checksum(body)
  }

  /** s is some prefix, a break character, and rest. */
  ghost predicate Interrupts(s: seq<byte>, rest: seq<byte>)
  {
    exists pre: seq<byte> :: s == pre + [BREAK] + rest
  }

  lemma {:induction false} DelimitsLonger(x: seq<byte>, s: seq<byte>, body: seq<byte>, rest: seq<byte>)
    requires Delimits(s, body, rest)
    ensures Delimits(x + s, body, rest)
  {
    var pre: seq<byte>, hi: byte, lo: byte :|
      s == pre + [DOLLAR] + body + [HASH, hi, lo] + rest && ReadChecksum(hi, lo) == Checksum(body);
    var frame := [DOLLAR] + body + [HASH, hi, lo] + rest;
    assert s == pre + frame;
    assert x + s == (x + pre) + frame;
    assert x + s == (x + pre) + [DOLLAR] + body + [HASH, hi, lo] + rest;
  }

  lemma {:induction false} InterruptsLonger(x: seq<byte>, s: seq<byte>, rest: seq<byte>)
    requires Interrupts(s, rest)
    ensures Interrupts(x + s, rest)
  {
    var pre: seq<byte> :| s == pre + [BREAK] + rest;
    assert x + s == (x + pre) + [BREAK] + rest;
  }

  /** What a receiver may return for the stream s. */
  ghost predicate Sound(s: seq<byte>, g: Got)
  {
    g.Packet? ==>
      || (g.body == [BREAK] && Interrupts(s, g.rest))
      || (Clean(g.body) && |g.body| <= GDB_BUF_MAX - 2 && Delimits(s, g.body, g.rest))
  }

  lemma {:induction false} SoundLonger(x: seq<byte>, s: seq<byte>, g: Got)
    requires Sound(s, g)
    ensures Sound(x + s, g)
  {
    if g.Packet? {
      if g.body == [BREAK] && Interrupts(s, g.rest) {
        InterruptsLonger(x, s, g.rest);
      } else {
        DelimitsLonger(x, s, g.body, g.rest);
      }
    }
  }

  lemma {:induction false} WaitSound(s: seq<byte>, acks: seq<byte>)
    ensures Sound(s, Wait(s, acks))
    decreases |s|, 0
  {
    if s != [] {
      assert s == [s[0]] + s[1..];
      if s[0] == DOLLAR {
        BodySound(s[1..], [], acks);
        assert s == [DOLLAR] + [] + s[1..];
      } else if s[0] == BREAK {
        assert s == [] + [BREAK] + s[1..];
      } else {
        WaitSound(s[1..], acks);
        SoundLonger([s[0]], s[1..], Wait(s[1..], acks));
      }
    }
  }

  /** With buf already collected behind a '$', the whole stream read so far ends in '$' + buf + s. */
  lemma {:induction false} BodySound(s: seq<byte>, buf: seq<byte>, acks: seq<byte>)
    requires Clean(buf)
    ensures Sound([DOLLAR] + buf + s, Body(s, buf, acks))
    decreases |s|, 1
  {
    if |buf| >= GDB_BUF_MAX - 1 {
      WaitSound(s, acks);
      SoundLonger([DOLLAR] + buf, s, Wait(s, acks));
    } else if s == [] {
    } else if s[0] == DOLLAR {
      BodySound(s[1..], [], acks);
      SoundLonger([DOLLAR] + buf, [DOLLAR] + [] + s[1..], Body(s[1..], [], acks));
      assert [DOLLAR] + buf + s == ([DOLLAR] + buf) + ([DOLLAR] + [] + s[1..]);
    } else if s[0] == HASH {
      if |s| >= 3 {
        CheckSound(s, buf, acks);
      }
    } else {
      BodySound(s[1..], buf + [s[0]], acks);
      assert [DOLLAR] + buf + s == [DOLLAR] + (buf + [s[0]]) + s[1..];
    }
  }

  lemma {:induction false} CheckSound(s: seq<byte>, buf: seq<byte>, acks: seq<byte>)
    requires Clean(buf) && |buf| <= GDB_BUF_MAX - 2 && |s| >= 3 && s[0] == HASH
    ensures Sound([DOLLAR] + buf + s, Check(s[1..], buf, acks))
    decreases |s|, 0
  {
    var hi, lo, after := s[1], s[2], s[3..];
    assert s == [HASH, hi, lo] + after && s[1..][2..] == after;
    if ReadChecksum(hi, lo) == Checksum(buf) {
      assert [DOLLAR] + buf + s == [] + [DOLLAR] + buf + [HASH, hi, lo] + after;
    } else {
      WaitSound(after, acks + [NAK]);
      SoundLonger([DOLLAR] + buf + [HASH, hi, lo], after, Wait(after, acks + [NAK]));
      assert [DOLLAR] + buf + s == ([DOLLAR] + buf + [HASH, hi, lo]) + after;
    }
  }

  /**
   On any stream: a returned packet is an out-of-band break, or a body without '$' or '#' that
   fits the buffer and stood in the stream between '$' and a matching checksum.
   */
  lemma {:induction false} AcceptedIsFramed(s: seq<byte>)
    ensures var g := Wait(s, []);
      g.Packet? ==>
        || (g.body == [BREAK] && Interrupts(s, g.rest))
        || (Clean(g.body) && |g.body| <= GDB_BUF_MAX - 2 && Delimits(s, g.body, g.rest))
  {
    WaitSound(s, []);
  }

  // ---------- Resynchronisation and round trip ----------

  predicate Junk(j: seq<byte>)
  {
    forall i :: 0 <= i < |j| ==> j[i] != DOLLAR && j[i] != BREAK
  }

  lemma {:induction false} JunkSkipped(j: seq<byte>, s: seq<byte>, acks: seq<byte>)
    requires Junk(j)
    ensures Wait(j + s, acks) == Wait(s, acks)
    decreases j
  {
    if j == [] {
      assert j + s == s;
    } else {
      assert (j + s)[1..] == j[1..] + s;
      JunkSkipped(j[1..], s, acks);
    }
  }

  lemma {:induction false} BodyCollects(b: seq<byte>, s: seq<byte>, buf: seq<byte>, acks: seq<byte>)
    requires Clean(b) && |buf| + |b| <= GDB_BUF_MAX - 1
    ensures Body(b + s, buf, acks) == Body(s, buf + b, acks)
    decreases b
  {
    if b == [] {
      assert b + s == s && buf + b == buf;
    } else {
      assert (b + s)[1..] == b[1..] + s;
      BodyCollects(b[1..], s, buf + [b[0]], acks);
      assert (buf + [b[0]]) + b[1..] == buf + b;
    }
  }

  /**
   An abandoned frame: a '$' and a body that never reaches its '#'. It may even overrun the
   buffer, as long as the part that spills holds no break character.
   */
  predicate Abandoned(f: seq<byte>)
  {
    f != [] && f[0] == DOLLAR && Clean(f[1..])
    && forall i :: GDB_BUF_MAX <= i < |f| ==> f[i] != BREAK
  }

  lemma {:induction false} AbandonedSkipped(f: seq<byte>, s: seq<byte>, acks: seq<byte>)
    requires Abandoned(f) && s != [] && s[0] == DOLLAR
    ensures Wait(f + s, acks) == Wait(s, acks)
  {
    var b := f[1..];
    assert (f + s)[1..] == b + s;
    if |b| < GDB_BUF_MAX - 1 {
      BodyCollects(b, s, [], acks);
      assert [] + b == b;
    } else {
      var fits, spill := b[..GDB_BUF_MAX - 1], b[GDB_BUF_MAX - 1..];
      assert b + s == fits + (spill + s);
      BodyCollects(fits, spill + s, [], acks);
      assert [] + fits == fits;
      forall i | 0 <= i < |spill|
        ensures spill[i] != DOLLAR && spill[i] != BREAK
      {
        assert spill[i] == f[GDB_BUF_MAX + i] == b[GDB_BUF_MAX - 1 + i];
      }
      JunkSkipped(spill, s, acks);
    }
  }

  predicate AllAbandoned(fs: seq<seq<byte>>)
  {
    forall i :: 0 <= i < |fs| ==> Abandoned(fs[i])
  }

  function Concat(fs: seq<seq<byte>>): seq<byte>
  {
    if fs == [] then [] else fs[0] + Concat(fs[1..])
  }

  /** Line noise followed by any number of abandoned frames is as if it had never been sent. */
  lemma {:induction false} NoiseSkipped(j: seq<byte>, fs: seq<seq<byte>>, s: seq<byte>, acks: seq<byte>)
    requires Junk(j) && AllAbandoned(fs) && s != [] && s[0] == DOLLAR
    ensures Wait(j + Concat(fs) + s, acks) == Wait(s, acks)
  {
    assert j + Concat(fs) + s == j + (Concat(fs) + s);
    JunkSkipped(j, Concat(fs) + s, acks);
    FramesSkipped(fs, s, acks);
  }

  lemma {:induction false} FramesSkipped(fs: seq<seq<byte>>, s: seq<byte>, acks: seq<byte>)
    requires AllAbandoned(fs) && s != [] && s[0] == DOLLAR
    ensures Wait(Concat(fs) + s, acks) == Wait(s, acks)
    ensures (Concat(fs) + s)[0] == DOLLAR
    decreases fs
  {
    if fs == [] {
      assert Concat(fs) + s == s;
    } else {
      var tail := Concat(fs[1..]) + s;
      assert Abandoned(fs[0]);
      FramesSkipped(fs[1..], s, acks);
      assert Concat(fs) + s == fs[0] + tail;
      AbandonedSkipped(fs[0], tail, acks);
    }
  }

  lemma {:induction false} EscapeClean(p: seq<byte>)
    ensures Clean(Escape(p)) && |Escape(p)| >= |p|
  {
    if p != [] {
      EscapeClean(p[1..]);
    }
  }

  /**
   After any harmless noise, the sender's frame is received as sent exactly when its escaped body
   leaves room in the buffer for the closing '#'.
   */
  lemma {:induction false} FrameReceived(j: seq<byte>, fs: seq<seq<byte>>, p: seq<byte>, rest: seq<byte>)
    requires Junk(j) && AllAbandoned(fs)
    ensures Wait(j + Concat(fs) + (Frame(p) + rest), []) == Packet(Escape(p), rest, [ACK])
       <==> |Escape(p)| <= GDB_BUF_MAX - 2
  {
    NoiseSkipped(j, fs, Frame(p) + rest, []);
    WaitSound(Frame(p) + rest, []);
    if |Escape(p)| <= GDB_BUF_MAX - 2 {
      FrameFits(p, rest);
    }
  }

  lemma {:induction false} FrameFits(p: seq<byte>, rest: seq<byte>)
    requires |Escape(p)| <= GDB_BUF_MAX - 2
    ensures Wait(Frame(p) + rest, []) == Packet(Escape(p), rest, [ACK])
  {
    var e := Escape(p);
    var t := Trailer(Checksum(e));
    EscapeClean(p);
    assert Frame(p) + rest == [DOLLAR] + (e + (t + rest));
    BodyCollects(e, t + rest, [], []);
    assert [] + e == e;
    TrailerAccepted(t, rest, e);
  }

  lemma {:induction false} TrailerAccepted(t: seq<byte>, rest: seq<byte>, e: seq<byte>)
    requires |e| <= GDB_BUF_MAX - 2 && t == Trailer(Checksum(e))
    ensures Body(t + rest, e, []) == Packet(e, rest, [ACK])
  {
    var s := (t + rest)[1..];
    assert s[0] == t[1] && s[1] == t[2] && s[2..] == rest;
    assert [] + [ACK] == [ACK];
  }

  /** A body whose two digits are wrong is refused with '-', and the wait goes on behind it. */
  lemma {:induction false} WrongChecksumRefused(j: seq<byte>, b: seq<byte>, hi: byte, lo: byte, rest: seq<byte>,
                                                acks: seq<byte>)
    requires Junk(j) && Clean(b) && |b| <= GDB_BUF_MAX - 2 && ReadChecksum(hi, lo) != Checksum(b)
    ensures Wait(j + ([DOLLAR] + b + [HASH, hi, lo] + rest), acks) == Wait(rest, acks + ['-' as int])
  {
    var s := [DOLLAR] + b + [HASH, hi, lo] + rest;
    JunkSkipped(j, s, acks);
    var t := [HASH, hi, lo] + rest;
    assert s[1..] == b + t;
    BodyCollects(b, t, [], acks);
    assert [] + b == b && t[1..][2..] == rest;
  }

  /** A stream that ends before a frame or inside its body yields nothing, and nothing is answered. */
  lemma {:induction false} CutIsClosed(j: seq<byte>, b: seq<byte>, acks: seq<byte>)
    requires Junk(j) && Clean(b) && |b| <= GDB_BUF_MAX - 2
    ensures Wait(j, acks) == Closed(acks)
    ensures Wait(j + ([DOLLAR] + b), acks) == Closed(acks)
    ensures forall digits: seq<byte> | |digits| < 2 ::
      Wait(j + ([DOLLAR] + b + ([HASH] + digits)), acks) == Closed(acks)
  {
    JunkSkipped(j, [], acks);
    assert j + [] == j;
    JunkSkipped(j, [DOLLAR] + b, acks);
    BodyCollects(b, [], [], acks);
    assert ([DOLLAR] + b)[1..] == b + [] && [] + b == b;
    forall digits: seq<byte> | |digits| < 2
      ensures Wait(j + ([DOLLAR] + b + ([HASH] + digits)), acks) == Closed(acks)
    {
      var s := [DOLLAR] + b + ([HASH] + digits);
      JunkSkipped(j, s, acks);
      BodyCollects(b, [HASH] + digits, [], acks);
      assert s[1..] == b + ([HASH] + digits) && ([HASH] + digits)[1..] == digits;
    }
  }

  /** A break character in front of a frame is received at once, and is not acknowledged. */
  lemma {:induction false} BreakReceived(j: seq<byte>, rest: seq<byte>, acks: seq<byte>)
    requires Junk(j)
    ensures Wait(j + [0x03] + rest, acks) == Packet([0x03], rest, acks)
  {
    assert j + [0x03] + rest == j + ([0x03] + rest);
    JunkSkipped(j, [0x03] + rest, acks);
    assert ([0x03] + rest)[1..] == rest;
  }

  // ---------- Unescaping ----------

  /** rsp_unescape; a trailing escape character consumes the byte behind the data. */
  function Unescape(s: seq<byte>, behind: byte): seq<byte>
  {
    if s == [] then []
    else if s[0] != ESC then [s[0]] + Unescape(s[1..], behind)
    else if |s| == 1 then [Xor20(behind)]
    else [Xor20(s[1])] + Unescape(s[2..], behind)
  }

  lemma {:induction false} UnescapeEscape(p: seq<byte>, behind: byte)
    ensures Unescape(Escape(p), behind) == p
  {
    if p != [] {
      UnescapeEscape(p[1..], behind);
      UnescapeFirst(p[0], Escape(p[1..]), behind);
      assert p == [p[0]] + p[1..];
    }
  }

  lemma {:induction false} UnescapeFirst(b: byte, s: seq<byte>, behind: byte)
    ensures Unescape(Escaped(b) + s, behind) == [b] + Unescape(s, behind)
  {
    Xor20Twice(b);
    var t := Escaped(b) + s;
    if NeedsEscape(b) {
      assert t[2..] == s;
    } else {
      assert t[1..] == s;
    }
  }

  /** An escape character at the very end takes the byte behind the data with it. */
  lemma {:induction false} TrailingEscape(p: seq<byte>, behind: byte)
    ensures Unescape(Escape(p) + [ESC], behind) == p + [Xor20(behind)]
  {
    if p == [] {
      assert Escape(p) + [ESC] == [ESC];
    } else {
      TrailingEscape(p[1..], behind);
      UnescapeFirst(p[0], Escape(p[1..]) + [ESC], behind);
      assert Escape(p) + [ESC] == Escaped(p[0]) + (Escape(p[1..]) + [ESC]);
      assert p + [Xor20(behind)] == [p[0]] + (p[1..] + [Xor20(behind)]);
    }
  }

  /** Every payload whose escaped form fits survives framing, noise, reception and unescaping. */
  lemma {:induction false} RoundTrip(j: seq<byte>, fs: seq<seq<byte>>, p: seq<byte>, rest: seq<byte>, behind: byte)
    requires Junk(j) && AllAbandoned(fs) && |Escape(p)| <= GDB_BUF_MAX - 2
    ensures var g := Wait(j + Concat(fs) + (Frame(p) + rest), []);
            g.Packet? && Unescape(g.body, behind) == p && g.rest == rest && g.acks == [ACK]
  {
    FrameReceived(j, fs, p, rest);
    UnescapeEscape(p, behind);
  }

  /** What remains to be produced when the source offset stands at from. */
  function UnescapeFrom(s: seq<byte>, behind: byte, from: nat): seq<byte>
  {
    if from <= |s| then Unescape(s[from..], behind) else []
  }

  lemma {:induction false} UnescapeOne(s: seq<byte>, behind: byte, from: nat)
    requires from < |s|
    ensures s[from] != ESC ==> UnescapeFrom(s, behind, from) == [s[from]] + UnescapeFrom(s, behind, from + 1)
    ensures s[from] == ESC ==>
      UnescapeFrom(s, behind, from)
      == [Xor20(if from + 1 < |s| then s[from + 1] else behind)] + UnescapeFrom(s, behind, from + 2)
  {
    assert s[from..][0] == s[from] && s[from..][1..] == s[from + 1..];
    if from + 1 < |s| {
      assert s[from..][1] == s[from + 1] && s[from..][2..] == s[from + 2..];
    }
  }

  lemma {:induction false} Reassociate(done: seq<byte>, v: byte, todo: seq<byte>)
    ensures done + ([v] + todo) == (done + [v]) + todo
  {
  }

  /** rsp_unescape on len bytes from offset off, in place. */
  method UnescapeInPlace(data: array<byte>, off: nat, len: nat) returns (newLen: nat)
    requires off + len < data.Length
    modifies data
    ensures newLen <= len
    ensures data[off..off + newLen] == Unescape(old(data[off..off + len]), old(data[off + len]))
    ensures forall k :: 0 <= k < off || off + len <= k < data.Length ==> data[k] == old(data[k])
  {
    var fromOff, toOff := 0, 0;
    ghost var was, behind := data[off..off + len], data[off + len];
    while fromOff < len
      invariant toOff <= fromOff <= len + 1 && toOff <= len
      invariant forall k :: 0 <= k < off || off + fromOff <= k < data.Length ==> data[k] == old(data[k])
      invariant data[off + len] == behind && forall k :: off + len <= k < data.Length ==> data[k] == old(data[k])
      invariant Unescape(was, behind) == data[off..off + toOff] + UnescapeFrom(was, behind, fromOff)
      decreases len + 1 - fromOff
    {
      ghost var done, todo := data[off..off + toOff], UnescapeFrom(was, behind, fromOff);
      UnescapeOne(was, behind, fromOff);
      assert data[off + fromOff] == was[fromOff];
      var value;
      if data[off + fromOff] == ESC {
        fromOff := fromOff + 1;
        value := Xor20(data[off + fromOff]);
      } else {
        value := data[off + fromOff];
      }
      fromOff := fromOff + 1;
      assert todo == [value] + UnescapeFrom(was, behind, fromOff);
      Reassociate(done, value, UnescapeFrom(was, behind, fromOff));
      data[off + toOff] := value;
      assert data[off..off + toOff + 1] == done + [value];
      toOff := toOff + 1;
    }
    newLen := toOff;
  }
}
