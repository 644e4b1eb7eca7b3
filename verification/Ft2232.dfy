/**
 The FT2232 cable driver: bit streams compiled to engine commands, and captured bits put back
 together from the response bytes.
 */
module Ft2232 {
  import opened Bits
  import opened JtagPins
  import opened Mpsse

  function Byte8(v: nat): Byte
  {
    NatBits(v, 8)
  }

  lemma {:induction false} SmallByte(v: nat)
    requires v < 256
    ensures NatOf(Byte8(v)) == v
  {
    NatOfBits(v, 8);
    Pow2Eight();
    SmallMod(v, 256);
  }

  lemma {:induction false} Pow2Eight()
    ensures Pow2(8) == 256
  {
    assert Pow2(4) == 16;
    assert Pow2(8) == 2 * (2 * (2 * (2 * Pow2(4))));
  }

  function ReadFlag(postread: bool): nat
  {
    if postread then DO_READ else 0
  }

  // ---------- One command ----------

  /** The response byte of fewer than nine bits, if there are any. */
  function Tail(env: Env, from: nat, n: nat): seq<Byte>
    requires n <= 8
  {
    if n == 0 then [] else [Shifted(env.noise(from), Captured(env, from, n))]
  }

  /** A chunk of up to 65536 whole bytes. */
  function BytesCommand(chunk: seq<Byte>, postread: bool): seq<Byte>
    requires 0 < |chunk| <= 65536
  {
    [OpcodeByte(WRITE_BYTES, postread), Byte8(|chunk| - 1), Byte8((|chunk| - 1) / 256)] + chunk
  }

  function BitsCommand(data: Byte, len: nat, postread: bool): seq<Byte>
    requires 0 < len <= 8
  {
    [OpcodeByte(WRITE_BITS, postread), Byte8(len - 1), data]
  }

  /** 0x01 | (data << 7): one bit with TMS high. */
  function TmsCommand(data: Byte, postread: bool): seq<Byte>
  {
    [OpcodeByte(WRITE_TMS, postread), Byte8(0), Or(Byte8(1), Shl(data, 7))]
  }

  predicate Writes(op: nat)
  {
    op == WRITE_BYTES || op == WRITE_BITS || op == WRITE_TMS
  }

  function OpcodeByte(op: nat, postread: bool): Byte
  {
    Byte8(op + ReadFlag(postread))
  }

  lemma {:induction false} FlagIsBit(op: nat, postread: bool)
    requires Writes(op)
    ensures ((op + ReadFlag(postread)) / DO_READ) % 2 == if postread then 1 else 0
  {
  }

  lemma {:induction false} OpcodeKind(op: nat, postread: bool, cmd: seq<Byte>)
    requires Writes(op) && cmd != [] && cmd[0] == OpcodeByte(op, postread)
    ensures Kind(cmd) == op && Reads(cmd) == postread
  {
    SmallByte(op + ReadFlag(postread));
    FlagIsBit(op, postread);
  }

  lemma {:induction false} LengthBytes(v: nat)
    requires v < 65536
    ensures NatOf(Byte8(v)) + 256 * NatOf(Byte8(v / 256)) == v
  {
    NatOfBits(v, 8);
    Pow2Eight();
    SmallByte(v / 256);
  }

  lemma {:induction false} BytesCommandMeans(env: Env, chunk: seq<Byte>, postread: bool, from: nat)
    requires 0 < |chunk| <= 65536
    ensures var cmd := BytesCommand(chunk, postread);
      && Complete(cmd) && Pulses(cmd) == Levels(BitsOf(chunk))
      && Response(env, cmd, from) == WhenRead(postread, BytesResponse(env, from, |chunk|))
  {
    var cmd := BytesCommand(chunk, postread);
    OpcodeKind(WRITE_BYTES, postread, cmd);
    LengthBytes(|chunk| - 1);
    assert cmd[3..] == chunk;
  }

  /** A three-byte bit command, by what its first two bytes say. */
  lemma {:induction false} ShortCommand(env: Env, cmd: seq<Byte>, len: nat, from: nat)
    requires |cmd| == 3 && 0 < len <= 8 && NatOf(cmd[1]) == len - 1
    requires Kind(cmd) == WRITE_BITS || (Kind(cmd) == WRITE_TMS && len == 1)
    ensures Complete(cmd)
    ensures Pulses(cmd) == if Kind(cmd) == WRITE_BITS then Levels(cmd[2][..len]) else [Edge(cmd[2][7], cmd[2][0])]
    ensures Response(env, cmd, from) == if Reads(cmd) then Tail(env, from, len) else []
  {
  }

  lemma {:induction false} BitsCommandMeans(env: Env, data: Byte, len: nat, postread: bool, from: nat)
    requires 0 < len <= 8
    ensures var cmd := BitsCommand(data, len, postread);
      && Complete(cmd) && Pulses(cmd) == Levels(data[..len])
      && Response(env, cmd, from) == if postread then Tail(env, from, len) else []
  {
    OpcodeKind(WRITE_BITS, postread, BitsCommand(data, len, postread));
    SmallByte(len - 1);
    ShortCommand(env, BitsCommand(data, len, postread), len, from);
  }

  /** Bit 7 is the data and bit 0 the level of TMS. */
  lemma {:induction false} TmsData(data: Byte)
    ensures Or(Byte8(1), Shl(data, 7))[0] && Or(Byte8(1), Shl(data, 7))[7] == data[0]
  {
    HighBitsZero(1, 1, 8, 7);
  }

  lemma {:induction false} TmsCommandMeans(env: Env, data: Byte, postread: bool, from: nat)
    ensures var cmd := TmsCommand(data, postread);
      && Complete(cmd) && Pulses(cmd) == [Edge(data[0], true)]
      && Response(env, cmd, from) == if postread then Tail(env, from, 1) else []
  {
    OpcodeKind(WRITE_TMS, postread, TmsCommand(data, postread));
    SmallByte(0);
    TmsData(data);
    ShortCommand(env, TmsCommand(data, postread), 1, from);
  }

  // ---------- A whole stream ----------

  function TmsBits(withTms: bool): nat
  {
    if withTms then 1 else 0
  }

  function Plain(len: nat, withTms: bool): nat
    requires withTms ==> len > 0
  {
    if withTms then len - 1 else len
  }

  /** The response bytes of a stream whose first pulse is number from. */
  function StreamResponse(env: Env, from: nat, len: nat, withTms: bool): seq<Byte>
    requires withTms ==> len > 0
  {
    var n := Plain(len, withTms);
    BytesResponse(env, from, n / 8)
      + Tail(env, from + 8 * (n / 8), n % 8)
      + Tail(env, from + n, TmsBits(withTms))
  }

  /** The bits before, inside and behind byte k. */
  lemma {:induction false} BitsAround(bytes: seq<Byte>, k: nat, j: nat)
    requires k <= |bytes| && j <= 8 && 8 * k + j <= 8 * |bytes|
    ensures BitsOf(bytes)[..8 * k] == BitsOf(bytes[..k])
    ensures k < |bytes| ==> BitsOf(bytes)[8 * k..8 * k + j] == bytes[k][..j]
    ensures k < |bytes| && j < 8 ==> BitsOf(bytes)[8 * k + j] == bytes[k][j]
  {
    if k < |bytes| {
      forall c | 0 <= c < j
        ensures BitsOf(bytes)[8 * k + c] == bytes[k][c]
      {
        BitsOfAt(bytes, k, c);
      }
      if j < 8 {
        BitsOfAt(bytes, k, j);
      }
    }
  }

  lemma {:induction false} LevelsConcat(a: seq<bool>, b: seq<bool>)
    ensures Levels(a + b) == Levels(a) + Levels(b)
  {
  }

  lemma {:induction false} LastWithTms(bits: seq<bool>)
    requires bits != []
    ensures StreamPulses(bits, true) == Levels(bits[..|bits| - 1]) + [Edge(bits[|bits| - 1], true)]
    ensures StreamPulses(bits, false) == Levels(bits)
  {
  }

  /** The first 8 * k + j bits. */
  lemma {:induction false} PlainSplit(bytes: seq<Byte>, k: nat, j: nat)
    requires j < 8 && 8 * k + j <= 8 * |bytes|
    ensures Levels(BitsOf(bytes)[..8 * k + j]) == Levels(BitsOf(bytes[..k])) + Middle(bytes, k, j)
  {
    BitsAround(bytes, k, j);
    var bits := BitsOf(bytes);
    assert bits[..8 * k + j] == bits[..8 * k] + bits[8 * k..8 * k + j];
    LevelsConcat(bits[..8 * k], bits[8 * k..8 * k + j]);
  }

  /** The whole bytes, the remaining bits and the last bit with TMS are the stream. */
  lemma {:induction false} StreamSplit(bytes: seq<Byte>, len: nat, withTms: bool, k: nat, j: nat)
    requires len <= 8 * |bytes| && (withTms ==> len > 0)
    requires 8 * k + j == Plain(len, withTms) && j < 8
    ensures StreamPulses(BitsOf(bytes)[..len], withTms)
      == Levels(BitsOf(bytes[..k])) + (Middle(bytes, k, j) + Last(bytes, k, j, withTms))
  {
    PlainSplit(bytes, k, j);
    var bits := BitsOf(bytes)[..len];
    if withTms {
      BitsOfAt(bytes, k, j);
      LastWithTms(bits);
      assert bits[..len - 1] == BitsOf(bytes)[..len - 1];
      Join3(Levels(BitsOf(bytes[..k])), Middle(bytes, k, j), Last(bytes, k, j, true));
    } else {
      assert StreamPulses(bits, false) == Levels(bits);
    }
  }

  lemma {:induction false} Join3<T>(a: seq<T>, b: seq<T>, c: seq<T>)
    ensures (a + b) + c == a + (b + c)
  {
  }

  function Middle(bytes: seq<Byte>, k: nat, j: nat): (r: seq<Edge>)
    requires j < 8 && 8 * k + j <= 8 * |bytes|
    ensures |r| == j
  {
    if j > 0 then Levels(bytes[k][..j]) else []
  }

  function Last(bytes: seq<Byte>, k: nat, j: nat, withTms: bool): seq<Edge>
    requires j < 8 && (withTms ==> k < |bytes|)
  {
    if withTms then [Edge(bytes[k][j], true)] else []
  }

  function WhenRead(postread: bool, bytes: seq<Byte>): seq<Byte>
  {
    if postread then bytes else []
  }

  /** The response to n whole bytes whose first pulse is number from. */
  function BytesResponse(env: Env, from: nat, n: nat): (r: seq<Byte>)
    ensures |r| == n
  {
    Pack(Captured(env, from, 8 * n), n)
  }

  // ---------- What each part of a stream adds to the log ----------

  function BytesPart(env: Env, from: nat, buf: seq<Byte>, n: nat, postread: bool): (p: Log)
    requires n <= |buf|
    ensures |p.sent| == 8 * n
  {
    Log(Levels(BitsOf(buf[..n])), WhenRead(postread, BytesResponse(env, from, n)))
  }

  function RestPart(env: Env, from: nat, buf: seq<Byte>, k: nat, j: nat, postread: bool): (p: Log)
    requires j < 8 && 8 * k + j <= 8 * |buf|
    ensures |p.sent| == j
  {
    Log(Middle(buf, k, j), WhenRead(postread, Tail(env, from, j)))
  }

  function LastPart(env: Env, from: nat, buf: seq<Byte>, k: nat, j: nat, postread: bool, withTms: bool): Log
    requires j < 8 && (withTms ==> k < |buf|)
  {
    Log(Last(buf, k, j, withTms), WhenRead(postread, Tail(env, from, TmsBits(withTms))))
  }

  /** The whole stream. */
  function StreamPart(env: Env, from: nat, buf: seq<Byte>, len: nat, postread: bool, withTms: bool): Log
    requires len <= 8 * |buf| && (withTms ==> len > 0)
  {
    Log(StreamPulses(BitsOf(buf)[..len], withTms), WhenRead(postread, StreamResponse(env, from, len, withTms)))
  }

  class Driver {
    const conn: UsbConn

    constructor (env: Env)
      ensures fresh(conn) && conn.Valid() && conn.env == env && conn.log == Log([], [])
    {
      conn := new UsbConn(env);
    }

    /** Whole bytes, in chunks of 65536. */
    method WriteBytes(buf: seq<Byte>, len: nat, postread: bool, ghost from: nat)
      requires conn.Valid() && len <= |buf| && from == |conn.log.sent|
      modifies conn
      ensures conn.Valid() && conn.log == Join(old(conn.log), BytesPart(conn.env, from, buf, len, postread))
    {
      ghost var l := conn.log;
      NothingYet(conn.env, l, buf, postread, from);
      var at := 0;
      while at < len
        invariant at <= len && conn.Valid()
        invariant conn.log == Join(l, BytesPart(conn.env, from, buf, at, postread))
      {
        var size := if len - at < 65536 then len - at else 65536;
        WriteNext(l, buf, at, size, postread, from);
        at := at + size;
      }
    }

    method WriteNext(ghost l: Log, buf: seq<Byte>, at: nat, size: nat, postread: bool, ghost from: nat)
      requires conn.Valid() && at + size <= |buf| && 0 < size <= 65536 && from == |l.sent|
      requires conn.log == Join(l, BytesPart(conn.env, from, buf, at, postread))
      modifies conn
      ensures conn.Valid() && conn.log == Join(l, BytesPart(conn.env, from, buf, at + size, postread))
    {
      ChunkJoins(conn.env, l, from, buf, at, size, postread);
      WriteChunk(buf[at..at + size], postread, from + 8 * at);
    }

    method WriteChunk(chunk: seq<Byte>, postread: bool, ghost from: nat)
      requires conn.Valid() && 0 < |chunk| <= 65536 && from == |conn.log.sent|
      modifies conn
      ensures conn.Valid()
      ensures conn.log == Join(old(conn.log), BytesPart(conn.env, from, chunk, |chunk|, postread))
    {
      assert chunk[..|chunk|] == chunk;
      BytesCommandMeans(conn.env, chunk, postread, from);
      conn.Write(BytesCommand(chunk, postread), if postread then |chunk| else 0);
    }

    /** Up to eight bits of one byte, or a single one with TMS high. */
    method WriteBits(data: Byte, len: nat, postread: bool, withTms: bool, ghost from: nat)
      requires conn.Valid() && 0 < len <= 8 && (withTms ==> len == 1) && from == |conn.log.sent|
      modifies conn
      ensures conn.Valid()
      ensures conn.log == Join(old(conn.log),
          Log(ShortPulses(data, len, withTms), WhenRead(postread, Tail(conn.env, from, len))))
    {
      ShortBitsMean(conn.env, data, len, postread, withTms, from);
      conn.Write(ShortBits(data, len, postread, withTms), if postread then 1 else 0);
    }

    /** Whole bytes, then the remaining bits, then the last bit with TMS high. */
    method WriteStream(buf: seq<Byte>, len: nat, postread: bool, withTms: bool, ghost from: nat)
      requires conn.Valid() && len <= 8 * |buf| && (withTms ==> len > 0) && from == |conn.log.sent|
      modifies conn
      ensures conn.Valid()
      ensures conn.log == Join(old(conn.log), StreamPart(conn.env, from, buf, len, postread, withTms))
    {
      var lenTms := TmsBits(withTms);
      var lenBytes, lenBits := (len - lenTms) / 8, (len - lenTms) % 8;
      StreamJoin(conn.env, from, conn.log, buf, len, postread, withTms, lenBytes, lenBits);
      WriteParts(buf, lenBytes, lenBits, postread, withTms, from);
    }

    method WriteParts(buf: seq<Byte>, k: nat, j: nat, postread: bool, withTms: bool, ghost from: nat)
      requires conn.Valid() && j < 8 && 8 * k + j <= 8 * |buf| && (withTms ==> k < |buf|) && from == |conn.log.sent|
      modifies conn
      ensures conn.Valid()
      ensures conn.log == Join(Join(Join(old(conn.log), BytesPart(conn.env, from, buf, k, postread)),
            RestPart(conn.env, from + 8 * k, buf, k, j, postread)),
          LastPart(conn.env, from + 8 * k + j, buf, k, j, postread, withTms))
    {
      WriteBytes(buf, k, postread, from);
      WriteEnd(buf, k, j, postread, withTms, from + 8 * k);
    }

    /** The commands behind those of the whole bytes. */
    method WriteEnd(buf: seq<Byte>, k: nat, j: nat, postread: bool, withTms: bool, ghost from: nat)
      requires conn.Valid() && j < 8 && 8 * k + j <= 8 * |buf| && (withTms ==> k < |buf|) && from == |conn.log.sent|
      modifies conn
      ensures conn.Valid()
      ensures conn.log == Join(Join(old(conn.log), RestPart(conn.env, from, buf, k, j, postread)),
          LastPart(conn.env, from + j, buf, k, j, postread, withTms))
    {
      WriteRest(buf, k, j, postread, from);
      WriteLast(buf, k, j, postread, withTms, from + j);
    }

    method WriteRest(buf: seq<Byte>, k: nat, j: nat, postread: bool, ghost from: nat)
      requires conn.Valid() && j < 8 && 8 * k + j <= 8 * |buf| && from == |conn.log.sent|
      modifies conn
      ensures conn.Valid() && conn.log == Join(old(conn.log), RestPart(conn.env, from, buf, k, j, postread))
    {
      if j > 0 {
        WriteBits(buf[k], j, postread, false, from);
      }
    }

    method WriteLast(buf: seq<Byte>, k: nat, j: nat, postread: bool, withTms: bool, ghost from: nat)
      requires conn.Valid() && j < 8 && (withTms ==> k < |buf|) && from == |conn.log.sent|
      modifies conn
      ensures conn.Valid() && conn.log == Join(old(conn.log), LastPart(conn.env, from, buf, k, j, postread, withTms))
    {
      if withTms {
        WriteBits(Shr(buf[k], j), 1, postread, true, from);
      }
    }

    /** Whole bytes are copied. */
    method ReadBytes(buf: array<Byte>, n: nat)
      requires conn.Valid() && n <= buf.Length && n <= |conn.log.pending|
      modifies conn, buf
      ensures conn.Valid() && conn.log == old(conn.log).(pending := old(conn.log).pending[n..])
      ensures buf[..] == old(conn.log).pending[..n] + old(buf[n..])
    {
      var mybuf := conn.Read(n);
      CopyBytes(buf, mybuf);
    }

    /** n < 8 bits are moved down inside their byte and masked in, one by one, from offset on. */
    method ReadBits(buf: array<Byte>, n: nat, offset: nat)
      requires conn.Valid() && 0 < n < 8 && offset % 8 + n <= 8 && offset / 8 < buf.Length
      requires conn.log.pending != []
      modifies conn, buf
      ensures conn.Valid() && conn.log == old(conn.log).(pending := old(conn.log).pending[1..])
      ensures buf[..] == PatchedRow(old(buf[..]), offset / 8, offset % 8, old(conn.log).pending[0][8 - n..])
    {
      var mybuf := conn.Read(1);
      ShiftIn(buf, mybuf[0], n, offset);
    }

    /** Collects the response to a stream whose first pulse was number from. */
    method ReadStream(buf: array<Byte>, len: nat, withTms: bool, ghost from: nat, ghost more: seq<Byte>)
      requires conn.Valid() && len <= 8 * buf.Length && (withTms ==> len > 0)
      requires conn.log.pending == StreamResponse(conn.env, from, len, withTms) + more
      modifies conn, buf
      ensures conn.Valid() && conn.log == old(conn.log).(pending := more)
      ensures BitsOf(buf[..]) == Received(BitsOf(old(buf[..])), conn.env, from, len)
    {
      var lenTms := TmsBits(withTms);
      var lenBytes, lenBits := (len - lenTms) / 8, (len - lenTms) % 8;
      assert 8 * lenBytes + lenBits == Plain(len, withTms);
      ResponseSplit(conn.env, from, len, withTms, lenBytes, lenBits, more);
      ReadParts(buf, lenBytes, lenBits, lenTms, from, more, len);
    }

    /** Shifts out a stream and stores what was captured meanwhile; nothing is left unread. */
    method ReadWriteStream(outBuf: seq<Byte>, inBuf: array<Byte>, len: nat, withTms: bool)
      requires conn.Valid() && conn.log.pending == []
      requires len <= 8 * |outBuf| && len <= 8 * inBuf.Length && (withTms ==> len > 0)
      modifies conn, inBuf
      ensures conn.Valid() && conn.log.pending == []
      ensures conn.log.sent == old(conn.log.sent) + StreamPulses(BitsOf(outBuf)[..len], withTms)
      ensures BitsOf(inBuf[..]) == Received(BitsOf(old(inBuf[..])), conn.env, |old(conn.log.sent)|, len)
    {
      ghost var from := |conn.log.sent|;
      WriteStream(outBuf, len, true, withTms, from);
      ReadStream(inBuf, len, withTms, from, []);
    }

    /** Shifts out a stream and lets the chip obey at once. */
    method WriteOnly(buf: seq<Byte>, len: nat, withTms: bool)
      requires conn.Valid() && conn.log.pending == []
      requires len <= 8 * |buf| && (withTms ==> len > 0)
      modifies conn
      ensures conn.Valid() && conn.log.pending == []
      ensures conn.chip.pulses == old(conn.log.sent) + StreamPulses(BitsOf(buf)[..len], withTms)
    {
      WriteStream(buf, len, false, withTms, |conn.log.sent|);
      conn.Flush();
    }

    method ReadParts(buf: array<Byte>, k: nat, j: nat, n: nat, ghost from: nat, ghost more: seq<Byte>, ghost len: nat)
      requires conn.Valid() && j < 8 && n <= 1 && 8 * k + j + n == len <= 8 * buf.Length
      requires conn.log.pending
        == BytesResponse(conn.env, from, k)
           + (Tail(conn.env, from + 8 * k, j) + (Tail(conn.env, from + 8 * k + j, n) + more))
      modifies conn, buf
      ensures conn.Valid() && conn.log == old(conn.log).(pending := more)
      ensures BitsOf(buf[..]) == Received(BitsOf(old(buf[..])), conn.env, from, len)
    {
      ghost var was, last := BitsOf(buf[..]), Tail(conn.env, from + 8 * k + j, n) + more;
      ReadWhole(buf, k, from, Tail(conn.env, from + 8 * k, j) + last);
      ReadTails(buf, k, j, n, from, more, was, 8 * k);
    }

    method ReadTails(buf: array<Byte>, k: nat, j: nat, n: nat, ghost from: nat, ghost more: seq<Byte>,
                     ghost was: seq<bool>, ghost m: nat)
      requires conn.Valid() && j < 8 && n <= 1 && m == 8 * k && m + j + n <= 8 * buf.Length == |was|
      requires conn.log.pending == Tail(conn.env, from + m, j) + (Tail(conn.env, from + (m + j), n) + more)
      requires BitsOf(buf[..]) == Received(was, conn.env, from, m)
      modifies conn, buf
      ensures conn.Valid() && conn.log == old(conn.log).(pending := more)
      ensures BitsOf(buf[..]) == Received(was, conn.env, from, m + j + n)
    {
      ghost var last := Tail(conn.env, from + (m + j), n) + more;
      ReadTail(buf, k, 0, j, from, last, was, m);
      ReadTail(buf, k, j, n, from, more, was, m + j);
    }

    method ReadWhole(buf: array<Byte>, k: nat, ghost from: nat, ghost more: seq<Byte>)
      requires conn.Valid() && k <= buf.Length
      requires conn.log.pending == BytesResponse(conn.env, from, k) + more
      modifies conn, buf
      ensures conn.Valid() && conn.log == old(conn.log).(pending := more)
      ensures BitsOf(buf[..]) == Received(BitsOf(old(buf[..])), conn.env, from, 8 * k)
    {
      CopiedBits(buf[..], BytesResponse(conn.env, from, k));
      PackedBits(Captured(conn.env, from, 8 * k), k);
      ReadBytes(buf, k);
    }

    /** n < 8 bits behind the first j bits of row k, which is behind the first m bits in all. */
    method ReadTail(buf: array<Byte>, k: nat, j: nat, n: nat, ghost from: nat, ghost more: seq<Byte>,
                    ghost was: seq<bool>, ghost m: nat)
      requires conn.Valid() && n < 8 && j + n <= 8 && j < 8 && m == 8 * k + j && m + n <= 8 * buf.Length == |was|
      requires conn.log.pending == Tail(conn.env, from + m, n) + more
      requires BitsOf(buf[..]) == Received(was, conn.env, from, m)
      modifies conn, buf
      ensures conn.Valid() && conn.log == old(conn.log).(pending := more)
      ensures BitsOf(buf[..]) == Received(was, conn.env, from, m + n)
    {
      if n > 0 {
        TailArrives(buf[..], was, conn.env, from, k, j, m, n, conn.log.pending, more);
        ReadBits(buf, n, 8 * k + j);
      } else {
        assert conn.log.pending == more;
      }
    }
  }

  /** The first n bits are those captured from pulse number from on; the others are untouched. */
  function Received(was: seq<bool>, env: Env, from: nat, n: nat): (r: seq<bool>)
    requires n <= |was|
    ensures |r| == |was|
  {
    Captured(env, from, n) + was[n..]
  }

  lemma {:induction false} ReceivedMore(was: seq<bool>, env: Env, from: nat, m: nat, n: nat)
    requires m + n <= |was|
    ensures var r := Received(was, env, from, m);
      r[..m] + Captured(env, from + m, n) + r[m + n..] == Received(was, env, from, m + n)
  {
    CapturedConcat(env, from, m, n);
    assert Received(was, env, from, m)[..m] == Captured(env, from, m);
    assert Received(was, env, from, m)[m + n..] == was[m + n..];
  }

  lemma {:induction false} TailFirst(env: Env, from: nat, n: nat, more: seq<Byte>)
    requires 0 < n <= 8
    ensures (Tail(env, from, n) + more)[0][8 - n..] == Captured(env, from, n)
    ensures (Tail(env, from, n) + more)[1..] == more
  {
  }

  /** The next response byte, patched into the row at offset m, completes the first m + n bits. */
  lemma {:induction false} TailArrives(rows: seq<Byte>, was: seq<bool>, env: Env, from: nat, k: nat, j: nat, m: nat,
                                       n: nat, pending: seq<Byte>, more: seq<Byte>)
    requires k < |rows| && 0 < n < 8 && j + n <= 8 && j < 8 && m == 8 * k + j && m + n <= |was|
    requires BitsOf(rows) == Received(was, env, from, m) && pending == Tail(env, from + m, n) + more
    ensures m / 8 == k && m % 8 == j && pending != [] && pending[1..] == more
    ensures BitsOf(PatchedRow(rows, m / 8, m % 8, pending[0][8 - n..])) == Received(was, env, from, m + n)
  {
    SameByte(8 * k, j);
    TailFirst(env, from + m, n, more);
    TailReceived(rows, was, env, from, k, j, m, n);
  }

  lemma {:induction false} TailReceived(rows: seq<Byte>, was: seq<bool>, env: Env, from: nat, k: nat, j: nat, m: nat,
                                        n: nat)
    requires k < |rows| && j + n <= 8 && m == 8 * k + j && m + n <= |was|
    requires BitsOf(rows) == Received(was, env, from, m)
    ensures BitsOf(PatchedRow(rows, k, j, Captured(env, from + m, n))) == Received(was, env, from, m + n)
  {
    PatchedBits(rows, k, j, Captured(env, from + m, n));
    ReceivedMore(was, env, from, m, n);
  }

  lemma {:induction false} CopiedBits(was: seq<Byte>, bytes: seq<Byte>)
    requires |bytes| <= |was|
    ensures BitsOf(bytes + was[|bytes|..]) == BitsOf(bytes) + BitsOf(was)[8 * |bytes|..]
  {
    var k := |bytes|;
    BitsOfConcat(bytes, was[k..]);
    BitsOfConcat(was[..k], was[k..]);
    assert was == was[..k] + was[k..];
  }

  function PatchedRow(rows: seq<Byte>, k: nat, j: nat, bits: seq<bool>): seq<Byte>
    requires k < |rows| && j + |bits| <= 8
  {
    rows[k := Patched(rows[k], j, bits)]
  }

  lemma {:induction false} PatchedBits(rows: seq<Byte>, k: nat, j: nat, bits: seq<bool>)
    requires k < |rows| && j + |bits| <= 8
    ensures BitsOf(PatchedRow(rows, k, j, bits))
      == BitsOf(rows)[..8 * k + j] + bits + BitsOf(rows)[8 * k + j + |bits|..]
  {
    var x, m := BitsOf(PatchedRow(rows, k, j, bits)), 8 * k + j;
    var y := BitsOf(rows)[..m] + bits + BitsOf(rows)[m + |bits|..];
    forall i | 0 <= i < |x|
      ensures x[i] == y[i]
    {
      var r, c := i / 8, i % 8;
      assert x[i] == PatchedRow(rows, k, j, bits)[r][c] && BitsOf(rows)[i] == rows[r][c];
      if r == k && j <= c < j + |bits| {
        assert x[i] == bits[c - j] == y[i];
      } else {
        assert i < m || i >= m + |bits|;
      }
    }
  }

  method CopyBytes(buf: array<Byte>, bytes: seq<Byte>)
    requires |bytes| <= buf.Length
    modifies buf
    ensures buf[..] == bytes + old(buf[|bytes|..])
  {
    for k := 0 to |bytes|
      invariant buf[..k] == bytes[..k]
      invariant buf[k..] == old(buf[k..])
    {
      buf[k] := bytes[k];
    }
    assert buf[..] == buf[..|bytes|] + buf[|bytes|..];
  }

  method ShiftIn(buf: array<Byte>, b: Byte, n: nat, offset: nat)
    requires 0 < n < 8 && offset % 8 + n <= 8 && offset / 8 < buf.Length
    modifies buf
    ensures buf[..] == PatchedRow(old(buf[..]), offset / 8, offset % 8, b[8 - n..])
  {
    var src := Shr(b, 8 - n);
    ghost var row, was := offset / 8, buf[offset / 8];
    PatchedNone(was, offset % 8, b[8 - n..]);
    for i := offset to n + offset
      invariant forall k :: 0 <= k < buf.Length && k != row ==> buf[k] == old(buf[k])
      invariant buf[row] == Patched(was, offset % 8, b[8 - n..][..i - offset])
    {
      MoveBit(buf, i, offset, src, was, b[8 - n..]);
    }
    assert b[8 - n..][..n] == b[8 - n..];
  }

  /** One turn of the loop; the bit never has to move to the right. */
  method MoveBit(buf: array<Byte>, i: nat, offset: nat, src: Byte, ghost was: Byte, ghost bits: seq<bool>)
    requires offset <= i < offset + |bits| && offset % 8 + |bits| <= 8 && offset / 8 < buf.Length
    requires src[i - offset] == bits[i - offset]
    requires buf[offset / 8] == Patched(was, offset % 8, bits[..i - offset])
    modifies buf
    ensures forall k :: 0 <= k < buf.Length && k != offset / 8 ==> buf[k] == old(buf[k])
    ensures buf[offset / 8] == Patched(was, offset % 8, bits[..i - offset + 1])
  {
    var row, dstCol, srcCol := i / 8, i % 8, i - offset;
    SameByte(offset, srcCol);
    assert row == offset / 8 && dstCol == offset % 8 + srcCol;
    MaskedIn(was, offset % 8, bits, srcCol, src);
    if dstCol >= srcCol {
      buf[row] := MaskIn(buf[row], dstCol, src, srcCol);
    } else {
      assert false;
    }
  }

  lemma {:induction false} SameByte(offset: nat, c: nat)
    requires offset % 8 + c < 8
    ensures (offset + c) / 8 == offset / 8 && (offset + c) % 8 == offset % 8 + c
  {
  }

  /** (dst & ~(1 << dstCol)) | ((src & (1 << srcCol)) << (dstCol - srcCol)), in 8 bits. */
  function MaskIn(dst: Byte, dstCol: nat, src: Byte, srcCol: nat): Byte
    requires srcCol <= dstCol < 8
  {
    Or(And(dst, Not(Shl(Byte8(1), dstCol))), Shl(And(src, Shl(Byte8(1), srcCol)), dstCol - srcCol))
  }

  /** The byte with the given bits in place from position at on. */
  function Patched(b: Byte, at: nat, bits: seq<bool>): (r: Byte)
    requires at + |bits| <= 8
  {
    b[..at] + bits + b[at + |bits|..]
  }

  lemma {:induction false} PatchedNone(b: Byte, at: nat, bits: seq<bool>)
    requires at <= 8
    ensures Patched(b, at, bits[..0]) == b
  {
  }

  lemma {:induction false} MaskInIsUpdate(dst: Byte, dstCol: nat, src: Byte, srcCol: nat)
    requires srcCol <= dstCol < 8
    ensures MaskIn(dst, dstCol, src, srcCol) == dst[dstCol := src[srcCol]]
  {
    var one, r := Byte8(1), MaskIn(dst, dstCol, src, srcCol);
    forall i | 0 <= i < 8
      ensures r[i] == dst[dstCol := src[srcCol]][i]
    {
      OneAt(i, dstCol);
      if i >= dstCol - srcCol {
        OneAt(i - (dstCol - srcCol), srcCol);
      }
    }
  }

  lemma {:induction false} OneAt(i: nat, n: nat)
    requires i < 8 && n < 8
    ensures Shl(Byte8(1), n)[i] <==> i == n
  {
    if i > n {
      HighBitsZero(1, 1, 8, i - n);
    }
  }

  lemma {:induction false} MaskedIn(was: Byte, at: nat, bits: seq<bool>, c: nat, src: Byte)
    requires at + |bits| <= 8 && c < |bits| && src[c] == bits[c]
    ensures MaskIn(Patched(was, at, bits[..c]), at + c, src, c) == Patched(was, at, bits[..c + 1])
  {
    MaskInIsUpdate(Patched(was, at, bits[..c]), at + c, src, c);
    PatchedNext(was, at, bits, c);
  }

  lemma {:induction false} PatchedNext(was: Byte, at: nat, bits: seq<bool>, c: nat)
    requires at + |bits| <= 8 && c < |bits|
    ensures Patched(was, at, bits[..c])[at + c := bits[c]] == Patched(was, at, bits[..c + 1])
  {
  }

  /** The three parts of a stream, put together. */
  lemma {:induction false} StreamJoin(env: Env, from: nat, l: Log, buf: seq<Byte>, len: nat, postread: bool,
                                      withTms: bool, k: nat, j: nat)
    requires len <= 8 * |buf| && (withTms ==> len > 0)
    requires 8 * k + j == Plain(len, withTms) && j < 8
    ensures Join(Join(Join(l, BytesPart(env, from, buf, k, postread)),
          RestPart(env, from + 8 * k, buf, k, j, postread)),
          LastPart(env, from + 8 * k + j, buf, k, j, postread, withTms))
      == Join(l, StreamPart(env, from, buf, len, postread, withTms))
  {
    PartsJoin(env, from, buf, len, postread, withTms, k, j);
    JoinThree(l, BytesPart(env, from, buf, k, postread), RestPart(env, from + 8 * k, buf, k, j, postread),
      LastPart(env, from + 8 * k + j, buf, k, j, postread, withTms));
  }

  lemma {:induction false} JoinThree(l: Log, a: Log, b: Log, c: Log)
    ensures Join(Join(Join(l, a), b), c) == Join(l, Join(a, Join(b, c)))
  {
    JoinAssoc(Join(l, a), b, c);
    JoinAssoc(l, a, Join(b, c));
  }

  lemma {:induction false} PartsJoin(env: Env, from: nat, buf: seq<Byte>, len: nat, postread: bool, withTms: bool,
                                     k: nat, j: nat)
    requires len <= 8 * |buf| && (withTms ==> len > 0)
    requires 8 * k + j == Plain(len, withTms) && j < 8
    ensures Join(BytesPart(env, from, buf, k, postread),
        Join(RestPart(env, from + 8 * k, buf, k, j, postread),
          LastPart(env, from + 8 * k + j, buf, k, j, postread, withTms)))
      == StreamPart(env, from, buf, len, postread, withTms)
  {
    StreamSplit(buf, len, withTms, k, j);
    ResponseSplit(env, from, len, withTms, k, j, []);
  }

  lemma {:induction false} ResponseSplit(env: Env, from: nat, len: nat, withTms: bool, k: nat, j: nat, more: seq<Byte>)
    requires (withTms ==> len > 0) && 8 * k + j == Plain(len, withTms) && j < 8
    ensures StreamResponse(env, from, len, withTms) + more
      == BytesResponse(env, from, k)
         + (Tail(env, from + 8 * k, j) + (Tail(env, from + 8 * k + j, TmsBits(withTms)) + more))
  {
  }

  function ShortPulses(data: Byte, len: nat, withTms: bool): seq<Edge>
    requires len <= 8
  {
    if withTms then [Edge(data[0], true)] else Levels(data[..len])
  }

  function ShortBits(data: Byte, len: nat, postread: bool, withTms: bool): seq<Byte>
    requires 0 < len <= 8
  {
    if withTms then TmsCommand(data, postread) else BitsCommand(data, len, postread)
  }

  lemma {:induction false} ShortBitsMean(env: Env, data: Byte, len: nat, postread: bool, withTms: bool, from: nat)
    requires 0 < len <= 8 && (withTms ==> len == 1)
    ensures var cmd := ShortBits(data, len, postread, withTms);
      && Complete(cmd)
      && Pulses(cmd) == ShortPulses(data, len, withTms)
      && Response(env, cmd, from) == WhenRead(postread, Tail(env, from, len))
  {
    if withTms {
      TmsCommandMeans(env, data, postread, from);
    } else {
      BitsCommandMeans(env, data, len, postread, from);
    }
  }

  lemma {:induction false} NothingYet(env: Env, l: Log, buf: seq<Byte>, postread: bool, from: nat)
    ensures Join(l, BytesPart(env, from, buf, 0, postread)) == l
  {
  }

  lemma {:induction false} ChunkJoins(env: Env, l: Log, from: nat, buf: seq<Byte>, at: nat, size: nat, postread: bool)
    requires at + size <= |buf| && from == |l.sent|
    ensures |Join(l, BytesPart(env, from, buf, at, postread)).sent| == from + 8 * at
    ensures Join(Join(l, BytesPart(env, from, buf, at, postread)),
        BytesPart(env, from + 8 * at, buf[at..at + size], size, postread))
      == Join(l, BytesPart(env, from, buf, at + size, postread))
  {
    ChunkExtends(env, from, buf, at, size, postread);
    JoinAssoc(l, BytesPart(env, from, buf, at, postread),
              BytesPart(env, from + 8 * at, buf[at..at + size], size, postread));
  }

  /** What one more chunk adds. */
  lemma {:induction false} ChunkExtends(env: Env, from: nat, buf: seq<Byte>, at: nat, size: nat, postread: bool)
    requires at + size <= |buf|
    ensures Join(BytesPart(env, from, buf, at, postread),
        BytesPart(env, from + 8 * at, buf[at..at + size], size, postread))
      == BytesPart(env, from, buf, at + size, postread)
  {
    assert buf[at..at + size][..size] == buf[at..at + size];
    PulsesAdd(buf, at, size);
    ResponsesAdd(env, from, at, size);
  }

  lemma {:induction false} PulsesAdd(buf: seq<Byte>, at: nat, size: nat)
    requires at + size <= |buf|
    ensures Levels(BitsOf(buf[..at + size])) == Levels(BitsOf(buf[..at])) + Levels(BitsOf(buf[at..at + size]))
  {
    assert buf[..at + size] == buf[..at] + buf[at..at + size];
    BitsOfConcat(buf[..at], buf[at..at + size]);
    LevelsConcat(BitsOf(buf[..at]), BitsOf(buf[at..at + size]));
  }

  lemma {:induction false} ResponsesAdd(env: Env, from: nat, at: nat, size: nat)
    ensures BytesResponse(env, from, at + size)
         == BytesResponse(env, from, at) + BytesResponse(env, from + 8 * at, size)
  {
    CapturedConcat(env, from, 8 * at, 8 * size);
    PackConcat(Captured(env, from, 8 * at), Captured(env, from + 8 * at, 8 * size), at, size);
  }
}
