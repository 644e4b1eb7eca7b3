/**
 put_packet and get_packet on a client connection, proved against the stream functions of
 RspPacket.
 */
module RspIo {
  import opened RspPacket

  /** The client socket: what is still to be read, and everything written. */
  class Connection {
    var input: seq<byte>
    var output: seq<byte>

    constructor (incoming: seq<byte>)
      ensures input == incoming && output == []
    {
      input, output := incoming, [];
    }

    /** The next character, or -1 once the stream has ended. */
    method GetChar() returns (ch: int)
      modifies this`input
      ensures old(input) == [] ==> ch == -1 && input == []
      ensures old(input) != [] ==> ch == old(input)[0] && input == old(input)[1..]
    {
      if input == [] {
        return -1;
      }
      ch := input[0];
      input := input[1..];
    }

    method PutChar(c: byte)
      modifies this`output
      ensures output == old(output) + [c]
    {
      output := output + [c];
    }
  }

  /** One character of the body, escaped if need be and added to the checksum. */
  method SendChar(c: Connection, sent: byte, checksum: byte, ghost e: seq<byte>) returns (sum: byte)
    requires checksum == Checksum(e)
    modifies c`output
    ensures c.output == old(c.output) + Escaped(sent)
    ensures sum == Checksum(e + Escaped(sent))
  {
    var ch := sent;
    sum := checksum;
    EscapedSum(e, sent);
    if NeedsEscape(ch) {
      ch := Xor20(ch);
      sum := (sum + ESC) % 256;
      c.PutChar(ESC);
    }
    sum := (sum + ch) % 256;
    c.PutChar(ch);
  }

  lemma {:induction false} EscapedSum(e: seq<byte>, b: byte)
    ensures Checksum(e + Escaped(b))
      == if NeedsEscape(b) then ((Checksum(e) + ESC) % 256 + Xor20(b)) % 256 else (Checksum(e) + b) % 256
  {
    if NeedsEscape(b) {
      ChecksumSnoc(e, ESC);
      ChecksumSnoc(e + [ESC], Xor20(b));
      assert e + [ESC] + [Xor20(b)] == e + [ESC, Xor20(b)];
    } else {
      ChecksumSnoc(e, b);
    }
  }

  /** One transmission: start, escaped body, end, checksum digits. */
  method SendFrame(c: Connection, p: seq<byte>)
    modifies c`output
    ensures c.output == old(c.output) + Frame(p)
  {
    c.PutChar(DOLLAR);
    var checksum := SendBody(c, p);
    c.PutChar(HASH);
    c.PutChar(HexDigit(checksum / 16));
    c.PutChar(HexDigit(checksum % 16));
  }

  method SendBody(c: Connection, p: seq<byte>) returns (checksum: byte)
    modifies c`output
    ensures c.output == old(c.output) + Escape(p)
    ensures checksum == Checksum(Escape(p))
  {
    checksum := 0;
    for count := 0 to |p|
      invariant c.output == old(c.output) + Escape(p[..count])
      invariant checksum == Checksum(Escape(p[..count]))
    {
      EscapeSnoc(p, count);
      checksum := SendChar(c, p[count], checksum, Escape(p[..count]));
    }
    assert p[..|p|] == p;
  }

  lemma {:induction false} EscapeSnoc(p: seq<byte>, i: nat)
    requires i < |p|
    ensures Escape(p[..i + 1]) == Escape(p[..i]) + Escaped(p[i])
  {
    EscapeConcat(p[..i], [p[i]]);
    assert p[..i + 1] == p[..i] + [p[i]];
    assert [p[i]][1..] == [];
  }

  lemma {:induction false} EscapeConcat(a: seq<byte>, b: seq<byte>)
    ensures Escape(a + b) == Escape(a) + Escape(b)
    decreases a
  {
    if a == [] {
      assert a + b == b;
    } else {
      assert (a + b)[1..] == a[1..] + b;
      EscapeConcat(a[1..], b);
    }
  }

  lemma {:induction false} ChecksumSnoc(s: seq<byte>, b: byte)
    ensures Checksum(s + [b]) == (Checksum(s) + b) % 256
  {
    assert (s + [b])[..|s|] == s;
  }

  /** What is sent, and what is left to read, when a frame is repeated until it is acknowledged. */
  datatype Sent = Sent(output: seq<byte>, rest: seq<byte>)

  function Deliver(frame: seq<byte>, input: seq<byte>): Sent
    decreases input
  {
    if input == [] then Sent(frame, [])
    else if input[0] == ACK then Sent(frame, input[1..])
    else var more := Deliver(frame, input[1..]); Sent(frame + more.output, more.rest)
  }

  /** Copies of a frame. */
  function Copies(frame: seq<byte>, n: nat): seq<byte>
  {
    if n == 0 then [] else frame + Copies(frame, n - 1)
  }

  /** How many characters come before the first '+'. */
  function BeforeAck(input: seq<byte>): (n: nat)
    ensures n <= |input| && (forall k :: 0 <= k < n ==> input[k] != '+' as int)
    ensures n < |input| ==> input[n] == '+' as int
  {
    if input == [] || input[0] == '+' as int then 0 else 1 + BeforeAck(input[1..])
  }

  /** One copy, another for each character that is not '+'; what is read is everything up to the first '+'. */
  lemma {:induction false} DeliverMeans(frame: seq<byte>, input: seq<byte>)
    ensures var n := BeforeAck(input);
      && Deliver(frame, input).output == Copies(frame, n + 1)
      && Deliver(frame, input).rest == if n < |input| then input[n + 1..] else []
    decreases input
  {
    if input != [] && input[0] != ACK {
      DeliverMeans(frame, input[1..]);
    } else {
      assert Copies(frame, 1) == frame + Copies(frame, 0);
    }
  }

  lemma {:induction false} DeliverStep(sent: seq<byte>, frame: seq<byte>, input: seq<byte>)
    ensures input == [] || input[0] == ACK ==> sent + Deliver(frame, input).output == sent + frame
    ensures input != [] && input[0] != ACK ==>
      sent + Deliver(frame, input).output == (sent + frame) + Deliver(frame, input[1..]).output
  {
  }

  method PutPacket(c: Connection, p: seq<byte>)
    modifies c
    ensures c.output == old(c.output) + Deliver(Frame(p), old(c.input)).output
    ensures c.input == Deliver(Frame(p), old(c.input)).rest
  {
    ghost var all := Deliver(Frame(p), c.input);
    while true
      invariant c.output + Deliver(Frame(p), c.input).output == old(c.output) + all.output
      invariant Deliver(Frame(p), c.input).rest == all.rest
      decreases |c.input|
    {
      DeliverStep(c.output, Frame(p), c.input);
      SendFrame(c, p);
      var ch := c.GetChar();
      if ch == -1 || ch == ACK {
        return;
      }
    }
  }

  /** How the wait for a start character ended. */
  datatype Start = Began | Interrupted | Ended

  method WaitForStart(c: Connection, ghost acks: seq<byte>) returns (r: Start)
    modifies c`input
    ensures r.Began? ==> Wait(old(c.input), acks) == Body(c.input, [], acks) && |c.input| < |old(c.input)|
    ensures r.Interrupted? ==> Wait(old(c.input), acks) == Packet([BREAK], c.input, acks)
    ensures r.Ended? ==> Wait(old(c.input), acks) == Closed(acks)
  {
    ghost var s := c.input;
    var ch := c.GetChar();
    while ch != DOLLAR
      invariant ch == -1 ==> Wait(s, acks) == Closed(acks)
      invariant ch != -1 ==> 0 <= ch < 256 && |c.input| < |s|
      invariant ch != -1 ==> Wait(s, acks) == Wait([ch] + c.input, acks)
      decreases |c.input|, ch != -1
    {
      if ch == -1 {
        return Ended;
      }
      assert ([ch] + c.input)[1..] == c.input;
      if ch == BREAK {
        return Interrupted;
      }
      ghost var before := c.input;
      ch := c.GetChar();
      assert before != [] ==> before == [ch] + c.input;
    }
    assert ([ch] + c.input)[1..] == c.input;
    return Began;
  }

  /** How the collection of a body ended. */
  datatype Stop = AtHash | Overran | Cut

  /** Read up to '#', the end of the buffer or of the stream; a '$' starts over. */
  method CollectBody(c: Connection, buf: array<byte>, ghost acks: seq<byte>)
    returns (r: Stop, count: nat, checksum: byte)
    requires buf.Length == GDB_BUF_MAX
    modifies c`input, buf
    ensures |c.input| <= |old(c.input)| && count < GDB_BUF_MAX
    ensures checksum == Checksum(buf[..count])
    ensures r.AtHash? ==> Body(old(c.input), [], acks) == Check(c.input, buf[..count], acks)
    ensures r.Overran? ==> Body(old(c.input), [], acks) == Wait(c.input, acks)
    ensures r.Cut? ==> Body(old(c.input), [], acks) == Closed(acks)
  {
    ghost var s := c.input;
    checksum := 0;
    count := 0;
    while count < GDB_BUF_MAX - 1
      invariant 0 <= count <= GDB_BUF_MAX - 1 && |c.input| <= |s|
      invariant checksum == Checksum(buf[..count])
      invariant Body(s, [], acks) == Body(c.input, buf[..count], acks)
      decreases |c.input|
    {
      var ch := c.GetChar();
      if ch == -1 {
        return Cut, count, checksum;
      }
      if ch == DOLLAR {
        checksum := 0;
        count := 0;
        continue;
      }
      if ch == HASH {
        return AtHash, count, checksum;
      }
      ChecksumSnoc(buf[..count], ch);
      checksum := (checksum + ch) % 256;
      Keep(buf, count, ch);
      count := count + 1;
    }
    return Overran, count, checksum;
  }

  method Keep(buf: array<byte>, count: nat, ch: byte)
    requires count < buf.Length
    modifies buf
    ensures buf[..count + 1] == old(buf[..count]) + [ch]
  {
    buf[count] := ch;
  }

  /** The two checksum digits and the answer to the client. */
  method CheckBody(c: Connection, checksum: byte, ghost body: seq<byte>, ghost acks: seq<byte>)
    returns (open: bool, ok: bool)
    requires checksum == Checksum(body)
    modifies c
    ensures |c.input| <= |old(c.input)|
    ensures !open ==> !ok && c.output == old(c.output) && Check(old(c.input), body, acks) == Closed(acks)
    ensures open && ok ==> c.output == old(c.output) + [ACK]
    ensures open && !ok ==> c.output == old(c.output) + [NAK]
    ensures open && ok ==> Check(old(c.input), body, acks) == Packet(body, c.input, acks + [ACK])
    ensures open && !ok ==> Check(old(c.input), body, acks) == Wait(c.input, acks + [NAK])
  {
    ghost var s := c.input;
    var hi := c.GetChar();
    if hi == -1 {
      return false, false;
    }
    var lo := c.GetChar();
    if lo == -1 {
      return false, false;
    }
    assert s[2..] == c.input;
    var xmitcsum := ((Hex(hi) * 16) % 256 + Hex(lo)) % 256;
    if checksum != xmitcsum {
      c.PutChar(NAK);
      return true, false;
    }
    c.PutChar(ACK);
    return true, true;
  }

  /** The outcome of get_packet: the packet is buf[..len]. */
  method GetPacket(c: Connection, buf: array<byte>) returns (open: bool, len: nat)
    requires buf.Length == GDB_BUF_MAX
    modifies c, buf
    ensures var g := Wait(old(c.input), []);
      && c.output == old(c.output) + g.acks
      && open == g.Packet?
      && (open ==> len <= GDB_BUF_MAX && buf[..len] == g.body && c.input == g.rest)
      && (open && g.body != [BREAK] ==> len < GDB_BUF_MAX && buf[len] == 0)
  {
    ghost var s, acks := c.input, [];
    while true
      invariant Wait(s, []) == Wait(c.input, acks) && c.output == old(c.output) + acks
      decreases |c.input|
    {
      var start := WaitForStart(c, acks);
      if start.Ended? {
        return false, 0;
      }
      if start.Interrupted? {
        buf[0] := BREAK;
        assert buf[..1] == [BREAK];
        return true, 1;
      }
      var stop, count, checksum := CollectBody(c, buf, acks);
      if stop.Cut? {
        return false, 0;
      }
      ghost var body := buf[..count];
      buf[count] := 0;
      assert buf[..count] == body;
      if stop.AtHash? {
        var ok;
        open, ok := CheckBody(c, checksum, body, acks);
        if !open {
          return false, 0;
        }
        if ok {
          return true, count;
        }
        acks := acks + [NAK];
      }
    }
  }
}
