/**
 The serial engine of the FT2232 as an interpreter of command bytes, and the buffered USB
 connection in front of it.
 */
module Mpsse {
  import opened Bits
  import opened JtagPins

  const WRITE_BYTES := 0x19
  const WRITE_BITS := 0x1b
  const WRITE_TMS := 0x4b
  const DO_READ := 0x20

  function Opcode(cmd: seq<Byte>): nat
    requires cmd != []
  {
    NatOf(cmd[0])
  }

  predicate Reads(cmd: seq<Byte>)
    requires cmd != []
  {
    (Opcode(cmd) / DO_READ) % 2 == 1
  }

  /** The opcode without its read flag. */
  function Kind(cmd: seq<Byte>): int
    requires cmd != []
  {
    if Reads(cmd) then Opcode(cmd) - DO_READ else Opcode(cmd)
  }

  /** The length of the first command, or 0 if there is none that is complete. */
  function CmdLen(s: seq<Byte>): (n: nat)
    ensures n <= |s|
  {
    if |s| < 3 then 0
    else if Kind(s) == WRITE_BYTES then
      var n := 3 + NatOf(s[1]) + 256 * NatOf(s[2]) + 1;
      if n <= |s| then n else 0
    else if Kind(s) == WRITE_BITS && NatOf(s[1]) < 8 then 3
    else if Kind(s) == WRITE_TMS && NatOf(s[1]) < 7 then 3
    else 0
  }

  predicate Complete(cmd: seq<Byte>)
  {
    cmd != [] && CmdLen(cmd) == |cmd|
  }

  function Levels(bits: seq<bool>): (r: seq<Edge>)
    ensures |r| == |bits|
  {
    seq(|bits|, i requires 0 <= i < |bits| => Edge(bits[i], false))
  }

  /** The pulses of one command. */
  function Pulses(cmd: seq<Byte>): (r: seq<Edge>)
    requires Complete(cmd)
  {
    if Kind(cmd) == WRITE_BYTES then Levels(BitsOf(cmd[3..]))
    else if Kind(cmd) == WRITE_BITS then Levels(cmd[2][..NatOf(cmd[1]) + 1])
    else seq(NatOf(cmd[1]) + 1, i requires 0 <= i < NatOf(cmd[1]) + 1 => Edge(cmd[2][7], cmd[2][i]))
  }

  /** Fewer than 8 bits arrive in the upper part of their byte. */
  function Shifted(noise: Byte, bits: seq<bool>): (r: Byte)
    requires |bits| <= 8
    ensures r[8 - |bits|..] == bits
  {
    noise[..8 - |bits|] + bits
  }

  /** The bytes sent back for one command whose first pulse is number from. */
  function Response(env: Env, cmd: seq<Byte>, from: nat): (r: seq<Byte>)
    requires Complete(cmd)
  {
    var n := |Pulses(cmd)|;
    if !Reads(cmd) then []
    else if Kind(cmd) == WRITE_BYTES then Pack(Captured(env, from, n), |cmd| - 3)
    else [Shifted(env.noise(from), Captured(env, from, n))]
  }

  /** All pulses so far, and the response bytes nobody has collected. */
  datatype Chip = Chip(pulses: seq<Edge>, fifo: seq<Byte>)

  function Obey(env: Env, c: Chip, cmd: seq<Byte>): Chip
    requires Complete(cmd)
  {
    Chip(c.pulses + Pulses(cmd), c.fifo + Response(env, cmd, |c.pulses|))
  }

  lemma {:induction false} FirstComplete(s: seq<Byte>)
    requires CmdLen(s) > 0
    ensures Complete(s[..CmdLen(s)])
  {
    var cmd := s[..CmdLen(s)];
    assert cmd[0] == s[0] && cmd[1] == s[1] && cmd[2] == s[2];
  }

  function Interpret(env: Env, c: Chip, s: seq<Byte>): Chip
    decreases s
  {
    var n := CmdLen(s);
    if n == 0 then c
    else
      FirstComplete(s);
      Interpret(env, Obey(env, c, s[..n]), s[n..])
  }

  /** A sequence of complete commands. */
  ghost predicate Whole(s: seq<Byte>)
    decreases s
  {
    s == [] || (CmdLen(s) > 0 && Whole(s[CmdLen(s)..]))
  }

  lemma {:induction false} CmdLenPrefix(s: seq<Byte>, t: seq<Byte>)
    requires CmdLen(s) > 0
    ensures CmdLen(s + t) == CmdLen(s)
  {
    assert (s + t)[0] == s[0] && (s + t)[1] == s[1] && (s + t)[2] == s[2];
  }

  lemma {:induction false} InterpretAppend(env: Env, c: Chip, s: seq<Byte>, cmd: seq<Byte>)
    requires Whole(s) && Complete(cmd)
    ensures Interpret(env, c, s + cmd) == Obey(env, Interpret(env, c, s), cmd)
    ensures Whole(s + cmd)
    decreases s
  {
    if s == [] {
      assert s + cmd == cmd;
      assert cmd[..|cmd|] == cmd && cmd[|cmd|..] == [];
    } else {
      var n := CmdLen(s);
      CmdLenPrefix(s, cmd);
      FirstComplete(s);
      assert (s + cmd)[..n] == s[..n] && (s + cmd)[n..] == s[n..] + cmd;
      InterpretAppend(env, Obey(env, c, s[..n]), s[n..], cmd);
    }
  }

  const FTDX_MAXSEND := 4096
  const FTDI_MAXRECV := 4 * 64

  /**
   Every pulse caused so far, whether its command has left the host or not, and the responses a
   reader will see, in order.
   */
  datatype Log = Log(sent: seq<Edge>, pending: seq<Byte>)

  function Join(a: Log, b: Log): (r: Log)
    ensures |r.sent| == |a.sent| + |b.sent|
  {
    Log(a.sent + b.sent, a.pending + b.pending)
  }

  lemma {:induction false} JoinAssoc(a: Log, b: Log, c: Log)
    ensures Join(Join(a, b), c) == Join(a, Join(b, c))
  {
    assert (a.sent + b.sent) + c.sent == a.sent + (b.sent + c.sent);
    assert (a.pending + b.pending) + c.pending == a.pending + (b.pending + c.pending);
  }

  /** What a command whose first pulse is number from adds. */
  function CommandPart(env: Env, from: nat, cmd: seq<Byte>): Log
    requires Complete(cmd)
  {
    Log(Pulses(cmd), Response(env, cmd, from))
  }

  /** usbconn_t: commands not sent yet, responses scheduled, responses received and not read. */
  class UsbConn {
    const env: Env
    var chip: Chip
    var sendBuf: seq<Byte>
    var toRecv: nat
    var recvBuf: seq<Byte>
    ghost var log: Log

    constructor (env: Env)
      ensures Valid() && this.env == env && log == Log([], [])
    {
      this.env, chip := env, Chip([], []);
      sendBuf, toRecv, recvBuf := [], 0, [];
      log := Log([], []);
    }

    /**
     Every byte the chip will send is scheduled, and nothing else is. The bound variable keeps the
     interpreter folded in methods that only pass Valid() on; Scheduled(sendBuf) opens it.
     */
    ghost predicate Valid()
      reads this
    {
      forall unsent :: unsent == sendBuf ==> Scheduled(unsent)
    }

    /** What the chip makes of the unsent commands. */
    ghost predicate Scheduled(unsent: seq<Byte>)
      reads this
    {
      var after := Interpret(env, chip, unsent);
      && Whole(unsent) && chip.fifo == [] && toRecv == |after.fifo|
      && log == Log(after.pulses, recvBuf + after.fifo)
    }

    method Flush()
      requires Valid()
      modifies this
      ensures Valid() && log == old(log)
      ensures sendBuf == [] && toRecv == 0 && recvBuf == log.pending && chip.pulses == log.sent
    {
      assert Scheduled(sendBuf);
      if sendBuf == [] {
        return;
      }
      chip := Interpret(env, chip, sendBuf);
      sendBuf := [];
      if toRecv > 0 {
        recvBuf := recvBuf + chip.fifo[..toRecv];
        chip := chip.(fifo := chip.fifo[toRecv..]);
        toRecv := 0;
      }
    }

    method Write(cmd: seq<Byte>, recv: nat)
      requires Valid() && Complete(cmd) && |Response(env, cmd, |log.sent|)| == recv
      modifies this
      ensures Valid()
      ensures log == Join(old(log), CommandPart(env, |old(log).sent|, cmd))
      // the buffer is flushed first when it holds enough, or when too much would come back
      ensures if old(toRecv) + recv > FTDI_MAXRECV || (|old(sendBuf)| > FTDX_MAXSEND && old(toRecv) == 0)
        then sendBuf == cmd && toRecv == recv
        else sendBuf == old(sendBuf) + cmd && toRecv == old(toRecv) + recv
    {
      if toRecv + recv > FTDI_MAXRECV || (|sendBuf| > FTDX_MAXSEND && toRecv == 0) {
        Flush();
      }
      Buffer(cmd, recv);
    }

    method Buffer(cmd: seq<Byte>, recv: nat)
      requires Valid() && Complete(cmd) && |Response(env, cmd, |log.sent|)| == recv
      modifies this
      ensures Valid()
      ensures log == Join(old(log), CommandPart(env, |old(log).sent|, cmd))
      ensures sendBuf == old(sendBuf) + cmd && toRecv == old(toRecv) + recv
    {
      assert Scheduled(sendBuf);
      InterpretAppend(env, chip, sendBuf, cmd);
      ghost var was, part := Interpret(env, chip, sendBuf), CommandPart(env, |log.sent|, cmd);
      JoinAssoc(Log([], recvBuf), Log(was.pulses, was.fifo), part);
      log := Join(log, part);
      sendBuf := sendBuf + cmd;
      toRecv := toRecv + recv;
    }

    method Read(len: nat) returns (bytes: seq<Byte>)
      requires Valid() && len <= |log.pending|
      modifies this
      ensures Valid() && |bytes| == len
      ensures bytes == old(log).pending[..len] && log == old(log).(pending := old(log).pending[len..])
    {
      Flush();
      assert Scheduled(sendBuf);
      bytes := recvBuf[..len];
      recvBuf := recvBuf[len..];
      log := log.(pending := recvBuf);
    }
  }
}
