/**
 The rings of the JTAG serial port server: bytes on their way between the client's socket and the
 serial port module.
 */
module JspRing {

  type byte = b: int | 0 <= b < 256

  const JSP_BUFFER_SIZE := 256

  function Wrap(i: nat): (r: nat)
    ensures r < JSP_BUFFER_SIZE
  {
    i % JSP_BUFFER_SIZE
  }

  function Min(a: nat, b: nat): nat
  {
    if a <= b then a else b
  }

  /** The bytes of a ring from rd on. */
  function Ahead(buf: seq<byte>, rd: nat, count: nat): (r: seq<byte>)
    requires |buf| == JSP_BUFFER_SIZE
    ensures |r| == count
  {
    seq(count, k requires 0 <= k < count => buf[Wrap(rd + k)])
  }

  class Ring {
    const buf: array<byte>
    var rd: nat
    var wr: nat
    var count: nat

    constructor ()
      ensures Valid() && Contents() == [] && fresh(buf)
    {
      buf := new byte[JSP_BUFFER_SIZE](_ => 0);
      rd, wr, count := 0, 0, 0;
    }

    /** What holds even after more has been pushed than there was room for. */
    ghost predicate InPlace()
      reads this
    {
      buf.Length == JSP_BUFFER_SIZE && rd < JSP_BUFFER_SIZE && wr == Wrap(rd + count)
    }

    ghost predicate Valid()
      reads this
    {
      InPlace() && count <= JSP_BUFFER_SIZE
    }

    ghost function Contents(): (r: seq<byte>)
      requires Valid()
      reads this, buf
    {
      Ahead(buf[..], rd, count)
    }

    /** How many bytes one linear write may bring: up to the end of the array or the read index. */
    method SpaceAvailable() returns (space: nat)
      requires Valid()
      ensures space == Min(JSP_BUFFER_SIZE - wr, JSP_BUFFER_SIZE - count)
    {
      space := JSP_BUFFER_SIZE - wr;
      if space > JSP_BUFFER_SIZE - count {
        space := JSP_BUFFER_SIZE - count;
      }
    }

    /** Takes over bytes written linearly at the write index. */
    method Fill(bytes: seq<byte>)
      requires Valid() && |bytes| <= Min(JSP_BUFFER_SIZE - wr, JSP_BUFFER_SIZE - count)
      modifies this, buf
      ensures Valid() && Contents() == old(Contents()) + bytes
      ensures count == old(count) + |bytes| && wr == Wrap(old(wr) + |bytes|) && rd == old(rd)
    {
      CopyIn(buf, wr, bytes);
      FillAhead(old(buf[..]), buf[..], rd, count, wr, bytes);
      WrapTwice(rd + count, |bytes|);
      wr := (wr + |bytes|) % JSP_BUFFER_SIZE;
      count := count + |bytes|;
    }

    /** How many bytes one linear read may take. */
    method BytesAvailable() returns (available: nat)
      requires Valid()
      ensures available == Min(count, JSP_BUFFER_SIZE - rd)
    {
      available := count;
      if available > JSP_BUFFER_SIZE - rd {
        available := JSP_BUFFER_SIZE - rd;
      }
    }

    /** The next n bytes, which stay in the ring. */
    method Peek(n: nat) returns (bytes: seq<byte>)
      requires Valid() && n <= count
      ensures bytes == Contents()[..n]
    {
      bytes := [];
      var j := rd;
      for i := 0 to n
        invariant j == Wrap(rd + i) && bytes == Contents()[..i]
      {
        bytes := bytes + [buf[j]];
        j := (j + 1) % JSP_BUFFER_SIZE;
      }
    }

    /** Gives up the next n bytes. */
    method Drop(n: nat)
      requires Valid() && n <= count
      modifies this
      ensures Valid() && Contents() == old(Contents())[n..]
      ensures count == old(count) - n && rd == Wrap(old(rd) + n)
    {
      DropAhead(buf[..], rd, count, n);
      count := count - n;
      rd := (rd + n) % JSP_BUFFER_SIZE;
    }

    /** Adds bytes one at a time, without looking for space: the count always grows. */
    method Push(bytes: seq<byte>)
      requires Valid()
      modifies this, buf
      ensures InPlace() && rd == old(rd) && count == old(count) + |bytes|
      ensures buf[..] == Pushed(old(buf[..]), old(rd + count), bytes)
      ensures count <= JSP_BUFFER_SIZE ==> Contents() == old(Contents()) + bytes
    {
      for i := 0 to |bytes|
        invariant InPlace() && rd == old(rd) && count == old(count) + i
        invariant Pushed(buf[..], rd + count, bytes[i..]) == Pushed(old(buf[..]), old(rd + count), bytes)
      {
        assert bytes[i..][1..] == bytes[i + 1..];
        PushOne(bytes[i]);
      }
      if count <= JSP_BUFFER_SIZE {
        PushedFits(old(buf[..]), rd, old(count), bytes);
      }
    }

    method PushOne(b: byte)
      requires InPlace()
      modifies this, buf
      ensures InPlace() && rd == old(rd) && count == old(count) + 1
      ensures buf[..] == old(buf[..])[old(wr) := b]
    {
      buf[wr] := b;
      WrapTwice(rd + count, 1);
      wr := (wr + 1) % JSP_BUFFER_SIZE;
      count := count + 1;
    }
  }

  method CopyIn(buf: array<byte>, at: nat, bytes: seq<byte>)
    requires at + |bytes| <= buf.Length
    modifies buf
    ensures buf[at..at + |bytes|] == bytes
    ensures forall k :: 0 <= k < buf.Length && !(at <= k < at + |bytes|) ==> buf[k] == old(buf[k])
  {
    for i := 0 to |bytes|
      invariant buf[at..at + i] == bytes[..i]
      invariant forall k :: 0 <= k < buf.Length && !(at <= k < at + i) ==> buf[k] == old(buf[k])
    {
      buf[at + i] := bytes[i];
    }
  }

  /** A linear write at the write index touches no unread byte and adds the new ones behind them. */
  lemma {:induction false} FillAhead(was: seq<byte>, now: seq<byte>, rd: nat, count: nat, wr: nat, bytes: seq<byte>)
    requires |was| == |now| == JSP_BUFFER_SIZE && rd < JSP_BUFFER_SIZE && wr == Wrap(rd + count)
    requires wr + |bytes| <= JSP_BUFFER_SIZE && count + |bytes| <= JSP_BUFFER_SIZE
    requires now[wr..wr + |bytes|] == bytes
    requires forall k :: 0 <= k < JSP_BUFFER_SIZE && !(wr <= k < wr + |bytes|) ==> now[k] == was[k]
    ensures Ahead(now, rd, count + |bytes|) == Ahead(was, rd, count) + bytes
  {
    forall k | 0 <= k < count + |bytes|
      ensures Ahead(now, rd, count + |bytes|)[k] == (Ahead(was, rd, count) + bytes)[k]
    {
      assert wr == if rd + count < JSP_BUFFER_SIZE then rd + count else rd + count - JSP_BUFFER_SIZE;
      if k < count {
        assert Wrap(rd + k) == if rd + k < JSP_BUFFER_SIZE then rd + k else rd + k - JSP_BUFFER_SIZE;
        assert now[Wrap(rd + k)] == was[Wrap(rd + k)];
      } else {
        assert Wrap(rd + k) == wr + (k - count);
        assert now[wr + (k - count)] == now[wr..wr + |bytes|][k - count];
      }
    }
  }

  lemma {:induction false} DropAhead(buf: seq<byte>, rd: nat, count: nat, n: nat)
    requires |buf| == JSP_BUFFER_SIZE && n <= count
    ensures Ahead(buf, Wrap(rd + n), count - n) == Ahead(buf, rd, count)[n..]
  {
    forall k | 0 <= k < count - n
      ensures Ahead(buf, Wrap(rd + n), count - n)[k] == Ahead(buf, rd, count)[n..][k]
    {
      WrapTwice(rd + n, k);
    }
  }

  lemma {:induction false} WrapTwice(i: nat, k: nat)
    ensures Wrap(Wrap(i) + k) == Wrap(i + k)
  {
  }

  // ---------- When pushing without looking for space loses data ----------

  /** The array after bytes have been pushed one at a time. */
  function Pushed(buf: seq<byte>, wr: nat, bytes: seq<byte>): (r: seq<byte>)
    requires |buf| == JSP_BUFFER_SIZE
    ensures |r| == JSP_BUFFER_SIZE
    decreases bytes
  {
    if bytes == [] then buf else Pushed(buf[Wrap(wr) := bytes[0]], wr + 1, bytes[1..])
  }

  lemma {:induction false} PushedFits(buf: seq<byte>, rd: nat, count: nat, bytes: seq<byte>)
    requires |buf| == JSP_BUFFER_SIZE && rd < JSP_BUFFER_SIZE && count + |bytes| <= JSP_BUFFER_SIZE
    ensures Ahead(Pushed(buf, rd + count, bytes), rd, count + |bytes|) == Ahead(buf, rd, count) + bytes
    decreases bytes
  {
    if bytes != [] {
      var next := buf[Wrap(rd + count) := bytes[0]];
      FillAhead(buf, next, rd, count, Wrap(rd + count), [bytes[0]]);
      PushedFits(next, rd, count + 1, bytes[1..]);
      assert bytes == [bytes[0]] + bytes[1..];
    }
  }

  function Other(b: byte): byte
  {
    if b == 0 then 1 else 0
  }

  /** n bytes whose number k is b and whose others are its opposite. */
  function Marker(n: nat, k: nat, b: byte): (r: seq<byte>)
    ensures |r| == n && forall i :: 0 <= i < n ==> r[i] == if i == k then b else Other(b)
  {
    if n == 0 then [] else Marker(n - 1, k, b) + [if n - 1 == k then b else Other(b)]
  }

  /**
   Bytes from the hardware survive, whatever they are, exactly when they fit next to the unread
   ones; more than 256 bytes share a place.
   */
  lemma {:induction false} PushExact(buf: seq<byte>, rd: nat, count: nat, n: nat)
    requires |buf| == JSP_BUFFER_SIZE && rd < JSP_BUFFER_SIZE && count <= JSP_BUFFER_SIZE
    ensures (forall bytes: seq<byte> | |bytes| == n ::
        Ahead(Pushed(buf, rd + count, bytes), rd, count + n) == Ahead(buf, rd, count) + bytes)
      <==> count + n <= JSP_BUFFER_SIZE
  {
    if count + n <= JSP_BUFFER_SIZE {
      forall bytes: seq<byte> | |bytes| == n
        ensures Ahead(Pushed(buf, rd + count, bytes), rd, count + n) == Ahead(buf, rd, count) + bytes
      {
        PushedFits(buf, rd, count, bytes);
      }
    } else {
      var first := if count > 0 then buf[Wrap(rd)] else 0;
      var bytes := Marker(n, JSP_BUFFER_SIZE - count, Other(first));
      var got, want := Ahead(Pushed(buf, rd + count, bytes), rd, count + n), Ahead(buf, rd, count) + bytes;
      assert |bytes| == n;
      assert Wrap(rd + JSP_BUFFER_SIZE) == Wrap(rd);
      assert got[0] == got[JSP_BUFFER_SIZE];
      assert want[JSP_BUFFER_SIZE] == Other(first);
      assert want[0] == if count > 0 then first else Other(Other(first));
    }
  }
}

module JspServer {
  import opened JspRing

  /** The client: what it still has to say, what was received from it, what was sent to it. */
  class Client {
    var incoming: seq<byte>
    var received: seq<byte>
    var delivered: seq<byte>
    /** By how much receptions and transmissions fell short of what was asked for. */
    ghost var shortfall: nat
    ghost var failures: nat

    constructor (incoming: seq<byte>)
      ensures this.incoming == incoming && received == [] && delivered == []
    {
      this.incoming, received, delivered := incoming, [], [];
    }

    /** Any part of what is there, up to max bytes; or a failure. */
    method Recv(max: nat) returns (ok: bool, bytes: seq<byte>)
      modifies this
      ensures |bytes| <= max && (!ok ==> bytes == [])
      ensures received == old(received) + bytes && old(incoming) == bytes + incoming
      ensures delivered == old(delivered) && shortfall == old(shortfall) + (max - |bytes|)
      ensures failures == old(failures) + if ok then 0 else 1
    {
      var n: nat :| n <= max && n <= |incoming|;
      ok := *;
      if !ok {
        n := 0;
      }
      bytes := incoming[..n];
      received, incoming := received + bytes, incoming[n..];
      shortfall := shortfall + (max - n);
      failures := failures + if ok then 0 else 1;
    }

    /** Takes any part of the bytes offered; or fails. */
    method Send(bytes: seq<byte>) returns (ok: bool, n: nat)
      modifies this
      ensures n <= |bytes| && (!ok ==> n == 0)
      ensures delivered == old(delivered) + bytes[..n]
      ensures received == old(received) && incoming == old(incoming)
      ensures shortfall == old(shortfall) + (|bytes| - n)
    {
      n :| n <= |bytes|;
      ok := *;
      if !ok {
        n := 0;
      }
      delivered := delivered + bytes[..n];
      shortfall := shortfall + (|bytes| - n);
    }
  }

  /** The serial port module: what it has consumed and what it has produced. */
  class Serial {
    var consumed: seq<byte>
    var produced: seq<byte>
    /** What the last transaction brought. */
    ghost var offered: seq<byte>

    constructor ()
      ensures consumed == [] && produced == []
    {
      consumed, produced := [], [];
    }

    /** Consumes part of the bytes and brings up to eight others; or fails. */
    method Transact(bytes: seq<byte>, coming: seq<byte>) returns (ok: bool, sent: nat, back: seq<byte>)
      modifies this
      ensures sent <= |bytes| && |back| <= 8 && (!ok ==> sent == 0 && back == [])
      ensures consumed == old(consumed) + bytes[..sent] && produced == old(produced) + back && offered == bytes
    {
      sent :| sent <= |bytes|;
      var n: nat :| n <= 8 && n <= |coming|;
      ok := *;
      if !ok {
        sent, n := 0, 0;
      }
      offered, back := bytes, coming[..n];
      consumed, produced := consumed + bytes[..sent], produced + back;
    }
  }

  class Server {
    const tohw: Ring
    const fromhw: Ring
    const client: Client
    const serial: Serial

    constructor (client: Client, serial: Serial)
      requires client.received == [] && client.delivered == [] && serial.consumed == [] && serial.produced == []
      ensures Valid() && this.client == client && this.serial == serial
    {
      tohw := new Ring();
      fromhw := new Ring();
      this.client, this.serial := client, serial;
    }

    /** What the client said is what the module consumed and what is still to come, in order. */
    ghost predicate ToHardware()
      reads tohw, tohw.buf, client, serial
    {
      tohw.Valid() && client.received == serial.consumed + tohw.Contents()
    }

    /** What the module produced is what the client was given and what is still to come, in order. */
    ghost predicate FromHardware()
      reads fromhw, fromhw.buf, client, serial
    {
      fromhw.Valid() && serial.produced == client.delivered + fromhw.Contents()
    }

    /** Nothing is lost, doubled or reordered in either direction. */
    ghost predicate Valid()
      reads tohw, tohw.buf, fromhw, fromhw.buf, client, serial
    {
      tohw != fromhw && tohw.buf != fromhw.buf && ToHardware() && FromHardware()
    }

    /**
     Two linear receptions reach all free places: only a client that gives less leaves some. After a
     failure nothing more is asked for.
     */
    method QueueDataFromClient()
      requires Valid()
      modifies tohw, tohw.buf, client
      ensures Valid() && client.delivered == old(client.delivered)
      ensures client.shortfall == old(client.shortfall) ==> tohw.count == JSP_BUFFER_SIZE
      ensures client.failures <= old(client.failures) + 1
    {
      var ok := ReceiveOnce();
      if !ok {
        return;
      }
      ok := ReceiveOnce();
    }

    method ReceiveOnce() returns (ok: bool)
      requires Valid()
      modifies tohw, tohw.buf, client
      ensures Valid() && client.delivered == old(client.delivered)
      ensures client.shortfall >= old(client.shortfall)
      ensures client.failures == old(client.failures) + if ok then 0 else 1
      ensures client.shortfall == old(client.shortfall) ==>
        && tohw.count == old(tohw.count) + Min(JSP_BUFFER_SIZE - old(tohw.wr), JSP_BUFFER_SIZE - old(tohw.count))
        && (ok || tohw.count == JSP_BUFFER_SIZE)
        && (tohw.count == JSP_BUFFER_SIZE || tohw.wr == 0)
    {
      var bytes;
      var space := tohw.SpaceAvailable();
      ok, bytes := client.Recv(space);
      tohw.Fill(bytes);
    }

    /** Two linear transmissions empty the ring unless the client takes less. */
    method SendDataToClient()
      requires Valid()
      modifies fromhw, client
      ensures Valid() && client.received == old(client.received)
      ensures client.shortfall == old(client.shortfall) ==> fromhw.count == 0
    {
      if fromhw.count > 0 {
        SendOnce();
      }
      if fromhw.count > 0 {
        SendOnce();
      }
    }

    method SendOnce()
      requires Valid()
      modifies fromhw, client
      ensures Valid() && client.received == old(client.received)
      ensures client.shortfall >= old(client.shortfall)
      ensures client.shortfall == old(client.shortfall) ==>
        && fromhw.count == old(fromhw.count) - Min(old(fromhw.count), JSP_BUFFER_SIZE - old(fromhw.rd))
        && (fromhw.count == 0 || fromhw.rd == 0)
    {
      var available := fromhw.BytesAvailable();
      var bytes := fromhw.Peek(available);
      var ok, n := client.Send(bytes);
      fromhw.Drop(n);
    }

    /**
     Up to eight bytes each way. The way to the hardware is always kept; the way back if and only if
     the bytes that came fit in the ring, which nobody checks.
     */
    method HardwareTransact(coming: seq<byte>) returns (ghost sent: nat, ghost back: seq<byte>)
      requires Valid()
      modifies tohw, fromhw, fromhw.buf, serial
      ensures ToHardware() && |back| <= 8 && serial.produced == old(serial.produced) + back
      ensures serial.offered == old(tohw.Contents())[..Min(8, old(tohw.count))]
      ensures sent <= Min(8, old(tohw.count)) && tohw.Contents() == old(tohw.Contents())[sent..]
      ensures FromHardware() <==> old(fromhw.count) + |back| <= JSP_BUFFER_SIZE
      ensures FromHardware() ==> Valid() && fromhw.Contents() == old(fromhw.Contents()) + back
      ensures fromhw.buf[..] == Pushed(old(fromhw.buf[..]), old(fromhw.rd + fromhw.count), back)
    {
      var bytesToSend := tohw.count;
      if bytesToSend > 8 {
        bytesToSend := 8;
      }
      var sendbuf := tohw.Peek(bytesToSend);
      var ok, bytesSent, rcvbuf := serial.Transact(sendbuf, coming);
      sent, back := bytesSent, rcvbuf;
      if ok {
        Settle(bytesSent, rcvbuf);
      }
    }

    /** Brings the rings up to date with a transaction. */
    method Settle(bytesSent: nat, rcvbuf: seq<byte>)
      requires tohw != fromhw && tohw.buf != fromhw.buf && tohw.Valid() && fromhw.Valid() && bytesSent <= tohw.count
      modifies tohw, fromhw, fromhw.buf
      ensures tohw.Valid() && tohw.Contents() == old(tohw.Contents())[bytesSent..]
      ensures fromhw.InPlace() && fromhw.count == old(fromhw.count) + |rcvbuf|
      ensures fromhw.buf[..] == Pushed(old(fromhw.buf[..]), old(fromhw.rd + fromhw.count), rcvbuf)
      ensures fromhw.Valid() ==> fromhw.Contents() == old(fromhw.Contents()) + rcvbuf
    {
      tohw.Drop(bytesSent);
      fromhw.Push(rcvbuf);
    }
  }
}
