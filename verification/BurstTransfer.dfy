/**
 adbg_wb_burst_read and adbg_wb_burst_write over the Wishbone module: resume at the failing address
 after a bus error, give up after MAX_BUS_ERRORS of them, and refuse any transfer whose CRC does not
 match. Each call is proved to be one of the runs of ReadRuns or WriteRuns.
 */
module BurstTransfer {
  import opened Bits
  import opened WishboneLink
  import opened BurstResume
  import opened ReadRuns
  import opened WriteRuns
  import Crc

  const MAX_READ_STATUS_WAIT := 100

  /**
   APP_ERR_NONE, _MAX_RETRY, _CRC and _MAX_BUS_ERR; Exit is the process leaving with exit(1), and
   Outside a resume index that does not belong to the block, where the model stops.
   */
  datatype Outcome = Ok | MaxRetry | CrcError | MaxBusErr | Exit | Outside

  /** (err_data[0] >> 1) | (err_data[1] << 31): the address field of the 33-bit error register. */
  function ErrorAddress(e0: Word, e1: Word): nat
  {
    NatOf(Or(Shr(e0, 1), Shl(e1, 31)))
  }

  /** Whatever is left in the upper bits of the second word, the 32 address bits are recovered. */
  lemma {:induction false} ErrorAddressDecodes(a: nat, bit: bool, e0: Word, e1: Word)
    requires [bit] + NatBits(a, 32) == e0 + [e1[0]]
    ensures ErrorAddress(e0, e1) == a % Pow2(32)
  {
    var reg := [bit] + NatBits(a, 32);
    var w := Or(Shr(e0, 1), Shl(e1, 31));
    forall i | 0 <= i < 32
      ensures w[i] == NatBits(a, 32)[i]
    {
      assert reg[i + 1] == NatBits(a, 32)[i];
      assert (e0 + [e1[0]])[i + 1] == if i < 31 then e0[i + 1] else e1[0];
    }
    assert w == NatBits(a, 32);
    NatOfBits(a, 32);
  }

  /** The 33-bit error register read into two words; the rest of the second word is not written. */
  method ReadErrorRegister(link: Link) returns (e0: Word, e1: Word)
    ensures link.ErrorRegister() == e0 + [e1[0]] && e0[0] == link.err.bit
  {
    var r := link.ErrorRegister();
    var leftover: int := *;
    e0 := r[..32];
    e1 := NatBits(if leftover < 0 then 0 else leftover, 32)[0 := r[32]];
    assert r == r[..32] + [r[32]];
  }

  /** A word of the transfer, zero-extended to the 32-bit variable the CRC loop works on. */
  function Extend(w: seq<bool>): Word
    requires |w| <= 32
  {
    w + Zeros(32 - |w|)
  }

  /** The module has let the host poll more than MAX_READ_STATUS_WAIT times for one word. */
  ghost predicate Slow(link: Link)
    reads link
  {
    link.polls == MAX_READ_STATUS_WAIT + 1
  }

  /**
   Poll the status bit in front of a word until the module offers the word; give up when
   MAX_READ_STATUS_WAIT polls were not enough.
   */
  method WaitReady(link: Link) returns (ready: bool)
    requires !link.offered && link.polls == 0 && link.pos + 1 < |link.heard|
    modifies link`offered, link`polls
    ensures if ready then link.offered && link.polls <= MAX_READ_STATUS_WAIT else Slow(link)
  {
    var status, j := false, 0;
    while !status
      invariant 0 <= j <= MAX_READ_STATUS_WAIT
      invariant link.polls == j && link.offered == status
      decreases MAX_READ_STATUS_WAIT - j, !status
    {
      status := link.StatusBit();
      j := j + 1;
      if j > MAX_READ_STATUS_WAIT {
        return false;
      }
    }
    return true;
  }

  /** The CRC over one word of the transfer. */
  method FoldWord(crc: Word, w: seq<bool>) returns (c: Word)
    requires |w| <= 32
    ensures c == Crc.Fold(crc, w)
  {
    c := Crc.ComputeCrc(crc, Extend(w), |w|);
    assert Extend(w)[..|w|] == w;
  }

  /** Shift in one word of the burst and run it through the CRC. */
  method ReadWord(link: Link, crc: Word) returns (inData: seq<bool>, crcCalc: Word)
    requires link.pos + 1 < |link.heard| && link.offered && |link.heard[link.pos]| <= 32
    requires Sealed(link.heard[..link.pos], crc)
    modifies link`pos, link`offered, link`polls
    ensures !link.offered && link.polls == 0
    ensures link.pos == old(link.pos) + 1 && inData == link.heard[old(link.pos)]
    ensures Sealed(link.heard[..link.pos], crcCalc)
  {
    SealedExtend(link.heard, link.pos, crc);
    inData := link.ReadChunk();
    crcCalc := FoldWord(crc, inData);
  }

  /** The latched address and the index of its word, as the machine computes them. */
  method Resume(link: Link, start: nat, size: nat, e0: Word, e1: Word) returns (addr: nat, i: int)
    requires size in {1, 2, 4} && link.ErrorRegister() == e0 + [e1[0]]
    ensures addr == link.err.addr % Pow2(32) && i == MachineIndex(addr, start, size)
  {
    ErrorAddressDecodes(link.err.addr, link.err.bit, e0, e1);
    addr := ErrorAddress(e0, e1);
    i := MachineIndex(addr, start, size);
  }

  /**
   The read loop from the retry_partial label to the CRC check, for the words from i on. A soft
   retry is never granted (NUM_SOFT_RETRIES is 0), so a timeout or a CRC mismatch ends the call.
   */
  method ReadPass(link: Link, size: nat, count: nat, addr: nat, start: nat, data: array<seq<bool>>)
    returns (r: Outcome)
    requires start < count <= data.Length && size in {1, 2, 4} && link.grain in {1, size}
    modifies link, data
    ensures link.mem == old(link.mem) && link.bursts == old(link.bursts) + 1
    ensures r in {Ok, MaxRetry, CrcError}
    ensures Latched(old(link.err), link.err, link.faults, addr, count - start, size)
    ensures r.Ok? ==>
      Delivered(data[start..count], link.mem, link.faults, addr, Cell(addr, link.grain), count - start, size)
    ensures r.MaxRetry? ==> Slow(link)
    ensures r.CrcError? ==> link.heard != link.sent
    ensures data[..start] == old(data[..start]) && data[count..] == old(data[count..])
  {
    ghost var n := count - start;
    link.ReadCommand(addr, count - start, size);
    ghost var heard, sent := link.heard, link.sent;
    HeardWidths(sent, heard, link.mem, link.faults, link.noiseAt, addr, Cell(addr, link.grain), n, size);
    NothingSealed(heard);
    var ready, crcCalc := ReadWords(link, count, start, data);
    if !ready {
      return MaxRetry;
    }
    var crcRead := link.ReadChunk();
    if crcCalc != crcRead {
      HeardOtherCrc(sent, heard, n, crcCalc);
      return CrcError;
    }
    CleanRead(sent, heard, link.noiseAt, n);
    return Ok;
  }

  lemma {:induction false} NothingSealed(heard: seq<seq<bool>>)
    ensures heard[..0] == [] && Sealed(heard[..0], Ones(32))
  {
  }

  lemma {:induction false} HeardOtherCrc(sent: seq<seq<bool>>, heard: seq<seq<bool>>, n: nat, crc: Word)
    requires |sent| == |heard| == n + 1 && |sent[n]| == |heard[n]| == 32
    requires Sealed(sent[..n], sent[n]) && Sealed(heard[..n], crc) && crc != heard[n]
    ensures heard != sent
  {
    assert Crc.Fold(Ones(32), Flat(heard[..n])) == crc;
  }

  /** No chunk of a read burst is longer than a word. */
  lemma {:induction false} HeardWidths(sent: seq<seq<bool>>, heard: seq<seq<bool>>, mem: Memory, faults: set<nat>,
                                       noiseAt: nat, addr: nat, cell: nat, n: nat, size: nat)
    requires size <= 4 && |sent| == n + 1 && |sent[n]| == 32 && Noisy(sent, heard, noiseAt)
    requires Delivered(sent[..n], mem, faults, addr, cell, n, size)
    ensures |heard| == n + 1 && forall k :: 0 <= k <= n ==> |heard[k]| <= 32
  {
    forall k | 0 <= k <= n
      ensures |heard[k]| <= 32
    {
      if k < n {
        assert sent[k] == sent[..n][k];
      }
    }
  }

  /** The chunks heard of the words from start to i are in the array, and none is on offer. */
  ghost predicate Reading(link: Link, data: array<seq<bool>>, start: nat, i: nat, count: nat, crc: Word)
    reads link, data
  {
    && start <= i <= count <= data.Length && |link.heard| == count - start + 1
    && link.pos == i - start && !link.offered && link.polls == 0
    && data[start..i] == link.heard[..i - start] && Sealed(link.heard[..i - start], crc)
  }

  /** The words of one burst, each behind its status bit. */
  method ReadWords(link: Link, count: nat, start: nat, data: array<seq<bool>>) returns (ready: bool, crcCalc: Word)
    requires start < count && Reading(link, data, start, start, count, Ones(32))
    requires forall k :: 0 <= k < |link.heard| ==> |link.heard[k]| <= 32
    modifies link`pos, link`offered, link`polls, data
    ensures data[..start] == old(data[..start]) && data[count..] == old(data[count..])
    ensures if ready then Reading(link, data, start, count, count, crcCalc) else Slow(link)
  {
    crcCalc := Ones(32);
    for i := start to count
      invariant data[..start] == old(data[..start]) && data[count..] == old(data[count..])
      invariant Reading(link, data, start, i, count, crcCalc)
    {
      ready, crcCalc := ReadNext(link, crcCalc, count, start, i, data);
      if !ready {
        return;
      }
    }
    ready := true;
  }

  /** One turn of the loop: wait for the word and take it. */
  method ReadNext(link: Link, crc: Word, count: nat, start: nat, i: nat, data: array<seq<bool>>)
    returns (ready: bool, crcCalc: Word)
    requires Reading(link, data, start, i, count, crc) && i < count && |link.heard[i - start]| <= 32
    modifies link`pos, link`offered, link`polls, data
    ensures data[..start] == old(data[..start]) && data[count..] == old(data[count..])
    ensures if ready then Reading(link, data, start, i + 1, count, crcCalc) else Slow(link)
  {
    crcCalc := crc;
    ready := WaitReady(link);
    if ready {
      crcCalc := KeepWord(link, crc, count, start, i, data);
    }
  }

  method KeepWord(link: Link, crc: Word, count: nat, start: nat, i: nat, data: array<seq<bool>>) returns (crcCalc: Word)
    requires start <= i < count <= data.Length && link.pos == i - start < |link.heard| - 1 && link.offered
    requires |link.heard[link.pos]| <= 32 && Sealed(link.heard[..i - start], crc)
    requires data[start..i] == link.heard[..i - start]
    modifies link`pos, link`offered, link`polls, data
    ensures data[..start] == old(data[..start]) && data[count..] == old(data[count..])
    ensures !link.offered && link.polls == 0
    ensures link.pos == i + 1 - start && data[start..i + 1] == link.heard[..i + 1 - start]
    ensures Sealed(link.heard[..i + 1 - start], crcCalc)
  {
    NextSlice(link.heard, i - start);
    var inData;
    inData, crcCalc := ReadWord(link, crc);
    Keep(data, start, i, count, inData);
  }

  lemma {:induction false} NextSlice(s: seq<seq<bool>>, k: nat)
    requires k < |s|
    ensures s[..k + 1] == s[..k] + [s[k]]
  {
  }

  /** Stores word i behind the words from start on. */
  method Keep(data: array<seq<bool>>, start: nat, i: nat, count: nat, word: seq<bool>)
    requires start <= i < count <= data.Length
    modifies data
    ensures data[..start] == old(data[..start]) && data[count..] == old(data[count..])
    ensures data[start..i + 1] == old(data[start..i]) + [word]
  {
    data[i] := word;
    assert data[start..i] == old(data[start..i]);
  }

  lemma {:induction false} SealedExtend(chunks: seq<seq<bool>>, k: nat, crc: Word)
    requires k < |chunks| && Sealed(chunks[..k], crc)
    ensures Sealed(chunks[..k + 1], Crc.Fold(crc, chunks[k]))
  {
    SealedSnoc(chunks[..k], chunks[k], crc);
    NextSlice(chunks, k);
  }

  /** One burst of a read, as a step of a run. */
  method ReadAttempt(link: Link, b: Block, addr: nat, i: nat, data: array<seq<bool>>, ghost mem: Memory,
                     ghost s: ReadState)
    returns (r: Outcome, ghost x: ReadBurst)
    requires b.size in {1, 2, 4} && b.grain in {1, b.size} && link.grain == b.grain
    requires i < b.count <= data.Length && link.mem == mem
    requires s.pos.phase.Running? && s.pos.i == i && s.pos.addr == addr && s.pos.err == link.err
    requires s.data == data[..b.count]
    modifies link, data
    ensures link.mem == mem && link.bursts == old(link.bursts) + 1
    ensures data[b.count..] == old(data[b.count..])
    ensures r in {Ok, MaxRetry, CrcError}
    ensures r.MaxRetry? ==> Slow(link)
    ensures r.CrcError? ==> link.heard != link.sent
    ensures r.Ok? ==> CanRead(b, mem, s, x) && data[..b.count] == s.data[..i] + x.words && x.err == link.err
  {
    r := ReadPass(link, b.size, b.count, addr, i, data);
    x := ReadBurst(link.faults, data[i..b.count], link.err);
    assert data[..b.count] == data[..i] + data[i..b.count];
    assert s.data[..i] == data[..i];
  }

  /** How a call's outcome shows in its run. */
  ghost predicate Ends(r: Outcome, p: Phase)
  {
    match r
    case Ok => p.Complete?
    case MaxBusErr => p.GivenUp?
    case Outside => p.OffBlock?
    case Exit => p.Aborted?
    case MaxRetry | CrcError => p.Running?
  }

  /** The look at the error register after a burst: stop, or clear it and say where to resume. */
  method CheckErrors(link: Link, b: Block, retries: nat, ghost p: Pos)
    returns (r: Outcome, more: bool, addr: nat, i: nat)
    requires b.size in {1, 2, 4} && p.phase.Running? && p.errors == retries <= MAX_BUS_ERRORS
    modifies link`err
    ensures more ==> i < b.count && Turn(b, p, old(link.err)) == Pos(Running, i, addr, link.err, retries + 1)
    ensures !more ==> Ends(r, Turn(b, p, old(link.err)).phase) && link.err == Turn(b, p, old(link.err)).err
    ensures !more ==> r in {Ok, MaxBusErr, Outside} && (r.Ok? ==> !link.err.bit) && (r.MaxBusErr? ==> link.err.bit)
    ensures more ==> retries < MAX_BUS_ERRORS
  {
    r, more, addr, i := Ok, false, 0, 0;
    var e0, e1 := ReadErrorRegister(link);
    if e0[0] {
      var index;
      addr, index := Resume(link, b.start, b.size, e0, e1);
      if retries + 1 > MAX_BUS_ERRORS {
        r := MaxBusErr;
      } else {
        link.ClearError();
        more := 0 <= index < b.count;
        if more {
          i := index;
        } else {
          r := Outside;
        }
      }
    }
  }

  /**
   adbg_wb_burst_read with the Wishbone module selected. The call follows a possible run. From a
   fresh register, when it returns no error every word equals memory, however the bus failed and
   whatever the line did inside its noise windows.
   */
  method BurstRead(link: Link, size: nat, count: int, start: nat, data: array<seq<bool>>)
    returns (r: Outcome, ghost run: seq<ReadBurst>)
    requires size in {1, 2, 4} && link.grain in {1, size} && count < 0x10000 && count <= data.Length
    requires start + (if count < 0 then 0 else count) * size <= Pow2(32)
    modifies link, data
    ensures link.mem == old(link.mem)
    ensures count <= 0 ==>
      r.Ok? && data[..] == old(data[..]) && link.err == old(link.err) && link.bursts == old(link.bursts)
    ensures count > 0 ==>
      var b := Block(start, size, count, link.grain);
      var s := ReadState(Begin(b, old(link.err)), old(data[..count]));
      && ReadPossible(b, link.mem, s, run) && Ends(r, ReadRun(b, s, run).pos.phase)
      && (r in {Ok, MaxBusErr, Outside} ==>
            data[..count] == ReadRun(b, s, run).data && link.err == ReadRun(b, s, run).pos.err)
      && link.bursts == old(link.bursts) + |run| + (if r in {MaxRetry, CrcError} then 1 else 0)
      && data[count..] == old(data[count..])
    ensures count > 0 && Fresh(Block(start, size, count, link.grain), old(link.err)) ==>
      !r.Outside? && (r.Ok? ==> ReadBack(data[..count], link.mem, Cell(start, link.grain), size))
    ensures link.bursts <= old(link.bursts) + 11
    // every error code has its cause
    ensures r.MaxBusErr? ==> link.err.bit && link.bursts == old(link.bursts) + 11
    ensures r.MaxRetry? ==> Slow(link)
    ensures r.CrcError? ==> link.heard != link.sent
    ensures r.Ok? && count > 0 ==> !link.err.bit
    ensures !r.Exit?
  {
    run := [];
    if count <= 0 {
      return Ok, run;
    }
    var b := Block(start, size, count, link.grain);
    ghost var s := ReadState(Begin(b, link.err), data[..count]);
    r, run := ReadBursts(link, b, data, s);
    RunIsRight(b, link.mem, s, run);
    ReadBounded(b, link.mem, s.pos.err, s.data, run);
  }

  /** The loop over the bursts. */
  method ReadBursts(link: Link, b: Block, data: array<seq<bool>>, ghost s: ReadState)
    returns (r: Outcome, ghost run: seq<ReadBurst>)
    requires Fits(b) && b.grain == link.grain && b.count <= data.Length
    requires s == ReadState(Begin(b, link.err), data[..b.count])
    modifies link, data
    ensures link.mem == old(link.mem) && data[b.count..] == old(data[b.count..])
    ensures ReadPossible(b, link.mem, s, run) && Ends(r, ReadRun(b, s, run).pos.phase) && !r.Exit?
    ensures r in {Ok, MaxBusErr, Outside} ==>
      data[..b.count] == ReadRun(b, s, run).data && link.err == ReadRun(b, s, run).pos.err
    ensures link.bursts == old(link.bursts) + |run| + if r in {MaxRetry, CrcError} then 1 else 0
    ensures r.MaxRetry? ==> Slow(link)
    ensures r.CrcError? ==> link.heard != link.sent
    ensures r.MaxBusErr? ==> link.err.bit
    ensures r.Ok? ==> !link.err.bit
  {
    run := [];
    var i, addr, retries: nat := 0, b.start, 0;
    while true
      invariant 0 <= i < b.count && link.mem == old(link.mem) && data[b.count..] == old(data[b.count..])
      invariant ReadPossible(b, link.mem, s, run) && |run| == retries <= MAX_BUS_ERRORS
      invariant ReadRun(b, s, run) == ReadState(Pos(Running, i, addr, link.err, retries), data[..b.count])
      invariant link.bursts == old(link.bursts) + retries
      decreases MAX_BUS_ERRORS - retries
    {
      ghost var x;
      r, x := ReadAttempt(link, b, addr, i, data, link.mem, ReadRun(b, s, run));
      if r != Ok {
        return;
      }
      AttemptIsTurn(b, link.mem, s, run, x);
      var more;
      r, more, addr, i := CheckErrors(link, b, retries, ReadRun(b, s, run).pos);
      run := run + [x];
      if !more {
        return;
      }
      retries := retries + 1;
    }
  }

  /** One more burst of a run. */
  lemma {:induction false} AttemptIsTurn(b: Block, mem: Memory, s: ReadState, run: seq<ReadBurst>, x: ReadBurst)
    requires b.size in {1, 2, 4} && ReadPossible(b, mem, s, run) && CanRead(b, mem, ReadRun(b, s, run), x)
    requires ReadRun(b, s, run).pos.i <= |ReadRun(b, s, run).data|
    ensures ReadPossible(b, mem, s, run + [x])
    ensures ReadRun(b, s, run + [x]).pos == Turn(b, ReadRun(b, s, run).pos, x.err)
    ensures ReadRun(b, s, run + [x]).data == ReadRun(b, s, run).data[..ReadRun(b, s, run).pos.i] + x.words
  {
    ReadSnoc(b, mem, s, run, x);
  }

  lemma {:induction false} RunIsRight(b: Block, mem: Memory, s: ReadState, run: seq<ReadBurst>)
    requires Fits(b) && |s.data| == b.count && s.pos == Begin(b, s.pos.err) && ReadPossible(b, mem, s, run)
    ensures Fresh(b, s.pos.err) ==> ReadRight(b, mem, ReadRun(b, s, run))
  {
    if Fresh(b, s.pos.err) {
      FreshReads(b, s.pos.err, mem, s.data, run);
    }
  }

  lemma {:induction false} CleanRead(sent: seq<seq<bool>>, heard: seq<seq<bool>>, noiseAt: nat, n: nat)
    requires |sent| == |heard| == n + 1 && Noisy(sent, heard, noiseAt)
    requires |sent[n]| == |heard[n]| == 32
    requires Sealed(sent[..n], sent[n]) && Sealed(heard[..n], heard[n])
    ensures heard == sent
  {
    assert sent == sent[..n] + [sent[n]];
    assert heard == heard[..n] + [heard[n]];
    SealedMeansClean(sent[..n], heard[..n], sent[n], heard[n], noiseAt);
  }

  // ---------- Burst writes ----------

  /** The first k words of a burst are on the line, sealed by crc and, where the bus allowed it, in memory. */
  ghost predicate Sending(link: Link, size: nat, addr: nat, k: nat, crc: Word, err: ErrorReg, mem: Memory)
    reads link
  {
    && |link.heard| == k && Noisy(link.sent, link.heard, link.noiseAt) && Sealed(link.sent, crc)
    && Latched(err, link.err, link.faults, addr, k, size)
    && link.mem == Store(mem, link.heard, link.faults + link.refused, addr, Cell(addr, link.grain), size)
  }

  /** Run one word through the CRC and send it. */
  method SendWord(link: Link, addr: nat, k: nat, size: nat, word: seq<bool>, crc: Word, ghost err: ErrorReg,
                  ghost mem: Memory) returns (crcCalc: Word)
    requires size in {1, 2, 4} && link.grain in {1, size} && |word| <= 32
    requires Sending(link, size, addr, k, crc, err, mem)
    modifies link`mem, link`err, link`sent, link`heard
    ensures link.sent == old(link.sent) + [word] && Sending(link, size, addr, k + 1, crcCalc, err, mem)
  {
    SealedSnoc(link.sent, word, crc);
    crcCalc := FoldWord(crc, word);
    link.WriteWord(addr, k, size, word, err, mem);
  }

  lemma {:induction false} SealedSnoc(sent: seq<seq<bool>>, word: seq<bool>, crc: Word)
    requires Sealed(sent, crc)
    ensures Sealed(sent + [word], Crc.Fold(crc, word))
  {
    FlatSnoc(sent, word);
    Crc.FoldConcat(Ones(32), Flat(sent), word);
  }

  /** Elements start to i of the data have been sent. */
  ghost predicate Writing(link: Link, data: seq<seq<bool>>, size: nat, addr: nat, start: nat, i: nat, crc: Word,
                          err: ErrorReg, mem: Memory)
    reads link
  {
    start <= i <= |data| && link.sent == data[start..i] && Sending(link, size, addr, i - start, crc, err, mem)
  }

  /** None of the first k words was refused, as far as the host can see. */
  ghost predicate Untroubled(link: Link, addr: nat, k: nat, size: nat, left: Byte)
    reads link
  {
    !Faulty(link.refused, addr, k, size) || Dirty(left, 1)
  }

  lemma {:induction false} SliceSnoc(s: seq<seq<bool>>, start: nat, i: nat)
    requires start <= i < |s|
    ensures s[start..i + 1] == s[start..i] + [s[i]]
  {
  }

  /** One turn of the loop: a word and the ready bit behind it. */
  method SendNext(link: Link, data: seq<seq<bool>>, size: nat, addr: nat, start: nat, i: nat, left: Byte, crc: Word,
                  ghost err: ErrorReg, ghost mem: Memory) returns (ok: bool, crcCalc: Word)
    requires size in {1, 2, 4} && link.grain in {1, size}
    requires Writing(link, data, size, addr, start, i, crc, err, mem) && i < |data| && |data[i]| <= 32
    requires Untroubled(link, addr, i - start, size, left)
    modifies link`mem, link`err, link`sent, link`heard
    ensures Writing(link, data, size, addr, start, i + 1, crcCalc, err, mem)
    ensures ok <==> Untroubled(link, addr, i + 1 - start, size, left)
  {
    OneMoreFaulty(link.refused, addr, i - start, size);
    SliceSnoc(data, start, i);
    crcCalc := SendWord(link, addr, i - start, size, data[i], crc, err, mem);
    ok := Taken(link, addr, i - start, size, left);
  }

  /** The words of one burst, each followed by its ready bit. */
  method WriteWords(link: Link, data: seq<seq<bool>>, size: nat, count: nat, addr: nat, start: nat, left: Byte,
                    ghost err: ErrorReg, ghost mem: Memory) returns (ok: bool, crcCalc: Word)
    requires size in {1, 2, 4} && link.grain in {1, size}
    requires start < count == |data| && forall k :: 0 <= k < count ==> |data[k]| <= 32
    requires link.sent == [] && link.heard == [] && link.err == err && link.mem == mem
    modifies link`mem, link`err, link`sent, link`heard
    ensures |link.heard| <= count - start
    ensures link.mem == Store(mem, link.heard, link.faults + link.refused, addr, Cell(addr, link.grain), size)
    ensures Latched(err, link.err, link.faults, addr, |link.heard|, size)
    ensures ok <==> !Faulty(link.refused, addr, |link.heard|, size) || Dirty(left, 1)
    ensures ok ==> link.sent == data[start..] && |link.heard| == count - start
    ensures ok ==> Noisy(link.sent, link.heard, link.noiseAt) && Sealed(link.sent, crcCalc)
  {
    ghost var n;
    assert Sending(link, size, addr, 0, Ones(32), err, mem);
    ok, crcCalc, n := WriteUpTo(link, data, size, count, addr, start, left, err, mem);
    assert data[start..count] == data[start..];
  }

  /** The loop: words up to n have been sent. */
  method WriteUpTo(link: Link, data: seq<seq<bool>>, size: nat, count: nat, addr: nat, start: nat, left: Byte,
                   ghost err: ErrorReg, ghost mem: Memory) returns (ok: bool, crcCalc: Word, ghost n: nat)
    requires size in {1, 2, 4} && link.grain in {1, size}
    requires start < count == |data| && forall k :: 0 <= k < count ==> |data[k]| <= 32
    requires Writing(link, data, size, addr, start, start, Ones(32), err, mem)
    modifies link`mem, link`err, link`sent, link`heard
    ensures Writing(link, data, size, addr, start, n, crcCalc, err, mem)
    ensures ok <==> Untroubled(link, addr, n - start, size, left)
    ensures ok ==> n == count
  {
    crcCalc, n := Ones(32), start;
    for i := start to count
      invariant n == i && Writing(link, data, size, addr, start, i, crcCalc, err, mem)
      invariant Untroubled(link, addr, i - start, size, left)
    {
      ok, crcCalc := SendNext(link, data, size, addr, start, i, left, crcCalc, err, mem);
      n := i + 1;
      if !ok {
        return;
      }
    }
    ok := true;
  }

  /** The test of the status bit behind word k. */
  method Taken(link: Link, addr: nat, k: nat, size: nat, left: Byte) returns (ok: bool)
    ensures ok <==> At(addr, k, size) !in link.refused || Dirty(left, 1)
  {
    var status := link.WriteStatus(addr, k, size, left);
    AnswerTest(At(addr, k, size) !in link.refused, left);
    ok := NonZero(status);
  }

  lemma {:induction false} OneMoreFaulty(faults: set<nat>, addr: nat, n: nat, size: nat)
    ensures Faulty(faults, addr, n + 1, size) <==> Faulty(faults, addr, n, size) || At(addr, n, size) in faults
  {
  }

  /**
   The write loop from the retry_partial label to the CRC match bit, on a single-device chain. A
   word refused by the ready bit or a CRC mismatch, when noticed, ends the process, since
   retry_do() says no.
   */
  method WritePass(link: Link, b: Block, data: seq<seq<bool>>, addr: nat, start: nat, left: Left, ghost s: WriteState)
    returns (accepted: bool, ghost x: WriteBurst)
    requires b.size in {1, 2, 4} && b.grain in {1, b.size} && link.grain == b.grain
    requires start < b.count == |data| && forall k :: 0 <= k < |data| ==> |data[k]| <= 32
    requires s.pos.phase.Running? && s.pos.i == start && s.pos.addr == addr && s.pos.err == link.err
    requires s.mem == link.mem
    modifies link
    ensures link.bursts == old(link.bursts) + 1
    ensures CanWrite(b, data, s, x, left) && accepted == Accepted(b, s, x, left)
    ensures link.err == x.err
    ensures link.mem == Store(s.mem, x.heard, x.faults + x.refused, addr, Cell(addr, b.grain), b.size)
  {
    link.Begin();
    var ok, crcCalc := WriteWords(link, data, b.size, b.count, addr, start, left.status, s.pos.err, s.mem);
    ghost var heard := link.heard;
    x := WriteBurst(link.faults, link.refused, crcCalc, heard, crcCalc, link.noiseAt, link.err);
    if !ok {
      return false, x;
    }
    var crcMatch := link.CrcMatch(crcCalc, left.crcMatch);
    ghost var h := link.heard[|heard|];
    assert link.heard == heard + [h];
    x := x.(crcHeard := h, noiseAt := link.noiseAt);
    AnswerTest(Sealed(heard, h), left.crcMatch);
    accepted := NonZero(crcMatch);
  }

  /**
   adbg_wb_burst_write on a single-device chain with the Wishbone module selected. The call follows
   a possible run. From a fresh register and with clean variables, when it returns no error every
   addressed word equals its source word, and whatever happens no other address changes.
   */
  method BurstWrite(link: Link, data: seq<seq<bool>>, size: nat, count: int, start: nat, left: Left)
    returns (r: Outcome, ghost run: seq<WriteBurst>)
    requires size in {1, 2, 4} && link.grain in {1, size} && count < 0x10000 && count <= |data|
    requires forall k :: 0 <= k < count ==> |data[k]| == 8 * size
    requires start + (if count < 0 then 0 else count) * size <= Pow2(32)
    modifies link
    ensures count <= 0 ==>
      r.Ok? && link.mem == old(link.mem) && link.err == old(link.err) && link.bursts == old(link.bursts)
    ensures count > 0 ==>
      var b := Block(start, size, count, link.grain);
      var s := WriteState(Begin(b, old(link.err)), old(link.mem));
      && WritePossible(b, data[..count], s, run, left) && Ends(r, WriteRun(b, s, run, left).pos.phase)
      && link.mem == WriteRun(b, s, run, left).mem && link.err == WriteRun(b, s, run, left).pos.err
      && link.bursts == old(link.bursts) + |run|
    ensures count > 0 && Fresh(Block(start, size, count, link.grain), old(link.err)) && Clean(left) ==>
      && !r.Outside? && OnlyBlockChanged(old(link.mem), link.mem, Block(start, size, count, link.grain))
      && (r.Ok? ==> Written(link.mem, data, Cell(start, link.grain), count, size))
    ensures link.bursts <= old(link.bursts) + 11
    // every way of failing has its cause
    ensures r.MaxBusErr? ==> link.err.bit && link.bursts == old(link.bursts) + 11
    ensures r.Exit? ==>
      && count > 0 && run != []
      && var b := Block(start, size, count, link.grain);
         var s := WriteState(Begin(b, old(link.err)), old(link.mem));
         Disturbed(b, data[..count], WriteRun(b, s, run[..|run| - 1], left), run[|run| - 1])
    ensures r in {Ok, MaxBusErr, Exit, Outside}
  {
    run := [];
    if count <= 0 {
      return Ok, run;
    }
    var b := Block(start, size, count, link.grain);
    ghost var s := WriteState(Begin(b, link.err), link.mem);
    r, run := WriteBursts(link, b, data[..count], left, s);
    AbortedRun(b, data[..count], s, run, left);
    WriteIsRight(b, data[..count], s, run, left);
    WriteBounded(b, data[..count], s.mem, s.pos.err, run, left);
    WrittenPrefix(link.mem, data, Home(b), count, size);
  }

  lemma {:induction false} WrittenPrefix(mem: Memory, data: seq<seq<bool>>, home: nat, n: nat, size: nat)
    requires n <= |data|
    ensures Written(mem, data[..n], home, n, size) ==> Written(mem, data, home, n, size)
  {
    assert forall k: nat | k < n :: data[..n][k] == data[k];
  }

  lemma {:induction false} WriteIsRight(b: Block, data: seq<seq<bool>>, s: WriteState, run: seq<WriteBurst>, l: Left)
    requires Fits(b) && |data| == b.count && s.pos == Begin(b, s.pos.err) && WritePossible(b, data, s, run, l)
    ensures Fresh(b, s.pos.err) && Clean(l) ==> WriteRight(b, data, s.mem, WriteRun(b, s, run, l))
  {
    if Fresh(b, s.pos.err) && Clean(l) {
      FreshWrites(b, s.pos.err, l, s.mem, data, run);
    }
  }

  /** The loop over the bursts. */
  method WriteBursts(link: Link, b: Block, data: seq<seq<bool>>, left: Left, ghost s: WriteState)
    returns (r: Outcome, ghost run: seq<WriteBurst>)
    requires Fits(b) && b.grain == link.grain && |data| == b.count
    requires forall k :: 0 <= k < |data| ==> |data[k]| <= 32
    requires s == WriteState(Begin(b, link.err), link.mem)
    modifies link
    ensures WritePossible(b, data, s, run, left) && Ends(r, WriteRun(b, s, run, left).pos.phase)
    ensures link.mem == WriteRun(b, s, run, left).mem && link.err == WriteRun(b, s, run, left).pos.err
    ensures link.bursts == old(link.bursts) + |run| && r in {Ok, MaxBusErr, Exit, Outside}
    ensures r.MaxBusErr? ==> link.err.bit
  {
    run := [];
    var i, addr, retries: nat := 0, b.start, 0;
    while true
      invariant 0 <= i < b.count && WritePossible(b, data, s, run, left) && |run| == retries <= MAX_BUS_ERRORS
      invariant WriteRun(b, s, run, left) == WriteState(Pos(Running, i, addr, link.err, retries), link.mem)
      invariant link.bursts == old(link.bursts) + retries
      decreases MAX_BUS_ERRORS - retries
    {
      ghost var t := WriteRun(b, s, run, left);
      var accepted, more;
      ghost var x;
      accepted, x := WritePass(link, b, data, addr, i, left, t);
      WriteSnoc(b, data, s, run, x, left);
      run := run + [x];
      if !accepted {
        return Exit, run;
      }
      r, more, addr, i := CheckErrors(link, b, retries, t.pos);
      if !more {
        return;
      }
      retries := retries + 1;
    }
  }
}
