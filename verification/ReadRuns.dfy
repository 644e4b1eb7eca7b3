/**
 Burst reads as a function of what happened in each of their bursts: the caller's array and how the
 call ends. The main result says for which error registers every such run is right.
 */
module ReadRuns {
  import opened Bits
  import opened WishboneLink
  import opened BurstResume

  /** The position, and the caller's array up to the end of the block. */
  datatype ReadState = ReadState(pos: Pos, data: seq<seq<bool>>)

  /** One burst: the addresses that failed, the words that came, and the error register after it. */
  datatype ReadBurst = ReadBurst(faults: set<nat>, words: seq<seq<bool>>, err: ErrorReg)

  ghost predicate CanRead(b: Block, mem: Memory, s: ReadState, x: ReadBurst)
  {
    && s.pos.phase.Running? && s.pos.i < b.count
    && Delivered(x.words, mem, x.faults, s.pos.addr, Cell(s.pos.addr, b.grain), b.count - s.pos.i, b.size)
    && Latched(s.pos.err, x.err, x.faults, s.pos.addr, b.count - s.pos.i, b.size)
  }

  function ReadTurn(b: Block, s: ReadState, x: ReadBurst): ReadState
    requires b.size in {1, 2, 4}
  {
    ReadState(Turn(b, s.pos, x.err), if s.pos.i <= |s.data| then s.data[..s.pos.i] + x.words else s.data)
  }

  function ReadRun(b: Block, s: ReadState, run: seq<ReadBurst>): ReadState
    requires b.size in {1, 2, 4}
  {
    if run == [] then s else ReadTurn(b, ReadRun(b, s, run[..|run| - 1]), run[|run| - 1])
  }

  /** Each burst of the run can happen where the ones before it have led. */
  ghost predicate ReadPossible(b: Block, mem: Memory, s: ReadState, run: seq<ReadBurst>)
    requires b.size in {1, 2, 4}
  {
    run != [] ==>
      && ReadPossible(b, mem, s, run[..|run| - 1])
      && CanRead(b, mem, ReadRun(b, s, run[..|run| - 1]), run[|run| - 1])
  }

  lemma {:induction false} ReadSnoc(b: Block, mem: Memory, s: ReadState, run: seq<ReadBurst>, x: ReadBurst)
    requires b.size in {1, 2, 4}
    ensures ReadRun(b, s, run + [x]) == ReadTurn(b, ReadRun(b, s, run), x)
    ensures ReadPossible(b, mem, s, run + [x])
       <==> ReadPossible(b, mem, s, run) && CanRead(b, mem, ReadRun(b, s, run), x)
  {
    assert (run + [x])[..|run|] == run;
  }

  lemma {:induction false} TwoReads(b: Block, mem: Memory, s: ReadState, x: ReadBurst, y: ReadBurst)
    requires b.size in {1, 2, 4}
    ensures ReadRun(b, s, [x, y]) == ReadTurn(b, ReadTurn(b, s, x), y)
    ensures ReadPossible(b, mem, s, [x, y]) <==> CanRead(b, mem, s, x) && CanRead(b, mem, ReadTurn(b, s, x), y)
  {
    ReadSnoc(b, mem, s, [], x);
    ReadSnoc(b, mem, s, [x], y);
    assert [] + [x] == [x] && [x] + [y] == [x, y];
  }

  /** Every word of the list equals the memory word in its cell. */
  ghost predicate ReadBack(words: seq<seq<bool>>, mem: Memory, home: nat, size: nat)
  {
    forall k: nat | k < |words| :: words[k] == Read(mem, At(home, k, size), 8 * size)
  }

  /** What a caller may rely on. */
  ghost predicate ReadRight(b: Block, mem: Memory, s: ReadState)
  {
    !s.pos.phase.OffBlock? && (s.pos.phase.Complete? ==> ReadBack(s.data, mem, Home(b), b.size))
  }

  /** Whatever memory holds, whatever fails and whatever failing words bring: the outcome is right. */
  ghost predicate ReadsRight(b: Block, err: ErrorReg)
    requires b.size in {1, 2, 4}
  {
    forall mem: Memory, data: seq<seq<bool>>, run: seq<ReadBurst> ::
      |data| == b.count && ReadPossible(b, mem, ReadState(Begin(b, err), data), run) ==>
        ReadRight(b, mem, ReadRun(b, ReadState(Begin(b, err), data), run))
  }

  /** What every run keeps that began with a fresh register. */
  ghost predicate ReadInv(b: Block, mem: Memory, s: ReadState)
  {
    && ReadRight(b, mem, s) && |s.data| == b.count
    && (s.pos.phase.Running? ==> OnTrack(b, s.pos) && ReadBack(s.data[..s.pos.i], mem, Home(b), b.size))
  }

  /** What a burst that began at word i delivered in front of its first fault extends what is read. */
  lemma {:induction false} ReadUpToFault(data: seq<seq<bool>>, words: seq<seq<bool>>, mem: Memory, faults: set<nat>,
                                         addr: nat, home: nat, i: nat, f: nat, size: nat)
    requires i <= |data| && f <= |words| && ReadBack(data[..i], mem, home, size)
    requires Delivered(words, mem, faults, addr, At(home, i, size), |words|, size)
    requires !Faulty(faults, addr, f, size)
    ensures ReadBack((data[..i] + words)[..i + f], mem, home, size)
  {
    forall k: nat | k < i + f
      ensures (data[..i] + words)[k] == Read(mem, At(home, k, size), 8 * size)
    {
      if k < i {
        assert data[..i][k] == data[k];
      } else {
        AtShift(home, i, k - i, size);
        assert (data[..i] + words)[k] == words[k - i];
      }
    }
  }

  lemma {:induction false} ReadTurnKeeps(b: Block, mem: Memory, s: ReadState, x: ReadBurst)
    requires Fits(b) && ReadInv(b, mem, s) && CanRead(b, mem, s, x)
    ensures ReadInv(b, mem, ReadTurn(b, s, x))
  {
    if s.pos.err.bit {
      TurnBack(b, s.pos, x.err, x.faults, b.count - s.pos.i);
    } else {
      ReadForwardKeeps(b, mem, s, x);
    }
  }

  lemma {:induction false} ReadForwardKeeps(b: Block, mem: Memory, s: ReadState, x: ReadBurst)
    requires Fits(b) && ReadInv(b, mem, s) && CanRead(b, mem, s, x) && !s.pos.err.bit
    ensures ReadInv(b, mem, ReadTurn(b, s, x))
  {
    var p, next := s.pos, Turn(b, s.pos, x.err);
    TurnForward(b, p, x.err, x.faults);
    var read := s.data[..p.i] + x.words;
    if next.phase.Complete? {
      ReadUpToFault(s.data, x.words, mem, x.faults, p.addr, Home(b), p.i, b.count - p.i, b.size);
      assert read[..b.count] == read;
    } else if next.phase.Running? {
      ReadUpToFault(s.data, x.words, mem, x.faults, p.addr, Home(b), p.i, next.i - p.i, b.size);
      assert ReadTurn(b, s, x).data[..next.i] == read[..next.i];
    }
  }

  lemma {:induction false} ReadRunKeeps(b: Block, mem: Memory, s: ReadState, run: seq<ReadBurst>)
    requires Fits(b) && ReadInv(b, mem, s) && ReadPossible(b, mem, s, run)
    ensures ReadInv(b, mem, ReadRun(b, s, run))
    decreases |run|
  {
    if run != [] {
      ReadRunKeeps(b, mem, s, run[..|run| - 1]);
      ReadTurnKeeps(b, mem, ReadRun(b, s, run[..|run| - 1]), run[|run| - 1]);
    }
  }

  lemma {:induction false} FreshReads(b: Block, err: ErrorReg, mem: Memory, data: seq<seq<bool>>, run: seq<ReadBurst>)
    requires Fits(b) && Fresh(b, err) && |data| == b.count
    requires ReadPossible(b, mem, ReadState(Begin(b, err), data), run)
    ensures ReadRight(b, mem, ReadRun(b, ReadState(Begin(b, err), data), run))
  {
    BeginOnTrack(b, err);
    ReadRunKeeps(b, mem, ReadState(Begin(b, err), data), run);
  }

  /** n words as memory has them, from a cell on. */
  function MemoryWords(mem: Memory, cell: nat, n: nat, size: nat): (r: seq<seq<bool>>)
    ensures |r| == n && forall k: nat | k < n :: r[k] == Read(mem, At(cell, k, size), 8 * size)
  {
    seq(n, k requires 0 <= k < n => Read(mem, At(cell, k, size), 8 * size))
  }

  /** While the error bit is set the register keeps what it holds, whatever fails. */
  lemma {:induction false} StickyCanRead(b: Block, mem: Memory, s: ReadState, x: ReadBurst)
    requires s.pos.phase.Running? && s.pos.i < b.count && s.pos.err.bit && x.err == s.pos.err
    requires Delivered(x.words, mem, x.faults, s.pos.addr, Cell(s.pos.addr, b.grain), b.count - s.pos.i, b.size)
    ensures CanRead(b, mem, s, x)
  {
  }

  /** A burst in which nothing fails leaves a clear register clear. */
  lemma {:induction false} QuietCanRead(b: Block, mem: Memory, s: ReadState, x: ReadBurst)
    requires s.pos.phase.Running? && s.pos.i < b.count && x.faults == {} && !s.pos.err.bit && !x.err.bit
    requires Delivered(x.words, mem, x.faults, s.pos.addr, Cell(s.pos.addr, b.grain), b.count - s.pos.i, b.size)
    ensures CanRead(b, mem, s, x)
  {
  }

  /**
   Any other register goes wrong for some memory and some faults: the resume index leaves the
   block, or the words in front of it are never read again, or they are read from other cells.
   */
  lemma {:induction false} StaleReadFails(b: Block, err: ErrorReg)
      returns (mem: Memory, data: seq<seq<bool>>, run: seq<ReadBurst>)
    requires Fits(b) && !Fresh(b, err)
    ensures |data| == b.count && ReadPossible(b, mem, ReadState(Begin(b, err), data), run)
    ensures !ReadRight(b, mem, ReadRun(b, ReadState(Begin(b, err), data), run))
  {
    var cell := Cell(err.addr % Pow2(32), b.grain);
    var one := Ones(8 * b.size);
    mem := map[cell := one];
    data := MemoryWords(mem, Home(b), b.count, b.size);
    var s := ReadState(Begin(b, err), data);
    var first := ReadBurst({b.start}, data[0 := one], err);
    assert At(b.start, 0, b.size) == b.start;
    StickyCanRead(b, mem, s, first);
    var t := ReadTurn(b, s, first);
    if t.pos.phase.OffBlock? {
      run := [first];
      ReadSnoc(b, mem, s, [], first);
      assert [] + [first] == run;
    } else {
      StaleLatch(err.addr % Pow2(32), b);
      var second := StaleSecond(b, mem, t, cell);
      TwoReads(b, mem, s, first, second);
      run := [first, second];
      FirstWordWrong(ReadTurn(b, t, second).data, mem, Home(b), b.size);
    }
  }

  /** The second burst: nothing fails, and the first word of the caller's array is one of all ones. */
  lemma {:induction false} StaleSecond(b: Block, mem: Memory, t: ReadState, cell: nat) returns (x: ReadBurst)
    requires b.size in {1, 2, 4} && t.pos.phase.Running? && t.pos.i < b.count == |t.data| && !t.pos.err.bit
    requires Cell(t.pos.addr, b.grain) == cell && mem == map[cell := Ones(8 * b.size)] && t.data[0] == mem[cell]
    ensures CanRead(b, mem, t, x)
    ensures ReadTurn(b, t, x).data != [] && ReadTurn(b, t, x).data[0] == Ones(8 * b.size)
    ensures ReadTurn(b, t, x).pos.phase.Complete?
  {
    var n := b.count - t.pos.i;
    x := ReadBurst({}, MemoryWords(mem, cell, n, b.size), ErrorReg(false, At(t.pos.addr, n - 1, b.size)));
    QuietCanRead(b, mem, t, x);
    assert At(cell, 0, b.size) == cell;
    assert x.words[0] == Ones(8 * b.size);
  }

  lemma {:induction false} FirstWordWrong(data: seq<seq<bool>>, mem: Memory, home: nat, size: nat)
    requires data != [] && size > 0 && data[0] == Ones(8 * size) && home !in mem
    ensures !ReadBack(data, mem, home, size)
  {
    assert At(home, 0, size) == home;
    assert Ones(8 * size)[0] != Zeros(8 * size)[0];
  }

  /**
   A burst read is right on every run exactly when the error register, as a caller could read it
   before the call, shows no error, or an address from the first word on in the first word's cell:
   the first address itself, or any byte of it where the memory only looks at whole words.
   */
  lemma {:induction false} ReadExact(b: Block, err: ErrorReg)
    requires Fits(b)
    ensures ReadsRight(b, err) <==> Fresh(b, err)
  {
    if Fresh(b, err) {
      forall mem: Memory, data: seq<seq<bool>>, run: seq<ReadBurst> |
        |data| == b.count && ReadPossible(b, mem, ReadState(Begin(b, err), data), run)
        ensures ReadRight(b, mem, ReadRun(b, ReadState(Begin(b, err), data), run))
      {
        FreshReads(b, err, mem, data, run);
      }
    } else {
      var mem, data, run := StaleReadFails(b, err);
    }
  }

  /** In such a run bursts never begin before a word that an earlier one began at. */
  lemma {:induction false} ReadsForward(b: Block, mem: Memory, s: ReadState, run: seq<ReadBurst>, x: ReadBurst)
    requires Fits(b) && ReadInv(b, mem, s) && ReadPossible(b, mem, s, run + [x])
    requires ReadRun(b, s, run + [x]).pos.phase.Running?
    ensures ReadRun(b, s, run).pos.i <= ReadRun(b, s, run + [x]).pos.i
    ensures !ReadRun(b, s, run + [x]).pos.err.bit
  {
    ReadSnoc(b, mem, s, run, x);
    var t := ReadRun(b, s, run);
    ReadRunKeeps(b, mem, s, run);
    if t.pos.err.bit {
      TurnBack(b, t.pos, x.err, x.faults, b.count - t.pos.i);
    } else {
      TurnForward(b, t.pos, x.err, x.faults);
    }
  }

  /** Each burst that did not end the run met one more bus error, so there are at most eleven. */
  lemma {:induction false} ReadBounded(b: Block, mem: Memory, err: ErrorReg, data: seq<seq<bool>>, run: seq<ReadBurst>)
    requires b.size in {1, 2, 4} && ReadPossible(b, mem, ReadState(Begin(b, err), data), run)
    ensures Counted(ReadRun(b, ReadState(Begin(b, err), data), run).pos, |run|)
    decreases |run|
  {
    if run != [] {
      var before, x := run[..|run| - 1], run[|run| - 1];
      ReadBounded(b, mem, err, data, before);
      TurnCounted(b, ReadRun(b, ReadState(Begin(b, err), data), before).pos, x.err, |before|);
    }
  }

  /**
   The quiet way to go wrong: an error left over inside word k of the block, and the first word
   failing now. Whatever came for the first word is never read again, and the call ends as if all
   were well.
   */
  lemma {:induction false} StaleInside(b: Block, mem: Memory, s: ReadState, k: nat, first: ReadBurst, second: ReadBurst)
    requires Fits(b) && 0 < k < b.count && s.pos == Begin(b, first.err)
    requires first.err.bit && 0 <= first.err.addr - At(b.start, k, b.size) < b.size
    requires first.faults == {b.start} && second.faults == {} && !second.err.bit
    requires Delivered(first.words, mem, first.faults, b.start, Home(b), b.count, b.size)
    requires var a := first.err.addr;
      Delivered(second.words, mem, second.faults, a, Cell(a, b.grain), b.count - k, b.size)
    requires first.words[0] != Read(mem, Home(b), 8 * b.size)
    ensures ReadPossible(b, mem, s, [first, second])
    ensures ReadRun(b, s, [first, second])
      == ReadState(Pos(Complete, k, first.err.addr, second.err, 1), first.words[..k] + second.words)
    ensures !ReadBack(first.words[..k] + second.words, mem, Home(b), b.size)
  {
    StaleTurn(b, s, first, k);
    var t := ReadTurn(b, s, first);
    StickyCanRead(b, mem, s, first);
    QuietCanRead(b, mem, t, second);
    TwoReads(b, mem, s, first, second);
    FirstWordKept(first.words, k, second.words, mem, Home(b), b.size);
  }

  lemma {:induction false} FirstWordKept(words: seq<seq<bool>>, k: nat, more: seq<seq<bool>>, mem: Memory,
                                         home: nat, size: nat)
    requires 0 < k <= |words| && words[0] != Read(mem, home, 8 * size)
    ensures !ReadBack(words[..k] + more, mem, home, size)
  {
    assert At(home, 0, size) == home;
    assert (words[..k] + more)[0] == words[0];
  }

  lemma {:induction false} StaleTurn(b: Block, s: ReadState, x: ReadBurst, k: nat)
    requires Fits(b) && k < b.count && x.err.bit && 0 <= x.err.addr - At(b.start, k, b.size) < b.size
    requires s.pos == Begin(b, x.err)
    ensures ReadTurn(b, s, x) == ReadState(Pos(Running, k, x.err.addr, x.err.(bit := false), 1), x.words)
  {
    IndexOf(b, k, x.err.addr - At(b.start, k, b.size));
    SmallMod(x.err.addr, Pow2(32));
    assert s.data[..0] + x.words == x.words;
  }
}
