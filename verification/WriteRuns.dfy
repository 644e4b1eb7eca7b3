/**
 Burst writes as a function of what happened in each of their bursts: memory and how the call ends.
 The main result says for which error registers, and for which bits left over in the variables the
 code tests, every such run is right.
 */
module WriteRuns {
  import opened Bits
  import opened WishboneLink
  import opened BurstResume
  import Crc

  /** What crc_match and status hold above their lowest bit; the code does not initialise them. */
  datatype Left = Left(crcMatch: Word, status: Byte)

  predicate Clean(l: Left)
  {
    !Dirty(l.crcMatch, 1) && !Dirty(l.status, 1)
  }

  datatype WriteState = WriteState(pos: Pos, mem: Memory)

  /**
   One burst: the addresses that failed and those for which the bus was not ready, the CRC sent,
   the words and the CRC the module heard through noise at some place, and the error register.
   */
  datatype WriteBurst = WriteBurst(faults: set<nat>, refused: set<nat>, crc: Word, heard: seq<seq<bool>>,
                                   crcHeard: Word, noiseAt: nat, err: ErrorReg)

  /** Some word heard so far was refused and the host has noticed. */
  ghost predicate Noticed(b: Block, s: WriteState, x: WriteBurst, l: Left)
  {
    Faulty(x.refused, s.pos.addr, |x.heard|, b.size) && !Dirty(l.status, 1)
  }

  ghost predicate CanWrite(b: Block, data: seq<seq<bool>>, s: WriteState, x: WriteBurst, l: Left)
    requires |data| == b.count
  {
    && s.pos.phase.Running? && s.pos.i < b.count
    && x.faults !! x.refused && |x.heard| <= b.count - s.pos.i
    && Latched(s.pos.err, x.err, x.faults, s.pos.addr, |x.heard|, b.size)
    && (!Noticed(b, s, x, l) ==>
      && |x.heard| == b.count - s.pos.i
      && Sealed(data[s.pos.i..], x.crc)
      && Noisy(data[s.pos.i..] + [x.crc], x.heard + [x.crcHeard], x.noiseAt))
  }

  /** The host's verdict on a burst. */
  ghost predicate Accepted(b: Block, s: WriteState, x: WriteBurst, l: Left)
  {
    !Noticed(b, s, x, l) && (Sealed(x.heard, x.crcHeard) || Dirty(l.crcMatch, 1))
  }

  ghost function WriteTurn(b: Block, s: WriteState, x: WriteBurst, l: Left): WriteState
    requires b.size in {1, 2, 4}
  {
    WriteState(if Accepted(b, s, x, l) then Turn(b, s.pos, x.err) else s.pos.(phase := Aborted, err := x.err),
      Store(s.mem, x.heard, x.faults + x.refused, s.pos.addr, Cell(s.pos.addr, b.grain), b.size))
  }

  ghost function WriteRun(b: Block, s: WriteState, run: seq<WriteBurst>, l: Left): WriteState
    requires b.size in {1, 2, 4}
  {
    if run == [] then s else WriteTurn(b, WriteRun(b, s, run[..|run| - 1], l), run[|run| - 1], l)
  }

  ghost predicate WritePossible(b: Block, data: seq<seq<bool>>, s: WriteState, run: seq<WriteBurst>, l: Left)
    requires b.size in {1, 2, 4} && |data| == b.count
  {
    run != [] ==>
      && WritePossible(b, data, s, run[..|run| - 1], l)
      && CanWrite(b, data, WriteRun(b, s, run[..|run| - 1], l), run[|run| - 1], l)
  }

  lemma {:induction false} WriteSnoc(b: Block, data: seq<seq<bool>>, s: WriteState, run: seq<WriteBurst>,
                                     x: WriteBurst, l: Left)
    requires b.size in {1, 2, 4} && |data| == b.count
    ensures WriteRun(b, s, run + [x], l) == WriteTurn(b, WriteRun(b, s, run, l), x, l)
    ensures WritePossible(b, data, s, run + [x], l)
       <==> WritePossible(b, data, s, run, l) && CanWrite(b, data, WriteRun(b, s, run, l), x, l)
  {
    assert (run + [x])[..|run|] == run;
  }

  /** c differs from a at most in the cells of the block. */
  ghost predicate OnlyBlockChanged(a: Memory, c: Memory, b: Block)
  {
    forall x: nat | forall k: nat | k < b.count :: At(Home(b), k, b.size) != x ::
      (x in a <==> x in c) && (x in a ==> a[x] == c[x])
  }

  /** The first n cells of the block hold the first n words of data. */
  ghost predicate Written(mem: Memory, data: seq<seq<bool>>, home: nat, n: nat, size: nat)
    requires n <= |data|
  {
    forall k: nat | k < n :: At(home, k, size) in mem && mem[At(home, k, size)] == data[k]
  }

  ghost predicate WriteRight(b: Block, data: seq<seq<bool>>, before: Memory, s: WriteState)
    requires |data| == b.count
  {
    && !s.pos.phase.OffBlock? && OnlyBlockChanged(before, s.mem, b)
    && (s.pos.phase.Complete? ==> Written(s.mem, data, Home(b), b.count, b.size))
  }

  ghost predicate WritesRight(b: Block, err: ErrorReg, l: Left)
    requires b.size in {1, 2, 4}
  {
    forall mem: Memory, data: seq<seq<bool>>, run: seq<WriteBurst> ::
      |data| == b.count && (forall k :: 0 <= k < |data| ==> |data[k]| == 8 * b.size)
      && WritePossible(b, data, WriteState(Begin(b, err), mem), run, l) ==>
        WriteRight(b, data, mem, WriteRun(b, WriteState(Begin(b, err), mem), run, l))
  }

  ghost predicate WriteInv(b: Block, data: seq<seq<bool>>, before: Memory, s: WriteState)
    requires |data| == b.count
  {
    && WriteRight(b, data, before, s)
    && (s.pos.phase.Running? ==> OnTrack(b, s.pos) && Written(s.mem, data, Home(b), s.pos.i, b.size))
  }

  /** A burst that began at word first writes its words up to its first loss. */
  lemma {:induction false} WrittenExtend(mem: Memory, data: seq<seq<bool>>, lost: set<nat>, addr: nat, home: nat,
                                         first: nat, f: nat, size: nat)
    requires size > 0 && first + f <= |data|
    requires Written(mem, data, home, first, size)
    requires !Faulty(lost, addr, f, size)
    ensures Written(Store(mem, data[first..], lost, addr, At(home, first, size), size), data, home, first + f, size)
  {
    var cell, words := At(home, first, size), data[first..];
    forall k: nat | k < first + f
      ensures var m := Store(mem, words, lost, addr, cell, size);
              At(home, k, size) in m && m[At(home, k, size)] == data[k]
    {
      if k < first {
        forall j: nat | j < |words|
          ensures At(cell, j, size) != At(home, k, size)
        {
          AtMonotone(home, k, first, size);
        }
        StoreOutside(mem, words, lost, addr, cell, size, At(home, k, size));
      } else {
        AtShift(home, first, k - first, size);
        StoreInside(mem, words, lost, addr, cell, size, k - first);
      }
    }
  }

  lemma {:induction false} StoreInBlock(mem: Memory, heard: seq<seq<bool>>, lost: set<nat>, b: Block, addr: nat,
                                        first: nat)
    requires first + |heard| <= b.count
    ensures OnlyBlockChanged(mem, Store(mem, heard, lost, addr, At(Home(b), first, b.size), b.size), b)
  {
    var cell := At(Home(b), first, b.size);
    forall x: nat | forall k: nat | k < b.count :: At(Home(b), k, b.size) != x
      ensures var m := Store(mem, heard, lost, addr, cell, b.size);
              (x in mem <==> x in m) && (x in mem ==> mem[x] == m[x])
    {
      forall j: nat | j < |heard|
        ensures At(cell, j, b.size) != x
      {
        AtShift(Home(b), first, j, b.size);
        assert At(Home(b), first + j, b.size) != x;
      }
      StoreOutside(mem, heard, lost, addr, cell, b.size, x);
    }
  }

  lemma {:induction false} OnlyBlockTransitive(x: Memory, y: Memory, z: Memory, b: Block)
    requires OnlyBlockChanged(x, y, b) && OnlyBlockChanged(y, z, b)
    ensures OnlyBlockChanged(x, z, b)
  {
  }

  /** A burst that a careful host accepts was heard as sent and refused nowhere. */
  lemma {:induction false} AcceptedIsClean(b: Block, data: seq<seq<bool>>, s: WriteState, x: WriteBurst, l: Left)
    requires Clean(l) && |data| == b.count && CanWrite(b, data, s, x, l) && Accepted(b, s, x, l)
    ensures x.heard == data[s.pos.i..] && !Faulty(x.refused, s.pos.addr, |x.heard|, b.size)
  {
    SealedMeansClean(data[s.pos.i..], x.heard, x.crc, x.crcHeard, x.noiseAt);
  }

  /** Without refusals, losses are faults. */
  lemma {:induction false} LostIsFault(faults: set<nat>, refused: set<nat>, addr: nat, n: nat, f: nat, size: nat)
    requires !Faulty(refused, addr, n, size) && f <= n && !Faulty(faults, addr, f, size)
    ensures !Faulty(faults + refused, addr, f, size)
  {
  }

  lemma {:induction false} WriteTurnKeeps(b: Block, data: seq<seq<bool>>, before: Memory, s: WriteState,
                                          x: WriteBurst, l: Left)
    requires Fits(b) && Clean(l) && |data| == b.count && WriteInv(b, data, before, s) && CanWrite(b, data, s, x, l)
    ensures WriteInv(b, data, before, WriteTurn(b, s, x, l))
  {
    var p, t := s.pos, WriteTurn(b, s, x, l);
    StoreInBlock(s.mem, x.heard, x.faults + x.refused, b, p.addr, p.i);
    OnlyBlockTransitive(before, s.mem, t.mem, b);
    if Accepted(b, s, x, l) {
      AcceptedIsClean(b, data, s, x, l);
      if p.err.bit {
        TurnBack(b, p, x.err, x.faults, |x.heard|);
      } else {
        TurnForward(b, p, x.err, x.faults);
        if t.pos.phase.Running? || t.pos.phase.Complete? {
          var f := if t.pos.phase.Running? then t.pos.i - p.i else b.count - p.i;
          LostIsFault(x.faults, x.refused, p.addr, |x.heard|, f, b.size);
          WrittenExtend(s.mem, data, x.faults + x.refused, p.addr, Home(b), p.i, f, b.size);
        }
      }
    }
  }

  lemma {:induction false} WriteRunKeeps(b: Block, data: seq<seq<bool>>, before: Memory, s: WriteState,
                                         run: seq<WriteBurst>, l: Left)
    requires Fits(b) && Clean(l) && |data| == b.count && WriteInv(b, data, before, s)
    requires WritePossible(b, data, s, run, l)
    ensures WriteInv(b, data, before, WriteRun(b, s, run, l))
    decreases |run|
  {
    if run != [] {
      WriteRunKeeps(b, data, before, s, run[..|run| - 1], l);
      WriteTurnKeeps(b, data, before, WriteRun(b, s, run[..|run| - 1], l), run[|run| - 1], l);
    }
  }

  lemma {:induction false} FreshWrites(b: Block, err: ErrorReg, l: Left, mem: Memory, data: seq<seq<bool>>,
                                       run: seq<WriteBurst>)
    requires Fits(b) && Fresh(b, err) && Clean(l) && |data| == b.count
    requires WritePossible(b, data, WriteState(Begin(b, err), mem), run, l)
    ensures WriteRight(b, data, mem, WriteRun(b, WriteState(Begin(b, err), mem), run, l))
  {
    BeginOnTrack(b, err);
    WriteRunKeeps(b, data, mem, WriteState(Begin(b, err), mem), run, l);
  }

  // ---------- Writes that go wrong ----------

  lemma {:induction false} TwoWrites(b: Block, data: seq<seq<bool>>, s: WriteState, x: WriteBurst, y: WriteBurst,
                                     l: Left)
    requires b.size in {1, 2, 4} && |data| == b.count
    ensures WriteRun(b, s, [x, y], l) == WriteTurn(b, WriteTurn(b, s, x, l), y, l)
    ensures WritePossible(b, data, s, [x, y], l)
       <==> CanWrite(b, data, s, x, l) && CanWrite(b, data, WriteTurn(b, s, x, l), y, l)
  {
    WriteSnoc(b, data, s, [], x, l);
    WriteSnoc(b, data, s, [x], y, l);
    assert [] + [x] == [x] && [x] + [y] == [x, y];
  }

  lemma {:induction false} OneWrite(b: Block, data: seq<seq<bool>>, s: WriteState, x: WriteBurst, l: Left)
    requires b.size in {1, 2, 4} && |data| == b.count
    ensures WriteRun(b, s, [x], l) == WriteTurn(b, s, x, l)
    ensures WritePossible(b, data, s, [x], l) <==> CanWrite(b, data, s, x, l)
  {
    WriteSnoc(b, data, s, [], x, l);
    assert [] + [x] == [x];
  }

  ghost function CrcOf(words: seq<seq<bool>>): (c: Word)
    ensures Sealed(words, c)
  {
    Crc.Fold(Ones(32), Flat(words))
  }

  /** A burst heard as sent. */
  ghost function Heard(words: seq<seq<bool>>, faults: set<nat>, refused: set<nat>, err: ErrorReg): WriteBurst
  {
    WriteBurst(faults, refused, CrcOf(words), words, CrcOf(words), 0, err)
  }

  lemma {:induction false} QuietLine(words: seq<seq<bool>>)
    ensures Noisy(words, words, 0)
  {
  }

  /** Noise in the first word only. */
  lemma {:induction false} FirstWordNoise(words: seq<seq<bool>>, w: seq<bool>)
    requires words != [] && |w| == |words[0]| <= 32
    ensures Noisy(words, words[0 := w], 0)
    decreases |words|
  {
    var n := |words| - 1;
    if n == 0 {
      FlatSnoc([], words[0]);
      FlatSnoc([], w);
      assert words == [] + [words[0]] && words[0 := w] == [] + [w];
    } else {
      FirstWordNoise(words[..n], w);
      NoisyExtend(words[..n], words[..n][0 := w], words[n], words[n], 0);
      assert words == words[..n] + [words[n]];
      assert words[0 := w] == words[..n][0 := w] + [words[n]];
    }
  }

  lemma {:induction false} HeardAccepted(b: Block, data: seq<seq<bool>>, s: WriteState, x: WriteBurst, l: Left)
    requires |data| == b.count && s.pos.phase.Running? && s.pos.i < b.count
    requires x == Heard(data[s.pos.i..], x.faults, x.refused, x.err) && x.faults !! x.refused
    requires Latched(s.pos.err, x.err, x.faults, s.pos.addr, |x.heard|, b.size)
    requires x.refused == {} || Dirty(l.status, 1)
    ensures CanWrite(b, data, s, x, l) && Accepted(b, s, x, l)
  {
    QuietLine(data[s.pos.i..] + [x.crc]);
  }

  /** Words that miss the first cell leave it unwritten. */
  lemma {:induction false} FirstUnwritten(mem: Memory, words: seq<seq<bool>>, lost: set<nat>, addr: nat, cell: nat,
                                          home: nat, size: nat)
    requires home !in mem && size > 0 && home <= cell && (addr in lost || home < cell)
    ensures home !in Store(mem, words, lost, addr, cell, size)
    decreases |words|
  {
    if words != [] {
      FirstUnwritten(mem, words[..|words| - 1], lost, addr, cell, home, size);
    }
  }

  lemma {:induction false} UnwrittenIsWrong(mem: Memory, data: seq<seq<bool>>, home: nat, size: nat)
    requires data != [] && (home !in mem || mem[home] != data[0])
    ensures !Written(mem, data, home, |data|, size)
  {
    assert At(home, 0, size) == home;
  }

  /** The words of the examples. */
  function Blank(b: Block): (r: seq<seq<bool>>)
    ensures |r| == b.count && forall k :: 0 <= k < |r| ==> r[k] == Zeros(8 * b.size)
  {
    seq(b.count, k => Zeros(8 * b.size))
  }

  /** A register with an error at any other address: the first word fails and is never written. */
  lemma {:induction false} StaleWriteFails(b: Block, err: ErrorReg, l: Left) returns (run: seq<WriteBurst>)
    requires Fits(b) && !Fresh(b, err)
    ensures WritePossible(b, Blank(b), WriteState(Begin(b, err), map[]), run, l)
    ensures !WriteRight(b, Blank(b), map[], WriteRun(b, WriteState(Begin(b, err), map[]), run, l))
  {
    var data, s := Blank(b), WriteState(Begin(b, err), map[]);
    assert data[0..] == data;
    var first := Heard(data, {b.start}, {}, err);
    HeardAccepted(b, data, s, first, l);
    var t := WriteTurn(b, s, first, l);
    FirstUnwritten(map[], data, {b.start} + {}, b.start, Home(b), Home(b), b.size);
    if t.pos.phase.OffBlock? {
      run := [first];
      OneWrite(b, data, s, first, l);
    } else {
      StaleLatch(err.addr % Pow2(32), b);
      CellMonotone(b.start, t.pos.addr, b.grain);
      var second := QuietBurst(b, data, t, {});
      HeardAccepted(b, data, t, second, l);
      TwoWrites(b, data, s, first, second, l);
      run := [first, second];
      FirstUnwritten(t.mem, data[t.pos.i..], {} + {}, t.pos.addr, Cell(t.pos.addr, b.grain), Home(b), b.size);
      UnwrittenIsWrong(WriteTurn(b, t, second, l).mem, data, Home(b), b.size);
    }
  }

  /** A burst without faults from where s stands, the addresses in refused not taken. */
  ghost function QuietBurst(b: Block, data: seq<seq<bool>>, s: WriteState, refused: set<nat>): WriteBurst
    requires s.pos.i < b.count == |data|
  {
    Heard(data[s.pos.i..], {}, refused, ErrorReg(false, At(s.pos.addr, b.count - s.pos.i - 1, b.size)))
  }

  /** An error left over at the first word: the first burst is repeated from the latched address. */
  lemma {:induction false} FreshRetry(b: Block, data: seq<seq<bool>>, s: WriteState, first: WriteBurst, l: Left)
    requires Fits(b) && |data| == b.count && s.pos == Begin(b, first.err) && first.err.bit && Fresh(b, first.err)
    requires Accepted(b, s, first, l)
    ensures var t := WriteTurn(b, s, first, l);
      && t.pos == Pos(Running, 0, first.err.addr % Pow2(32), first.err.(bit := false), 1)
      && Cell(t.pos.addr, b.grain) == Home(b)
  {
    FreshInWord(b, first.err.addr % Pow2(32));
    TurnAt(b, s.pos, first.err, 0);
  }

  /** A not-ready answer that reads as ready: a word the bus did not take passes for written. */
  lemma {:induction false} DirtyStatusFails(b: Block, err: ErrorReg, l: Left) returns (run: seq<WriteBurst>)
    requires Fits(b) && Fresh(b, err) && Dirty(l.status, 1)
    ensures WritePossible(b, Blank(b), WriteState(Begin(b, err), map[]), run, l)
    ensures !WriteRight(b, Blank(b), map[], WriteRun(b, WriteState(Begin(b, err), map[]), run, l))
  {
    var data, s := Blank(b), WriteState(Begin(b, err), map[]);
    assert data[0..] == data;
    if !err.bit {
      var only := RefusedBurst(b, data, s, l);
      run := [only];
      OneWrite(b, data, s, only, l);
    } else {
      var first := Heard(data, {}, {b.start}, err);
      HeardAccepted(b, data, s, first, l);
      FreshRetry(b, data, s, first, l);
      var t := WriteTurn(b, s, first, l);
      FirstUnwritten(map[], data, {} + {b.start}, b.start, Home(b), Home(b), b.size);
      var second := RefusedBurst(b, data, t, l);
      TwoWrites(b, data, s, first, second, l);
      run := [first, second];
    }
  }

  /** The burst in which the first word is refused. */
  lemma {:induction false} RefusedBurst(b: Block, data: seq<seq<bool>>, s: WriteState, l: Left) returns (x: WriteBurst)
    requires Fits(b) && Dirty(l.status, 1) && data == Blank(b) && Home(b) !in s.mem
    requires s.pos.phase.Running? && s.pos.i == 0 && !s.pos.err.bit && Cell(s.pos.addr, b.grain) == Home(b)
    ensures CanWrite(b, data, s, x, l)
    ensures !WriteRight(b, data, map[], WriteTurn(b, s, x, l))
  {
    assert data[0..] == data;
    x := QuietBurst(b, data, s, {s.pos.addr});
    HeardAccepted(b, data, s, x, l);
    FirstUnwritten(s.mem, data, {} + {s.pos.addr}, s.pos.addr, Home(b), Home(b), b.size);
    UnwrittenIsWrong(WriteTurn(b, s, x, l).mem, data, Home(b), b.size);
  }

  /** A mismatch that reads as a match: a word changed on the line passes for written. */
  lemma {:induction false} DirtyMatchFails(b: Block, err: ErrorReg, l: Left) returns (run: seq<WriteBurst>)
    requires Fits(b) && Fresh(b, err) && Dirty(l.crcMatch, 1)
    ensures WritePossible(b, Blank(b), WriteState(Begin(b, err), map[]), run, l)
    ensures !WriteRight(b, Blank(b), map[], WriteRun(b, WriteState(Begin(b, err), map[]), run, l))
  {
    var data, s := Blank(b), WriteState(Begin(b, err), map[]);
    assert data[0..] == data;
    if !err.bit {
      var only := ChangedBurst(b, data, s, l);
      run := [only];
      OneWrite(b, data, s, only, l);
    } else {
      var first := Heard(data, {}, {}, err);
      HeardAccepted(b, data, s, first, l);
      FreshRetry(b, data, s, first, l);
      var second := ChangedBurst(b, data, WriteTurn(b, s, first, l), l);
      TwoWrites(b, data, s, first, second, l);
      run := [first, second];
    }
  }

  /** The burst in which the first word is heard as all ones. */
  lemma {:induction false} ChangedBurst(b: Block, data: seq<seq<bool>>, s: WriteState, l: Left) returns (x: WriteBurst)
    requires Fits(b) && Dirty(l.crcMatch, 1) && data == Blank(b)
    requires s.pos.phase.Running? && s.pos.i == 0 && !s.pos.err.bit && Cell(s.pos.addr, b.grain) == Home(b)
    ensures CanWrite(b, data, s, x, l)
    ensures !WriteRight(b, data, map[], WriteTurn(b, s, x, l))
  {
    var ones := Ones(8 * b.size);
    var crc := CrcOf(data);
    x := WriteBurst({}, {}, crc, data[0 := ones], crc, 0, ErrorReg(false, At(s.pos.addr, b.count - 1, b.size)));
    assert data[0..] == data;
    FirstWordNoise(data + [crc], ones);
    assert (data + [crc])[0 := ones] == data[0 := ones] + [crc];
    var t := WriteTurn(b, s, x, l);
    StoreInside(s.mem, x.heard, {} + {}, s.pos.addr, Home(b), b.size, 0);
    assert At(Home(b), 0, b.size) == Home(b);
    assert ones[0] != Zeros(8 * b.size)[0];
    UnwrittenIsWrong(t.mem, data, Home(b), b.size);
  }

  /**
   A burst write is right on every run exactly when the error register shows no error or an address
   of the first word as ReadExact says, and the two variables hold nothing above their lowest bit.
   */
  lemma {:induction false} WriteExact(b: Block, err: ErrorReg, l: Left)
    requires Fits(b)
    ensures WritesRight(b, err, l) <==> Fresh(b, err) && Clean(l)
  {
    if Fresh(b, err) && Clean(l) {
      forall mem: Memory, data: seq<seq<bool>>, run: seq<WriteBurst> |
        |data| == b.count && (forall k :: 0 <= k < |data| ==> |data[k]| == 8 * b.size)
        && WritePossible(b, data, WriteState(Begin(b, err), mem), run, l)
        ensures WriteRight(b, data, mem, WriteRun(b, WriteState(Begin(b, err), mem), run, l))
      {
        FreshWrites(b, err, l, mem, data, run);
      }
    } else if !Fresh(b, err) {
      var run := StaleWriteFails(b, err, l);
    } else if Dirty(l.status, 1) {
      var run := DirtyStatusFails(b, err, l);
    } else {
      var run := DirtyMatchFails(b, err, l);
    }
  }

  /** A word of the burst was refused, or the line changed something. */
  ghost predicate Disturbed(b: Block, data: seq<seq<bool>>, s: WriteState, x: WriteBurst)
    requires |data| == b.count
  {
    || Faulty(x.refused, s.pos.addr, |x.heard|, b.size)
    || (s.pos.i <= b.count && data[s.pos.i..] + [x.crc] != x.heard + [x.crcHeard])
  }

  /** A host that stops has a reason. */
  lemma {:induction false} AbortedTurn(b: Block, data: seq<seq<bool>>, s: WriteState, x: WriteBurst, l: Left)
    requires b.size in {1, 2, 4} && |data| == b.count && CanWrite(b, data, s, x, l)
    ensures WriteTurn(b, s, x, l).pos.phase.Aborted? ==> Disturbed(b, data, s, x)
  {
    if !Noticed(b, s, x, l) && !Accepted(b, s, x, l) {
      MismatchMeansNoise(data[s.pos.i..], x.heard, x.crc, x.crcHeard);
    }
  }

  lemma {:induction false} AbortedRun(b: Block, data: seq<seq<bool>>, s: WriteState, run: seq<WriteBurst>, l: Left)
    requires b.size in {1, 2, 4} && |data| == b.count && !s.pos.phase.Aborted? && WritePossible(b, data, s, run, l)
    ensures WriteRun(b, s, run, l).pos.phase.Aborted? ==>
      run != [] && Disturbed(b, data, WriteRun(b, s, run[..|run| - 1], l), run[|run| - 1])
  {
    if run != [] {
      AbortedTurn(b, data, WriteRun(b, s, run[..|run| - 1], l), run[|run| - 1], l);
    }
  }

  /** At most eleven bursts, as for reads. */
  lemma {:induction false} WriteBounded(b: Block, data: seq<seq<bool>>, mem: Memory, err: ErrorReg,
                                        run: seq<WriteBurst>, l: Left)
    requires b.size in {1, 2, 4} && |data| == b.count
    requires WritePossible(b, data, WriteState(Begin(b, err), mem), run, l)
    ensures Counted(WriteRun(b, WriteState(Begin(b, err), mem), run, l).pos, |run|)
    decreases |run|
  {
    if run != [] {
      var before, x := run[..|run| - 1], run[|run| - 1];
      WriteBounded(b, data, mem, err, before, l);
      TurnCounted(b, WriteRun(b, WriteState(Begin(b, err), mem), before, l).pos, x.err, |before|);
    }
  }
}
