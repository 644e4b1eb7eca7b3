/**
 What a burst transfer does between two bursts: look at the error register, stop or resume, and
 where.
 */
module BurstResume {
  import opened Bits
  import opened WishboneLink

  const MAX_BUS_ERRORS := 10

  /** The words to transfer, and how the memory takes their addresses. */
  datatype Block = Block(start: nat, size: nat, count: nat, grain: Grain)

  /** Inside the 32-bit address space and the 16-bit length field. */
  ghost predicate Fits(b: Block)
  {
    b.size in {1, 2, 4} && b.grain in {1, b.size} && 0 < b.count < 0x10000 && b.start + b.count * b.size <= Pow2(32)
  }

  /** The cell of the first word; the others lie behind it. */
  function Home(b: Block): nat
  {
    Cell(b.start, b.grain)
  }

  /** Running, and the ways to end: done, eleven bus errors, a resume index outside the block, exit(1). */
  datatype Phase = Running | Complete | GivenUp | OffBlock | Aborted

  /** Where the next burst begins, the error register before it, and the bus errors met so far. */
  datatype Pos = Pos(phase: Phase, i: nat, addr: nat, err: ErrorReg, errors: nat)

  function Begin(b: Block, err: ErrorReg): Pos
  {
    Pos(Running, 0, b.start, err, 0)
  }

  // ---------- The resume index ----------

  /**
   The index computation as the machine does it: unsigned long subtraction and division, then
   conversion to int.
   */
  function MachineIndex(latched: nat, start: nat, size: nat): int
    requires size in {1, 2, 4}
  {
    var q := ((latched - start) % 0x1_0000_0000_0000_0000) / size;
    var low := q % 0x1_0000_0000;
    if low < 0x8000_0000 then low else low - 0x1_0000_0000
  }

  lemma {:induction false} Pow2Of32()
    ensures Pow2(32) == 0x1_0000_0000
  {
    assert Pow2(8) == 0x100;
    assert Pow2(16) == 0x1_0000;
    assert Pow2(24) == 0x100_0000;
  }

  lemma {:induction false} IndexAbove(latched: nat, start: nat, size: nat)
    requires start <= latched < Pow2(32) && size in {1, 2, 4}
    ensures var q := (latched - start) / size;
      MachineIndex(latched, start, size) == if q < 0x8000_0000 then q else q - 0x1_0000_0000
  {
    Pow2Of32();
    SmallMod(latched - start, 0x1_0000_0000_0000_0000);
    SmallMod((latched - start) / size, 0x1_0000_0000);
  }

  lemma {:induction false} QuotientBelow(d: nat, size: nat, count: nat)
    requires size in {1, 2, 4}
    ensures d / size < count <==> d < count * size
  {
  }

  lemma {:induction false} BorrowedIndex(d: nat, start: nat, size: nat, count: nat)
    requires count > 0 && 0 < d <= start && start + count * size <= 0x1_0000_0000 && size in {1, 2, 4}
    ensures var low := ((0x1_0000_0000_0000_0000 - d) / size) % 0x1_0000_0000;
            low >= count
    ensures d < 0x1_0000_0000
  {
    var q := (0x1_0000_0000_0000_0000 - d) / size;
    if size == 1 {
      ModUnique(q, 0x1_0000_0000, 0xffff_ffff, 0x1_0000_0000 - d);
    } else if size == 2 {
      ModUnique(q, 0x1_0000_0000, 0x7fff_ffff, 0x1_0000_0000 - (d + 1) / 2);
    } else {
      ModUnique(q, 0x1_0000_0000, 0x3fff_ffff, 0x1_0000_0000 - (d + 3) / 4);
    }
  }

  /** The computed index lies in the block exactly when the address does. */
  lemma {:induction false} StaleLatch(latched: nat, b: Block)
    requires latched < Pow2(32) && Fits(b)
    ensures 0 <= MachineIndex(latched, b.start, b.size) < b.count <==> b.start <= latched < b.start + b.count * b.size
    ensures b.start <= latched < b.start + b.count * b.size ==>
      MachineIndex(latched, b.start, b.size) == (latched - b.start) / b.size
  {
    Pow2Of32();
    if latched >= b.start {
      IndexAbove(latched, b.start, b.size);
      QuotientBelow(latched - b.start, b.size, b.count);
    } else {
      IndexBelow(latched, b);
    }
  }

  /** Below the block the subtraction borrows, and the index is far off. */
  lemma {:induction false} IndexBelow(latched: nat, b: Block)
    requires Fits(b) && latched < b.start
    ensures !(0 <= MachineIndex(latched, b.start, b.size) < b.count)
  {
    Pow2Of32();
    WrapBelow(latched, b.start);
    BorrowedIndex(b.start - latched, b.start, b.size, b.count);
  }

  lemma {:induction false} WrapBelow(latched: nat, start: nat)
    requires latched < start <= 0x1_0000_0000_0000_0000
    ensures (latched - start) % 0x1_0000_0000_0000_0000 == 0x1_0000_0000_0000_0000 + latched - start
  {
  }

  /** An address inside the bytes of word k, in the same cell or not, gives index k. */
  lemma {:induction false} IndexOf(b: Block, k: nat, d: nat)
    requires Fits(b) && k < b.count && d < b.size
    ensures At(b.start, k, b.size) + d < b.start + b.count * b.size <= Pow2(32)
    ensures MachineIndex(At(b.start, k, b.size) + d, b.start, b.size) == k
  {
    WordInside(k, b.count, b.size);
    StaleLatch(At(b.start, k, b.size) + d, b);
    Quotient(k, d, b.size);
  }

  lemma {:induction false} WordInside(k: nat, count: nat, size: nat)
    requires k < count && size in {1, 2, 4}
    ensures k * size + size <= count * size
  {
  }

  lemma {:induction false} Quotient(k: nat, d: nat, size: nat)
    requires size in {1, 2, 4} && d < size
    ensures (k * size + d) / size == k
  {
  }

  // ---------- After a burst ----------

  /** What the code does once a burst is over and the error register shows after. */
  function Turn(b: Block, p: Pos, after: ErrorReg): Pos
    requires b.size in {1, 2, 4}
  {
    if !after.bit then p.(phase := Complete, err := after)
    else if p.errors + 1 > MAX_BUS_ERRORS then p.(phase := GivenUp, err := after, errors := p.errors + 1)
    else
      var addr := after.addr % Pow2(32);
      var j := MachineIndex(addr, b.start, b.size);
      if 0 <= j < b.count then Pos(Running, j, addr, after.(bit := false), p.errors + 1)
      else p.(phase := OffBlock, err := after.(bit := false), errors := p.errors + 1)
  }

  /** Where a call stands after n bursts. */
  predicate Counted(p: Pos, n: nat)
  {
    && (if p.phase.Complete? || p.phase.Aborted? then n == p.errors + 1 else n == p.errors)
    && p.errors <= MAX_BUS_ERRORS + 1 && (p.errors == MAX_BUS_ERRORS + 1 <==> p.phase.GivenUp?)
  }

  lemma {:induction false} TurnCounted(b: Block, p: Pos, after: ErrorReg, n: nat)
    requires b.size in {1, 2, 4} && p.phase.Running? && Counted(p, n)
    ensures Counted(Turn(b, p, after), n + 1)
  {
  }

  /** The condition under which everything works: no error is left over, or one at the first word's own cell. */
  predicate Fresh(b: Block, err: ErrorReg)
  {
    err.bit ==> b.start <= err.addr % Pow2(32) && Cell(err.addr % Pow2(32), b.grain) == Home(b)
  }

  /** An address among the bytes of word i, in that word's cell. */
  ghost predicate InWord(b: Block, a: nat, i: nat)
  {
    0 <= a - At(b.start, i, b.size) < b.size && Cell(a, b.grain) == At(Home(b), i, b.size)
  }

  /** The next burst begins at word i of the block, and the register is clear unless i is 0. */
  ghost predicate OnTrack(b: Block, p: Pos)
  {
    && p.i < b.count && InWord(b, p.addr, p.i)
    && (p.err.bit ==> p.i == 0 && Fresh(b, p.err))
  }

  lemma {:induction false} BeginOnTrack(b: Block, err: ErrorReg)
    requires Fits(b) && Fresh(b, err)
    ensures OnTrack(b, Begin(b, err)) && At(Home(b), 0, b.size) == Home(b)
  {
  }

  /** The same cell means the same word. */
  lemma {:induction false} FreshInWord(b: Block, a: nat)
    requires Fits(b) && b.start <= a && Cell(a, b.grain) == Home(b)
    ensures InWord(b, a, 0)
  {
    assert At(b.start, 0, b.size) == b.start && At(Home(b), 0, b.size) == Home(b);
  }

  lemma {:induction false} InWordShift(b: Block, a: nat, i: nat, f: nat)
    requires Fits(b) && InWord(b, a, i)
    ensures InWord(b, At(a, f, b.size), i + f)
  {
    CellAt(a, f, b.size, b.grain);
    AtShift(b.start, i, f, b.size);
    AtShift(Home(b), i, f, b.size);
  }

  lemma {:induction false} InBlock(b: Block, a: nat, k: nat)
    requires Fits(b) && k < b.count && InWord(b, a, k)
    ensures a % Pow2(32) == a
  {
    IndexOf(b, k, a - At(b.start, k, b.size));
    SmallMod(a, Pow2(32));
  }

  /** From a clear register the code resumes at the first fault: never earlier, always in the block. */
  lemma {:induction false} TurnForward(b: Block, p: Pos, after: ErrorReg, faults: set<nat>)
    requires Fits(b) && p.phase.Running? && OnTrack(b, p) && !p.err.bit
    requires Latched(p.err, after, faults, p.addr, b.count - p.i, b.size)
    ensures var next := Turn(b, p, after);
      && !next.phase.OffBlock?
      && (next.phase.Complete? <==> !Faulty(faults, p.addr, b.count - p.i, b.size))
      && (next.phase.Running? ==> OnTrack(b, next) && p.i <= next.i && !next.err.bit)
      && (next.phase.Running? ==> FirstFault(faults, p.addr, next.i - p.i, b.size))
  {
    if Faulty(faults, p.addr, b.count - p.i, b.size) {
      var f: nat :| f < b.count - p.i && FirstFault(faults, p.addr, f, b.size) && after.addr == At(p.addr, f, b.size);
      TurnToFault(b, p, after, f);
    }
  }

  lemma {:induction false} TurnToFault(b: Block, p: Pos, after: ErrorReg, f: nat)
    requires Fits(b) && OnTrack(b, p) && f < b.count - p.i && after.bit && after.addr == At(p.addr, f, b.size)
    ensures var next := Turn(b, p, after);
      if p.errors < MAX_BUS_ERRORS then
        next == Pos(Running, p.i + f, after.addr, after.(bit := false), p.errors + 1) && OnTrack(b, next)
      else next.phase.GivenUp?
  {
    InWordShift(b, p.addr, p.i, f);
    InBlock(b, after.addr, p.i + f);
    TurnAt(b, p, after, p.i + f);
  }

  /** An error latched inside word k resumes there. */
  lemma {:induction false} TurnAt(b: Block, p: Pos, after: ErrorReg, k: nat)
    requires Fits(b) && after.bit && k < b.count && InWord(b, after.addr % Pow2(32), k)
    ensures Turn(b, p, after) == if p.errors + 1 > MAX_BUS_ERRORS then
        p.(phase := GivenUp, err := after, errors := p.errors + 1)
      else Pos(Running, k, after.addr % Pow2(32), after.(bit := false), p.errors + 1)
  {
    IndexOf(b, k, after.addr % Pow2(32) - At(b.start, k, b.size));
  }

  /** An error left over at the first word only costs one retry. */
  lemma {:induction false} TurnBack(b: Block, p: Pos, after: ErrorReg, faults: set<nat>, n: nat)
    requires Fits(b) && p.phase.Running? && OnTrack(b, p) && p.err.bit
    requires Latched(p.err, after, faults, p.addr, n, b.size)
    ensures var next := Turn(b, p, after);
      if p.errors < MAX_BUS_ERRORS then
        next == Pos(Running, 0, p.err.addr % Pow2(32), p.err.(bit := false), p.errors + 1) && OnTrack(b, next)
      else next.phase.GivenUp?
  {
    FreshInWord(b, p.err.addr % Pow2(32));
    TurnAt(b, p, after, 0);
  }
}
