/**
 The far end of a burst transfer: the Wishbone module of the debug unit, the memory behind it,
 and the JTAG line in between. Every burst may fail on any set of addresses; the module latches
 the first failing address and keeps it until it is cleared. The line may corrupt each burst
 inside one 32-bit window chosen when the burst starts.
 */
module WishboneLink {
  import opened Bits
  import Crc

  /** The k-th word address of a block. */
  function At(addr: nat, k: nat, size: nat): (a: nat)
    ensures a >= addr
  {
    addr + k * size
  }

  lemma {:induction false} AtShift(addr: nat, i: nat, k: nat, size: nat)
    ensures At(At(addr, i, size), k, size) == At(addr, i + k, size)
  {
    assert i * size + k * size == (i + k) * size;
  }

  lemma {:induction false} AtMonotone(addr: nat, i: nat, k: nat, size: nat)
    requires i < k && size > 0
    ensures At(addr, i, size) < At(addr, k, size)
  {
    assert (i + 1) * size <= k * size;
  }

  /**
   How the memory takes an address. The bus interface turns the low bits of an address into byte
   selects. A memory that looks at these alone sees a word at the next multiple of its size below
   (grain = size); one that looks at all address bits sees every address as a cell (grain = 1).
   */
  type Grain = g: nat | g == 1 || g == 2 || g == 4 witness 1

  /** The cell that an access to address a reaches. */
  function Cell(a: nat, g: Grain): (c: nat)
    ensures c <= a < c + g
  {
    if g == 1 then a else if g == 2 then a - a % 2 else a - a % 4
  }

  lemma {:induction false} CellAt(addr: nat, k: nat, size: nat, g: Grain)
    requires g == 1 || g == size
    ensures Cell(At(addr, k, size), g) == At(Cell(addr, g), k, size)
  {
    if g == 2 {
      assert (addr + k * 2) % 2 == addr % 2;
    } else if g == 4 {
      assert (addr + k * 4) % 4 == addr % 4;
    }
  }

  /** A later address is never in an earlier cell. */
  lemma {:induction false} CellMonotone(a: nat, b: nat, g: Grain)
    requires a <= b
    ensures Cell(a, g) <= Cell(b, g)
  {
  }

  /** A memory of equally wide cells; an address never written reads as zeros. */
  type Memory = map<nat, seq<bool>>

  function Read(mem: Memory, a: nat, width: nat): (w: seq<bool>)
    ensures |w| == width
  {
    if a in mem && |mem[a]| == width then mem[a] else Zeros(width)
  }

  function Flat(chunks: seq<seq<bool>>): seq<bool>
  {
    if chunks == [] then [] else Flat(chunks[..|chunks| - 1]) + chunks[|chunks| - 1]
  }

  lemma {:induction false} FlatSnoc(chunks: seq<seq<bool>>, c: seq<bool>)
    ensures Flat(chunks + [c]) == Flat(chunks) + c
  {
    assert (chunks + [c])[..|chunks|] == chunks;
  }

  ghost predicate SameShape(a: seq<seq<bool>>, b: seq<seq<bool>>)
  {
    |a| == |b| && forall k :: 0 <= k < |a| ==> |a[k]| == |b[k]|
  }

  lemma {:induction false} FlatInjective(a: seq<seq<bool>>, b: seq<seq<bool>>)
    requires SameShape(a, b)
    ensures |Flat(a)| == |Flat(b)|
    ensures Flat(a) == Flat(b) ==> a == b
  {
    if a != [] {
      var n := |a| - 1;
      FlatInjective(a[..n], b[..n]);
      if Flat(a) == Flat(b) {
        assert Flat(a)[..|Flat(a[..n])|] == Flat(a[..n]);
        assert Flat(b)[..|Flat(b[..n])|] == Flat(b[..n]);
        assert Flat(a)[|Flat(a[..n])|..] == a[n];
        assert Flat(b)[|Flat(b[..n])|..] == b[n];
        assert a == a[..n] + [a[n]] && b == b[..n] + [b[n]];
      }
    }
  }

  /** What was sent and what was heard differ inside one 32-bit window at most. */
  ghost predicate Noisy(sent: seq<seq<bool>>, heard: seq<seq<bool>>, lo: nat)
  {
    SameShape(sent, heard) && Crc.DifferInWindow(Flat(sent), Flat(heard), lo)
  }

  /** A chunk that starts at bit pos of the burst, as heard through noise placed at bit lo. */
  function Corrupt(c: seq<bool>, pos: nat, lo: nat, noise: seq<bool>): (h: seq<bool>)
    ensures |h| == |c|
    ensures forall i :: 0 <= i < |c| && !(lo <= pos + i < lo + 32) ==> h[i] == c[i]
  {
    seq(|c|, i requires 0 <= i < |c| =>
      c[i] != (lo <= pos + i < lo + 32 && pos + i - lo < |noise| && noise[pos + i - lo]))
  }

  lemma {:induction false} NoisyExtend(sent: seq<seq<bool>>, heard: seq<seq<bool>>, c: seq<bool>, h: seq<bool>, lo: nat)
    requires Noisy(sent, heard, lo) && |h| == |c|
    requires forall i :: 0 <= i < |c| && !(lo <= |Flat(sent)| + i < lo + 32) ==> h[i] == c[i]
    ensures Noisy(sent + [c], heard + [h], lo)
  {
    FlatSnoc(sent, c);
    FlatSnoc(heard, h);
    WindowExtend(Flat(sent), Flat(heard), c, h, lo);
  }

  lemma {:induction false} WindowExtend(a: seq<bool>, b: seq<bool>, c: seq<bool>, h: seq<bool>, lo: nat)
    requires Crc.DifferInWindow(a, b, lo) && |h| == |c|
    requires forall i :: 0 <= i < |c| && !(lo <= |a| + i < lo + 32) ==> h[i] == c[i]
    ensures Crc.DifferInWindow(a + c, b + h, lo)
  {
    forall i | 0 <= i < |a + c| && !(lo <= i < lo + 32)
      ensures (a + c)[i] == (b + h)[i]
    {
      if i >= |a| {
        assert h[i - |a|] == c[i - |a|];
      }
    }
  }

  /** Words followed by the CRC of those words. */
  ghost predicate Sealed(words: seq<seq<bool>>, crc: Word)
  {
    Crc.Fold(Ones(32), Flat(words)) == crc
  }

  /** A CRC that does not match on one side only is a sign of noise. */
  lemma {:induction false} MismatchMeansNoise(sent: seq<seq<bool>>, heard: seq<seq<bool>>, crc: Word, crcHeard: Word)
    requires Sealed(sent, crc) && !Sealed(heard, crcHeard)
    ensures sent + [crc] != heard + [crcHeard]
  {
    SplitLast(sent, crc, heard, crcHeard);
  }

  lemma {:induction false} SplitLast(a: seq<seq<bool>>, x: seq<bool>, b: seq<seq<bool>>, y: seq<bool>)
    ensures a + [x] == b + [y] ==> a == b && x == y
  {
    if a + [x] == b + [y] {
      assert |a| == |b|;
      assert a == (a + [x])[..|a|] && b == (b + [y])[..|b|];
      assert x == (a + [x])[|a|] && y == (b + [y])[|b|];
    }
  }

  /** If both ends of a noisy burst look sealed, nothing was corrupted. */
  lemma {:induction false} SealedMeansClean(sent: seq<seq<bool>>, heard: seq<seq<bool>>, crc: Word, crcHeard: Word,
                                            lo: nat)
    requires Noisy(sent + [crc], heard + [crcHeard], lo)
    requires |sent| == |heard|
    requires Sealed(sent, crc) && Sealed(heard, crcHeard)
    ensures sent == heard && crc == crcHeard
  {
    FlatSnoc(sent, crc);
    FlatSnoc(heard, crcHeard);
    Crc.OwnCrc(Ones(32), Flat(sent), crc);
    Crc.OwnCrc(Ones(32), Flat(heard), crcHeard);
    if Flat(sent + [crc]) != Flat(heard + [crcHeard]) {
      Crc.BurstDetected(Ones(32), Flat(sent + [crc]), Flat(heard + [crcHeard]), lo);
    }
    FlatInjective(sent + [crc], heard + [crcHeard]);
    assert (sent + [crc])[..|sent|] == (heard + [crcHeard])[..|heard|];
    assert (sent + [crc])[|sent|] == (heard + [crcHeard])[|heard|];
  }

  /** Does some word k < n of the block fail? */
  ghost predicate Faulty(faults: set<nat>, addr: nat, n: nat, size: nat)
  {
    exists k: nat :: k < n && At(addr, k, size) in faults
  }

  /** f is the first failing word of the block. */
  ghost predicate FirstFault(faults: set<nat>, addr: nat, f: nat, size: nat)
  {
    At(addr, f, size) in faults && !Faulty(faults, addr, f, size)
  }

  datatype ErrorReg = ErrorReg(bit: bool, addr: nat)

  /**
   The error register after the first n words of a block, given what it held before: sticky if
   the bit was set, otherwise the first failing address. While nothing fails the address field
   follows the bus, and nobody looks at it.
   */
  ghost predicate Latched(before: ErrorReg, after: ErrorReg, faults: set<nat>, addr: nat, n: nat, size: nat)
  {
    if before.bit then after == before
    else if !Faulty(faults, addr, n, size) then !after.bit
    else after.bit && exists f: nat :: f < n && FirstFault(faults, addr, f, size) && after.addr == At(addr, f, size)
  }

  /** The first n words of a block, each read from its cell unless its address failed. */
  ghost predicate Delivered(words: seq<seq<bool>>, mem: Memory, faults: set<nat>, addr: nat, cell: nat, n: nat,
                            size: nat)
  {
    |words| == n && forall k: nat | k < n ::
      |words[k]| == 8 * size
      && (At(addr, k, size) !in faults ==> words[k] == Read(mem, At(cell, k, size), 8 * size))
  }

  /** Memory after a write burst has delivered the heard words, failing addresses skipped. */
  function Store(mem: Memory, heard: seq<seq<bool>>, faults: set<nat>, addr: nat, cell: nat, size: nat): Memory
    decreases |heard|
  {
    if heard == [] then mem else
      var k := |heard| - 1;
      var m := Store(mem, heard[..k], faults, addr, cell, size);
      if At(addr, k, size) in faults then m else m[At(cell, k, size) := heard[k]]
  }

  lemma {:induction false} StoreSnoc(mem: Memory, heard: seq<seq<bool>>, w: seq<bool>, faults: set<nat>,
                                     addr: nat, cell: nat, size: nat)
    ensures Store(mem, heard + [w], faults, addr, cell, size)
         == (var m := Store(mem, heard, faults, addr, cell, size);
             if At(addr, |heard|, size) in faults then m else m[At(cell, |heard|, size) := w])
  {
    assert (heard + [w])[..|heard|] == heard;
  }

  lemma {:induction false} StoreInside(mem: Memory, heard: seq<seq<bool>>, faults: set<nat>,
                                       addr: nat, cell: nat, size: nat, k: nat)
    requires size > 0 && k < |heard| && At(addr, k, size) !in faults
    ensures var m := Store(mem, heard, faults, addr, cell, size);
            At(cell, k, size) in m && m[At(cell, k, size)] == heard[k]
    decreases |heard|
  {
    var n := |heard| - 1;
    if k < n {
      StoreInside(mem, heard[..n], faults, addr, cell, size, k);
      AtMonotone(cell, k, n, size);
    }
  }

  lemma {:induction false} StoreOutside(mem: Memory, heard: seq<seq<bool>>, faults: set<nat>,
                                        addr: nat, cell: nat, size: nat, a: nat)
    requires forall k: nat | k < |heard| :: At(cell, k, size) != a
    ensures var m := Store(mem, heard, faults, addr, cell, size);
            (a in m <==> a in mem) && (a in mem ==> m[a] == mem[a])
    decreases |heard|
  {
    if heard != [] {
      var n := |heard| - 1;
      StoreOutside(mem, heard[..n], faults, addr, cell, size, a);
      assert At(cell, n, size) != a;
    }
  }

  class Link {
    const grain: Grain
    var mem: Memory
    var err: ErrorReg
    /** Burst commands received so far. */
    var bursts: nat

    // The burst in progress: addresses that fail, those for which the bus is not ready when their
    // word has arrived, the line noise, and the traffic so far.
    var faults: set<nat>
    var refused: set<nat>
    var noiseAt: nat
    var noise: seq<bool>
    var sent: seq<seq<bool>>
    var heard: seq<seq<bool>>
    /** Chunks of a read burst the host has already shifted out. */
    var pos: nat
    /** The module has answered ready: the bits that follow on the line are those of a word. */
    ghost var offered: bool
    /** How many status bits were read for this word. */
    ghost var polls: nat

    constructor (grain: Grain)
      ensures this.grain == grain && !err.bit && bursts == 0
    {
      this.grain := grain;
      mem, err, bursts := map[], ErrorReg(false, 0), 0;
      faults, refused, noiseAt, noise, sent, heard, pos := {}, {}, 0, [], [], [], 0;
      offered, polls := false, 0;
    }

    /** The internal error register as it is shifted out: error bit, then 32 address bits. */
    function ErrorRegister(): (r: seq<bool>)
      reads this
      ensures |r| == 33
    {
      [err.bit] + NatBits(err.addr, 32)
    }

    /** Writing a 1 to the error register clears the error bit only. */
    method ClearError()
      modifies this`err
      ensures err == old(err).(bit := false)
    {
      err := err.(bit := false);
    }

    /** One bus access of a burst: the address is recorded, unless an earlier failure is still there. */
    method Access(addr: nat, k: nat, size: nat, ghost before: ErrorReg) returns (failed: bool)
      requires Latched(before, err, faults, addr, k, size)
      modifies this`err
      ensures failed == (At(addr, k, size) in faults)
      ensures err == if old(err.bit) then old(err) else ErrorReg(failed, At(addr, k, size))
      ensures Latched(before, err, faults, addr, k + 1, size)
    {
      failed := At(addr, k, size) in faults;
      if !err.bit {
        err := ErrorReg(failed, At(addr, k, size));
      }
      assert failed && !Faulty(faults, addr, k, size) ==> FirstFault(faults, addr, k, size);
      assert Faulty(faults, addr, k + 1, size) <==> Faulty(faults, addr, k, size) || failed;
    }

    /** A new burst command: any set of addresses may fail, and noise may sit anywhere. */
    method Begin()
      modifies this`bursts, this`faults, this`refused, this`noiseAt, this`noise, this`sent, this`heard
      ensures bursts == old(bursts) + 1
      ensures sent == heard == [] && Noisy(sent, heard, noiseAt) && faults !! refused
    {
      bursts := bursts + 1;
      var f: set<nat>, r: set<nat>, at: nat, n: seq<bool> := *, *, *, *;
      faults, refused, noiseAt, noise, sent, heard := f - r, r, at, n, [], [];
    }

    /** Move one chunk over the line. */
    method Transfer(c: seq<bool>) returns (h: seq<bool>)
      requires Noisy(sent, heard, noiseAt)
      modifies this`sent, this`heard
      ensures |h| == |c| && sent == old(sent) + [c] && heard == old(heard) + [h]
      ensures Noisy(sent, heard, noiseAt)
    {
      h := Corrupt(c, |Flat(sent)|, noiseAt, noise);
      NoisyExtend(sent, heard, c, h, noiseAt);
      sent, heard := sent + [c], heard + [h];
    }

    /** Move a whole list of chunks. */
    method TransferAll(chunks: seq<seq<bool>>)
      requires sent == heard == [] && Noisy(sent, heard, noiseAt)
      modifies this`sent, this`heard
      ensures sent == chunks && Noisy(sent, heard, noiseAt)
    {
      for k := 0 to |chunks|
        invariant sent == chunks[..k] && Noisy(sent, heard, noiseAt)
      {
        var _ := Transfer(chunks[k]);
      }
    }

    /** The words of a read burst as the bus delivers them. A failing word may be anything. */
    method Fetch(addr: nat, n: nat, size: nat) returns (words: seq<seq<bool>>)
      requires size in {1, 2, 4} && grain in {1, size}
      modifies this`err
      ensures Delivered(words, mem, faults, addr, Cell(addr, grain), n, size)
      ensures Latched(old(err), err, faults, addr, n, size)
    {
      words := [];
      for k := 0 to n
        invariant Delivered(words, mem, faults, addr, Cell(addr, grain), k, size)
        invariant Latched(old(err), err, faults, addr, k, size)
      {
        var failed := Access(addr, k, size, old(err));
        CellAt(addr, k, size, grain);
        var word := Read(mem, Cell(At(addr, k, size), grain), 8 * size);
        if failed {
          var junk: seq<bool> := *;
          word := if |junk| == 8 * size then junk else word;
        }
        words := words + [word];
      }
    }

    /** A read burst: n words and their CRC cross the line. */
    method ReadCommand(addr: nat, n: nat, size: nat)
      requires size in {1, 2, 4} && grain in {1, size}
      modifies this
      ensures mem == old(mem) && bursts == old(bursts) + 1
      ensures |sent| == n + 1 && Noisy(sent, heard, noiseAt) && pos == 0 && !offered && polls == 0
      ensures Delivered(sent[..n], mem, faults, addr, Cell(addr, grain), n, size)
      ensures |sent[n]| == 32 && Sealed(sent[..n], sent[n])
      ensures Latched(old(err), err, faults, addr, n, size)
    {
      Begin();
      var words := Fetch(addr, n, size);
      var crc := Crc.Fold(Ones(32), Flat(words));
      TransferAll(words + [crc]);
      pos, offered, polls := 0, false, 0;
      assert sent[..n] == words;
    }

    /** The host shifts out the next chunk: a word that the module has offered, or at the end the CRC. */
    method ReadChunk() returns (c: seq<bool>)
      requires pos < |heard| && offered == (pos + 1 < |heard|)
      modifies this`pos, this`offered, this`polls
      ensures c == heard[old(pos)] && pos == old(pos) + 1
      ensures !offered && polls == 0
    {
      c := heard[pos];
      pos := pos + 1;
      offered, polls := false, 0;
    }

    /** The ready bit in front of a word read; nothing is known about how often it reads 0. */
    method StatusBit() returns (ready: bool)
      requires !offered && pos + 1 < |heard|
      modifies this`offered, this`polls
      ensures offered == ready && polls == old(polls) + 1
    {
      ready := *;
      offered, polls := ready, polls + 1;
    }

    /** Word k of a write burst arrives; unless it is refused or its address fails, it is stored. */
    method WriteWord(addr: nat, k: nat, size: nat, word: seq<bool>, ghost errBefore: ErrorReg, ghost memBefore: Memory)
      requires size in {1, 2, 4} && grain in {1, size}
      requires k == |heard| && Noisy(sent, heard, noiseAt)
      requires Latched(errBefore, err, faults, addr, k, size)
      requires mem == Store(memBefore, heard, faults + refused, addr, Cell(addr, grain), size)
      modifies this`mem, this`err, this`sent, this`heard
      ensures sent == old(sent) + [word] && |heard| == k + 1 && Noisy(sent, heard, noiseAt)
      ensures Latched(errBefore, err, faults, addr, k + 1, size)
      ensures mem == Store(memBefore, heard, faults + refused, addr, Cell(addr, grain), size)
    {
      var failed := Access(addr, k, size, errBefore);
      var h := Transfer(word);
      StoreSnoc(memBefore, old(heard), h, faults + refused, addr, Cell(addr, grain), size);
      CellAt(addr, k, size, grain);
      if !failed && At(addr, k, size) !in refused {
        mem := mem[Cell(At(addr, k, size), grain) := h];
      }
    }

    /** The ready bit behind a word written, read into a byte that keeps its upper bits. */
    method WriteStatus(addr: nat, k: nat, size: nat, left: Byte) returns (status: Byte)
      ensures status == Answer(At(addr, k, size) !in refused, left)
    {
      status := Answer(At(addr, k, size) !in refused, left);
    }

    /** The module compares the CRC it hears with that of the words it heard; the word read keeps its upper bits. */
    method CrcMatch(crc: Word, left: Word) returns (crcMatch: Word)
      requires Noisy(sent, heard, noiseAt)
      modifies this`sent, this`heard
      ensures |heard| == |old(heard)| + 1 && heard[..|old(heard)|] == old(heard)
      ensures sent == old(sent) + [crc] && Noisy(sent, heard, noiseAt)
      ensures |heard[|old(heard)|]| == 32
      ensures crcMatch == Answer(Sealed(old(heard), heard[|old(heard)|]), left)
    {
      var own := Crc.Fold(Ones(32), Flat(heard));
      var h := Transfer(crc);
      crcMatch := Answer(own == h, left);
    }
  }
}
