/**
 Z and z packets: memory breakpoints that patch target memory, and hardware watchpoints that are
 taken from a pool of eight. The meaning of one packet, and what every run of packets keeps.
 */
module Matchpoints {
  import opened Bits
  import opened MatchTable
  import Link = WishboneLink

  const HWP_MAX_WP := 8
  const OR1K_TRAP_INSTR := 0x21000001

  // Debug unit registers: group 6 of the special purpose registers.
  const SPR_D := 6 * 2048
  const SPR_DMR1 := SPR_D + 16
  const SPR_DMR2 := SPR_D + 17

  function Dvr(hwp: nat): nat { SPR_D + hwp }

  function Dcr(hwp: nat): nat { SPR_D + 8 + hwp }

  /** A packet whose text cannot be parsed, or the digit and the address it names. */
  datatype Packet = Garbled | Request(digit: nat, addr: nat)

  datatype Reply = Ok | Unsupported | E01

  function Recognised(p: Packet): bool
  {
    p.Request? && p.digit < 5
  }

  function Kind(digit: nat): MpType
    requires digit < 5
  {
    match digit
    case 0 => BpMemory
    case 1 => BpHardware
    case 2 => WpWrite
    case 3 => WpRead
    case 4 => WpAccess
  }

  function KeyFor(p: Packet): Key
    requires Recognised(p)
  {
    Key(Kind(p.digit), p.addr)
  }

  /** The table's meaning, target memory by words, the special purpose registers and the pool. */
  datatype State = State(table: map<Key, nat>, mem: Link.Memory, spr: Link.Memory, inUse: seq<bool>)

  /** The memory looks at whole words: a 32-bit access ignores the two low address bits. */
  function Cell(addr: nat): nat
  {
    Link.Cell(addr, 4)
  }

  function WordAt(mem: Link.Memory, a: nat): (w: Word)
  {
    Link.Read(mem, a, 32)
  }

  function Trap(): Word
  {
    NatBits(OR1K_TRAP_INSTR, 32)
  }

  // ---------- Memory breakpoints ----------

  /** An entry that is already there is kept. */
  function Added(table: map<Key, nat>, k: Key, instr: nat): map<Key, nat>
  {
    if k in table then table else table[k := instr]
  }

  function SetBreakpoint(s: State, k: Key): State
  {
    var c := Cell(k.addr);
    s.(table := Added(s.table, k, NatOf(WordAt(s.mem, c))), mem := s.mem[c := Trap()])
  }

  function ClearBreakpoint(s: State, k: Key): State
  {
    if k in s.table then
      s.(table := s.table - {k}, mem := s.mem[Cell(k.addr) := NatBits(s.table[k], 32)])
    else s
  }

  // ---------- Hardware watchpoints ----------

  /** The first free watchpoint at or behind i, or -1. */
  function FirstFree(inUse: seq<bool>, i: nat): (r: int)
    requires i <= |inUse|
    ensures r == -1 || i <= r < |inUse|
    ensures r == -1 <==> forall j :: i <= j < |inUse| ==> inUse[j]
    ensures r >= 0 ==> !inUse[r] && forall j :: i <= j < r ==> inUse[j]
    decreases |inUse| - i
  {
    if i == |inUse| then -1 else if !inUse[i] then i else FirstFree(inUse, i + 1)
  }

  /** (1 << hwp) << 12 */
  function WgbBit(hwp: nat): Word
    requires hwp < HWP_MAX_WP
  {
    Shl(Shl(NatBits(1, 32), hwp), 12)
  }

  /** 3 << (2 * hwp) */
  function ChainBits(hwp: nat): Word
    requires hwp < HWP_MAX_WP
  {
    Shl(NatBits(3, 32), 2 * hwp)
  }

  /** The compare condition of each kind. */
  function DcrCode(kind: MpType): nat
  {
    match kind
    case BpMemory => 0
    case BpHardware => 0x23
    case WpWrite => 0x63
    case WpRead => 0x43
    case WpAccess => 0xC3
  }

  function Arm(spr: Link.Memory, k: Key, hwp: nat): Link.Memory
    requires hwp < HWP_MAX_WP
  {
    var s1 := spr[Dvr(hwp) := NatBits(k.addr, 32)];
    var s2 := s1[Dcr(hwp) := NatBits(DcrCode(k.kind), 32)];
    var s3 := s2[SPR_DMR2 := Or(WordAt(s2, SPR_DMR2), WgbBit(hwp))];
    s3[SPR_DMR1 := And(WordAt(s3, SPR_DMR1), Not(ChainBits(hwp)))]
  }

  function Disarm(spr: Link.Memory, hwp: nat): Link.Memory
    requires hwp < HWP_MAX_WP
  {
    var s1 := spr[SPR_DMR2 := And(WordAt(spr, SPR_DMR2), Not(WgbBit(hwp)))];
    s1[Dcr(hwp) := NatBits(1, 32)]
  }

  ghost predicate Sized(s: State)
  {
    |s.inUse| == HWP_MAX_WP
    && forall k :: k in s.table && k.kind != BpMemory ==> s.table[k] < HWP_MAX_WP
  }

  function SetWatchpoint(s: State, k: Key): (State, Reply)
    requires Sized(s)
  {
    var hwp := FirstFree(s.inUse, 0);
    if hwp == -1 then (s, Unsupported)
    else (s.(table := Added(s.table, k, hwp), spr := Arm(s.spr, k, hwp), inUse := s.inUse[hwp := true]), Ok)
  }

  function ClearWatchpoint(s: State, k: Key): State
    requires Sized(s) && k.kind != BpMemory
  {
    if k in s.table then
      var hwp := s.table[k];
      s.(table := s.table - {k}, spr := Disarm(s.spr, hwp), inUse := s.inUse[hwp := false])
    else s
  }

  // ---------- Packets and runs ----------

  function Insert(s: State, p: Packet): (r: (State, Reply))
    requires Sized(s)
  {
    if !Recognised(p) then (s, E01)
    else if p.digit == 0 then (SetBreakpoint(s, KeyFor(p)), Ok)
    else SetWatchpoint(s, KeyFor(p))
  }

  function Remove(s: State, p: Packet): (r: (State, Reply))
    requires Sized(s)
  {
    if !Recognised(p) then (s, E01)
    else if p.digit == 0 then (ClearBreakpoint(s, KeyFor(p)), Ok)
    else (ClearWatchpoint(s, KeyFor(p)), Ok)
  }

  datatype Op = Z(p: Packet) | Clear(p: Packet)

  function Step(s: State, op: Op): (r: State)
    requires Sized(s)
    ensures Sized(r)
  {
    match op
    case Z(p) => Insert(s, p).0
    case Clear(p) => Remove(s, p).0
  }

  function Run(s: State, ops: seq<Op>): (r: State)
    requires Sized(s)
    ensures Sized(r)
    decreases ops
  {
    if ops == [] then s else Run(Step(s, ops[0]), ops[1..])
  }

  // ---------- The overlay of memory breakpoints ----------

  ghost predicate Live(s: State, a: nat)
  {
    Key(BpMemory, a) in s.table
  }

  /** Some breakpoint lies in the word at c. */
  ghost predicate Covered(s: State, c: nat)
  {
    exists a :: Live(s, a) && Cell(a) == c
  }

  ghost predicate CellOverlaid(s: State, orig: Link.Memory, c: nat)
  {
    WordAt(s.mem, c) == if Covered(s, c) then Trap() else WordAt(orig, c)
  }

  ghost predicate EntryOriginal(s: State, orig: Link.Memory, a: nat)
  {
    Live(s, a) ==> s.table[Key(BpMemory, a)] == NatOf(WordAt(orig, Cell(a)))
  }

  /** Memory is orig with traps at the breakpoints, and every entry keeps the original word. */
  ghost predicate Overlay(s: State, orig: Link.Memory)
  {
    (forall c :: CellOverlaid(s, orig, c)) && (forall a :: EntryOriginal(s, orig, a))
  }

  /** Breakpoint a would be the second one in a word that is not a trap by itself. */
  ghost predicate Crowded(s: State, orig: Link.Memory, a: nat)
  {
    WordAt(orig, Cell(a)) != Trap() && exists b :: Live(s, b) && b != a && Cell(b) == Cell(a)
  }

  ghost predicate Spread(s: State, orig: Link.Memory)
  {
    forall a :: Live(s, a) ==> !Crowded(s, orig, a)
  }

  /** No insertion puts a second breakpoint into a word. */
  ghost predicate Uncrowded(s: State, ops: seq<Op>, orig: Link.Memory)
    requires Sized(s)
    decreases ops
  {
    ops != [] ==>
      && (ops[0].Z? && ops[0].p.Request? && ops[0].p.digit == 0 ==> !Crowded(s, orig, ops[0].p.addr))
      && Uncrowded(Step(s, ops[0]), ops[1..], orig)
  }

  ghost predicate AlwaysOverlay(s: State, ops: seq<Op>, orig: Link.Memory)
    requires Sized(s)
    decreases ops
  {
    Overlay(s, orig) && (ops != [] ==> AlwaysOverlay(Step(s, ops[0]), ops[1..], orig))
  }

  lemma {:induction false} WordRoundTrip(w: Word)
    ensures NatBits(NatOf(w), 32) == w
  {
    BitsOfNat(w);
  }

  ghost predicate SameEntry(s: State, t: State, a: nat)
  {
    && (Live(s, a) <==> Live(t, a))
    && (Live(s, a) ==> t.table[Key(BpMemory, a)] == s.table[Key(BpMemory, a)])
  }

  /** The memory side only sees memory breakpoints. */
  lemma {:induction false} OverlayFrame(s: State, t: State, orig: Link.Memory)
    requires Overlay(s, orig) && Spread(s, orig)
    requires t.mem == s.mem
    requires forall a :: SameEntry(s, t, a)
    ensures Overlay(t, orig) && Spread(t, orig)
  {
    assert forall a :: SameEntry(s, t, a) ==> (Live(s, a) <==> Live(t, a));
    forall c
      ensures CellOverlaid(t, orig, c)
    {
      assert CellOverlaid(s, orig, c);
      assert Covered(s, c) <==> Covered(t, c);
    }
    forall a
      ensures EntryOriginal(t, orig, a)
    {
      assert EntryOriginal(s, orig, a) && SameEntry(s, t, a);
    }
    forall a | Live(t, a)
      ensures !Crowded(t, orig, a)
    {
      assert !Crowded(s, orig, a);
    }
  }

  lemma {:induction false} SetCells(s: State, a: nat, orig: Link.Memory)
    requires Overlay(s, orig)
    ensures forall c :: CellOverlaid(SetBreakpoint(s, Key(BpMemory, a)), orig, c)
  {
    var t := SetBreakpoint(s, Key(BpMemory, a));
    forall c
      ensures CellOverlaid(t, orig, c)
    {
      assert CellOverlaid(s, orig, c);
      if c == Cell(a) {
        assert Live(t, a);
      } else {
        assert forall b :: Live(t, b) <==> Live(s, b) || b == a;
        assert Covered(s, c) <==> Covered(t, c);
      }
    }
  }

  lemma {:induction false} SetEntries(s: State, a: nat, orig: Link.Memory)
    requires Overlay(s, orig) && !Crowded(s, orig, a)
    ensures forall b :: EntryOriginal(SetBreakpoint(s, Key(BpMemory, a)), orig, b)
  {
    var t := SetBreakpoint(s, Key(BpMemory, a));
    forall b
      ensures EntryOriginal(t, orig, b)
    {
      assert EntryOriginal(s, orig, b);
      if b == a && !Live(s, a) {
        FirstRecordsOriginal(s, a, orig);
        assert t.table[Key(BpMemory, a)] == NatOf(WordAt(s.mem, Cell(a)));
      }
    }
  }

  lemma {:induction false} FirstRecordsOriginal(s: State, a: nat, orig: Link.Memory)
    requires Overlay(s, orig) && !Crowded(s, orig, a) && !Live(s, a)
    ensures WordAt(s.mem, Cell(a)) == WordAt(orig, Cell(a))
  {
    assert CellOverlaid(s, orig, Cell(a));
    if b :| Live(s, b) && Cell(b) == Cell(a) {
      assert WordAt(orig, Cell(a)) == Trap();
    }
  }

  lemma {:induction false} SetSpreads(s: State, a: nat, orig: Link.Memory)
    requires Spread(s, orig) && !Crowded(s, orig, a)
    ensures Spread(SetBreakpoint(s, Key(BpMemory, a)), orig)
  {
    var t := SetBreakpoint(s, Key(BpMemory, a));
    assert forall b :: Live(t, b) <==> Live(s, b) || b == a;
    assert forall b :: Live(s, b) ==> !Crowded(s, orig, b);
  }

  lemma {:induction false} ClearKeepsOverlay(s: State, a: nat, orig: Link.Memory)
    requires Overlay(s, orig) && Spread(s, orig)
    ensures Overlay(ClearBreakpoint(s, Key(BpMemory, a)), orig)
    ensures Spread(ClearBreakpoint(s, Key(BpMemory, a)), orig)
  {
    var k, c, t := Key(BpMemory, a), Cell(a), ClearBreakpoint(s, Key(BpMemory, a));
    if Live(s, a) {
      assert forall b :: Live(t, b) <==> Live(s, b) && b != a;
      WordRoundTrip(WordAt(orig, c));
      assert EntryOriginal(s, orig, a);
      assert WordAt(t.mem, c) == WordAt(orig, c);
      forall d
        ensures CellOverlaid(t, orig, d)
      {
        assert CellOverlaid(s, orig, d);
        if d == c {
          if b :| Live(t, b) && Cell(b) == c {
            assert Live(s, b) && b != a;
            assert !Crowded(s, orig, a);
          }
        } else {
          assert Covered(s, d) <==> Covered(t, d);
        }
      }
      forall b
        ensures EntryOriginal(t, orig, b)
      {
        assert EntryOriginal(s, orig, b);
      }
      forall b | Live(t, b)
        ensures !Crowded(t, orig, b)
      {
        assert !Crowded(s, orig, b);
      }
    }
  }

  /** A second breakpoint in a word records the trap of the first as the original. */
  lemma {:induction false} CrowdingBreaks(s: State, a: nat, orig: Link.Memory)
    requires Overlay(s, orig) && Spread(s, orig) && Crowded(s, orig, a)
    ensures !EntryOriginal(SetBreakpoint(s, Key(BpMemory, a)), orig, a)
  {
    assert !Live(s, a);
    assert CellOverlaid(s, orig, Cell(a));
    assert Covered(s, Cell(a));
    WordRoundTrip(Trap());
    WordRoundTrip(WordAt(orig, Cell(a)));
  }

  lemma {:induction false} WatchpointsApart(s: State, k: Key)
    requires Sized(s) && k.kind != BpMemory
    ensures SetWatchpoint(s, k).0.mem == s.mem && ClearWatchpoint(s, k).mem == s.mem
    ensures forall a :: SameEntry(s, SetWatchpoint(s, k).0, a)
    ensures forall a :: SameEntry(s, ClearWatchpoint(s, k), a)
  {
    forall a
      ensures SameEntry(s, SetWatchpoint(s, k).0, a) && SameEntry(s, ClearWatchpoint(s, k), a)
    {
      assert Key(BpMemory, a) != k;
    }
  }

  lemma {:induction false} OtherPackets(s: State, op: Op)
    requires Sized(s) && !(Recognised(op.p) && op.p.digit == 0)
    ensures Step(s, op).mem == s.mem
    ensures forall a :: SameEntry(s, Step(s, op), a)
  {
    if Recognised(op.p) {
      WatchpointsApart(s, KeyFor(op.p));
    }
  }

  lemma {:induction false} StepKeepsOverlay(s: State, op: Op, orig: Link.Memory)
    requires Sized(s) && Overlay(s, orig) && Spread(s, orig)
    requires op.Z? && op.p.Request? && op.p.digit == 0 ==> !Crowded(s, orig, op.p.addr)
    ensures Overlay(Step(s, op), orig) && Spread(Step(s, op), orig)
  {
    if Recognised(op.p) && op.p.digit == 0 {
      if op.Z? {
        SetCells(s, op.p.addr, orig);
        SetEntries(s, op.p.addr, orig);
        SetSpreads(s, op.p.addr, orig);
      } else {
        ClearKeepsOverlay(s, op.p.addr, orig);
      }
    } else {
      OtherPackets(s, op);
      OverlayFrame(s, Step(s, op), orig);
    }
  }

  /**
   Over every run of packets, duplicates and watchpoints included: memory is the original overlaid
   with traps after every packet exactly when no packet puts a second breakpoint into a word.
   */
  lemma {:induction false} OverlayExact(s: State, ops: seq<Op>, orig: Link.Memory)
    requires Sized(s) && Overlay(s, orig) && Spread(s, orig)
    ensures AlwaysOverlay(s, ops, orig) <==> Uncrowded(s, ops, orig)
    decreases ops
  {
    if ops != [] {
      var op := ops[0];
      if op.Z? && op.p.Request? && op.p.digit == 0 && Crowded(s, orig, op.p.addr) {
        CrowdingBreaks(s, op.p.addr, orig);
        assert !Overlay(Step(s, op), orig);
      } else {
        StepKeepsOverlay(s, op, orig);
        OverlayExact(Step(s, op), ops[1..], orig);
      }
    }
  }

  // ---------- Restoring memory ----------

  ghost predicate SameMemory(m: Link.Memory, n: Link.Memory)
  {
    forall c: nat :: c % 4 == 0 ==> WordAt(m, c) == WordAt(n, c)
  }

  lemma {:induction false} NoneLiveRestored(s: State, orig: Link.Memory)
    requires Overlay(s, orig) && forall a :: !Live(s, a)
    ensures SameMemory(s.mem, orig)
  {
    forall c: nat
      ensures WordAt(s.mem, c) == WordAt(orig, c)
    {
      assert CellOverlaid(s, orig, c);
    }
  }

  lemma {:induction false} RunKeepsOverlay(s: State, ops: seq<Op>, orig: Link.Memory)
    requires Sized(s) && Overlay(s, orig) && Spread(s, orig) && Uncrowded(s, ops, orig)
    ensures Overlay(Run(s, ops), orig) && Spread(Run(s, ops), orig)
    decreases ops
  {
    if ops != [] {
      StepKeepsOverlay(s, ops[0], orig);
      RunKeepsOverlay(Step(s, ops[0]), ops[1..], orig);
    }
  }

  /** A z0 packet for every address of the list. */
  function ClearAll(addrs: seq<nat>): seq<Op>
  {
    seq(|addrs|, i requires 0 <= i < |addrs| => Clear(Request(0, addrs[i])))
  }

  lemma {:induction false} ClearAllLeaves(s: State, addrs: seq<nat>, orig: Link.Memory)
    requires Sized(s) && Overlay(s, orig) && Spread(s, orig)
    ensures Overlay(Run(s, ClearAll(addrs)), orig)
    ensures forall a :: Live(Run(s, ClearAll(addrs)), a) <==> Live(s, a) && a !in addrs
    decreases addrs
  {
    if addrs != [] {
      var op := ClearAll(addrs)[0];
      StepKeepsOverlay(s, op, orig);
      assert ClearAll(addrs)[1..] == ClearAll(addrs[1..]);
      assert forall a :: Live(Step(s, op), a) <==> Live(s, a) && a != addrs[0];
      ClearAllLeaves(Step(s, op), addrs[1..], orig);
    }
  }

  /** After any uncrowded run from a clean start, removing every breakpoint restores memory. */
  lemma {:induction false} RemovingAllRestores(s: State, ops: seq<Op>, addrs: seq<nat>)
    requires Sized(s) && s.table == map[] && Uncrowded(s, ops, s.mem)
    requires forall a :: Live(Run(s, ops), a) ==> a in addrs
    ensures SameMemory(Run(Run(s, ops), ClearAll(addrs)).mem, s.mem)
  {
    CleanStart(s);
    RunKeepsOverlay(s, ops, s.mem);
    ClearAllLeaves(Run(s, ops), addrs, s.mem);
    NoneLiveRestored(Run(Run(s, ops), ClearAll(addrs)), s.mem);
  }

  lemma {:induction false} CleanStart(s: State)
    requires s.table == map[]
    ensures Overlay(s, s.mem) && Spread(s, s.mem)
  {
    assert forall c :: CellOverlaid(s, s.mem, c);
    assert forall a :: EntryOriginal(s, s.mem, a);
  }

  ghost predicate Aligned(ops: seq<Op>)
  {
    forall i :: 0 <= i < |ops| && ops[i].Z? && ops[i].p.Request? && ops[i].p.digit == 0 ==>
      ops[i].p.addr % 4 == 0
  }

  /** Word-aligned breakpoints, however often repeated, never crowd a word. */
  lemma {:induction false} AlignedUncrowded(s: State, ops: seq<Op>, orig: Link.Memory)
    requires Sized(s) && Aligned(ops) && forall a :: Live(s, a) ==> a % 4 == 0
    ensures Uncrowded(s, ops, orig)
    decreases ops
  {
    if ops != [] {
      var op := ops[0];
      forall a | Live(Step(s, op), a)
        ensures a % 4 == 0
      {
        AlignedStep(s, op, a);
      }
      AlignedUncrowded(Step(s, op), ops[1..], orig);
    }
  }

  lemma {:induction false} AlignedStep(s: State, op: Op, a: nat)
    requires Sized(s) && Live(Step(s, op), a)
    ensures Live(s, a) || (op.Z? && op.p == Request(0, a))
  {
    if !(Recognised(op.p) && op.p.digit == 0) {
      OtherPackets(s, op);
      assert SameEntry(s, Step(s, op), a);
    }
  }

  /** Two breakpoints in one word, removed again in the order they were set, leave a trap behind. */
  lemma {:induction false} CrowdedWordStaysPatched(s: State, a: nat, b: nat)
    requires s.table == map[] && a != b && Cell(a) == Cell(b)
    ensures var both := SetBreakpoint(SetBreakpoint(s, Key(BpMemory, a)), Key(BpMemory, b));
      var cleared := ClearBreakpoint(ClearBreakpoint(both, Key(BpMemory, a)), Key(BpMemory, b));
      cleared.table == map[] && WordAt(cleared.mem, Cell(a)) == Trap()
  {
    SecondRecordsTrap(s, a, b);
    LastPutsBack(SetBreakpoint(SetBreakpoint(s, Key(BpMemory, a)), Key(BpMemory, b)), a, b, Trap());
  }

  lemma {:induction false} SecondRecordsTrap(s: State, a: nat, b: nat)
    requires s.table == map[] && a != b && Cell(a) == Cell(b)
    ensures var t := SetBreakpoint(SetBreakpoint(s, Key(BpMemory, a)), Key(BpMemory, b));
      && t.table.Keys == {Key(BpMemory, a), Key(BpMemory, b)}
      && t.table[Key(BpMemory, b)] == NatOf(Trap())
  {
    var s1 := SetBreakpoint(s, Key(BpMemory, a));
    assert s1.table.Keys == {Key(BpMemory, a)};
    assert s1.mem == s.mem[Cell(a) := Trap()];
    assert WordAt(s1.mem, Cell(b)) == Trap();
  }

  lemma {:induction false} LastPutsBack(t: State, a: nat, b: nat, w: Word)
    requires a != b && Cell(a) == Cell(b) && t.table.Keys == {Key(BpMemory, a), Key(BpMemory, b)}
    requires t.table[Key(BpMemory, b)] == NatOf(w)
    ensures var cleared := ClearBreakpoint(ClearBreakpoint(t, Key(BpMemory, a)), Key(BpMemory, b));
      cleared.table == map[] && WordAt(cleared.mem, Cell(a)) == w
  {
    var t1 := ClearBreakpoint(t, Key(BpMemory, a));
    assert t1.table == t.table - {Key(BpMemory, a)};
    var t2 := ClearBreakpoint(t1, Key(BpMemory, b));
    assert t2.table == t1.table - {Key(BpMemory, b)};
    assert t2.table.Keys == {};
    WordRoundTrip(w);
  }
}
