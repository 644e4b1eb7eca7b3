/**
 Ownership of the eight hardware watchpoints over every run of Z and z packets.
 */
module Watchpoints {
  import opened Bits
  import opened MatchTable
  import opened Matchpoints
  import Link = WishboneLink

  // ---------- Registers ----------

  lemma {:induction false} OneBit(n: nat, i: nat)
    requires i < n
    ensures NatBits(1, n)[i] <==> i == 0
  {
    if i > 0 {
      HighBitsZero(1, 1, n, i);
    }
  }

  lemma {:induction false} TwoBits(n: nat, i: nat)
    requires i < n
    ensures NatBits(3, n)[i] <==> i < 2
  {
    if i > 0 {
      assert NatBits(3, n)[i] == NatBits(1, n - 1)[i - 1];
      OneBit(n - 1, i - 1);
    }
  }

  lemma {:induction false} WgbBitAt(hwp: nat, j: nat)
    requires hwp < HWP_MAX_WP && j < 32
    ensures WgbBit(hwp)[j] <==> j == 12 + hwp
  {
    if 12 + hwp <= j {
      OneBit(32, j - 12 - hwp);
    }
  }

  lemma {:induction false} ChainBitsAt(hwp: nat, j: nat)
    requires hwp < HWP_MAX_WP && j < 32
    ensures ChainBits(hwp)[j] <==> 2 * hwp <= j < 2 * hwp + 2
  {
    if 2 * hwp <= j {
      TwoBits(32, j - 2 * hwp);
    }
  }

  /** Is watchpoint i enabled to stop the processor? */
  function Enabled(spr: Link.Memory, i: nat): bool
    requires i < HWP_MAX_WP
  {
    WordAt(spr, SPR_DMR2)[12 + i]
  }

  // ---------- What the processor makes of a compare register ----------

  datatype Access = Fetch | Load | Store

  /** Does a watchpoint with this control register look at such accesses? Its compare-to field is bits 5 to 7. */
  predicate Looks(dcr: nat, a: Access)
  {
    var compareTo := dcr / 0x20 % 8;
    match a
    case Fetch => compareTo == 1
    case Load => compareTo == 2 || compareTo == 6
    case Store => compareTo == 3 || compareTo == 6
  }

  /** The pair is present (bit 0), and hits when the values are equal (bits 1 to 3), unsigned (bit 4). */
  predicate WhenEqual(dcr: nat)
  {
    dcr % 2 == 1 && dcr / 2 % 8 == 1 && dcr / 0x10 % 2 == 0
  }

  function Control(spr: Link.Memory, i: nat): nat
  {
    NatOf(WordAt(spr, Dcr(i)))
  }

  /** The accesses that each kind of matchpoint is about. */
  predicate Asked(kind: MpType, a: Access)
  {
    match kind
    case BpMemory => false
    case BpHardware => a == Fetch
    case WpWrite => a == Store
    case WpRead => a == Load
    case WpAccess => a == Load || a == Store
  }

  /** Watchpoint i stops the processor at an access a to address addr. */
  predicate Hits(spr: Link.Memory, i: nat, a: Access, addr: nat)
    requires i < HWP_MAX_WP
  {
    && Enabled(spr, i) && !WordAt(spr, SPR_DMR1)[2 * i] && !WordAt(spr, SPR_DMR1)[2 * i + 1]
    && WhenEqual(Control(spr, i)) && Looks(Control(spr, i), a)
    && WordAt(spr, Dvr(i)) == NatBits(addr, 32)
  }

  /** Watchpoint i is enabled, unchained, and compares the accesses that k asks for with its address. */
  predicate Watches(spr: Link.Memory, k: Key, i: nat)
    requires i < HWP_MAX_WP
  {
    && Enabled(spr, i)
    && WordAt(spr, Dvr(i)) == NatBits(k.addr, 32)
    && WhenEqual(Control(spr, i)) && (forall a: Access :: Looks(Control(spr, i), a) <==> Asked(k.kind, a))
    && !WordAt(spr, SPR_DMR1)[2 * i] && !WordAt(spr, SPR_DMR1)[2 * i + 1]
  }

  /** Such a watchpoint stops the processor exactly at those accesses to that address. */
  lemma {:induction false} WatchesHits(spr: Link.Memory, k: Key, i: nat, a: Access, addr: nat)
    requires i < HWP_MAX_WP && Watches(spr, k, i)
    ensures Hits(spr, i, a, addr) <==> Asked(k.kind, a) && NatBits(addr, 32) == NatBits(k.addr, 32)
  {
  }

  /** The code of each kind looks at what the kind is about. */
  lemma {:induction false} CodeMeans(kind: MpType)
    requires kind != BpMemory
    ensures WhenEqual(DcrCode(kind)) && DcrCode(kind) < 256
    ensures forall a: Access :: Looks(DcrCode(kind), a) <==> Asked(kind, a)
  {
  }

  /** A small number written to a register is read back. */
  lemma {:induction false} ByteInWord(v: nat)
    requires v < 256
    ensures NatOf(NatBits(v, 32)) == v
  {
    assert Pow2(8) == 256;
    NatInBits(v, 8, 24);
  }

  /** Bit j of DMR2 is no enable bit of the pool. */
  predicate Foreign(j: int)
  {
    0 <= j < 32 && !(12 <= j < 12 + HWP_MAX_WP)
  }

  lemma {:induction false} ArmDmr2(spr: Link.Memory, k: Key, h: nat, j: nat)
    requires h < HWP_MAX_WP && j < 32
    ensures WordAt(Arm(spr, k, h), SPR_DMR2)[j] == (WordAt(spr, SPR_DMR2)[j] || j == 12 + h)
  {
    WgbBitAt(h, j);
  }

  lemma {:induction false} ArmDmr1(spr: Link.Memory, k: Key, h: nat, j: nat)
    requires h < HWP_MAX_WP && j < 32
    ensures WordAt(Arm(spr, k, h), SPR_DMR1)[j] == (WordAt(spr, SPR_DMR1)[j] && !(2 * h <= j < 2 * h + 2))
  {
    ChainBitsAt(h, j);
  }

  lemma {:induction false} ArmCompare(spr: Link.Memory, k: Key, h: nat, i: nat)
    requires h < HWP_MAX_WP && i < HWP_MAX_WP
    ensures WordAt(Arm(spr, k, h), Dvr(i)) == if i == h then NatBits(k.addr, 32) else WordAt(spr, Dvr(i))
    ensures WordAt(Arm(spr, k, h), Dcr(i)) == if i == h then NatBits(DcrCode(k.kind), 32) else WordAt(spr, Dcr(i))
  {
  }

  lemma {:induction false} DisarmDmr2(spr: Link.Memory, h: nat, j: nat)
    requires h < HWP_MAX_WP && j < 32
    ensures WordAt(Disarm(spr, h), SPR_DMR2)[j] == (WordAt(spr, SPR_DMR2)[j] && j != 12 + h)
  {
    WgbBitAt(h, j);
  }

  lemma {:induction false} DisarmOthers(spr: Link.Memory, h: nat, i: nat)
    requires h < HWP_MAX_WP && i < HWP_MAX_WP && i != h
    ensures WordAt(Disarm(spr, h), Dvr(i)) == WordAt(spr, Dvr(i))
    ensures WordAt(Disarm(spr, h), Dcr(i)) == WordAt(spr, Dcr(i))
    ensures WordAt(Disarm(spr, h), SPR_DMR1) == WordAt(spr, SPR_DMR1)
  {
  }

  lemma {:induction false} ArmControl(spr: Link.Memory, k: Key, h: nat)
    requires h < HWP_MAX_WP && k.kind != BpMemory
    ensures Control(Arm(spr, k, h), h) == DcrCode(k.kind)
  {
    CodeMeans(k.kind);
    ArmCompare(spr, k, h, h);
    ByteInWord(DcrCode(k.kind));
  }

  lemma {:induction false} ArmedItself(spr: Link.Memory, k: Key, h: nat)
    requires h < HWP_MAX_WP && k.kind != BpMemory
    ensures Watches(Arm(spr, k, h), k, h)
  {
    ArmDmr2(spr, k, h, 12 + h);
    ArmDmr1(spr, k, h, 2 * h);
    ArmDmr1(spr, k, h, 2 * h + 1);
    ArmCompare(spr, k, h, h);
    ArmControl(spr, k, h);
    CodeMeans(k.kind);
  }

  /** The same registers watch the same. */
  lemma {:induction false} SameRegisters(spr: Link.Memory, now: Link.Memory, l: Key, i: nat)
    requires i < HWP_MAX_WP && Watches(spr, l, i) && Enabled(now, i)
    requires WordAt(now, Dvr(i)) == WordAt(spr, Dvr(i)) && WordAt(now, Dcr(i)) == WordAt(spr, Dcr(i))
    requires !WordAt(now, SPR_DMR1)[2 * i] && !WordAt(now, SPR_DMR1)[2 * i + 1]
    ensures Watches(now, l, i)
  {
  }

  /** Arming a watchpoint makes it watch and leaves the others as they were. */
  lemma {:induction false} ArmWatches(spr: Link.Memory, k: Key, h: nat, l: Key, i: nat)
    requires h < HWP_MAX_WP && i < HWP_MAX_WP && k.kind != BpMemory
    ensures Watches(Arm(spr, k, h), k, h)
    ensures i != h && Watches(spr, l, i) ==> Watches(Arm(spr, k, h), l, i)
  {
    ArmedItself(spr, k, h);
    ArmDmr2(spr, k, h, 12 + i);
    ArmDmr1(spr, k, h, 2 * i);
    ArmDmr1(spr, k, h, 2 * i + 1);
    ArmCompare(spr, k, h, i);
    if i != h && Watches(spr, l, i) {
      SameRegisters(spr, Arm(spr, k, h), l, i);
    }
  }

  lemma {:induction false} DisarmWatches(spr: Link.Memory, h: nat, l: Key, i: nat)
    requires h < HWP_MAX_WP && i < HWP_MAX_WP && i != h && Watches(spr, l, i)
    ensures Watches(Disarm(spr, h), l, i)
  {
    DisarmDmr2(spr, h, 12 + i);
    DisarmOthers(spr, h, i);
  }

  /** A disarmed watchpoint stops the processor at nothing, and looks at nothing should it be enabled again. */
  lemma {:induction false} DisarmedIsBlind(spr: Link.Memory, h: nat, a: Access, addr: nat)
    requires h < HWP_MAX_WP
    ensures !Hits(Disarm(spr, h), h, a, addr) && !Looks(Control(Disarm(spr, h), h), a)
  {
    DisarmDmr2(spr, h, 12 + h);
    ByteInWord(1);
  }

  // ---------- Packets ----------

  /** What the debugger asks for with each Z packet but the one for memory breakpoints. */
  predicate AskedBy(digit: nat, a: Access)
  {
    match digit
    case 1 => a == Fetch
    case 2 => a == Store
    case 3 => a == Load
    case 4 => a == Load || a == Store
    case _ => false
  }

  /** A Z1 to Z4 packet is refused as unsupported exactly if the pool is exhausted, and then changes nothing. */
  lemma {:induction false} RequestRefused(s: State, p: Packet)
    requires Sized(s) && Recognised(p) && p.digit != 0
    ensures Insert(s, p).1 == (if forall i :: 0 <= i < HWP_MAX_WP ==> s.inUse[i] then Unsupported else Ok)
    ensures Insert(s, p).1 == Unsupported ==> Insert(s, p).0 == s
  {
  }

  lemma {:induction false} GrantEffect(s: State, p: Packet, h: nat)
    requires Sized(s) && Recognised(p) && p.digit != 0 && FirstFree(s.inUse, 0) == h
    ensures Insert(s, p).0.spr == Arm(s.spr, KeyFor(p), h) && Insert(s, p).0.inUse == s.inUse[h := true]
    ensures forall a: Access :: Asked(KeyFor(p).kind, a) <==> AskedBy(p.digit, a)
  {
  }

  /** Otherwise the first free watchpoint stops the processor from now on exactly at the accesses asked for. */
  lemma {:induction false} RequestWatched(s: State, p: Packet, h: nat, a: Access, addr: nat)
    requires Sized(s) && Recognised(p) && p.digit != 0 && FirstFree(s.inUse, 0) == h
    ensures var t := Insert(s, p).0;
      Hits(t.spr, h, a, addr) <==> AskedBy(p.digit, a) && NatBits(addr, 32) == NatBits(p.addr, 32)
  {
    GrantEffect(s, p, h);
    ArmedHits(s.spr, KeyFor(p), h, a, addr);
  }

  lemma {:induction false} ArmedHits(spr: Link.Memory, k: Key, h: nat, a: Access, addr: nat)
    requires h < HWP_MAX_WP && k.kind != BpMemory
    ensures Hits(Arm(spr, k, h), h, a, addr) <==> Asked(k.kind, a) && NatBits(addr, 32) == NatBits(k.addr, 32)
  {
    ArmWatches(spr, k, h, k, h);
    WatchesHits(Arm(spr, k, h), k, h, a, addr);
  }

  /** E01 answers exactly the packets that are not understood, which change nothing; removals are always fine. */
  lemma {:induction false} Replies(s: State, p: Packet)
    requires Sized(s)
    ensures Insert(s, p).1 == E01 <==> p.Garbled? || p.digit > 4
    ensures Remove(s, p).1 == if p.Garbled? || p.digit > 4 then E01 else Ok
    ensures p.Garbled? || p.digit > 4 ==> Insert(s, p).0 == s && Remove(s, p).0 == s
    ensures p.Request? && p.digit == 0 ==> Insert(s, p).1 == Ok
  {
  }

  // ---------- Ownership ----------

  ghost predicate Hw(s: State, k: Key)
  {
    k in s.table && k.kind != BpMemory
  }

  ghost predicate Holds(s: State, i: nat)
  {
    exists k :: Hw(s, k) && s.table[k] == i
  }

  ghost predicate Exclusive(s: State)
  {
    forall j, k :: Hw(s, j) && Hw(s, k) && s.table[j] == s.table[k] ==> j == k
  }

  ghost predicate Programmed(s: State)
    requires Sized(s)
  {
    forall k :: Hw(s, k) ==> Watches(s.spr, k, s.table[k])
  }

  /**
   Watchpoint i was taken before the run, or is held by an entry, or was granted to a duplicate and
   lost, or is free: exactly one of these, and the pool and the enable bit say so.
   */
  ghost predicate Accounted(start: State, s: State, lost: set<nat>, i: nat)
    requires Sized(start) && Sized(s) && i < HWP_MAX_WP
  {
    && (s.inUse[i] <==> start.inUse[i] || Holds(s, i) || i in lost)
    && !(start.inUse[i] && Holds(s, i)) && !(start.inUse[i] && i in lost) && !(Holds(s, i) && i in lost)
    && (start.inUse[i] ==> Enabled(s.spr, i) == Enabled(start.spr, i))
    && (Holds(s, i) || i in lost ==> Enabled(s.spr, i))
    && (!s.inUse[i] && Enabled(s.spr, i) ==> Enabled(start.spr, i))
  }

  ghost predicate Inv(start: State, s: State, lost: set<nat>)
    requires Sized(start)
  {
    && Sized(s) && Exclusive(s) && Programmed(s)
    && (forall i | 0 <= i < HWP_MAX_WP :: Accounted(start, s, lost, i))
    && (forall j | Foreign(j) :: WordAt(s.spr, SPR_DMR2)[j] == WordAt(start.spr, SPR_DMR2)[j])
  }

  /** op inserts a watchpoint that is already there, and the pool grants another one for it. */
  predicate DuplicateGrant(s: State, op: Op)
  {
    && op.Z? && Recognised(op.p) && op.p.digit != 0
    && KeyFor(op.p) in s.table && FirstFree(s.inUse, 0) >= 0
  }

  /** The watchpoint that op loses. */
  function Lost(s: State, op: Op): set<nat>
  {
    if DuplicateGrant(s, op) then {FirstFree(s.inUse, 0) as nat} else {}
  }

  function AllLost(s: State, ops: seq<Op>): set<nat>
    requires Sized(s)
    decreases ops
  {
    if ops == [] then {} else Lost(s, ops[0]) + AllLost(Step(s, ops[0]), ops[1..])
  }

  ghost predicate NoDuplicateGrant(s: State, ops: seq<Op>)
    requires Sized(s)
    decreases ops
  {
    ops != [] ==> !DuplicateGrant(s, ops[0]) && NoDuplicateGrant(Step(s, ops[0]), ops[1..])
  }

  lemma {:induction false} GrantAccounted(start: State, s: State, lost: set<nat>, k: Key, h: nat, i: nat)
    requires Sized(start) && Sized(s) && k.kind != BpMemory && FirstFree(s.inUse, 0) == h
    requires i < HWP_MAX_WP && Accounted(start, s, lost, i)
    ensures Accounted(start, SetWatchpoint(s, k).0, lost + if k in s.table then {h} else {}, i)
  {
    GrantHolds(s, k, h, i);
    ArmDmr2(s.spr, k, h, 12 + i);
    var t := SetWatchpoint(s, k).0;
    assert t.spr == Arm(s.spr, k, h) && t.inUse == s.inUse[h := true];
  }

  lemma {:induction false} GrantKeeps(start: State, s: State, lost: set<nat>, k: Key, h: nat, lost': set<nat>)
    requires Sized(start) && Inv(start, s, lost) && k.kind != BpMemory && FirstFree(s.inUse, 0) == h
    requires lost' == lost + if k in s.table then {h} else {}
    ensures Inv(start, SetWatchpoint(s, k).0, lost')
  {
    assert !Holds(s, h) by {
      assert Accounted(start, s, lost, h);
    }
    GrantExclusive(s, k, h);
    GrantProgrammed(s, k, h);
    GrantAllAccounted(start, s, lost, k, h, lost');
    GrantForeign(start, s, k, h);
  }

  lemma {:induction false} GrantAllAccounted(start: State, s: State, lost: set<nat>, k: Key, h: nat, lost': set<nat>)
    requires Sized(start) && Sized(s) && k.kind != BpMemory && FirstFree(s.inUse, 0) == h
    requires forall i | 0 <= i < HWP_MAX_WP :: Accounted(start, s, lost, i)
    requires lost' == lost + if k in s.table then {h} else {}
    ensures forall i | 0 <= i < HWP_MAX_WP :: Accounted(start, SetWatchpoint(s, k).0, lost', i)
  {
    forall i | 0 <= i < HWP_MAX_WP
      ensures Accounted(start, SetWatchpoint(s, k).0, lost', i)
    {
      GrantAccounted(start, s, lost, k, h, i);
    }
  }

  lemma {:induction false} GrantForeign(start: State, s: State, k: Key, h: nat)
    requires Sized(s) && FirstFree(s.inUse, 0) == h
    requires forall j | Foreign(j) :: WordAt(s.spr, SPR_DMR2)[j] == WordAt(start.spr, SPR_DMR2)[j]
    ensures forall j | Foreign(j) :: WordAt(SetWatchpoint(s, k).0.spr, SPR_DMR2)[j] == WordAt(start.spr, SPR_DMR2)[j]
  {
    forall j | Foreign(j)
      ensures WordAt(SetWatchpoint(s, k).0.spr, SPR_DMR2)[j] == WordAt(start.spr, SPR_DMR2)[j]
    {
      ArmDmr2(s.spr, k, h, j);
    }
  }

  lemma {:induction false} GrantHolds(s: State, k: Key, h: nat, i: nat)
    requires Sized(s) && k.kind != BpMemory && FirstFree(s.inUse, 0) == h
    ensures Holds(SetWatchpoint(s, k).0, i) <==> Holds(s, i) || (i == h && k !in s.table)
  {
    var t := SetWatchpoint(s, k).0;
    assert t.table == Added(s.table, k, h);
    if Holds(s, i) {
      var l :| Hw(s, l) && s.table[l] == i;
      assert Hw(t, l) && t.table[l] == i;
    }
    if i == h && k !in s.table {
      assert Hw(t, k) && t.table[k] == i;
    }
    if Holds(t, i) {
      var l :| Hw(t, l) && t.table[l] == i;
      assert l != k ==> Hw(s, l) && s.table[l] == i;
    }
  }

  lemma {:induction false} GrantExclusive(s: State, k: Key, h: nat)
    requires Sized(s) && Exclusive(s) && k.kind != BpMemory && FirstFree(s.inUse, 0) == h && !Holds(s, h)
    ensures Exclusive(SetWatchpoint(s, k).0)
  {
    var t := SetWatchpoint(s, k).0;
    assert t.table == Added(s.table, k, h);
    forall l, m | Hw(t, l) && Hw(t, m) && t.table[l] == t.table[m]
      ensures l == m
    {
      assert l != k ==> Hw(s, l);
      assert m != k ==> Hw(s, m);
    }
  }

  lemma {:induction false} GrantProgrammed(s: State, k: Key, h: nat)
    requires Sized(s) && Programmed(s) && k.kind != BpMemory && FirstFree(s.inUse, 0) == h && !Holds(s, h)
    ensures Programmed(SetWatchpoint(s, k).0)
  {
    forall l | Hw(SetWatchpoint(s, k).0, l)
      ensures Watches(SetWatchpoint(s, k).0.spr, l, SetWatchpoint(s, k).0.table[l])
    {
      GrantWatches(s, k, h, l, Added(s.table, k, h)[l]);
    }
  }

  lemma {:induction false} GrantWatches(s: State, k: Key, h: nat, l: Key, i: nat)
    requires Sized(s) && Programmed(s) && k.kind != BpMemory && h < HWP_MAX_WP && !Holds(s, h)
    requires l in Added(s.table, k, h) && l.kind != BpMemory && Added(s.table, k, h)[l] == i
    ensures i < HWP_MAX_WP && Watches(Arm(s.spr, k, h), l, i)
  {
    if l in s.table {
      assert Hw(s, l) && i == s.table[l] && i != h;
      assert Watches(s.spr, l, s.table[l]);
    }
    ArmWatches(s.spr, k, h, l, i);
  }

  lemma {:induction false} ReleaseHolds(s: State, k: Key, i: nat)
    requires Sized(s) && Exclusive(s) && Hw(s, k)
    ensures Holds(ClearWatchpoint(s, k), i) <==> Holds(s, i) && i != s.table[k]
  {
    var t := ClearWatchpoint(s, k);
    assert t.table == s.table - {k};
    if l :| Hw(t, l) && t.table[l] == i {
      assert Hw(s, l) && l != k;
    }
    if l :| Hw(s, l) && s.table[l] == i && i != s.table[k] {
      assert Hw(t, l);
    }
  }

  lemma {:induction false} ReleaseProgrammed(s: State, k: Key)
    requires Sized(s) && Exclusive(s) && Programmed(s) && Hw(s, k)
    ensures Exclusive(ClearWatchpoint(s, k)) && Programmed(ClearWatchpoint(s, k))
  {
    var t := ClearWatchpoint(s, k);
    assert t.table == s.table - {k} && t.spr == Disarm(s.spr, s.table[k]);
    assert forall l :: Hw(t, l) ==> Hw(s, l) && l != k;
    forall l | Hw(t, l)
      ensures Watches(t.spr, l, t.table[l])
    {
      DisarmWatches(s.spr, s.table[k], l, s.table[l]);
    }
  }

  lemma {:induction false} ReleaseKeeps(start: State, s: State, lost: set<nat>, k: Key)
    requires Sized(start) && Inv(start, s, lost) && Hw(s, k)
    ensures Inv(start, ClearWatchpoint(s, k), lost)
  {
    var h, t := s.table[k], ClearWatchpoint(s, k);
    ReleaseProgrammed(s, k);
    assert Holds(s, h);
    assert Accounted(start, s, lost, h);
    forall i | 0 <= i < HWP_MAX_WP
      ensures Accounted(start, t, lost, i)
    {
      assert Accounted(start, s, lost, i);
      ReleaseHolds(s, k, i);
      DisarmDmr2(s.spr, h, 12 + i);
    }
    forall j | Foreign(j)
      ensures WordAt(t.spr, SPR_DMR2)[j] == WordAt(start.spr, SPR_DMR2)[j]
    {
      DisarmDmr2(s.spr, h, j);
    }
  }

  /** Memory breakpoints do not concern the pool. */
  lemma {:induction false} BreakpointKeeps(start: State, s: State, t: State, lost: set<nat>)
    requires Sized(start) && Inv(start, s, lost)
    requires t.spr == s.spr && t.inUse == s.inUse
    requires forall k :: Hw(s, k) <==> Hw(t, k)
    requires forall k :: Hw(s, k) && Hw(t, k) ==> t.table[k] == s.table[k]
    ensures Inv(start, t, lost)
  {
    forall i | 0 <= i < HWP_MAX_WP
      ensures Accounted(start, t, lost, i)
    {
      assert Accounted(start, s, lost, i);
      assert Holds(s, i) <==> Holds(t, i);
    }
  }

  lemma {:induction false} BreakpointsApart(s: State, k: Key)
    requires k.kind == BpMemory
    ensures forall l :: Hw(SetBreakpoint(s, k), l) <==> Hw(s, l)
    ensures forall l :: Hw(ClearBreakpoint(s, k), l) <==> Hw(s, l)
    ensures forall l :: Hw(s, l) ==> SetBreakpoint(s, k).table[l] == s.table[l]
    ensures forall l :: Hw(s, l) ==> ClearBreakpoint(s, k).table[l] == s.table[l]
  {
  }

  lemma {:induction false} StepKeeps(start: State, s: State, lost: set<nat>, op: Op)
    requires Sized(start) && Inv(start, s, lost)
    ensures Inv(start, Step(s, op), lost + Lost(s, op))
  {
    assert lost + {} == lost;
    if Recognised(op.p) {
      var k := KeyFor(op.p);
      if op.p.digit == 0 {
        BreakpointsApart(s, k);
        BreakpointKeeps(start, s, Step(s, op), lost);
      } else if op.Z? && FirstFree(s.inUse, 0) >= 0 {
        GrantKeeps(start, s, lost, k, FirstFree(s.inUse, 0), lost + Lost(s, op));
      } else if op.Clear? && k in s.table {
        ReleaseKeeps(start, s, lost, k);
      }
    }
  }

  lemma {:induction false} RunKeeps(start: State, s: State, lost: set<nat>, ops: seq<Op>)
    requires Sized(start) && Inv(start, s, lost)
    ensures Inv(start, Run(s, ops), lost + AllLost(s, ops))
    decreases ops
  {
    if ops == [] {
      assert lost + {} == lost;
    } else {
      StepKeeps(start, s, lost, ops[0]);
      RunKeeps(start, Step(s, ops[0]), lost + Lost(s, ops[0]), ops[1..]);
      assert lost + Lost(s, ops[0]) + AllLost(Step(s, ops[0]), ops[1..]) == lost + AllLost(s, ops);
    }
  }

  ghost predicate NoneHeld(s: State)
  {
    forall k :: !Hw(s, k)
  }

  lemma {:induction false} StartHolds(start: State)
    requires Sized(start) && NoneHeld(start)
    ensures Inv(start, start, {})
  {
  }

  /**
   Over every run of packets: two live entries never share a watchpoint, each one's watchpoint is
   in use and programmed for it, and nothing outside the pool changes.
   */
  lemma {:induction false} OwnershipSafe(start: State, ops: seq<Op>)
    requires Sized(start) && NoneHeld(start)
    ensures var s := Run(start, ops); Exclusive(s) && Programmed(s)
    ensures var s := Run(start, ops); forall k :: Hw(s, k) ==> s.inUse[s.table[k]] && !start.inUse[s.table[k]]
    ensures var s := Run(start, ops);
      forall j | Foreign(j) :: WordAt(s.spr, SPR_DMR2)[j] == WordAt(start.spr, SPR_DMR2)[j]
  {
    StartHolds(start);
    RunKeeps(start, start, {}, ops);
    var s := Run(start, ops);
    forall k | Hw(s, k)
      ensures s.inUse[s.table[k]] && !start.inUse[s.table[k]]
    {
      assert Holds(s, s.table[k]);
      assert Accounted(start, s, {} + AllLost(start, ops), s.table[k]);
    }
  }

  lemma {:induction false} NothingLost(s: State, ops: seq<Op>)
    requires Sized(s)
    ensures AllLost(s, ops) == {} <==> NoDuplicateGrant(s, ops)
    decreases ops
  {
    if ops != [] {
      NothingLost(Step(s, ops[0]), ops[1..]);
      if DuplicateGrant(s, ops[0]) {
        assert FirstFree(s.inUse, 0) in AllLost(s, ops);
      }
    }
  }

  /**
   Once a run has removed all its entries, the pool is what it was before exactly when no duplicate
   insertion was granted a watchpoint; then no enable bit is set that was not set before.
   */
  lemma {:induction false} PoolRestored(start: State, ops: seq<Op>)
    requires Sized(start) && NoneHeld(start) && NoneHeld(Run(start, ops))
    ensures Run(start, ops).inUse == start.inUse <==> NoDuplicateGrant(start, ops)
    ensures NoDuplicateGrant(start, ops) ==>
      forall i | 0 <= i < HWP_MAX_WP :: Enabled(Run(start, ops).spr, i) ==> Enabled(start.spr, i)
  {
    StartHolds(start);
    RunKeeps(start, start, {}, ops);
    NothingLost(start, ops);
    var s, lost := Run(start, ops), AllLost(start, ops);
    assert {} + lost == lost;
    if lost == {} {
      forall i | 0 <= i < HWP_MAX_WP
        ensures s.inUse[i] == start.inUse[i] && (Enabled(s.spr, i) ==> Enabled(start.spr, i))
      {
        assert Accounted(start, s, lost, i) && !Holds(s, i);
      }
    } else {
      LostInRange(start, ops);
      var i :| i in lost;
      assert Accounted(start, s, lost, i);
    }
  }

  lemma {:induction false} LostInRange(s: State, ops: seq<Op>)
    requires Sized(s)
    ensures forall i :: i in AllLost(s, ops) ==> i < HWP_MAX_WP
    decreases ops
  {
    if ops != [] {
      LostInRange(Step(s, ops[0]), ops[1..]);
    }
  }
}
