/**
 The debug unit's selectors, the operations as they would be without any cache, and the cached
 operations of the bridge proved equal to them.
 */
module DebugUnit {
  import opened Bits

  const DBG_MAX_MODULES := 4
  const DC_JSP := 3
  const OPCODE_LEN := 4
  const REG_SEL_LEN := 1
  const CMD_IREG_WR := 0x9
  const CMD_IREG_SEL := 0xd

  /**
   What is selected, which register each module has selected, and what the registers hold. The
   unit listens to DR scans only while its instruction is loaded.
   */
  datatype Unit = Unit(listening: bool, selected: nat, sel: seq<nat>, regs: seq<seq<seq<bool>>>)

  ghost predicate Shape(u: Unit)
  {
    && u.selected < DBG_MAX_MODULES && |u.sel| == |u.regs| == DBG_MAX_MODULES
    && forall m :: 0 <= m < DBG_MAX_MODULES ==> u.sel[m] < 2 && |u.regs[m]| == 2
  }

  function SelectReg(u: Unit, r: nat): (v: Unit)
    requires Shape(u) && r < 2
    ensures Shape(v)
  {
    u.(sel := u.sel[u.selected := r])
  }

  function WriteReg(u: Unit, r: nat, data: seq<bool>): (v: Unit)
    requires Shape(u) && r < 2
    ensures Shape(v)
  {
    u.(sel := u.sel[u.selected := r], regs := u.regs[u.selected := u.regs[u.selected][r := data]])
  }

  /** An opcode obeyed by the selected module; bursts do not touch the selection. */
  function Obey(u: Unit, opcode: nat, r: nat, data: seq<bool>): (v: Unit)
    requires Shape(u) && r < 2
    ensures Shape(v)
  {
    if u.selected == DC_JSP then u
    else if opcode == CMD_IREG_WR then WriteReg(u, r, data)
    else if opcode == CMD_IREG_SEL then SelectReg(u, r)
    else u
  }

  /** Update-DR: the bits last shifted in are the command, the earlier ones its data. */
  function Update(u: Unit, bits: seq<bool>): (v: Unit)
    requires Shape(u)
    ensures Shape(v)
  {
    var n := |bits|;
    if !u.listening || n < 3 then u
    else if bits[n - 1] then u.(selected := Bit(bits[n - 3]) + 2 * Bit(bits[n - 2]))
    else if n < 6 then u
    else Obey(u, NatOf(bits[n - 5..n - 1]), Bit(bits[n - 6]), bits[..n - 6])
  }

  /** The first n bits of a register that is shifted out with zeros behind it. */
  function FirstBits(reg: seq<bool>, n: nat): (r: seq<bool>)
    ensures |r| == n && forall i :: 0 <= i < n ==> r[i] == (i < |reg| && reg[i])
  {
    seq(n, i requires 0 <= i < n => i < |reg| && reg[i])
  }

  /** Capture-DR and n bits out of the selected register of the selected module. */
  function Capture(u: Unit, n: nat): seq<bool>
    requires Shape(u)
  {
    FirstBits(u.regs[u.selected][u.sel[u.selected]], n)
  }

  /** What the host reads: other is what the rest of the chain shows when the unit does not listen. */
  function Shown(u: Unit, n: nat, other: seq<bool>): seq<bool>
    requires Shape(u)
  {
    if u.listening then Capture(u, n) else other
  }

  // ---------- Command words ----------

  /** chain | (1 << 2), 3 bits of it. */
  function SelectBits(chain: nat): (r: seq<bool>)
    ensures |r| == 3
  {
    Or(NatBits(chain, 32), Shl(NatBits(1, 32), 2))[..3]
  }

  /** (opcode & ~(1 << 4)) << 1 | regidx, 6 bits of it. */
  function RegBits(opcode: nat, regidx: nat): (r: seq<bool>)
    ensures |r| == 6
  {
    var masked := And(NatBits(opcode, 32), Not(Shl(NatBits(1, 32), OPCODE_LEN)));
    Or(Shl(masked, REG_SEL_LEN), NatBits(regidx, 32))[..5 + REG_SEL_LEN]
  }

  lemma {:induction false} SmallNumber(v: nat, n: nat)
    requires v < 2 && 0 < n
    ensures NatBits(v, n)[0] == (v == 1)
    ensures forall i :: 0 < i < n ==> !NatBits(v, n)[i]
  {
    forall i | 0 < i < n
      ensures !NatBits(v, n)[i]
    {
      HighBitsZero(v, 1, n, i);
    }
  }

  lemma {:induction false} SelectDecodes(u: Unit, chain: nat)
    requires Shape(u) && chain < DBG_MAX_MODULES
    ensures Update(u, SelectBits(chain)) == if u.listening then u.(selected := chain) else u
  {
    SelectBitsAre(chain);
  }

  lemma {:induction false} SelectBitsAre(chain: nat)
    ensures SelectBits(chain) == [chain % 2 == 1, chain / 2 % 2 == 1, true]
  {
    SmallNumber(1, 32);
    LowBits(chain, 32);
    var bits := SelectBits(chain);
    assert bits[0] == NatBits(chain, 32)[0] && bits[1] == NatBits(chain, 32)[1] && bits[2];
  }

  lemma {:induction false} LowBits(v: nat, n: nat)
    requires n >= 2
    ensures NatBits(v, n)[0] == (v % 2 == 1) && NatBits(v, n)[1] == (v / 2 % 2 == 1)
  {
    assert NatBits(v, n)[1] == NatBits(v / 2, n - 1)[0];
  }

  lemma {:induction false} RegBitsAre(opcode: nat, regidx: nat)
    requires opcode < 16 && regidx < 2
    ensures RegBits(opcode, regidx) == [regidx == 1] + NatBits(opcode, 4) + [false]
  {
    SmallNumber(1, 32);
    SmallNumber(regidx, 32);
    var bits, want := RegBits(opcode, regidx), [regidx == 1] + NatBits(opcode, 4) + [false];
    forall i | 0 <= i < 6
      ensures bits[i] == want[i]
    {
      if 1 <= i < 5 {
        NatBitsAt(opcode, 32, 4, i - 1);
      }
    }
  }

  lemma {:induction false} RegDecodes(u: Unit, data: seq<bool>, opcode: nat, regidx: nat)
    requires Shape(u) && opcode < 16 && regidx < 2
    ensures Update(u, data + RegBits(opcode, regidx)) == if u.listening then Obey(u, opcode, regidx, data) else u
  {
    RegBitsAre(opcode, regidx);
    OpcodeBack(opcode);
    CommandDecodes(u, data, RegBits(opcode, regidx), NatBits(opcode, 4), opcode, regidx);
  }

  lemma {:induction false} CommandDecodes(u: Unit, data: seq<bool>, tail: seq<bool>, op: seq<bool>, opcode: nat,
                                          regidx: nat)
    requires Shape(u) && |op| == 4 && regidx < 2 && NatOf(op) == opcode && tail == [regidx == 1] + op + [false]
    ensures Update(u, data + tail) == if u.listening then Obey(u, opcode, regidx, data) else u
  {
    CommandBehind(data, regidx == 1, op);
  }

  lemma {:induction false} OpcodeBack(opcode: nat)
    requires opcode < 16
    ensures NatOf(NatBits(opcode, 4)) == opcode
  {
    NatOfBits(opcode, 4);
    assert Pow2(4) == 16;
    SmallMod(opcode, 16);
  }

  lemma {:induction false} CommandBehind(data: seq<bool>, r: bool, op: seq<bool>)
    requires |op| == 4
    ensures var bits := data + ([r] + op + [false]); var n := |bits|;
      !bits[n - 1] && bits[n - 5..n - 1] == op && bits[n - 6] == r && bits[..n - 6] == data
  {
  }

  // ---------- The operations without a cache ----------

  datatype Op =
    | Reset(noise: Unit)
    | SetIr(debug: bool)
    | Event(m: nat, r: nat, value: seq<bool>)
    | Module(chain: nat)
    | Reg(r: nat)
    | Write(r: nat, data: seq<bool>)
    | Read(r: nat, bits: nat, other: seq<bool>)
    | Burst(opcode: nat, address: nat, length: nat)

  datatype Result = Done | Failed | Value(v: seq<bool>)

  /** The unit and the module the caller asked for; -1 before the first request. */
  datatype World = World(u: Unit, desired: int)

  ghost predicate WellFormed(w: World)
  {
    Shape(w.u) && -1 <= w.desired < DBG_MAX_MODULES
  }

  /** The module asked for after an operation. */
  function NextDesired(desired: int, op: Op): int
  {
    if op.Module? then op.chain else desired
  }

  /** What the operations ask of their caller. */
  ghost predicate Allowed(desired: int, op: Op)
  {
    match op
    case Reset(noise) => Shape(noise)
    case SetIr(_) => true
    case Event(m, r, _) => m < DBG_MAX_MODULES && r < 2
    case Module(chain) => chain < DBG_MAX_MODULES
    case Reg(r) => desired != -1 && r < 2
    case Write(r, _) => desired != -1 && r < 2
    case Read(r, n, other) => desired != -1 && r < 2 && |other| == n
    case Burst(opcode, address, length) => desired != -1 && 0 < opcode < 8 && address < Pow2(32) && length < Pow2(16)
  }

  /**
   Each operation selects its module, and its register, whatever was selected before. A unit that
   does not listen takes no notice.
   */
  function Plain(w: World, op: Op): (r: (World, Result))
    requires WellFormed(w) && Allowed(w.desired, op)
    ensures WellFormed(r.0) && r.0.desired == NextDesired(w.desired, op)
  {
    match op
    case Reset(noise) => (w.(u := noise.(listening := false)), Done)
    case SetIr(debug) => (w.(u := w.u.(listening := debug)), Done)
    case Event(m, r, value) => (w.(u := w.u.(regs := w.u.regs[m := w.u.regs[m][r := value]])), Done)
    case Module(chain) => (World(AtDesired(w.(desired := chain)), chain), Done)
    case Reg(r) => (PlainReg(w, r), if w.desired == DC_JSP then Failed else Done)
    case Write(r, data) => (PlainWrite(w, r, data), if w.desired == DC_JSP then Failed else Done)
    case Read(r, n, other) =>
      (PlainReg(w, r), if w.desired == DC_JSP then Failed else Value(Shown(PlainReg(w, r).u, n, other)))
    case Burst(_, _, _) => (w.(u := AtDesired(w)), Done)
  }

  function AtDesired(w: World): (u: Unit)
    requires WellFormed(w) && w.desired != -1
    ensures Shape(u)
  {
    if w.u.listening then w.u.(selected := w.desired) else w.u
  }

  function PlainReg(w: World, r: nat): (x: World)
    requires WellFormed(w) && w.desired != -1 && r < 2
    ensures WellFormed(x)
  {
    if w.u.listening && w.desired != DC_JSP then w.(u := SelectReg(AtDesired(w), r)) else w.(u := AtDesired(w))
  }

  function PlainWrite(w: World, r: nat, data: seq<bool>): (x: World)
    requires WellFormed(w) && w.desired != -1 && r < 2
    ensures WellFormed(x)
  {
    if w.u.listening && w.desired != DC_JSP then w.(u := WriteReg(AtDesired(w), r, data)) else w.(u := AtDesired(w))
  }

  // ---------- Runs ----------

  ghost predicate AllAllowed(desired: int, ops: seq<Op>)
    decreases ops
  {
    ops != [] ==> Allowed(desired, ops[0]) && AllAllowed(NextDesired(desired, ops[0]), ops[1..])
  }

  /** The unit takes notice of a register selection, or has it already, or it is refused. */
  ghost predicate Reaches(w: World, r: nat)
    requires WellFormed(w) && w.desired != -1
  {
    w.u.listening || w.desired == DC_JSP || w.u.sel[w.desired] == r
  }

  ghost predicate SelectionReaches(w: World, op: Op)
    requires WellFormed(w) && Allowed(w.desired, op)
  {
    match op
    case Reg(r) => Reaches(w, r)
    case Write(r, _) => Reaches(w, r)
    case Read(r, _, _) => Reaches(w, r)
    case _ => true
  }

  ghost predicate AllReach(w: World, ops: seq<Op>)
    requires WellFormed(w) && AllAllowed(w.desired, ops)
    decreases ops
  {
    ops != [] ==> SelectionReaches(w, ops[0]) && AllReach(Plain(w, ops[0]).0, ops[1..])
  }

  function PlainRun(w: World, ops: seq<Op>): (r: (World, seq<Result>))
    requires WellFormed(w) && AllAllowed(w.desired, ops)
    ensures WellFormed(r.0) && |r.1| == |ops|
    decreases ops
  {
    if ops == [] then (w, [])
    else
      var (next, first) := Plain(w, ops[0]);
      var (last, others) := PlainRun(next, ops[1..]);
      (last, [first] + others)
  }

  /** op may change register r of module m. */
  predicate Touches(w: World, op: Op, m: nat, r: nat)
  {
    match op
    case Reset(_) => true
    case Event(m', r', _) => m' == m && r' == r
    case Write(r', _) => w.desired == m && r' == r && w.u.listening
    case _ => false
  }

  ghost predicate Untouched(w: World, ops: seq<Op>, m: nat, r: nat)
    requires WellFormed(w) && AllAllowed(w.desired, ops)
    decreases ops
  {
    ops != [] ==> !Touches(w, ops[0], m, r) && Untouched(Plain(w, ops[0]).0, ops[1..], m, r)
  }

  lemma {:induction false} UntouchedKept(w: World, ops: seq<Op>, m: nat, r: nat)
    requires WellFormed(w) && AllAllowed(w.desired, ops) && Untouched(w, ops, m, r)
    requires m < DBG_MAX_MODULES && r < 2
    ensures PlainRun(w, ops).0.u.regs[m][r] == w.u.regs[m][r]
    decreases ops
  {
    if ops != [] {
      UntouchedKept(Plain(w, ops[0]).0, ops[1..], m, r);
    }
  }

  /**
   A register write is read back, whatever modules and registers are selected in between, as long
   as nothing changes that register.
   */
  lemma {:induction false} WriteReadBack(w: World, r: nat, data: seq<bool>, ops: seq<Op>)
    requires WellFormed(w) && w.u.listening && Allowed(w.desired, Write(r, data)) && w.desired != DC_JSP
    requires var x := Plain(w, Write(r, data)).0; AllAllowed(x.desired, ops) && Untouched(x, ops, w.desired, r)
    requires var y := PlainRun(Plain(w, Write(r, data)).0, ops).0; y.desired == w.desired && y.u.listening
    ensures var y := PlainRun(Plain(w, Write(r, data)).0, ops).0;
      Plain(y, Read(r, |data|, Zeros(|data|))).1 == Value(data)
  {
    UntouchedKept(Plain(w, Write(r, data)).0, ops, w.desired, r);
    assert FirstBits(data, |data|) == data;
  }

  /** A register is selected while the unit does not listen, and read when it does. */
  function DeafSelection(r: nat, n: nat): seq<Op>
  {
    [SetIr(false), Reg(r), SetIr(true), Read(r, n, Zeros(n))]
  }

  lemma {:induction false} PlainRunCons(w: World, op: Op, rest: seq<Op>)
    requires WellFormed(w) && Allowed(w.desired, op) && AllAllowed(NextDesired(w.desired, op), rest)
    ensures AllAllowed(w.desired, [op] + rest)
    ensures PlainRun(w, [op] + rest).1 == [Plain(w, op).1] + PlainRun(Plain(w, op).0, rest).1
    ensures AllReach(w, [op] + rest) <==> SelectionReaches(w, op) && AllReach(Plain(w, op).0, rest)
  {
    assert ([op] + rest)[1..] == rest;
  }

  ghost predicate FourAllowed(desired: int, a: Op, b: Op, c: Op, d: Op)
  {
    var d1 := NextDesired(desired, a);
    var d2 := NextDesired(d1, b);
    Allowed(desired, a) && Allowed(d1, b) && Allowed(d2, c) && Allowed(NextDesired(d2, c), d)
  }

  lemma {:induction false} PlainTwo(w: World, a: Op, b: Op)
    requires WellFormed(w) && Allowed(w.desired, a) && Allowed(NextDesired(w.desired, a), b)
    ensures AllAllowed(w.desired, [a, b])
    ensures PlainRun(w, [a, b]).1 == [Plain(w, a).1, Plain(Plain(w, a).0, b).1]
  {
    var next := Plain(w, a).0;
    PlainRunCons(next, b, []);
    PlainRunCons(w, a, [b]);
    assert [a] + [b] == [a, b] && [b] + [] == [b];
  }

  /** The results of four operations, one by one. */
  lemma {:induction false} PlainFour(w: World, a: Op, b: Op, c: Op, d: Op)
    requires WellFormed(w) && FourAllowed(w.desired, a, b, c, d)
    ensures AllAllowed(w.desired, [a, b, c, d])
    ensures var w1 := Plain(w, a).0;
            var w2 := Plain(w1, b).0;
            PlainRun(w, [a, b, c, d]).1 == [Plain(w, a).1, Plain(w1, b).1] + PlainRun(w2, [c, d]).1
  {
    var w1 := Plain(w, a).0;
    PlainTwo(Plain(w1, b).0, c, d);
    PlainRunCons(w1, b, [c, d]);
    PlainRunCons(w, a, [b, c, d]);
    assert [a] + [b, c, d] == [a, b, c, d] && [b] + [c, d] == [b, c, d];
  }

  /** Without a cache that makes no difference. */
  lemma {:induction false} PlainDeafRun(w: World, r: nat, n: nat)
    requires WellFormed(w) && w.desired !in {-1, DC_JSP} && r < 2
    ensures AllAllowed(w.desired, DeafSelection(r, n))
    ensures PlainRun(w, DeafSelection(r, n)).1 == [Done, Done, Done, Value(FirstBits(w.u.regs[w.desired][r], n))]
  {
    PlainFour(w, SetIr(false), Reg(r), SetIr(true), Read(r, n, Zeros(n)));
    PlainTwo(Plain(Plain(w, SetIr(false)).0, Reg(r)).0, SetIr(true), Read(r, n, Zeros(n)));
  }
}

/**
 The operations of the bridge with its cache, as functions, and when the cache can be noticed.
 */
module CachedUnit {
  import opened Bits
  import opened DebugUnit

  /** current_chain and current_reg_idx; -1 stands for not known. */
  datatype Cache = Cache(chain: int, regs: seq<int>)

  datatype System = System(c: Cache, w: World)

  /** What always holds of the variables. */
  ghost predicate Fit(s: System)
  {
    && WellFormed(s.w) && (s.c.chain == -1 || s.c.chain == s.w.desired)
    && |s.c.regs| == DBG_MAX_MODULES && s.c.regs[DC_JSP] == -1
    && forall m :: 0 <= m < DBG_MAX_MODULES ==> -1 <= s.c.regs[m] < 2
  }

  /** The module's half of the cache says nothing, or what a listening unit has selected. */
  ghost predicate ModuleRight(s: System)
  {
    s.c.chain != -1 && s.w.u.listening ==> s.c.chain == s.w.u.selected
  }

  /** So do the registers' entries. */
  ghost predicate Right(s: System)
    requires Fit(s)
  {
    && ModuleRight(s)
    && forall m :: 0 <= m < DBG_MAX_MODULES && s.c.regs[m] != -1 ==> s.c.regs[m] == s.w.u.sel[m]
  }

  function Blank(): Cache
  {
    Cache(-1, [-1, -1, -1, -1])
  }

  /** A module selection that the cache does not make superfluous. */
  function Select(s: System, chain: nat): (t: System)
    requires Fit(s) && chain < DBG_MAX_MODULES
    ensures Fit(t) && t.c.chain == chain == t.w.desired
  {
    if s.c.chain == chain then s
    else System(s.c.(chain := chain), World(AtDesired(World(s.w.u, chain)), chain))
  }

  /** A command to whatever module the unit has selected, and the register remembered. */
  function Told(s: System, opcode: nat, r: nat, data: seq<bool>): (t: System)
    requires Fit(s) && 0 <= s.w.desired != DC_JSP && r < 2
    ensures Fit(t)
  {
    System(s.c.(regs := s.c.regs[s.w.desired := r]),
           s.w.(u := if s.w.u.listening then Obey(s.w.u, opcode, r, data) else s.w.u))
  }

  function SelectRegister(s: System, r: nat): (t: System)
    requires Fit(s) && s.w.desired != -1 && r < 2
    ensures Fit(t) && t.w.desired == s.w.desired
  {
    var t := Select(s, s.w.desired);
    if t.c.regs[t.w.desired] == r || t.w.desired == DC_JSP then t else Told(t, CMD_IREG_SEL, r, [])
  }

  function WriteRegister(s: System, r: nat, data: seq<bool>): (t: System)
    requires Fit(s) && s.w.desired != -1 && r < 2
    ensures Fit(t) && t.w.desired == s.w.desired
  {
    var t := Select(s, s.w.desired);
    if t.w.desired == DC_JSP then t else Told(t, CMD_IREG_WR, r, data)
  }

  /** Each operation as the bridge does it. */
  function Cached(s: System, op: Op): (t: (System, Result))
    requires Fit(s) && Allowed(s.w.desired, op)
    ensures Fit(t.0) && t.0.w.desired == NextDesired(s.w.desired, op)
  {
    match op
    case Reset(_) => (System(Blank(), Plain(s.w, op).0), Done)
    case SetIr(_) => (System(s.c.(chain := -1), Plain(s.w, op).0), Done)
    case Event(_, _, _) => (System(s.c, Plain(s.w, op).0), Done)
    case Module(chain) => (Select(s, chain), Done)
    case Reg(r) => (SelectRegister(s, r), if s.w.desired == DC_JSP then Failed else Done)
    case Write(r, data) => (WriteRegister(s, r, data), if s.w.desired == DC_JSP then Failed else Done)
    case Read(r, n, other) =>
      (SelectRegister(s, r), if s.w.desired == DC_JSP then Failed else Value(Shown(SelectRegister(s, r).w.u, n, other)))
    case Burst(_, _, _) => (Select(s, s.w.desired), Done)
  }

  function CachedRun(s: System, ops: seq<Op>): (t: (System, seq<Result>))
    requires Fit(s) && AllAllowed(s.w.desired, ops)
    ensures Fit(t.0) && |t.1| == |ops|
    decreases ops
  {
    if ops == [] then (s, [])
    else
      var (next, first) := Cached(s, ops[0]);
      var (last, others) := CachedRun(next, ops[1..]);
      (last, [first] + others)
  }

  // ---------- The cache refines the operations without it ----------

  /**
   With a right cache each operation does what it would do without one, and the cache stays right
   exactly if a register selection reaches the unit.
   */
  lemma {:induction false} StepRefines(s: System, op: Op)
    requires Fit(s) && Right(s) && Allowed(s.w.desired, op)
    ensures Cached(s, op).0.w == Plain(s.w, op).0 && Cached(s, op).1 == Plain(s.w, op).1
    ensures Right(Cached(s, op).0) <==> SelectionReaches(s.w, op)
  {
    match op
    case Reg(r) => RegisterRefines(s, r);
    case Read(r, _, _) => RegisterRefines(s, r);
    case Write(r, data) => WriteRefines(s, r, data);
    case _ =>
  }

  lemma {:induction false} RegisterRefines(s: System, r: nat)
    requires Fit(s) && Right(s) && s.w.desired != -1 && r < 2
    ensures SelectRegister(s, r).w == PlainReg(s.w, r)
    ensures Right(SelectRegister(s, r)) <==> Reaches(s.w, r)
  {
  }

  lemma {:induction false} WriteRefines(s: System, r: nat, data: seq<bool>)
    requires Fit(s) && Right(s) && s.w.desired != -1 && r < 2
    ensures WriteRegister(s, r, data).w == PlainWrite(s.w, r, data)
    ensures Right(WriteRegister(s, r, data)) <==> Reaches(s.w, r)
  {
  }

  /** Whole runs from a right cache, whose selections reach the unit, show no difference. */
  lemma {:induction false} RunRefines(s: System, ops: seq<Op>)
    requires Fit(s) && Right(s) && AllAllowed(s.w.desired, ops) && AllReach(s.w, ops)
    ensures CachedRun(s, ops).0.w == PlainRun(s.w, ops).0 && CachedRun(s, ops).1 == PlainRun(s.w, ops).1
    ensures Right(CachedRun(s, ops).0)
    decreases ops
  {
    if ops != [] {
      StepRefines(s, ops[0]);
      RunRefines(Cached(s, ops[0]).0, ops[1..]);
    }
  }

  lemma {:induction false} CachedRunCons(s: System, op: Op, rest: seq<Op>)
    requires Fit(s) && Allowed(s.w.desired, op) && AllAllowed(NextDesired(s.w.desired, op), rest)
    ensures AllAllowed(s.w.desired, [op] + rest)
    ensures CachedRun(s, [op] + rest).1 == [Cached(s, op).1] + CachedRun(Cached(s, op).0, rest).1
  {
    assert ([op] + rest)[1..] == rest;
  }

  // ---------- When the cache can be noticed ----------

  /** Nobody can tell from the results of what follows that there is a cache. */
  ghost predicate Transparent(s: System)
    requires Fit(s)
  {
    forall ops: seq<Op> :: AllAllowed(s.w.desired, ops) && AllReach(s.w, ops) ==>
      CachedRun(s, ops).1 == PlainRun(s.w, ops).1
  }

  lemma {:induction false} TransparentStep(s: System, op: Op)
    requires Fit(s) && Transparent(s) && Allowed(s.w.desired, op) && SelectionReaches(s.w, op)
    requires Cached(s, op).0.w == Plain(s.w, op).0
    ensures Transparent(Cached(s, op).0) && Cached(s, op).1 == Plain(s.w, op).1
  {
    var next := Cached(s, op).0;
    forall rest: seq<Op> | AllAllowed(next.w.desired, rest) && AllReach(next.w, rest)
      ensures CachedRun(next, rest).1 == PlainRun(next.w, rest).1
    {
      ContinuationSame(s, op, rest);
    }
    ContinuationSame(s, op, []);
  }

  lemma {:induction false} ContinuationSame(s: System, op: Op, rest: seq<Op>)
    requires Fit(s) && Transparent(s) && Allowed(s.w.desired, op) && SelectionReaches(s.w, op)
    requires Cached(s, op).0.w == Plain(s.w, op).0
    requires AllAllowed(NextDesired(s.w.desired, op), rest) && AllReach(Plain(s.w, op).0, rest)
    ensures Cached(s, op).1 == Plain(s.w, op).1
    ensures CachedRun(Cached(s, op).0, rest).1 == PlainRun(Plain(s.w, op).0, rest).1
  {
    PlainRunCons(s.w, op, rest);
    CachedRunCons(s, op, rest);
    var a := [Cached(s, op).1] + CachedRun(Cached(s, op).0, rest).1;
    var b := [Plain(s.w, op).1] + PlainRun(Plain(s.w, op).0, rest).1;
    assert a == b;
    assert a[0] == b[0] && a[1..] == b[1..];
  }

  /** A wrong entry shows: let the unit listen, tell the registers apart, and read. */
  lemma {:induction false} WrongEntryShows(s: System, m: nat)
    requires Fit(s) && m < DBG_MAX_MODULES && s.c.regs[m] != -1 && s.c.regs[m] != s.w.u.sel[m]
    ensures !Transparent(s)
  {
    if Transparent(s) {
      var e: nat := s.c.regs[m];
      TransparentStep(s, SetIr(true));
      var s1 := Cached(s, SetIr(true)).0;
      TransparentStep(s1, Module(m));
      var s2 := Cached(s1, Module(m)).0;
      TransparentStep(s2, Event(m, e, [true]));
      var s3 := Cached(s2, Event(m, e, [true])).0;
      TransparentStep(s3, Event(m, 1 - e, [false]));
      var s4 := Cached(s3, Event(m, 1 - e, [false])).0;
      ContinuationShows(s4, m, e);
    }
  }

  lemma {:induction false} ContinuationShows(s: System, m: nat, e: nat)
    requires Fit(s) && m < DBG_MAX_MODULES && m != DC_JSP && e < 2
    requires s.c.chain == m == s.w.desired && s.w.u.listening && s.w.u.selected == m
    requires s.c.regs[m] == e && s.w.u.sel[m] == 1 - e
    requires s.w.u.regs[m][e] == [true] && s.w.u.regs[m][1 - e] == [false]
    ensures !Transparent(s)
  {
    var read := Read(e, 1, [false]);
    PlainRunCons(s.w, read, []);
    CachedRunCons(s, read, []);
    assert FirstBits([true], 1)[0] != FirstBits([false], 1)[0];
    var ops := [read] + [];
    assert AllAllowed(s.w.desired, ops) && AllReach(s.w, ops);
    assert CachedRun(s, ops).1[0] == Value(FirstBits([false], 1));
    assert PlainRun(s.w, ops).1[0] == Value(FirstBits([true], 1));
  }

  /** The cache cannot be noticed exactly if it is right. */
  lemma {:induction false} TransparentExact(s: System)
    requires Fit(s) && ModuleRight(s)
    ensures Transparent(s) <==> Right(s)
  {
    if Right(s) {
      forall ops: seq<Op> | AllAllowed(s.w.desired, ops) && AllReach(s.w, ops)
        ensures CachedRun(s, ops).1 == PlainRun(s.w, ops).1
      {
        RunRefines(s, ops);
      }
    } else {
      var m :| 0 <= m < DBG_MAX_MODULES && s.c.regs[m] != -1 && s.c.regs[m] != s.w.u.sel[m];
      WrongEntryShows(s, m);
    }
  }

  /** The module's half is right after every operation, whatever the registers' entries say. */
  lemma {:induction false} ModuleStaysRight(s: System, op: Op)
    requires Fit(s) && ModuleRight(s) && Allowed(s.w.desired, op)
    ensures ModuleRight(Cached(s, op).0)
  {
  }

  /**
   A register selection from a right cache goes unnoticed by whatever follows exactly if the unit
   listens, has that register selected already, or the module has none.
   */
  lemma {:induction false} SelectionExact(s: System, r: nat)
    requires Fit(s) && Right(s) && s.w.desired != -1 && r < 2
    ensures Transparent(Cached(s, Reg(r)).0) <==> Reaches(s.w, r)
  {
    StepRefines(s, Reg(r));
    ModuleStaysRight(s, Reg(r));
    TransparentExact(Cached(s, Reg(r)).0);
  }

  lemma {:induction false} CachedTwo(s: System, a: Op, b: Op)
    requires Fit(s) && Allowed(s.w.desired, a) && Allowed(NextDesired(s.w.desired, a), b)
    ensures AllAllowed(s.w.desired, [a, b])
    ensures CachedRun(s, [a, b]).1 == [Cached(s, a).1, Cached(Cached(s, a).0, b).1]
  {
    var next := Cached(s, a).0;
    CachedRunCons(next, b, []);
    CachedRunCons(s, a, [b]);
    assert [a] + [b] == [a, b] && [b] + [] == [b];
  }

  lemma {:induction false} CachedFour(s: System, a: Op, b: Op, c: Op, d: Op)
    requires Fit(s) && FourAllowed(s.w.desired, a, b, c, d)
    ensures AllAllowed(s.w.desired, [a, b, c, d])
    ensures var s1 := Cached(s, a).0;
            var s2 := Cached(s1, b).0;
            CachedRun(s, [a, b, c, d]).1 == [Cached(s, a).1, Cached(s1, b).1] + CachedRun(s2, [c, d]).1
  {
    var s1 := Cached(s, a).0;
    CachedTwo(Cached(s1, b).0, c, d);
    CachedRunCons(s1, b, [c, d]);
    CachedRunCons(s, a, [b, c, d]);
    assert [a] + [b, c, d] == [a, b, c, d] && [b] + [c, d] == [b, c, d];
  }

  /** The failing run: the other register is read. */
  lemma {:induction false} SelectedWhileDeaf(s: System, r: nat, n: nat)
    requires Fit(s) && Right(s) && s.w.desired !in {-1, DC_JSP} && r < 2 && s.w.u.sel[s.w.desired] == 1 - r
    ensures AllAllowed(s.w.desired, DeafSelection(r, n))
    ensures CachedRun(s, DeafSelection(r, n)).1
      == [Done, Done, Done, Value(FirstBits(s.w.u.regs[s.w.desired][1 - r], n))]
  {
    CachedFour(s, SetIr(false), Reg(r), SetIr(true), Read(r, n, Zeros(n)));
    CachedTwo(Cached(Cached(s, SetIr(false)).0, Reg(r)).0, SetIr(true), Read(r, n, Zeros(n)));
  }
}

module SelectCache {
  import opened Bits
  import opened DebugUnit
  import opened CachedUnit
  import Config = ChainConfig

  /** The unit at the far end of the data register path, and all scans that were sent there. */
  class Port {
    var u: Unit
    ghost var scans: seq<seq<bool>>

    constructor (u: Unit)
      ensures this.u == u && scans == []
    {
      this.u, scans := u, [];
    }

    method Scan(bits: seq<bool>)
      requires Shape(u)
      modifies this
      ensures u == Update(old(u), bits) && scans == old(scans) + [bits]
    {
      u, scans := Update(u, bits), scans + [bits];
    }

    /** A scan that captures the selected register and leaves a no-operation behind. */
    method ReadScan(databits: nat, other: seq<bool>) returns (v: seq<bool>)
      requires Shape(u)
      modifies this
      ensures v == Shown(old(u), databits, other) && u == old(u) && scans == old(scans) + [Zeros(databits + 5)]
    {
      v := Shown(u, databits, other);
      NopDecodes(u, databits);
      Scan(Zeros(databits + 5));
    }
  }

  lemma {:induction false} NopDecodes(u: Unit, databits: nat)
    requires Shape(u)
    ensures Update(u, Zeros(databits + 5)) == u
  {
    var z := Zeros(databits + 5);
    if databits >= 1 {
      var n := |z|;
      assert z[n - 5..n - 1] == [false, false, false, false];
      assert NatOf([false, false, false, false]) == 0;
    }
  }

  /** What is sent to have the desired module selected: nothing if the cache names it. */
  ghost function ModuleScans(s: System): seq<seq<bool>>
    requires Fit(s) && s.w.desired != -1
  {
    if s.c.chain == s.w.desired then [] else [SelectBits(s.w.desired)]
  }

  class Bridge {
    var currentChain: int
    var desiredChain: int
    const currentRegIdx: array<int>
    const port: Port

    constructor (port: Port)
      requires Shape(port.u)
      ensures Valid() && this.port == port && fresh(currentRegIdx)
      ensures Now() == System(Blank(), World(port.u, -1)) && Right(Now())
    {
      currentChain, desiredChain := -1, -1;
      currentRegIdx := new int[DBG_MAX_MODULES](_ => -1);
      this.port := port;
    }

    /** The variables and the unit. */
    ghost function Now(): System
      reads this, port, currentRegIdx
    {
      System(Cache(currentChain, currentRegIdx[..]), World(port.u, desiredChain))
    }

    ghost predicate Valid()
      reads this, port, currentRegIdx
    {
      Fit(Now())
    }

    /** The cache names regidx for the desired module. */
    ghost predicate Known(regidx: nat)
      requires Valid() && desiredChain != -1
      reads this, port, currentRegIdx
    {
      currentRegIdx[desiredChain] == regidx
    }

    method SelectModule(chain: nat)
      requires Valid() && chain < DBG_MAX_MODULES
      modifies this, port
      ensures Valid() && Now() == Select(old(Now()), chain)
      ensures port.scans == old(port.scans) + if old(currentChain) == chain then [] else [SelectBits(chain)]
    {
      if currentChain == chain {
        return;
      }
      currentChain := -1;
      desiredChain := chain;
      SelectDecodes(port.u, chain);
      port.Scan(SelectBits(chain));
      currentChain := chain;
    }

    /** Returns the error code. */
    method SelectCtrlReg(regidx: nat) returns (err: int)
      requires Valid() && desiredChain != -1 && regidx < 2
      modifies this, port, currentRegIdx
      ensures Valid() && Now() == SelectRegister(old(Now()), regidx)
      ensures err == if desiredChain == DC_JSP then 1 else 0
      ensures port.scans == old(port.scans) + ModuleScans(old(Now()))
        + if old(Known(regidx)) || desiredChain == DC_JSP then [] else [RegBits(CMD_IREG_SEL, regidx)]
    {
      SelectModule(desiredChain);
      if currentRegIdx[currentChain] == regidx {
        return 0;
      }
      if currentChain == DC_JSP {
        return 1;
      }
      RegDecodes(port.u, [], CMD_IREG_SEL, regidx);
      assert [] + RegBits(CMD_IREG_SEL, regidx) == RegBits(CMD_IREG_SEL, regidx);
      port.Scan(RegBits(CMD_IREG_SEL, regidx));
      currentRegIdx[currentChain] := regidx;
      err := 0;
    }

    method CtrlWrite(regidx: nat, data: seq<bool>) returns (err: int)
      requires Valid() && desiredChain != -1 && regidx < 2
      modifies this, port, currentRegIdx
      ensures Valid() && Now() == WriteRegister(old(Now()), regidx, data)
      ensures err == if desiredChain == DC_JSP then 1 else 0
      ensures port.scans == old(port.scans) + ModuleScans(old(Now()))
        + if desiredChain == DC_JSP then [] else [data + RegBits(CMD_IREG_WR, regidx)]
    {
      SelectModule(desiredChain);
      if currentChain == DC_JSP {
        return 1;
      }
      RegDecodes(port.u, data, CMD_IREG_WR, regidx);
      port.Scan(data + RegBits(CMD_IREG_WR, regidx));
      currentRegIdx[currentChain] := regidx;
      err := 0;
    }

    method CtrlRead(regidx: nat, databits: nat, other: seq<bool>) returns (err: int, v: seq<bool>)
      requires Valid() && Allowed(desiredChain, Read(regidx, databits, other))
      modifies this, port, currentRegIdx
      ensures Valid() && Now() == SelectRegister(old(Now()), regidx)
      ensures err == if desiredChain == DC_JSP then 1 else 0
      ensures err == 0 ==> v == Shown(port.u, databits, other)
      ensures err != 0 ==> port.scans == old(port.scans) + ModuleScans(old(Now()))
      ensures err == 0 ==>
        port.scans == old(port.scans) + ModuleScans(old(Now()))
          + (if old(Known(regidx)) then [] else [RegBits(CMD_IREG_SEL, regidx)]) + [Zeros(databits + 5)]
    {
      v := [];
      err := SelectBoth(regidx);
      if err != 0 {
        return;
      }
      v := port.ReadScan(databits, other);
    }

    /** The module and then its register, as CtrlRead does it. */
    method SelectBoth(regidx: nat) returns (err: int)
      requires Valid() && desiredChain != -1 && regidx < 2
      modifies this, port, currentRegIdx
      ensures Valid() && Now() == SelectRegister(old(Now()), regidx)
      ensures err == if desiredChain == DC_JSP then 1 else 0
      ensures port.scans == old(port.scans) + ModuleScans(old(Now()))
        + if old(Known(regidx)) || desiredChain == DC_JSP then [] else [RegBits(CMD_IREG_SEL, regidx)]
    {
      SelectModule(desiredChain);
      err := SelectCtrlReg(regidx);
    }

    /** The module is selected if need be, and then the 53 bits of the command are sent. */
    method BurstCommand(opcode: nat, address: nat, length: nat)
      requires Valid() && Allowed(desiredChain, Burst(opcode, address, length))
      modifies this, port
      ensures Valid() && Now() == Cached(old(Now()), Burst(opcode, address, length)).0
      ensures port.scans == old(port.scans) + ModuleScans(old(Now()))
        + [Config.CommandRegister(opcode, address, length)]
    {
      SelectModule(desiredChain);
      var data := Config.CommandWords(opcode, address, length);
      BurstDecodes(port.u, opcode, address, length);
      port.Scan(StreamBits([data.0, data.1], 53));
    }

    /** The state machine reset; what the unit comes up with is unknown. */
    method TapReset(noise: Unit)
      requires Valid() && Shape(noise)
      modifies this, port, currentRegIdx
      ensures Valid() && Now() == System(Blank(), World(noise.(listening := false), old(desiredChain)))
    {
      port.u := noise.(listening := false);
      currentChain := -1;
      ForgetRegisters();
    }

    method ForgetRegisters()
      requires currentRegIdx.Length == DBG_MAX_MODULES
      modifies currentRegIdx
      ensures currentRegIdx[..] == Blank().regs
    {
      for i := 0 to DBG_MAX_MODULES
        invariant forall m :: 0 <= m < i ==> currentRegIdx[m] == -1
      {
        currentRegIdx[i] := -1;
      }
    }

    method TapSetIr(debug: bool)
      requires Valid()
      modifies this, port
      ensures Valid() && Now() == Cached(old(Now()), SetIr(debug)).0
      ensures currentRegIdx[..] == old(currentRegIdx[..])
    {
      port.u := port.u.(listening := debug);
      currentChain := -1;
    }

    /** The hardware changes a register by itself. */
    method Happen(m: nat, r: nat, value: seq<bool>)
      requires Valid() && Allowed(desiredChain, Event(m, r, value))
      modifies port
      ensures Valid() && Now() == Cached(old(Now()), Event(m, r, value)).0
    {
      port.u := port.u.(regs := port.u.regs[m := port.u.regs[m][r := value]]);
    }

    method Execute(op: Op) returns (res: Result)
      requires Valid() && Allowed(desiredChain, op)
      modifies this, port, currentRegIdx
      ensures Valid() && (Now(), res) == Cached(old(Now()), op)
    {
      res := Done;
      match op
      case Reset(noise) => TapReset(noise);
      case SetIr(debug) => TapSetIr(debug);
      case Event(m, r, value) => Happen(m, r, value);
      case Module(chain) => SelectModule(chain);
      case Reg(r) =>
        var err := SelectCtrlReg(r);
        res := if err == 0 then Done else Failed;
      case Write(r, data) =>
        var err := CtrlWrite(r, data);
        res := if err == 0 then Done else Failed;
      case Read(r, n, other) =>
        var err, v := CtrlRead(r, n, other);
        res := if err == 0 then Value(v) else Failed;
      case Burst(opcode, address, length) => BurstCommand(opcode, address, length);
    }

    /**
     Every run is the one of the functions. From a right cache, if its selections reach the unit, it is
     also the run of a bridge that selects every time.
     */
    method Run(ops: seq<Op>) returns (results: seq<Result>)
      requires Valid() && AllAllowed(desiredChain, ops)
      modifies this, port, currentRegIdx
      ensures Valid() && (Now(), results) == CachedRun(old(Now()), ops)
      ensures Right(old(Now())) && AllReach(old(Now().w), ops) ==>
        Right(Now()) && (Now().w, results) == PlainRun(old(Now().w), ops)
    {
      ghost var s := Now();
      results := Follow(ops);
      if Right(s) && AllReach(s.w, ops) {
        RunRefines(s, ops);
      }
    }

    method Follow(ops: seq<Op>) returns (results: seq<Result>)
      requires Valid() && AllAllowed(desiredChain, ops)
      modifies this, port, currentRegIdx
      ensures Valid() && (Now(), results) == CachedRun(old(Now()), ops)
      decreases ops
    {
      if ops == [] {
        return [];
      }
      var first := Execute(ops[0]);
      var others := Follow(ops[1..]);
      results := [first] + others;
    }
  }

  /** A burst command is none that the selection registers obey. */
  lemma {:induction false} BurstDecodes(u: Unit, opcode: nat, address: nat, length: nat)
    requires Shape(u) && 0 < opcode < 8 && address < Pow2(32) && length < Pow2(16)
    ensures Update(u, Config.CommandRegister(opcode, address, length)) == u
  {
    var reg := Config.CommandRegister(opcode, address, length);
    Config.CommandFields(opcode, address, length);
    OpcodeBack(opcode);
    OtherOpcode(u, reg, opcode);
  }

  lemma {:induction false} OtherOpcode(u: Unit, reg: seq<bool>, opcode: nat)
    requires Shape(u) && |reg| == 53 && !reg[52] && NatOf(reg[48..52]) == opcode && 0 < opcode < 8
    ensures Update(u, reg) == u
  {
  }
}
