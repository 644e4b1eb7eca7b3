/**
 What the configured host does to the chain it was configured for: only the target leaves BYPASS,
 and its register is written and read exactly, wherever it sits.
 */
module ChainConfig {
  import opened Bits
  import opened Tap
  import opened ChainScan
  import opened IrPacking
  import opened ChainCommands

  function IrLens(devs: seq<Device>): (r: seq<nat>)
    ensures |r| == |devs| && forall i :: 0 <= i < |devs| ==> r[i] == devs[i].part.irLen
  {
    seq(|devs|, i requires 0 <= i < |devs| => devs[i].part.irLen)
  }

  lemma {:induction false} SumAppend(a: seq<nat>, b: seq<nat>)
    ensures Sum(a + b) == Sum(a) + Sum(b)
    decreases |b|
  {
    if b == [] {
      assert a + b == a;
    } else {
      var n := |b| - 1;
      assert (a + b)[..|a| + n] == a + b[..n];
      SumAppend(a, b[..n]);
    }
  }

  lemma {:induction false} SumStep(xs: seq<nat>, i: nat)
    requires i < |xs|
    ensures Sum(xs[..i + 1]) == Sum(xs[..i]) + xs[i]
  {
    assert xs[..i + 1][..i] == xs[..i];
  }

  lemma {:induction false} SumMonotone(xs: seq<nat>, i: nat, j: nat)
    requires i <= j <= |xs|
    ensures Sum(xs[..i]) <= Sum(xs[..j])
    decreases j - i
  {
    if i < j {
      SumStep(xs, j - 1);
      SumMonotone(xs, i, j - 1);
    }
  }

  lemma {:induction false} SumOne(x: nat)
    ensures Sum([x]) == x
  {
    assert [x][..0] == [];
  }

  lemma {:induction false} OffsetIsSum(devs: seq<Device>, i: nat)
    requires ValidChain(devs) && i <= |devs|
    ensures Offset(devs, Ir, i) == Sum(IrLens(devs)[..i])
    decreases i
  {
    if i > 0 {
      OffsetIsSum(devs[1..], i - 1);
      assert IrLens(devs)[..i] == [devs[0].part.irLen] + IrLens(devs[1..])[..i - 1];
      SumAppend([devs[0].part.irLen], IrLens(devs[1..])[..i - 1]);
      SumOne(devs[0].part.irLen);
    }
  }

  lemma {:induction false} RegsIsSum(devs: seq<Device>)
    requires ValidChain(devs)
    ensures |Regs(devs, Ir)| == Sum(IrLens(devs))
  {
    OffsetIsSum(devs, |devs|);
    IrLengths(devs, |devs|);
    assert devs[|devs|..] == [];
    assert IrLens(devs)[..|devs|] == IrLens(devs);
  }

  /** The totals of configure_chain cover the chain, and place each device's slice. */
  lemma {:induction false} Totals(devs: seq<Device>, target: nat)
    requires ValidChain(devs) && target < |devs|
    ensures var lens := IrLens(devs);
            Sum(lens[..target]) + lens[target] + Sum(lens[target + 1..]) == |Regs(devs, Ir)|
    ensures Offset(devs, Ir, target) == Sum(IrLens(devs)[..target])
    ensures forall i :: 0 <= i < target ==> Offset(devs, Ir, i) + IrLens(devs)[i] <= Sum(IrLens(devs)[..target])
    ensures forall i :: target < i < |devs| ==>
      Offset(devs, Ir, i) >= Sum(IrLens(devs)[..target]) + IrLens(devs)[target]
  {
    var lens := IrLens(devs);
    RegsIsSum(devs);
    OffsetIsSum(devs, target);
    SumAround(lens, target);
    SumStep(lens, target);
    forall i | 0 <= i < |devs|
      ensures i < target ==> Offset(devs, Ir, i) + lens[i] <= Sum(lens[..target])
      ensures target < i ==> Offset(devs, Ir, i) >= Sum(lens[..target + 1])
    {
      Placed(devs, target, i);
    }
  }

  lemma {:induction false} SumAround(xs: seq<nat>, i: nat)
    requires i < |xs|
    ensures Sum(xs[..i]) + xs[i] + Sum(xs[i + 1..]) == Sum(xs)
  {
    SumStep(xs, i);
    SumAppend(xs[..i + 1], xs[i + 1..]);
    assert xs == xs[..i + 1] + xs[i + 1..];
  }

  /** Where device i lies with respect to the target. */
  lemma {:induction false} Placed(devs: seq<Device>, target: nat, i: nat)
    requires ValidChain(devs) && target < |devs| && i < |devs|
    ensures i < target ==> Offset(devs, Ir, i) + IrLens(devs)[i] <= Sum(IrLens(devs)[..target])
    ensures target < i ==> Offset(devs, Ir, i) >= Sum(IrLens(devs)[..target + 1])
  {
    var lens := IrLens(devs);
    OffsetIsSum(devs, i);
    SumStep(lens, i);
    if i < target {
      SumMonotone(lens, i + 1, target);
    } else if target < i {
      SumMonotone(lens, target + 1, i);
    }
  }

  /** The host's IR configuration for a target, as configure_chain computes it. */
  ghost predicate IrConfigured(devs: seq<Device>, target: nat, postfix: nat, size: nat, prefix: nat)
    requires target < |devs|
  {
    && size == devs[target].part.irLen
    && postfix == Sum(IrLens(devs)[..target]) && prefix == Sum(IrLens(devs)[target + 1..])
  }

  /** Only the target has left BYPASS; every controller idles and nothing else changed. */
  ghost predicate TargetSelected(devs: seq<Device>, r: seq<Device>, target: nat, ir: seq<bool>)
  {
    |r| == |devs| && forall i :: 0 <= i < |devs| ==>
      Instructed(devs[i], r[i], if i == target then ir else Ones(devs[i].part.irLen))
  }

  /**
   The scan tap_set_ir sends reaches every device of the chain as intended if and only if every
   shift count stays below the word size, or the bits the overlong shift destroys were ones anyway.
   */
  lemma {:induction false} WholeChainIr(devs: seq<Device>, target: nat, ir: Word, words: seq<Word>,
                                        postfix: nat, size: nat, prefix: nat)
    requires ValidChain(devs) && AllIn(devs, RunTestIdle) && target < |devs|
    requires IrConfigured(devs, target, postfix, size, prefix) && size <= 32
    requires Packed(words, ir, postfix / 32, postfix % 32, size) && postfix + size + prefix <= 32 * |words|
    ensures TargetSelected(devs, Run(devs, SetIr(StreamBits(words, postfix + size + prefix))).chain, target, ir[..size])
       <==> postfix % 32 + size < 32 || LostBitsAreOnes(ir, postfix % 32)
  {
    var bits := StreamBits(words, postfix + size + prefix);
    assert ValidDevice(devs[target]);
    Totals(devs, target);
    PackedIsWanted(words, ir, postfix, size, prefix);
    if bits == Wanted(ir, postfix, size, prefix) {
      ScanWanted(devs, target, ir, bits, postfix, size, prefix);
    } else {
      LostInTarget(devs, target, ir, words, postfix, size, prefix);
    }
  }

  /** The destroyed bits are the target's own: it is left with another instruction. */
  lemma {:induction false} LostInTarget(devs: seq<Device>, target: nat, ir: Word, words: seq<Word>,
                                        postfix: nat, size: nat, prefix: nat)
    requires ValidChain(devs) && AllIn(devs, RunTestIdle) && target < |devs|
    requires IrConfigured(devs, target, postfix, size, prefix) && 1 <= size <= 32
    requires Packed(words, ir, postfix / 32, postfix % 32, size) && postfix + size + prefix <= 32 * |words|
    requires postfix % 32 + size >= 32 && !LostBitsAreOnes(ir, postfix % 32)
    ensures var bits := StreamBits(words, postfix + size + prefix);
            !TargetSelected(devs, Run(devs, SetIr(bits)).chain, target, ir[..size])
  {
    var bits := StreamBits(words, postfix + size + prefix);
    Totals(devs, target);
    var i := LostBit(words, ir, postfix, size, prefix);
    WrongBit(devs, target, bits, postfix, size, ir, i);
  }

  lemma {:induction false} LostBit(words: seq<Word>, ir: Word, postfix: nat, size: nat, prefix: nat) returns (i: nat)
    requires 1 <= size <= 32 && Packed(words, ir, postfix / 32, postfix % 32, size)
    requires postfix + size + prefix <= 32 * |words|
    requires postfix % 32 + size >= 32 && !LostBitsAreOnes(ir, postfix % 32)
    ensures i < size && !ir[i] && StreamBits(words, postfix + size + prefix)[postfix + i]
  {
    i :| 0 <= i < 32 - postfix % 32 && !ir[i];
    OverlongShift(words, ir, postfix / 32, postfix % 32, size, prefix, i);
  }

  /** A wrong bit in the target's slice is a wrong bit of its instruction. */
  lemma {:induction false} WrongBit(devs: seq<Device>, target: nat, bits: seq<bool>, postfix: nat, size: nat,
                                    ir: Word, i: nat)
    requires ValidChain(devs) && AllIn(devs, RunTestIdle) && target < |devs|
    requires |bits| == |Regs(devs, Ir)| && postfix == Offset(devs, Ir, target) && size == devs[target].part.irLen
    requires i < size <= 32 && postfix + size <= |bits| && bits[postfix + i] != ir[i]
    ensures !TargetSelected(devs, Run(devs, SetIr(bits)).chain, target, ir[..size])
  {
    assert ValidDevice(devs[target]);
    IrScan(devs, bits);
    assert Instructed(devs[target], Run(devs, SetIr(bits)).chain[target], IrSlice(devs, bits, target));
    assert IrSlice(devs, bits, target)[i] == bits[postfix + i];
    assert ir[..size][i] == ir[i];
  }

  /**
   The same as a failing input: behind 28 instruction bits of other devices, a target with a 4-bit
   register never receives the instruction 8.
   */
  lemma {:induction false} InstructionLost(devs: seq<Device>, target: nat, ir: Word, words: seq<Word>, prefix: nat)
    requires ValidChain(devs) && AllIn(devs, RunTestIdle) && target < |devs|
    requires IrConfigured(devs, target, 28, 4, prefix)
    requires ir == Zeros(3) + [true] + Zeros(28) && Packed(words, ir, 0, 28, 4) && 32 + prefix <= 32 * |words|
    ensures !TargetSelected(devs, Run(devs, SetIr(StreamBits(words, 32 + prefix))).chain, target, ir[..4])
  {
    assert !ir[0] && 28 / 32 == 0 && 28 % 32 == 28;
    LostInTarget(devs, target, ir, words, 28, 4, prefix);
  }

  lemma {:induction false} PackedIsWanted(words: seq<Word>, ir: Word, postfix: nat, size: nat, prefix: nat)
    requires 1 <= size <= 32
    requires Packed(words, ir, postfix / 32, postfix % 32, size) && postfix + size + prefix <= 32 * |words|
    ensures StreamBits(words, postfix + size + prefix) == Wanted(ir, postfix, size, prefix)
       <==> postfix % 32 + size < 32 || LostBitsAreOnes(ir, postfix % 32)
  {
    assert 32 * (postfix / 32) + postfix % 32 == postfix;
    PackingExact(words, ir, postfix / 32, postfix % 32, size, prefix);
  }

  lemma {:induction false} ScanWanted(devs: seq<Device>, target: nat, ir: Word, bits: seq<bool>,
                                      postfix: nat, size: nat, prefix: nat)
    requires ValidChain(devs) && AllIn(devs, RunTestIdle) && target < |devs| && size <= 32
    requires IrConfigured(devs, target, postfix, size, prefix)
    requires bits == Wanted(ir, postfix, size, prefix) && |bits| == |Regs(devs, Ir)| && bits != []
    ensures TargetSelected(devs, Run(devs, SetIr(bits)).chain, target, ir[..size])
  {
    IrScan(devs, bits);
    forall i | 0 <= i < |devs|
      ensures Instructed(devs[i], Run(devs, SetIr(bits)).chain[i],
                         if i == target then ir[..size] else Ones(devs[i].part.irLen))
    {
      SliceForDevice(devs, target, ir, postfix, size, prefix, i);
    }
  }

  lemma {:induction false} SliceForDevice(devs: seq<Device>, target: nat, ir: Word,
                                          postfix: nat, size: nat, prefix: nat, i: nat)
    requires ValidChain(devs) && target < |devs| && i < |devs| && size <= 32
    requires IrConfigured(devs, target, postfix, size, prefix)
    requires Offset(devs, Ir, i) + |devs[i].irShift| <= postfix + size + prefix
    ensures IrSlice(devs, Wanted(ir, postfix, size, prefix), i)
         == if i == target then ir[..size] else Ones(devs[i].part.irLen)
  {
    Totals(devs, target);
    assert ValidDevice(devs[i]);
    WantedSlice(ir, postfix, size, prefix, Offset(devs, Ir, i), devs[i].part.irLen, i == target);
  }

  lemma {:induction false} WantedSlice(ir: Word, postfix: nat, size: nat, prefix: nat, o: nat, len: nat, target: bool)
    requires size <= 32 && o + len <= postfix + size + prefix
    requires if target then o == postfix && len == size else o + len <= postfix || o >= postfix + size
    ensures Wanted(ir, postfix, size, prefix)[o..o + len] == if target then ir[..size] else Ones(len)
  {
  }

  // ---------- Data transfers with the selected target ----------

  /** After the instruction scan and a capture, everybody but the target shifts through one bit. */
  lemma {:induction false} SelectedCapture(devs: seq<Device>, r: seq<Device>, target: nat, ir: seq<bool>)
    requires ValidChain(r) && target < |devs| && TargetSelected(devs, r, target, ir)
    ensures var s := Run(r, SetShiftDr()).chain;
      && ValidChain(s) && AllIn(s, ShiftDr) && OthersBypassed(s, target)
      && s[target] == r[target].(tap := ShiftDr, drShift := Captured(r[target]))
      && forall i :: 0 <= i < |r| && i != target ==> s[i].data == r[i].data && !SelectsData(s[i])
  {
    EnterShiftDr(r);
    RunKeepsValid(r, SetShiftDr());
    var s := Run(r, SetShiftDr()).chain;
    forall i | 0 <= i < |r| && i != target
      ensures |s[i].drShift| == 1 && s[i].data == r[i].data && !SelectsData(s[i])
    {
      assert Instructed(devs[i], r[i], Ones(devs[i].part.irLen));
    }
  }

  /**
   A complete register write as the debug functions do it: capture, a TMS-terminated stream, update,
   idle. The target's data register holds the last bits of the stream, nobody else's changes.
   */
  lemma {:induction false} WholeChainWrite(devs: seq<Device>, r: seq<Device>, target: nat, ir: seq<bool>,
                                           bits: seq<bool>)
    requires ValidChain(r) && target < |devs| && TargetSelected(devs, r, target, ir)
    requires SelectsData(r[target]) && |bits| >= |r[target].data|
    ensures var s := Run(r, SetShiftDr()).chain;
            var t := Run(s, WriteClocks(bits, true, |devs| - target - 1)).chain;
            var u := Run(t, ExitToIdle()).chain;
      && AllIn(u, RunTestIdle)
      && u[target].data == bits[|bits| - |r[target].data|..]
      && forall i :: 0 <= i < |u| && i != target ==> u[i].data == r[i].data
  {
    SelectedCapture(devs, r, target, ir);
    var s := Run(r, SetShiftDr()).chain;
    assert Captured(r[target]) == r[target].data;
    var t := Run(s, WriteClocks(bits, true, |devs| - target - 1)).chain;
    assert |s| == |devs| && |s[target].drShift| == |r[target].data|;
    DrWrite(s, target, bits);
    assert Shifted(s, t, Dr, Exit1Dr) && t[target].drShift == bits[|bits| - |r[target].data|..];
    UpdatedData(s, t);
  }

  /** Leaving the scan loads the registers of the devices whose instruction selects one. */
  lemma {:induction false} UpdatedData(s: seq<Device>, t: seq<Device>)
    requires Shifted(s, t, Dr, Exit1Dr)
    ensures var u := Run(t, ExitToIdle()).chain;
      && AllIn(u, RunTestIdle)
      && forall i :: 0 <= i < |u| ==> u[i].data == if SelectsData(s[i]) then t[i].drShift else s[i].data
  {
    LeaveToIdle(t, Dr);
    var u := Run(t, ExitToIdle()).chain;
    forall i | 0 <= i < |u|
      ensures u[i].tap == RunTestIdle
      ensures u[i].data == if SelectsData(s[i]) then t[i].drShift else s[i].data
    {
      assert u[i] == Updated(t[i], Dr);
    }
  }

  /** A read past the postfix devices returns the captured bits, LSB first. */
  lemma {:induction false} WholeChainRead(s: seq<Device>, target: nat, out: seq<bool>, setTms: bool)
    requires ValidChain(s) && AllIn(s, ShiftDr) && target < |s| && OthersBypassed(s, target)
    requires 1 <= |out| <= |s[target].drShift|
    ensures Run(Burnt(s, target), StreamClocks(out, setTms)).tdo == s[target].drShift[..|out|]
  {
    BypassOffsets(s, target);
    RegSlice(s, Dr, target);
    OutSlice(Regs(s, Dr), target, |s[target].drShift|, out);
    if target == 0 {
      ShiftRun(s, Dr, out, setTms);
      assert (Regs(s, Dr) + Zeros(0))[0..] == Regs(s, Dr);
    } else {
      BurntRead(s, target, out, setTms);
    }
  }

  /** What comes out behind the bits of the devices in front. */
  lemma {:induction false} BurntRead(s: seq<Device>, n: nat, out: seq<bool>, setTms: bool)
    requires ValidChain(s) && AllIn(s, ShiftDr) && n > 0 && out != []
    ensures Run(Burnt(s, n), StreamClocks(out, setTms)).tdo == ((Regs(s, Dr) + Zeros(n))[n..] + out)[..|out|]
  {
    ShiftRun(s, Dr, Zeros(n), false);
    ShiftedValid(s, Burnt(s, n), Dr, ShiftDr);
    ShiftRun(Burnt(s, n), Dr, out, setTms);
  }

  lemma {:induction false} OutSlice(line: seq<bool>, target: nat, l: nat, out: seq<bool>)
    requires target + l <= |line| && |out| <= l
    ensures ((line + Zeros(target))[target..] + out)[..|out|] == line[target..target + l][..|out|]
  {
  }

  /** The sanity check of configure_chain: reading under IDCODE returns the target's own code. */
  lemma {:induction false} IdcodeSanity(devs: seq<Device>, target: nat, cmd: Word, words: seq<Word>,
                                        postfix: nat, size: nat, prefix: nat)
    requires ValidChain(devs) && AllIn(devs, RunTestIdle) && target < |devs|
    requires IrConfigured(devs, target, postfix, size, prefix)
    requires size <= 32 && (postfix % 32 + size < 32 || LostBitsAreOnes(cmd, postfix % 32))
    requires Packed(words, cmd, postfix / 32, postfix % 32, size) && postfix + size + prefix <= 32 * |words|
    requires devs[target].part.id.Some? && cmd[..size] == devs[target].part.idInstr
    ensures var selected := Run(devs, SetIr(StreamBits(words, postfix + size + prefix))).chain;
            SelectedRead(selected, target, |devs| - target - 1) == devs[target].part.id.value
  {
    var bits := StreamBits(words, postfix + size + prefix);
    WholeChainIr(devs, target, cmd, words, postfix, size, prefix);
    RunKeepsValid(devs, SetIr(bits));
    IdcodeSelected(devs, Run(devs, SetIr(bits)).chain, target, cmd[..size]);
  }

  /** Selecting and reading leave every controller idle. */
  lemma {:induction false} IdcodeLeavesIdle(devs: seq<Device>, bits: seq<bool>, selected: seq<Device>, postfix: nat,
                                     prefix: nat)
    requires ValidChain(devs) && AllIn(devs, RunTestIdle) && |bits| == |Regs(devs, Ir)| >= 1
    requires selected == Run(devs, SetIr(bits)).chain
    ensures AllIn(ReadAway(selected, postfix, prefix), RunTestIdle)
  {
    IrScan(devs, bits);
    RunKeepsValid(devs, SetIr(bits));
    forall i | 0 <= i < |selected|
      ensures selected[i].tap == RunTestIdle
    {
      assert Instructed(devs[i], selected[i], IrSlice(devs, bits, i));
    }
    ReadLeavesIdle(selected, postfix, prefix);
  }

  /** configure_chain for a target of the chain: the host then knows how the chain lies around it. */
  method ConfigureFor(jtag: Jtag, target: nat)
    requires ValidChain(jtag.chain) && target < |jtag.chain|
    modifies jtag`irSize, jtag`irPrefix, jtag`irPostfix, jtag`drPrefix, jtag`drPostfix
    ensures IrConfigured(jtag.chain, target, jtag.irPostfix, jtag.irSize, jtag.irPrefix) && jtag.irSize >= 1
    ensures jtag.drPostfix == target && jtag.drPrefix == |jtag.chain| - target - 1
  {
    assert ValidDevice(jtag.chain[target]);
    jtag.Configure(IrLens(jtag.chain), target);
  }

  lemma {:induction false} IdcodeSelected(devs: seq<Device>, r: seq<Device>, target: nat, ir: seq<bool>)
    requires ValidChain(devs) && ValidChain(r) && target < |devs| && TargetSelected(devs, r, target, ir)
    requires devs[target].part.id.Some? && ir == devs[target].part.idInstr
    ensures SelectedRead(r, target, |devs| - target - 1) == devs[target].part.id.value
  {
    SelectedCapture(devs, r, target, ir);
    assert Instructed(devs[target], r[target], ir);
    assert ValidDevice(devs[target]);
    var s := Run(r, SetShiftDr()).chain;
    WholeChainRead(s, target, Zeros(32), |devs| - target - 1 == 0);
    assert s[target].drShift[..32] == devs[target].part.id.value;
  }

  // ---------- The 53-bit burst command ----------

  /** A 32-bit unsigned value in an unsigned long. */
  function Long(v: nat): (r: seq<bool>)
    ensures |r| == 64
  {
    NatBits(v, 64)
  }

  /** ((address >> 16) | (op << 16)) & ~(one << 20), truncated. */
  function HighWord(address: seq<bool>, op: seq<bool>, one: seq<bool>): Word
    requires |address| == |op| == |one| == 64
  {
    And(Or(Shr(address, 16), Shl(op, 16)), Not(Shl(one, 20)))[..32]
  }

  lemma {:induction false} HighWordBit(address: seq<bool>, op: seq<bool>, one: seq<bool>, j: nat)
    requires |address| == |op| == |one| == 64 && j < 32
    ensures HighWord(address, op, one)[j]
      == ((address[j + 16] || (j >= 16 && op[j - 16])) && !(j >= 20 && one[j - 20]))
  {
  }

  /** data[0] and data[1] of adbg_burst_command; each assignment truncates to 32 bits. */
  function CommandWords(opcode: nat, address: nat, lengthWords: nat): (Word, Word)
  {
    var d0 := Or(Long(lengthWords), Shl(Long(address), 16))[..32];
    (d0, HighWord(Long(address), And(Long(opcode), NatBits(0xf, 64)), NatBits(1, 64)))
  }

  datatype Command = Command(select: bool, opcode: nat, address: nat, length: nat)

  /** The debug unit's reading of its 53-bit register. */
  function DecodeCommand(reg: seq<bool>): Command
    requires |reg| == 53
  {
    Command(reg[52], NatOf(reg[48..52]), NatOf(reg[16..48]), NatOf(reg[..16]))
  }

  /** Bit positions 0..3 of the mask 0xf, and bit 0 of the constant 1. */
  lemma {:induction false} Constants(i: nat)
    requires i < 64
    ensures NatBits(0xf, 64)[i] == (i < 4) && NatBits(1, 64)[i] == (i < 1)
  {
    assert Pow2(4) == 16 && Pow2(1) == 2;
    if i >= 4 {
      HighBitsZero(0xf, 4, 64, i);
    }
    if i >= 1 {
      HighBitsZero(1, 1, 64, i);
    }
    assert NatBits(0xf, 4) == [true, true, true, true];
    if i < 4 {
      NatBitsAt(0xf, 64, 4, i);
    }
  }

  /** The fields as they stand in the 53-bit register. */
  function CommandBit(opcode: nat, address: nat, length: nat, i: nat): bool
    requires i < 53
  {
    if i < 16 then NatBits(length, 16)[i]
    else if i < 48 then NatBits(address, 32)[i - 16]
    else if i < 52 then NatBits(opcode, 4)[i - 48]
    else false
  }

  lemma {:induction false} LowCommandBit(opcode: nat, address: nat, length: nat, i: nat)
    requires address < Pow2(32) && length < Pow2(16) && i < 32
    ensures CommandWords(opcode, address, length).0[i] == CommandBit(opcode, address, length, i)
  {
    if i < 16 {
      NatBitsAt(length, 64, 16, i);
    } else {
      HighBitsZero(length, 16, 64, i);
      NatBitsAt(address, 64, 32, i - 16);
    }
  }

  lemma {:induction false} HighCommandBit(opcode: nat, address: nat, length: nat, j: nat)
    requires address < Pow2(32) && length < Pow2(16) && j < 21
    ensures CommandWords(opcode, address, length).1[j] == CommandBit(opcode, address, length, j + 32)
  {
    HighWordBit(Long(address), And(Long(opcode), NatBits(0xf, 64)), NatBits(1, 64), j);
    if j < 16 {
      NatBitsAt(address, 64, 32, j + 16);
    } else {
      HighBitsZero(address, 32, 64, j + 16);
      Constants(j - 16);
      if j < 20 {
        NatBitsAt(opcode, 64, 4, j - 16);
      } else {
        Constants(0);
      }
    }
  }

  /**
   The 53 bits sent by adbg_burst_command decode to the intended command exactly when the length
   fits the 16-bit field; the top bit is always 0, so the module and not the selector obeys it.
   */
  lemma {:induction false} BurstCommandDecodes(opcode: nat, address: nat, length: nat)
    requires address < Pow2(32)
    ensures DecodeCommand(CommandRegister(opcode, address, length)) == Command(false, opcode % 16, address, length)
       <==> length < Pow2(16)
  {
    BitsOfNat(CommandRegister(opcode, address, length)[..16]);
    if length < Pow2(16) {
      CommandFields(opcode, address, length);
      FieldValue(length, 16);
      FieldValue(address, 32);
      NatOfBits(opcode, 4);
      assert Pow2(4) == 16;
    }
  }

  lemma {:induction false} FieldValue(v: nat, n: nat)
    requires v < Pow2(n)
    ensures NatOf(NatBits(v, n)) == v
  {
    NatOfBits(v, n);
    SmallMod(v, Pow2(n));
  }

  /** The fields of the register, lowest first. */
  lemma {:induction false} CommandFields(opcode: nat, address: nat, length: nat)
    requires address < Pow2(32) && length < Pow2(16)
    ensures var reg := CommandRegister(opcode, address, length);
      && reg[..16] == NatBits(length, 16) && reg[16..48] == NatBits(address, 32)
      && reg[48..52] == NatBits(opcode, 4) && !reg[52]
  {
    var reg := CommandRegister(opcode, address, length);
    forall i | 0 <= i < 53
      ensures reg[i] == CommandBit(opcode, address, length, i)
    {
      CommandRegisterBit(opcode, address, length, i);
    }
    SplitFields(reg, NatBits(length, 16), NatBits(address, 32), NatBits(opcode, 4));
  }

  lemma {:induction false} SplitFields(reg: seq<bool>, a: seq<bool>, b: seq<bool>, c: seq<bool>)
    requires |reg| == 53 && |a| == 16 && |b| == 32 && |c| == 4
    requires forall i :: 0 <= i < 53 ==>
      reg[i] == if i < 16 then a[i] else if i < 48 then b[i - 16] else if i < 52 then c[i - 48] else false
    ensures reg[..16] == a && reg[16..48] == b && reg[48..52] == c && !reg[52]
  {
  }

  lemma {:induction false} CommandRegisterBit(opcode: nat, address: nat, length: nat, i: nat)
    requires address < Pow2(32) && length < Pow2(16) && i < 53
    ensures CommandRegister(opcode, address, length)[i] == CommandBit(opcode, address, length, i)
  {
    TwoWords(CommandWords(opcode, address, length).0, CommandWords(opcode, address, length).1, i);
    if i < 32 {
      LowCommandBit(opcode, address, length, i);
    } else {
      HighCommandBit(opcode, address, length, i - 32);
    }
  }

  lemma {:induction false} TwoWords(d0: Word, d1: Word, i: nat)
    requires i < 53
    ensures StreamBits([d0, d1], 53)[i] == if i < 32 then d0[i] else d1[i - 32]
  {
  }

  /** The register of the debug unit once the command has been shifted in. */
  function CommandRegister(opcode: nat, address: nat, lengthWords: nat): (r: seq<bool>)
    ensures |r| == 53
  {
    StreamBits([CommandWords(opcode, address, lengthWords).0, CommandWords(opcode, address, lengthWords).1], 53)
  }

  /**
   The whole way of a burst command: the 53 bits are written through the chain, and the target's
   register then decodes to the command exactly when the length fits.
   */
  lemma {:induction false} CommandDelivered(devs: seq<Device>, r: seq<Device>, target: nat, ir: seq<bool>,
                                            opcode: nat, address: nat, length: nat)
    requires ValidChain(r) && target < |devs| && TargetSelected(devs, r, target, ir)
    requires SelectsData(r[target]) && |r[target].data| == 53 && address < Pow2(32)
    ensures var s := Run(r, SetShiftDr()).chain;
            var t := Run(s, WriteClocks(CommandRegister(opcode, address, length), true, |devs| - target - 1)).chain;
            var u := Run(t, ExitToIdle()).chain;
      && target < |u| && |u[target].data| == 53
      && (DecodeCommand(u[target].data) == Command(false, opcode % 16, address, length) <==> length < Pow2(16))
      && forall i :: 0 <= i < |u| && i != target ==> u[i].data == r[i].data
  {
    var bits := CommandRegister(opcode, address, length);
    WholeChainWrite(devs, r, target, ir, bits);
    assert bits[|bits| - 53..] == bits;
    BurstCommandDecodes(opcode, address, length);
  }
}
