/**
 Whole-chain scans: what the clock sequences of chain_commands.c do to every device of a chain of
 any length.
 */
module ChainScan {
  import opened Bits
  import opened Tap

  // ---------- Walking between Run-Test/Idle and the shift states ----------

  ghost predicate NotShifting(devs: seq<Device>)
  {
    forall i :: 0 <= i < |devs| ==> devs[i].tap != ShiftDr && devs[i].tap != ShiftIr
  }

  /** Outside the shift states a device ignores TDI. */
  lemma {:induction false} QuietStep(devs: seq<Device>, tms: bool)
    requires NotShifting(devs)
    ensures forall i :: 0 <= i < |devs| ==> ChainStep(devs, C(tms, false))[i] == Step(devs[i], C(tms, false))
  {
    forall i | 0 <= i < |devs|
      ensures ChainStep(devs, C(tms, false))[i] == Step(devs[i], C(tms, false))
    {
      StepAt(devs, C(tms, false), i);
    }
  }

  lemma {:induction false} RunCons(devs: seq<Device>, c: Clock, rest: seq<Clock>)
    ensures Run(devs, [c] + rest).chain == Run(ChainStep(devs, c), rest).chain
    ensures Run(devs, [c]).chain == ChainStep(devs, c)
  {
    RunConcat(devs, [c], rest);
    RunOne(devs, c);
  }

  function CapturedIr(d: Device): seq<bool>
  {
    if d.part.irLen == 0 then [] else [true] + Zeros(d.part.irLen - 1)
  }

  /** tap_set_shift_dr: from Run-Test/Idle through Capture-DR to Shift-DR. */
  function SetShiftDr(): seq<Clock>
  {
    [C(true, false)] + ([C(false, false)] + [C(false, false)])
  }

  lemma {:induction false} EnterShiftDr(devs: seq<Device>)
    requires AllIn(devs, RunTestIdle)
    ensures forall i :: 0 <= i < |devs| ==>
      Run(devs, SetShiftDr()).chain[i] == devs[i].(tap := ShiftDr, drShift := Captured(devs[i]))
  {
    var s1 := ChainStep(devs, C(true, false));
    var s2 := ChainStep(s1, C(false, false));
    RunCons(devs, C(true, false), [C(false, false)] + [C(false, false)]);
    RunCons(s1, C(false, false), [C(false, false)]);
    RunCons(s2, C(false, false), []);
    forall i | 0 <= i < |devs|
      ensures ChainStep(s2, C(false, false))[i] == devs[i].(tap := ShiftDr, drShift := Captured(devs[i]))
    {
      DeviceEntersDr(devs[i]);
      QuietAt(devs, true, i);
      QuietAt(s1, false, i);
      QuietAt(s2, false, i);
    }
  }

  lemma {:induction false} DeviceEntersDr(d: Device)
    requires d.tap == RunTestIdle
    ensures var s1 := Step(d, C(true, false));
            var s2 := Step(s1, C(false, false));
            && s1 == d.(tap := SelectDr) && s2 == d.(tap := CaptureDr)
            && Step(s2, C(false, false)) == d.(tap := ShiftDr, drShift := Captured(d))
  {
  }

  /** The four clocks of tap_set_ir in front of the stream. */
  function SetShiftIr(): seq<Clock>
  {
    [C(true, false)] + ([C(true, false)] + ([C(false, false)] + [C(false, false)]))
  }

  lemma {:induction false} DeviceEntersIr(d: Device)
    requires d.tap == RunTestIdle
    ensures var s1 := Step(d, C(true, false));
            var s2 := Step(s1, C(true, false));
            var s3 := Step(s2, C(false, false));
            && s1 == d.(tap := SelectDr) && s2 == d.(tap := SelectIr) && s3 == d.(tap := CaptureIr)
            && Step(s3, C(false, false)) == d.(tap := ShiftIr, irShift := CapturedIr(d))
  {
  }

  lemma {:induction false} EnterShiftIr(devs: seq<Device>)
    requires AllIn(devs, RunTestIdle)
    ensures forall i :: 0 <= i < |devs| ==>
      Run(devs, SetShiftIr()).chain[i] == devs[i].(tap := ShiftIr, irShift := CapturedIr(devs[i]))
  {
    var s1 := ChainStep(devs, C(true, false));
    var s2 := ChainStep(s1, C(true, false));
    var s3 := ChainStep(s2, C(false, false));
    RunCons(devs, C(true, false), [C(true, false)] + ([C(false, false)] + [C(false, false)]));
    RunCons(s1, C(true, false), [C(false, false)] + [C(false, false)]);
    RunCons(s2, C(false, false), [C(false, false)]);
    RunCons(s3, C(false, false), []);
    forall i | 0 <= i < |devs|
      ensures ChainStep(s3, C(false, false))[i] == devs[i].(tap := ShiftIr, irShift := CapturedIr(devs[i]))
    {
      EnterShiftIrAt(devs, i);
    }
  }

  lemma {:induction false} EnterShiftIrAt(devs: seq<Device>, i: nat)
    requires i < |devs| && devs[i].tap == RunTestIdle
    ensures var s2 := ChainStep(ChainStep(devs, C(true, false)), C(true, false));
      ChainStep(ChainStep(s2, C(false, false)), C(false, false))[i]
      == devs[i].(tap := ShiftIr, irShift := CapturedIr(devs[i]))
  {
    var s1 := ChainStep(devs, C(true, false));
    var s2 := ChainStep(s1, C(true, false));
    var s3 := ChainStep(s2, C(false, false));
    DeviceEntersIr(devs[i]);
    QuietAt(devs, true, i);
    QuietAt(s1, true, i);
    QuietAt(s2, false, i);
    QuietAt(s3, false, i);
  }

  /** A device that does not shift takes no notice of its input. */
  lemma {:induction false} QuietAt(devs: seq<Device>, tms: bool, i: nat)
    requires i < |devs| && devs[i].tap != ShiftDr && devs[i].tap != ShiftIr
    ensures |ChainStep(devs, C(tms, false))| == |devs|
    ensures ChainStep(devs, C(tms, false))[i] == Step(devs[i], C(tms, false))
  {
    StepAt(devs, C(tms, false), i);
  }

  /** tap_exit_to_idle, and the same two clocks after an IR scan. */
  function ExitToIdle(): seq<Clock>
  {
    [C(true, false)] + [C(false, false)]
  }

  function Updated(d: Device, k: Kind): Device
  {
    (if k == Ir then d.(ir := d.irShift)
     else if SelectsData(d) then d.(data := d.drShift) else d).(tap := RunTestIdle)
  }

  lemma {:induction false} DeviceLeaves(d: Device, k: Kind)
    requires d.tap == ExitStateOf(k)
    ensures var mid := Step(d, C(true, false));
            mid.tap != ShiftDr && mid.tap != ShiftIr && Step(mid, C(false, false)) == Updated(d, k)
  {
  }

  lemma {:induction false} LeaveToIdle(devs: seq<Device>, k: Kind)
    requires AllIn(devs, ExitStateOf(k))
    ensures forall i :: 0 <= i < |devs| ==> Run(devs, ExitToIdle()).chain[i] == Updated(devs[i], k)
  {
    var s1 := ChainStep(devs, C(true, false));
    RunCons(devs, C(true, false), [C(false, false)]);
    RunCons(s1, C(false, false), []);
    QuietStep(devs, true);
    forall i | 0 <= i < |devs|
      ensures s1[i].tap != ShiftDr && s1[i].tap != ShiftIr
      ensures Step(s1[i], C(false, false)) == Updated(devs[i], k)
    {
      DeviceLeaves(devs[i], k);
    }
    QuietStep(s1, false);
  }

  // ---------- The instruction scan ----------

  /** tap_set_ir with the packed bits: scan, update, idle. */
  function SetIr(bits: seq<bool>): seq<Clock>
  {
    SetShiftIr() + StreamClocks(bits, true) + ExitToIdle()
  }

  lemma {:induction false} IrLengths(devs: seq<Device>, i: nat)
    requires i <= |devs| && ValidChain(devs)
    ensures Offset(devs, Ir, i) + |Regs(devs[i..], Ir)| == |Regs(devs, Ir)|
    decreases i
  {
    if i > 0 {
      IrLengths(devs[1..], i - 1);
      assert devs[1..][i - 1..] == devs[i..];
    } else {
      assert devs[0..] == devs;
    }
  }

  /** Device i's slice of the scanned bits. */
  function IrSlice(devs: seq<Device>, bits: seq<bool>, i: nat): seq<bool>
    requires i < |devs| && Offset(devs, Ir, i) + |devs[i].irShift| <= |bits|
  {
    bits[Offset(devs, Ir, i)..Offset(devs, Ir, i) + |devs[i].irShift|]
  }

  /** Filling every shift register with an IR stream. */
  lemma {:induction false} IrFill(a: seq<Device>, bits: seq<bool>)
    requires ValidChain(a) && AllIn(a, ShiftIr) && |bits| == |Regs(a, Ir)| >= 1
    ensures var b := Run(a, StreamClocks(bits, true)).chain;
      forall i :: 0 <= i < |a| ==>
        && Offset(a, Ir, i) + |a[i].irShift| <= |bits|
        && b[i] == a[i].(tap := Exit1Ir, irShift := IrSlice(a, bits, i))
  {
    var b := Run(a, StreamClocks(bits, true)).chain;
    ShiftRun(a, Ir, bits, true);
    assert (Regs(a, Ir) + bits)[|bits|..] == bits;
    forall i | 0 <= i < |a|
      ensures Offset(a, Ir, i) + |a[i].irShift| <= |bits|
      ensures b[i] == a[i].(tap := Exit1Ir, irShift := IrSlice(a, bits, i))
    {
      RegSlice(b, Ir, i);
      OffsetShifted(a, b, Ir, i);
    }
  }

  /** d was idle; r is d idling again with a new instruction. */
  ghost predicate Instructed(d: Device, r: Device, ir: seq<bool>)
  {
    r.tap == RunTestIdle && r.part == d.part && r.data == d.data && r.ir == ir
  }

  lemma {:induction false} SetIrPhases(devs: seq<Device>, bits: seq<bool>)
    ensures var a := Run(devs, SetShiftIr()).chain;
            var b := Run(a, StreamClocks(bits, true)).chain;
            Run(devs, SetIr(bits)).chain == Run(b, ExitToIdle()).chain
  {
    RunConcat(devs, SetShiftIr() + StreamClocks(bits, true), ExitToIdle());
    RunConcat(devs, SetShiftIr(), StreamClocks(bits, true));
  }

  lemma {:induction false} SameIrOffsets(devs: seq<Device>, a: seq<Device>, i: nat)
    requires |a| == |devs| && i <= |devs| && forall j :: 0 <= j < |devs| ==> |a[j].irShift| == |devs[j].irShift|
    ensures Offset(a, Ir, i) == Offset(devs, Ir, i) && |Regs(a, Ir)| == |Regs(devs, Ir)|
  {
    OffsetShifted(devs, a, Ir, i);
  }

  lemma {:induction false} SameSlice(devs: seq<Device>, a: seq<Device>, bits: seq<bool>, i: nat)
    requires |a| == |devs| && i < |devs| && |a[i].irShift| == |devs[i].irShift|
    requires Offset(a, Ir, i) == Offset(devs, Ir, i) && Offset(a, Ir, i) + |a[i].irShift| <= |bits|
    ensures IrSlice(devs, bits, i) == IrSlice(a, bits, i)
  {
  }

  /** A whole instruction scan: device i ends up with its slice of the bits, in idle. */
  lemma {:induction false} IrScan(devs: seq<Device>, bits: seq<bool>)
    requires ValidChain(devs) && AllIn(devs, RunTestIdle) && |bits| == |Regs(devs, Ir)| >= 1
    ensures forall i :: 0 <= i < |devs| ==>
      Offset(devs, Ir, i) + |devs[i].irShift| <= |bits|
      && Instructed(devs[i], Run(devs, SetIr(bits)).chain[i], IrSlice(devs, bits, i))
  {
    var a := Run(devs, SetShiftIr()).chain;
    EnterShiftIr(devs);
    RunKeepsValid(devs, SetShiftIr());
    assert forall j :: 0 <= j < |devs| ==> |a[j].irShift| == |devs[j].irShift|;
    SameIrOffsets(devs, a, 0);
    IrFill(a, bits);
    var b := Run(a, StreamClocks(bits, true)).chain;
    LeaveToIdle(b, Ir);
    SetIrPhases(devs, bits);
    forall i | 0 <= i < |devs|
      ensures Offset(devs, Ir, i) + |devs[i].irShift| <= |bits|
      ensures Instructed(devs[i], Run(devs, SetIr(bits)).chain[i], IrSlice(devs, bits, i))
    {
      SameIrOffsets(devs, a, i);
      SameSlice(devs, a, bits, i);
      assert Run(b, ExitToIdle()).chain[i] == Updated(b[i], Ir);
    }
  }

  // ---------- Data scans past bypassed devices ----------

  /** Every device but the target holds a one-bit register. */
  ghost predicate OthersBypassed(devs: seq<Device>, target: nat)
  {
    forall i :: 0 <= i < |devs| && i != target ==> |devs[i].drShift| == 1
  }

  lemma {:induction false} BypassOffsets(devs: seq<Device>, target: nat)
    requires target < |devs| && OthersBypassed(devs, target)
    ensures Offset(devs, Dr, target) == target
    ensures |Regs(devs, Dr)| == target + |devs[target].drShift| + (|devs| - target - 1)
  {
    if target > 0 {
      BypassOffsets(devs[1..], target - 1);
    } else {
      AllBypassed(devs[1..]);
    }
  }

  lemma {:induction false} AllBypassed(devs: seq<Device>)
    requires forall i :: 0 <= i < |devs| ==> |devs[i].drShift| == 1
    ensures |Regs(devs, Dr)| == |devs|
  {
    if devs != [] {
      AllBypassed(devs[1..]);
    }
  }

  /** The bits a TMS-terminated jtag_write_stream clocks: the data, then one zero per prefix device. */
  function WriteBits(bits: seq<bool>, setTms: bool, prefix: nat): seq<bool>
  {
    if setTms then bits + Zeros(prefix) else bits
  }

  /**
   A TMS-terminated write of at least as many bits as the target's register leaves the last of
   them in that register, whatever surrounds the target.
   */
  lemma {:induction false} DrWrite(devs: seq<Device>, target: nat, bits: seq<bool>)
    requires ValidChain(devs) && AllIn(devs, ShiftDr) && target < |devs| && OthersBypassed(devs, target)
    requires |bits| >= |devs[target].drShift|
    ensures var prefix, l := |devs| - target - 1, |devs[target].drShift|;
            var r := Run(devs, StreamClocks(WriteBits(bits, true, prefix), true)).chain;
            && r[target].drShift == bits[|bits| - l..]
            && Shifted(devs, r, Dr, Exit1Dr)
  {
    var prefix, l := |devs| - target - 1, |devs[target].drShift|;
    BypassOffsets(devs, target);
    ShiftedLine(devs, target, bits + Zeros(prefix));
    LineTail(Regs(devs, Dr), bits, prefix, target, l);
  }

  /** What a stream leaves in the target's part of the line. */
  lemma {:induction false} ShiftedLine(devs: seq<Device>, target: nat, all: seq<bool>)
    requires ValidChain(devs) && AllIn(devs, ShiftDr) && target < |devs| && Offset(devs, Dr, target) == target
    requires |all| >= 1
    ensures var r := Run(devs, StreamClocks(all, true)).chain;
            var line := (Regs(devs, Dr) + all)[|all|..];
            && target + |devs[target].drShift| <= |line| && Shifted(devs, r, Dr, Exit1Dr)
            && r[target].drShift == line[target..target + |devs[target].drShift|]
  {
    ShiftRun(devs, Dr, all, true);
    InLine(devs, Run(devs, StreamClocks(all, true)).chain, target, (Regs(devs, Dr) + all)[|all|..]);
  }

  lemma {:induction false} InLine(devs: seq<Device>, r: seq<Device>, target: nat, line: seq<bool>)
    requires target < |devs| && Offset(devs, Dr, target) == target && Regs(r, Dr) == line && |r| == |devs|
    requires forall j :: 0 <= j < |devs| ==> |Reg(devs[j], Dr)| == |Reg(r[j], Dr)|
    ensures target + |devs[target].drShift| <= |line|
    ensures r[target].drShift == line[target..target + |devs[target].drShift|]
  {
    RegSlice(r, Dr, target);
    OffsetShifted(devs, r, Dr, target);
  }

  /** Where the last l bits of a stream stand once prefix zeros have pushed them along the line. */
  lemma {:induction false} LineTail(regs: seq<bool>, bits: seq<bool>, prefix: nat, target: nat, l: nat)
    requires |regs| == target + l + prefix && |bits| >= l
    ensures (regs + (bits + Zeros(prefix)))[|bits| + prefix..][target..target + l] == bits[|bits| - l..]
  {
    var line := regs + (bits + Zeros(prefix));
    var got := line[|bits| + prefix..][target..target + l];
    forall j | 0 <= j < l
      ensures got[j] == bits[|bits| - l..][j]
    {
      assert got[j] == line[|bits| + prefix + target + j];
    }
  }
}
