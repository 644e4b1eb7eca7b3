/**
 IEEE Std 1149.1 as seen from the cable: the TAP controller of each device (clause 6), its
 instruction, bypass and identification registers (clauses 7, 10 and 12), and a chain of such
 devices sharing TMS and TCK. Device 0 is the one whose TDO reaches the cable.
 */
module Tap {
  import opened Bits

  datatype Option<T> = None | Some(value: T)

  datatype TapState =
    | TestLogicReset | RunTestIdle
    | SelectDr | CaptureDr | ShiftDr | Exit1Dr | PauseDr | Exit2Dr | UpdateDr
    | SelectIr | CaptureIr | ShiftIr | Exit1Ir | PauseIr | Exit2Ir | UpdateIr

  function NextState(t: TapState, tms: bool): TapState
  {
    match t
    case TestLogicReset => if tms then TestLogicReset else RunTestIdle
    case RunTestIdle => if tms then SelectDr else RunTestIdle
    case SelectDr => if tms then SelectIr else CaptureDr
    case CaptureDr => if tms then Exit1Dr else ShiftDr
    case ShiftDr => if tms then Exit1Dr else ShiftDr
    case Exit1Dr => if tms then UpdateDr else PauseDr
    case PauseDr => if tms then Exit2Dr else PauseDr
    case Exit2Dr => if tms then UpdateDr else ShiftDr
    case UpdateDr => if tms then SelectDr else RunTestIdle
    case SelectIr => if tms then TestLogicReset else CaptureIr
    case CaptureIr => if tms then Exit1Ir else ShiftIr
    case ShiftIr => if tms then Exit1Ir else ShiftIr
    case Exit1Ir => if tms then UpdateIr else PauseIr
    case PauseIr => if tms then Exit2Ir else PauseIr
    case Exit2Ir => if tms then UpdateIr else ShiftIr
    case UpdateIr => if tms then SelectDr else RunTestIdle
  }

  /** The fixed part of a device: instruction length, reset wiring, identification. */
  datatype Part = Part(irLen: nat, hasTrst: bool, id: Option<Word>, idInstr: seq<bool>)

  /**
   A device: its part, controller state, active instruction, the two shift registers, and the
   contents of the data register that any other instruction selects.
   */
  datatype Device = Device(
    part: Part, tap: TapState, ir: seq<bool>, irShift: seq<bool>, drShift: seq<bool>, data: seq<bool>)

  ghost predicate ValidPart(p: Part)
  {
    && p.irLen >= 1 && |p.idInstr| == p.irLen && p.idInstr != Ones(p.irLen)
    && (p.id.Some? ==> p.id.value[0])
  }

  ghost predicate ValidDevice(d: Device)
  {
    && ValidPart(d.part)
    && |d.ir| == |d.irShift| == d.part.irLen
    && |d.drShift| >= 1 && |d.data| >= 1
  }

  ghost predicate ValidChain(devs: seq<Device>)
  {
    forall i :: 0 <= i < |devs| ==> ValidDevice(devs[i])
  }

  /** The instruction a reset loads: IDCODE if the device has one, BYPASS otherwise. */
  function ResetInstr(p: Part): seq<bool>
  {
    if p.id.Some? then p.idInstr else Ones(p.irLen)
  }

  /** What Capture-DR loads under the active instruction; all ones is BYPASS. */
  function Captured(d: Device): seq<bool>
  {
    if d.ir == Ones(d.part.irLen) then [false]
    else if d.part.id.Some? && d.ir == d.part.idInstr then d.part.id.value
    else d.data
  }

  /** The data register is written back only if the active instruction selects it. */
  function SelectsData(d: Device): bool
  {
    d.ir != Ones(d.part.irLen) && !(d.part.id.Some? && d.ir == d.part.idInstr)
  }

  datatype Clock = Clock(tms: bool, tdi: bool, trst: bool)

  function C(tms: bool, tdi: bool): Clock
  {
    Clock(tms, tdi, false)
  }

  function Tdo(d: Device): bool
  {
    match d.tap
    case ShiftDr => d.drShift != [] && d.drShift[0]
    case ShiftIr => d.irShift != [] && d.irShift[0]
    case _ => false
  }

  /** The work done by the rising edge in the current state. */
  function Act(d: Device, tdi: bool): Device
  {
    match d.tap
    case CaptureDr => d.(drShift := Captured(d))
    case ShiftDr => if d.drShift == [] then d else d.(drShift := d.drShift[1..] + [tdi])
    case CaptureIr => d.(irShift := if d.part.irLen == 0 then [] else [true] + Zeros(d.part.irLen - 1))
    case ShiftIr => if d.irShift == [] then d else d.(irShift := d.irShift[1..] + [tdi])
    case _ => d
  }

  /** Entering a state: updates take effect, and a reset reloads the instruction. */
  function Enter(d: Device, t: TapState): Device
  {
    match t
    case UpdateDr => if SelectsData(d) then d.(tap := t, data := d.drShift) else d.(tap := t)
    case UpdateIr => d.(tap := t, ir := d.irShift)
    case TestLogicReset => d.(tap := t, ir := ResetInstr(d.part))
    case _ => d.(tap := t)
  }

  function Step(d: Device, c: Clock): Device
  {
    if c.trst && d.part.hasTrst then Enter(d, TestLogicReset)
    else Enter(Act(d, c.tdi), NextState(d.tap, c.tms))
  }

  /** What the cable reads at TDO, before the edge. With no device TDI is looped back. */
  function ChainTdo(devs: seq<Device>, tdi: bool): bool
  {
    if devs == [] then tdi else Tdo(devs[0])
  }

  /** One clock for every device; each is fed by the next one, the last by the cable. */
  function ChainStep(devs: seq<Device>, c: Clock): (r: seq<Device>)
    ensures |r| == |devs|
  {
    if devs == [] then [] else
      [Step(devs[0], c.(tdi := ChainTdo(devs[1..], c.tdi)))] + ChainStep(devs[1..], c)
  }

  datatype Trace = Trace(chain: seq<Device>, tdo: seq<bool>)

  /** A whole sequence of clocks: the chain afterwards and every bit read. */
  function Run(devs: seq<Device>, clocks: seq<Clock>): (r: Trace)
    ensures |r.chain| == |devs| && |r.tdo| == |clocks|
    decreases clocks
  {
    if clocks == [] then Trace(devs, []) else
      var rest := Run(ChainStep(devs, clocks[0]), clocks[1..]);
      rest.(tdo := [ChainTdo(devs, clocks[0].tdi)] + rest.tdo)
  }

  lemma {:induction false} RunConcat(devs: seq<Device>, a: seq<Clock>, b: seq<Clock>)
    ensures Run(devs, a + b).chain == Run(Run(devs, a).chain, b).chain
    ensures Run(devs, a + b).tdo == Run(devs, a).tdo + Run(Run(devs, a).chain, b).tdo
    decreases a
  {
    if a == [] {
      assert a + b == b;
    } else {
      assert (a + b)[1..] == a[1..] + b;
      RunConcat(ChainStep(devs, a[0]), a[1..], b);
    }
  }

  /** Every controller is in state t. */
  ghost predicate AllIn(devs: seq<Device>, t: TapState)
  {
    forall i :: 0 <= i < |devs| ==> devs[i].tap == t
  }

  lemma {:induction false} StepAt(devs: seq<Device>, c: Clock, i: nat)
    requires i < |devs|
    ensures ChainStep(devs, c)[i] == Step(devs[i], c.(tdi := ChainTdo(devs[i + 1..], c.tdi)))
  {
    if i > 0 {
      StepAt(devs[1..], c, i - 1);
      assert devs[1..][i..] == devs[i + 1..];
    }
  }

  lemma {:induction false} DeviceStepKeepsValid(d: Device, c: Clock)
    requires ValidDevice(d)
    ensures ValidDevice(Step(d, c)) && Step(d, c).part == d.part
  {
    ActKeepsValid(d, c.tdi);
    EnterKeepsValid(Act(d, c.tdi), NextState(d.tap, c.tms));
    EnterKeepsValid(d, TestLogicReset);
  }

  lemma {:induction false} ActKeepsValid(d: Device, tdi: bool)
    requires ValidDevice(d)
    ensures ValidDevice(Act(d, tdi)) && Act(d, tdi).part == d.part
  {
    assert |Captured(d)| >= 1;
  }

  lemma {:induction false} EnterKeepsValid(d: Device, t: TapState)
    requires ValidDevice(d)
    ensures ValidDevice(Enter(d, t)) && Enter(d, t).part == d.part
  {
  }

  lemma {:induction false} StepKeepsValid(devs: seq<Device>, c: Clock)
    requires ValidChain(devs)
    ensures ValidChain(ChainStep(devs, c))
    ensures forall i :: 0 <= i < |devs| ==> ChainStep(devs, c)[i].part == devs[i].part
  {
    forall i | 0 <= i < |devs|
      ensures ValidDevice(ChainStep(devs, c)[i]) && ChainStep(devs, c)[i].part == devs[i].part
    {
      StepAt(devs, c, i);
      DeviceStepKeepsValid(devs[i], c.(tdi := ChainTdo(devs[i + 1..], c.tdi)));
    }
  }

  lemma {:induction false} RunKeepsValid(devs: seq<Device>, clocks: seq<Clock>)
    requires ValidChain(devs)
    ensures ValidChain(Run(devs, clocks).chain)
    ensures forall i :: 0 <= i < |devs| ==> Run(devs, clocks).chain[i].part == devs[i].part
    decreases clocks
  {
    if clocks != [] {
      StepKeepsValid(devs, clocks[0]);
      RunKeepsValid(ChainStep(devs, clocks[0]), clocks[1..]);
    }
  }

  // ---------- Reset ----------

  function TmsOnes(n: nat): (r: seq<Clock>)
    ensures |r| == n
  {
    seq(n, i => C(true, false))
  }

  /** The clocks of tap_reset: one idle bit, eight with TMS, one with TRST, one idle bit. */
  function ResetClocks(): seq<Clock>
  {
    [C(false, false)] + TmsOnes(8) + [Clock(false, false, true)] + [C(false, false)]
  }

  /** How many clocks with TMS high separate a state from Test-Logic-Reset. */
  function Distance(t: TapState): (n: nat)
    ensures n <= 5
    ensures n == 0 <==> t == TestLogicReset
  {
    match t
    case TestLogicReset => 0
    case SelectIr => 1
    case SelectDr => 2
    case RunTestIdle => 3
    case UpdateDr => 3
    case UpdateIr => 3
    case Exit1Dr => 4
    case Exit2Dr => 4
    case Exit1Ir => 4
    case Exit2Ir => 4
    case _ => 5
  }

  lemma {:induction false} TmsApproachesReset(t: TapState)
    ensures Distance(NextState(t, true)) == if t == TestLogicReset then 0 else Distance(t) - 1
  {
  }

  /** Every device is in state t with its reset instruction loaded. */
  ghost predicate AllReset(devs: seq<Device>, t: TapState)
  {
    forall i :: 0 <= i < |devs| ==> devs[i].tap == t && devs[i].ir == ResetInstr(devs[i].part)
  }

  /** n >= 1 clocks with TMS high bring every device n states closer to reset. */
  lemma {:induction false} OnesRun(devs: seq<Device>, n: nat, bound: nat)
    requires n >= 1 && forall i :: 0 <= i < |devs| ==> Distance(devs[i].tap) <= bound
    ensures var r := Run(devs, TmsOnes(n)).chain;
            forall i :: 0 <= i < |devs| ==>
              Distance(r[i].tap) <= (if bound >= n then bound - n else 0)
              && (r[i].tap == TestLogicReset ==> r[i].ir == ResetInstr(r[i].part))
    decreases n
  {
    var next := ChainStep(devs, C(true, false));
    forall i | 0 <= i < |devs|
      ensures Distance(next[i].tap) <= (if bound >= 1 then bound - 1 else 0)
      ensures next[i].tap == TestLogicReset ==> next[i].ir == ResetInstr(next[i].part)
    {
      StepAt(devs, C(true, false), i);
      TmsApproachesReset(devs[i].tap);
    }
    assert TmsOnes(n)[1..] == TmsOnes(n - 1);
    if n == 1 {
      assert Run(next, []).chain == next;
    } else {
      assert Run(devs, TmsOnes(n)).chain == Run(next, TmsOnes(n - 1)).chain;
      OnesRun(next, n - 1, if bound >= 1 then bound - 1 else 0);
    }
  }

  /** After the TRST clock each device is either held in reset or already idling. */
  lemma {:induction false} TrstThenIdle(devs: seq<Device>)
    requires AllReset(devs, TestLogicReset)
    ensures AllReset(ChainStep(ChainStep(devs, Clock(false, false, true)), C(false, false)), RunTestIdle)
  {
    var mid := ChainStep(devs, Clock(false, false, true));
    forall i | 0 <= i < |devs|
      ensures var d := ChainStep(mid, C(false, false))[i];
              d.tap == RunTestIdle && d.ir == ResetInstr(d.part)
    {
      StepAt(devs, Clock(false, false, true), i);
      StepAt(mid, C(false, false), i);
    }
  }

  lemma {:induction false} RunOne(devs: seq<Device>, c: Clock)
    ensures Run(devs, [c]).chain == ChainStep(devs, c)
    ensures Run(devs, [c]).tdo == [ChainTdo(devs, c.tdi)]
  {
    assert [c][1..] == [];
    assert Run(ChainStep(devs, c), []) == Trace(ChainStep(devs, c), []);
  }

  /**
   tap_reset takes every device from any state to Run-Test/Idle with its reset instruction, with
   or without TRST wired.
   */
  lemma {:induction false} ResetReachesIdle(devs: seq<Device>)
    ensures AllReset(Run(devs, ResetClocks()).chain, RunTestIdle)
  {
    var trst, idle := Clock(false, false, true), C(false, false);
    RunConcat(devs, [idle] + TmsOnes(8) + [trst], [idle]);
    RunConcat(devs, [idle] + TmsOnes(8), [trst]);
    RunConcat(devs, [idle], TmsOnes(8));
    var s0 := Run(devs, [idle]).chain;
    var s1 := Run(s0, TmsOnes(8)).chain;
    OnesRun(s0, 8, 5);
    RunOne(s1, trst);
    RunOne(ChainStep(s1, trst), idle);
    TrstThenIdle(s1);
  }

  // ---------- The chain as one shift register ----------

  datatype Kind = Dr | Ir

  function ShiftStateOf(k: Kind): TapState
  {
    if k == Dr then ShiftDr else ShiftIr
  }

  function ExitStateOf(k: Kind): TapState
  {
    if k == Dr then Exit1Dr else Exit1Ir
  }

  function Reg(d: Device, k: Kind): seq<bool>
  {
    if k == Dr then d.drShift else d.irShift
  }

  function SetReg(d: Device, k: Kind, r: seq<bool>): Device
  {
    if k == Dr then d.(drShift := r) else d.(irShift := r)
  }

  /** All shift registers end to end, the bit next to TDO first. */
  function Regs(devs: seq<Device>, k: Kind): seq<bool>
  {
    if devs == [] then [] else Reg(devs[0], k) + Regs(devs[1..], k)
  }

  /** b is a with new register contents of the same lengths, all controllers in state t. */
  ghost predicate Shifted(a: seq<Device>, b: seq<Device>, k: Kind, t: TapState)
  {
    |a| == |b| && forall i :: 0 <= i < |a| ==>
      b[i] == SetReg(a[i], k, Reg(b[i], k)).(tap := t) && |Reg(b[i], k)| == |Reg(a[i], k)|
  }

  /** A shift clock for one device: it passes its first bit on and takes in the next one. */
  lemma {:induction false} ShiftStep(d: Device, k: Kind, tms: bool, tdi: bool)
    requires ValidDevice(d) && d.tap == ShiftStateOf(k)
    ensures |Reg(d, k)| >= 1 && Tdo(d) == Reg(d, k)[0]
    ensures Step(d, C(tms, tdi))
         == SetReg(d, k, Reg(d, k)[1..] + [tdi]).(tap := if tms then ExitStateOf(k) else ShiftStateOf(k))
  {
  }

  lemma {:induction false} SpliceLine(r: seq<bool>, rest: seq<bool>, tdi: bool, rest': seq<bool>, mid: bool)
    requires |r| >= 1 && mid == (rest + [tdi])[0] && rest' == (rest + [tdi])[1..]
    ensures (r[1..] + [mid]) + rest' == (r + rest + [tdi])[1..]
  {
    assert [mid] + rest' == rest + [tdi];
    assert (r[1..] + [mid]) + rest' == r[1..] + ([mid] + rest');
  }

  /** One shift clock moves the whole chain by one bit, from the cable's TDI to its TDO. */
  lemma {:induction false} ShiftClock(devs: seq<Device>, k: Kind, tms: bool, tdi: bool)
    requires ValidChain(devs) && AllIn(devs, ShiftStateOf(k))
    ensures var line := Regs(devs, k) + [tdi];
            var next := ChainStep(devs, C(tms, tdi));
            && ChainTdo(devs, tdi) == line[0] && Regs(next, k) == line[1..]
    ensures Shifted(devs, ChainStep(devs, C(tms, tdi)), k, if tms then ExitStateOf(k) else ShiftStateOf(k))
  {
    if devs != [] {
      var rest := devs[1..];
      ShiftClock(rest, k, tms, tdi);
      var mid := ChainTdo(rest, tdi);
      ShiftStep(devs[0], k, tms, mid);
      var next := ChainStep(devs, C(tms, tdi));
      var restNext := ChainStep(rest, C(tms, tdi));
      assert next == [next[0]] + restNext;
      SpliceLine(Reg(devs[0], k), Regs(rest, k), tdi, Regs(restNext, k), mid);
      assert next[1..] == restNext;
      forall i | 0 <= i < |devs|
        ensures next[i] == SetReg(devs[i], k, Reg(next[i], k)).(tap := if tms then ExitStateOf(k) else ShiftStateOf(k))
        ensures |Reg(next[i], k)| == |Reg(devs[i], k)|
      {
        if i > 0 {
          assert next[i] == restNext[i - 1] && devs[i] == rest[i - 1];
        }
      }
    }
  }

  lemma {:induction false} ShiftedValid(a: seq<Device>, b: seq<Device>, k: Kind, t: TapState)
    requires ValidChain(a) && Shifted(a, b, k, t)
    ensures ValidChain(b) && AllIn(b, t)
  {
  }

  lemma {:induction false} ShiftedTransitive(a: seq<Device>, b: seq<Device>, c: seq<Device>, k: Kind, t: TapState,
                                             u: TapState)
    requires Shifted(a, b, k, t) && Shifted(b, c, k, u)
    ensures Shifted(a, c, k, u)
  {
  }

  /** The clocks of a stream write: bits in order, TMS on the last one if asked. */
  function StreamClocks(bits: seq<bool>, setTms: bool): (r: seq<Clock>)
    ensures |r| == |bits|
  {
    seq(|bits|, i requires 0 <= i < |bits| => C(setTms && i == |bits| - 1, bits[i]))
  }

  /** A stream through the chain: what comes out and what stays in. */
  lemma {:induction false} ShiftRun(devs: seq<Device>, k: Kind, bits: seq<bool>, setTms: bool)
    requires ValidChain(devs) && AllIn(devs, ShiftStateOf(k)) && |bits| >= 1
    ensures var line := Regs(devs, k) + bits;
            var r := Run(devs, StreamClocks(bits, setTms));
            && r.tdo == line[..|bits|] && Regs(r.chain, k) == line[|bits|..]
            && Shifted(devs, r.chain, k, if setTms then ExitStateOf(k) else ShiftStateOf(k))
    decreases bits
  {
    var clocks := StreamClocks(bits, setTms);
    var tms := setTms && |bits| == 1;
    ShiftClock(devs, k, tms, bits[0]);
    var next := ChainStep(devs, clocks[0]);
    StreamLine(Regs(devs, k), Regs(next, k), bits);
    if |bits| == 1 {
      assert clocks == [clocks[0]];
      RunOne(devs, clocks[0]);
    } else {
      ShiftedValid(devs, next, k, ShiftStateOf(k));
      assert clocks[1..] == StreamClocks(bits[1..], setTms);
      ShiftRun(next, k, bits[1..], setTms);
      ShiftedTransitive(devs, next, Run(next, clocks[1..]).chain, k, ShiftStateOf(k),
                        if setTms then ExitStateOf(k) else ShiftStateOf(k));
    }
  }

  lemma {:induction false} StreamLine(r: seq<bool>, r': seq<bool>, bits: seq<bool>)
    requires |bits| >= 1 && r' == (r + [bits[0]])[1..]
    ensures var line, line', n := r + bits, r' + bits[1..], |bits| - 1;
            line[..|bits|] == [(r + [bits[0]])[0]] + line'[..n] && line[|bits|..] == line'[n..]
  {
    var line, line' := r + bits, r' + bits[1..];
    assert line' == line[1..];
    assert line == [line[0]] + line';
  }

  // ---------- One device's part of the line ----------

  /** Where device i's register starts in the line. */
  function Offset(devs: seq<Device>, k: Kind, i: nat): nat
    requires i <= |devs|
  {
    if i == 0 then 0 else |Reg(devs[0], k)| + Offset(devs[1..], k, i - 1)
  }

  lemma {:induction false} RegSlice(devs: seq<Device>, k: Kind, i: nat)
    requires i < |devs|
    ensures var o := Offset(devs, k, i);
            o + |Reg(devs[i], k)| <= |Regs(devs, k)|
            && Regs(devs, k)[o..o + |Reg(devs[i], k)|] == Reg(devs[i], k)
  {
    if i > 0 {
      var tail, o := devs[1..], Offset(devs[1..], k, i - 1);
      RegSlice(tail, k, i - 1);
      assert tail[i - 1] == devs[i];
      SliceInSecond(Reg(devs[0], k), Regs(tail, k), o, Reg(devs[i], k), Regs(devs, k));
    } else {
      FirstSlice(Reg(devs[0], k), Regs(devs[1..], k));
    }
  }

  lemma {:induction false} FirstSlice(a: seq<bool>, b: seq<bool>)
    ensures (a + b)[0..|a|] == a
  {
  }

  lemma {:induction false} SliceInSecond(a: seq<bool>, b: seq<bool>, o: nat, part: seq<bool>, all: seq<bool>)
    requires all == a + b && o + |part| <= |b| && b[o..o + |part|] == part
    ensures |a| + o + |part| <= |all| && all[|a| + o..|a| + o + |part|] == part
  {
    SliceAppend(a, b, o, |part|);
  }

  lemma {:induction false} OffsetShifted(a: seq<Device>, b: seq<Device>, k: Kind, i: nat)
    requires |a| == |b| && i <= |a|
    requires forall j :: 0 <= j < |a| ==> |Reg(a[j], k)| == |Reg(b[j], k)|
    ensures Offset(a, k, i) == Offset(b, k, i) && |Regs(a, k)| == |Regs(b, k)|
  {
    if a != [] {
      if i > 0 {
        OffsetShifted(a[1..], b[1..], k, i - 1);
      } else {
        OffsetShifted(a[1..], b[1..], k, 0);
      }
    }
  }
}
