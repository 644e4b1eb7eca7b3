/**
 The host side of chain_commands.c: a cable that clocks the chain, and the TAP operations built on
 it. Every operation is specified by the clock sequence it sends; ChainScan says what such
 sequences do to the devices.
 */
module ChainCommands {
  import opened Bits
  import opened Tap
  import opened ChainScan
  import opened IrPacking

  lemma {:induction false} RunSnoc(devs: seq<Device>, cs: seq<Clock>, c: Clock)
    ensures Run(devs, cs + [c]).chain == ChainStep(Run(devs, cs).chain, c)
    ensures Run(devs, cs + [c]).tdo == Run(devs, cs).tdo + [ChainTdo(Run(devs, cs).chain, c.tdi)]
  {
    RunConcat(devs, cs, [c]);
    RunOne(Run(devs, cs).chain, c);
  }

  /** The clocks of jtag_write_stream: past the prefix devices only if TMS ends the transfer. */
  function WriteClocks(bits: seq<bool>, setTms: bool, prefix: nat): seq<Clock>
  {
    StreamClocks(WriteBits(bits, setTms, prefix), setTms)
  }

  lemma {:induction false} SplitStream(bits: seq<bool>, prefix: nat)
    requires prefix > 0
    ensures WriteClocks(bits, true, prefix)
         == StreamClocks(bits, false) + (StreamClocks(Zeros(prefix - 1), false) + [C(true, false)])
  {
    assert WriteBits(bits, true, prefix) == bits + Zeros(prefix);
  }

  /** The cable, the chain it clocks, and the configuration globals. */
  class Jtag {
    var chain: seq<Device>
    var irSize: nat
    var irPrefix: nat
    var irPostfix: nat
    var drPrefix: nat
    var drPostfix: nat
    /** The debug unit's selected module as the host believes it, -1 for unknown. */
    var currentChain: int

    constructor (devs: seq<Device>)
      ensures chain == devs && currentChain == -1
      ensures irSize == irPrefix == irPostfix == drPrefix == drPostfix == 0
    {
      chain, currentChain := devs, -1;
      irSize, irPrefix, irPostfix, drPrefix, drPostfix := 0, 0, 0, 0, 0;
    }

    /** The part of configure_chain that places the target: instruction bits and devices on either side of it. */
    method Configure(irLens: seq<nat>, target: nat)
      requires target < |irLens|
      modifies this`irSize, this`irPrefix, this`irPostfix, this`drPrefix, this`drPostfix
      ensures irSize == irLens[target]
      ensures irPostfix == Sum(irLens[..target]) && irPrefix == Sum(irLens[target + 1..])
      ensures drPostfix == target && drPrefix + 1 + drPostfix == |irLens|
    {
      irSize := irLens[target];
      irPostfix, irPrefix := CountIrBits(irLens, target);
      drPrefix := |irLens| - target - 1;
      drPostfix := target;
    }

    method WriteBit(c: Clock)
      modifies this`chain
      ensures chain == ChainStep(old(chain), c)
    {
      chain := ChainStep(chain, c);
    }

    method ReadWriteBit(c: Clock) returns (bit: bool)
      modifies this`chain
      ensures chain == ChainStep(old(chain), c) && bit == ChainTdo(old(chain), c.tdi)
    {
      bit := ChainTdo(chain, c.tdi);
      chain := ChainStep(chain, c);
    }

    /** cable_read_write_stream, bit by bit; a plain write drops the result. */
    method CableStream(bits: seq<bool>, setTms: bool) returns (inBits: seq<bool>)
      modifies this`chain
      ensures chain == Run(old(chain), StreamClocks(bits, setTms)).chain
      ensures inBits == Run(old(chain), StreamClocks(bits, setTms)).tdo
    {
      ghost var clocks := StreamClocks(bits, setTms);
      inBits := [];
      for i := 0 to |bits|
        invariant chain == Run(old(chain), clocks[..i]).chain
        invariant inBits == Run(old(chain), clocks[..i]).tdo
      {
        RunSnoc(old(chain), clocks[..i], clocks[i]);
        assert clocks[..i + 1] == clocks[..i] + [clocks[i]];
        var bit := ReadWriteBit(C(setTms && i == |bits| - 1, bits[i]));
        inBits := inBits + [bit];
      }
      assert clocks[..|bits|] == clocks;
    }

    method TapReset()
      modifies this`chain, this`currentChain
      ensures chain == Run(old(chain), ResetClocks()).chain && currentChain == -1
    {
      ghost var clocks := [C(false, false)];
      RunOne(chain, C(false, false));
      WriteBit(C(false, false));
      for i := 0 to 8
        invariant clocks == [C(false, false)] + TmsOnes(i) && chain == Run(old(chain), clocks).chain
      {
        RunSnoc(old(chain), clocks, C(true, false));
        clocks := clocks + [C(true, false)];
        WriteBit(C(true, false));
      }
      RunSnoc(old(chain), clocks, Clock(false, false, true));
      WriteBit(Clock(false, false, true));
      RunSnoc(old(chain), clocks + [Clock(false, false, true)], C(false, false));
      WriteBit(C(false, false));
      currentChain := -1;
    }

    method TapSetShiftDr()
      modifies this`chain
      ensures chain == Run(old(chain), SetShiftDr()).chain
    {
      RunOne(chain, C(true, false));
      RunSnoc(chain, [C(true, false)], C(false, false));
      RunSnoc(chain, [C(true, false)] + [C(false, false)], C(false, false));
      assert SetShiftDr() == [C(true, false)] + [C(false, false)] + [C(false, false)];
      WriteBit(C(true, false));
      WriteBit(C(false, false));
      WriteBit(C(false, false));
    }

    /** The four clocks in front of an instruction scan. */
    method TapSetShiftIr()
      modifies this`chain
      ensures chain == Run(old(chain), SetShiftIr()).chain
    {
      RunOne(chain, C(true, false));
      RunSnoc(chain, [C(true, false)], C(true, false));
      RunSnoc(chain, [C(true, false)] + [C(true, false)], C(false, false));
      RunSnoc(chain, [C(true, false)] + [C(true, false)] + [C(false, false)], C(false, false));
      assert SetShiftIr() == [C(true, false)] + [C(true, false)] + [C(false, false)] + [C(false, false)];
      WriteBit(C(true, false));
      WriteBit(C(true, false));
      WriteBit(C(false, false));
      WriteBit(C(false, false));
    }

    method TapExitToIdle()
      modifies this`chain
      ensures chain == Run(old(chain), ExitToIdle()).chain
    {
      RunOne(chain, C(true, false));
      RunSnoc(chain, [C(true, false)], C(false, false));
      WriteBit(C(true, false));
      WriteBit(C(false, false));
    }

    /**
     tap_set_ir: pack the instruction among BYPASS instructions, scan the whole chain, and forget
     which debug module was selected.
     */
    method TapSetIr(ir: Word) returns (ghost words: seq<Word>)
      requires 1 <= irSize <= 32
      modifies this`chain, this`currentChain
      ensures Packed(words, ir, irPostfix / 32, irPostfix % 32, irSize)
      ensures irPostfix + irSize + irPrefix <= 32 * |words|
      ensures chain == Run(old(chain), SetIr(StreamBits(words, irPostfix + irSize + irPrefix))).chain
      ensures currentChain == -1
    {
      WordCount(irPostfix, irSize, irPrefix);
      var irChain := PackIr(ir, irPostfix, irSize, irPrefix);
      words := irChain[..];
      ScanIr(StreamBits(irChain[..], irPostfix + irSize + irPrefix));
      currentChain := -1;
    }

    /** The transaction itself. */
    method ScanIr(bits: seq<bool>)
      modifies this`chain
      ensures chain == Run(old(chain), SetIr(bits)).chain
    {
      SetIrPhases(chain, bits);
      TapSetShiftIr();
      var _ := CableStream(bits, true);
      TapExitToIdle();
    }

    /** The n zero bits that push data past other devices. */
    method PushZeros(n: nat)
      modifies this`chain
      ensures chain == Run(old(chain), StreamClocks(Zeros(n), false)).chain
    {
      for i := 0 to n
        invariant chain == Run(old(chain), StreamClocks(Zeros(i), false)).chain
      {
        RunSnoc(old(chain), StreamClocks(Zeros(i), false), C(false, false));
        assert StreamClocks(Zeros(i + 1), false) == StreamClocks(Zeros(i), false) + [C(false, false)];
        WriteBit(C(false, false));
      }
    }

    /**
     The part shared by jtag_write_stream and jtag_read_write_stream: the data, and if TMS is to
     end the transfer behind other devices, zeros that carry it past them.
     */
    method StreamPastPrefix(bits: seq<bool>, setTms: bool) returns (inBits: seq<bool>)
      modifies this`chain
      ensures inBits == Run(old(chain), StreamClocks(bits, setTms && drPrefix == 0)).tdo
      ensures chain == Run(old(chain), WriteClocks(bits, setTms, drPrefix)).chain
    {
      if !setTms {
        inBits := CableStream(bits, false);
      } else if drPrefix == 0 {
        assert bits + Zeros(0) == bits;
        inBits := CableStream(bits, true);
      } else {
        SplitStream(bits, drPrefix);
        RunConcat(chain, StreamClocks(bits, false), StreamClocks(Zeros(drPrefix - 1), false) + [C(true, false)]);
        inBits := CableStream(bits, false);
        RunSnoc(chain, StreamClocks(Zeros(drPrefix - 1), false), C(true, false));
        PushZeros(drPrefix - 1);
        WriteBit(C(true, false));
      }
    }

    method WriteStream(bits: seq<bool>, setTms: bool)
      modifies this`chain
      ensures chain == Run(old(chain), WriteClocks(bits, setTms, drPrefix)).chain
    {
      var _ := StreamPastPrefix(bits, setTms);
    }

    /** With adjust, the bits of the devices next to the cable are shifted out first. */
    method ReadWriteStream(bits: seq<bool>, adjust: bool, setTms: bool) returns (inBits: seq<bool>)
      modifies this`chain
      ensures var mid := Burnt(old(chain), if adjust then drPostfix else 0);
              && inBits == Run(mid, StreamClocks(bits, setTms && drPrefix == 0)).tdo
              && chain == Run(mid, WriteClocks(bits, setTms, drPrefix)).chain
    {
      if adjust && drPostfix > 0 {
        PushZeros(drPostfix);
      }
      inBits := StreamPastPrefix(bits, setTms);
    }

    /** jtag_get_idcode: select the instruction and read 32 bits of the target's register. */
    method GetIdcode(cmd: Word) returns (idcode: seq<bool>, ghost words: seq<Word>, ghost selected: seq<Device>)
      requires 1 <= irSize <= 32
      modifies this`chain, this`currentChain
      ensures Packed(words, cmd, irPostfix / 32, irPostfix % 32, irSize)
      ensures irPostfix + irSize + irPrefix <= 32 * |words|
      ensures selected == Run(old(chain), SetIr(StreamBits(words, irPostfix + irSize + irPrefix))).chain
      ensures (chain, idcode) == ReadOut(selected, drPostfix, drPrefix)
    {
      words, selected := SelectInstruction(cmd);
      idcode := ReadSelected();
    }

    method SelectInstruction(cmd: Word) returns (ghost words: seq<Word>, ghost selected: seq<Device>)
      requires 1 <= irSize <= 32
      modifies this`chain, this`currentChain
      ensures Packed(words, cmd, irPostfix / 32, irPostfix % 32, irSize)
      ensures irPostfix + irSize + irPrefix <= 32 * |words|
      ensures selected == Run(old(chain), SetIr(StreamBits(words, irPostfix + irSize + irPrefix))).chain
      ensures chain == selected
    {
      words := TapSetIr(cmd);
      selected := chain;
    }

    method ReadSelected() returns (idcode: seq<bool>)
      modifies this`chain
      ensures (chain, idcode) == ReadOut(old(chain), drPostfix, drPrefix)
    {
      TapSetShiftDr();
      idcode := ReadWriteStream(Zeros(32), true, true);
      TapExitToIdle();
    }
  }

  /** The chain after n zeros have been shifted through it. */
  function Burnt(devs: seq<Device>, n: nat): seq<Device>
  {
    if n == 0 then devs else Run(devs, StreamClocks(Zeros(n), false)).chain
  }

  /** Thirty-two bits of the selected registers, behind postfix bits of the devices in front. */
  function SelectedRead(selected: seq<Device>, postfix: nat, prefix: nat): seq<bool>
  {
    var shifting := Run(selected, SetShiftDr()).chain;
    Run(Burnt(shifting, postfix), StreamClocks(Zeros(32), prefix == 0)).tdo
  }

  /** The chain afterwards. */
  function ReadAway(selected: seq<Device>, postfix: nat, prefix: nat): seq<Device>
  {
    var shifting := Run(selected, SetShiftDr()).chain;
    Run(Run(Burnt(shifting, postfix), WriteClocks(Zeros(32), true, prefix)).chain, ExitToIdle()).chain
  }

  /** The chain after a read, and what was read. */
  function ReadOut(selected: seq<Device>, postfix: nat, prefix: nat): (seq<Device>, seq<bool>)
  {
    (ReadAway(selected, postfix, prefix), SelectedRead(selected, postfix, prefix))
  }

  /** A read leaves every controller idle. */
  lemma {:induction false} ReadLeavesIdle(selected: seq<Device>, postfix: nat, prefix: nat)
    requires ValidChain(selected) && AllIn(selected, RunTestIdle)
    ensures AllIn(ReadAway(selected, postfix, prefix), RunTestIdle)
  {
    EnterShiftDr(selected);
    RunKeepsValid(selected, SetShiftDr());
    var s := Run(selected, SetShiftDr()).chain;
    var t := Burnt(s, postfix);
    if postfix > 0 {
      ShiftRun(s, Dr, Zeros(postfix), false);
      ShiftedValid(s, t, Dr, ShiftDr);
    }
    ShiftRun(t, Dr, WriteBits(Zeros(32), true, prefix), true);
    LeaveToIdle(Run(t, WriteClocks(Zeros(32), true, prefix)).chain, Dr);
  }
}
