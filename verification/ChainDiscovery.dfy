/**
 Discovering an unknown chain: after a reset every device shows either a BYPASS zero or its
 32-bit IDCODE, and a marker pushed in behind them tells where the chain ends.
 */
module ChainDiscovery {
  import opened Bits
  import opened Tap
  import opened ChainScan
  import opened ChainCommands

  const ALLOC_SIZE := 64
  const MAX_DEVICES := 1024

  // ---------- What the chain shows ----------

  /** The bits a freshly reset device captures. */
  function ShownBy(p: Part): seq<bool>
  {
    if p.id.Some? then p.id.value else [false]
  }

  function Shown(parts: seq<Part>): seq<bool>
  {
    if parts == [] then [] else ShownBy(parts[0]) + Shown(parts[1..])
  }

  /** The code reported for a device: its IDCODE, or -1 when it only has a bypass bit. */
  function CodeOf(p: Part): Word
  {
    if p.id.Some? then p.id.value else Ones(32)
  }

  /** The manufacturer field of the end marker, 0x3f in 11 bits. */
  function DoneCode(): (r: seq<bool>)
    ensures |r| == 11 && forall i :: 0 <= i < 11 ==> r[i] == (i < 6)
  {
    Ones(6) + Zeros(5)
  }

  /** A device whose manufacturer field reads like the end marker. */
  predicate LooksLikeEnd(p: Part)
  {
    p.id.Some? && p.id.value[1..12] == DoneCode()
  }

  /** The list the algorithm returns: up to max codes, cut off at the first false end marker. */
  function Discovered(parts: seq<Part>, max: nat): (r: seq<Word>)
    ensures |r| <= |parts| && |r| <= max
    decreases max
  {
    if parts == [] || max == 0 || LooksLikeEnd(parts[0]) then []
    else [CodeOf(parts[0])] + Discovered(parts[1..], max - 1)
  }

  function Codes(parts: seq<Part>): (r: seq<Word>)
    ensures |r| == |parts|
  {
    if parts == [] then [] else [CodeOf(parts[0])] + Codes(parts[1..])
  }

  /**
   Discovery returns exactly the chain if and only if the chain has at most MAX_DEVICES devices
   and none of them uses the reserved manufacturer code.
   */
  lemma {:induction false} DiscoveryExact(parts: seq<Part>, max: nat)
    ensures Discovered(parts, max) == Codes(parts)
       <==> |parts| <= max && forall i :: 0 <= i < |parts| ==> !LooksLikeEnd(parts[i])
    decreases max
  {
    if parts != [] && max > 0 {
      DiscoveryExact(parts[1..], max - 1);
      if LooksLikeEnd(parts[0]) {
      } else {
        assert forall i :: 0 < i < |parts| ==> parts[i] == parts[1..][i - 1];
        if Discovered(parts, max) == Codes(parts) {
          assert Discovered(parts, max)[1..] == Codes(parts)[1..];
        }
      }
    }
  }

  /** Bit k of what comes out when the marker is shifted in behind the line r. */
  function Out(r: seq<bool>, k: nat): bool
  {
    if k < |r| then r[k] else k - |r| < 7
  }

  /** The marker bits from position k on: 0x7f and then zeros. */
  function Marker(k: nat, n: nat): (r: seq<bool>)
    ensures |r| == n && forall i :: 0 <= i < n ==> r[i] == (k + i < 7)
  {
    seq(n, i requires 0 <= i < n => k + i < 7)
  }

  lemma {:induction false} MarkerMoves(k: nat, n: nat)
    requires n < 32
    ensures Shr(Marker(k, 32), n) == Marker(k + n, 32) && Marker(k, 32)[..n] == Marker(k, n)
  {
  }

  /** After k shifts the chain holds the next |r| bits of the output. */
  ghost predicate Showing(devs: seq<Device>, r: seq<bool>, k: nat)
  {
    && ValidChain(devs) && AllIn(devs, ShiftDr)
    && |Regs(devs, Dr)| == |r|
    && forall t :: 0 <= t < |r| ==> Regs(devs, Dr)[t] == Out(r, k + t)
  }

  lemma {:induction false} ShowMore(devs: seq<Device>, r: seq<bool>, k: nat, n: nat)
    requires Showing(devs, r, k) && n >= 1
    ensures var t := Run(devs, StreamClocks(Marker(k, n), false));
            Showing(t.chain, r, k + n)
    ensures var t := Run(devs, StreamClocks(Marker(k, n), false));
            forall i :: 0 <= i < n ==> t.tdo[i] == Out(r, k + i)
  {
    ShiftRun(devs, Dr, Marker(k, n), false);
    var t := Run(devs, StreamClocks(Marker(k, n), false));
    ShiftedValid(devs, t.chain, Dr, ShiftDr);
    var line := Regs(devs, Dr) + Marker(k, n);
    assert forall i :: 0 <= i < |line| ==> line[i] == Out(r, k + i);
    forall i | 0 <= i < |r|
      ensures Regs(t.chain, Dr)[i] == Out(r, k + n + i)
    {
      assert Regs(t.chain, Dr)[i] == line[n + i];
    }
  }

  function Parts(devs: seq<Device>): (r: seq<Part>)
    ensures |r| == |devs| && forall i :: 0 <= i < |devs| ==> r[i] == devs[i].part
  {
    seq(|devs|, i requires 0 <= i < |devs| => devs[i].part)
  }

  lemma {:induction false} ShownIsRegs(devs: seq<Device>)
    requires forall i :: 0 <= i < |devs| ==> devs[i].drShift == ShownBy(devs[i].part)
    ensures Regs(devs, Dr) == Shown(Parts(devs))
  {
    if devs != [] {
      ShownIsRegs(devs[1..]);
      assert Parts(devs)[1..] == Parts(devs[1..]);
    }
  }

  /** Entering Shift-DR after a reset puts every device's bits on show. */
  lemma {:induction false} FirstShow(devs: seq<Device>)
    requires ValidChain(devs) && AllReset(devs, RunTestIdle)
    ensures Showing(Run(devs, SetShiftDr()).chain, Shown(Parts(devs)), 0)
  {
    EnterShiftDr(devs);
    RunKeepsValid(devs, SetShiftDr());
    var s := Run(devs, SetShiftDr()).chain;
    forall i | 0 <= i < |devs|
      ensures s[i].drShift == ShownBy(s[i].part)
    {
      assert ValidDevice(devs[i]);
    }
    ShownIsRegs(s);
    assert Parts(s) == Parts(devs);
  }

  lemma {:induction false} ShownSplit(parts: seq<Part>, j: nat)
    requires j < |parts|
    ensures Shown(parts[j..]) == ShownBy(parts[j]) + Shown(parts[j + 1..])
  {
    assert parts[j..][1..] == parts[j + 1..];
  }

  /** Position k of the output is where device j (or the marker) begins. */
  ghost predicate AtDevice(parts: seq<Part>, j: nat, k: nat)
  {
    j <= |parts| && k <= |Shown(parts)| && Shown(parts)[k..] == Shown(parts[j..])
  }

  lemma {:induction false} NextDevice(parts: seq<Part>, j: nat, k: nat)
    requires AtDevice(parts, j, k) && j < |parts|
    ensures AtDevice(parts, j + 1, k + |ShownBy(parts[j])|)
    ensures forall i :: 0 <= i < |ShownBy(parts[j])| ==> Out(Shown(parts), k + i) == ShownBy(parts[j])[i]
  {
    ShownSplit(parts, j);
    var r, w := Shown(parts), ShownBy(parts[j]);
    assert r[k..][|w|..] == Shown(parts[j + 1..]);
    assert r[k + |w|..] == r[k..][|w|..];
    forall i | 0 <= i < |w|
      ensures Out(r, k + i) == w[i]
    {
      assert r[k..][i] == w[i];
    }
  }

  lemma {:induction false} AtEnd(parts: seq<Part>, k: nat)
    requires AtDevice(parts, |parts|, k)
    ensures k == |Shown(parts)|
  {
    assert parts[|parts|..] == [];
    assert |Shown(parts)[k..]| == 0;
  }

  // ---------- The algorithm ----------

  /** Make room for entry devindex, doubling the array when it is full. */
  method MakeRoom(idcodes: array<Word>, devindex: nat, reallocs: nat) returns (a: array<Word>, r: nat)
    requires idcodes.Length == ALLOC_SIZE * Pow2(reallocs) && devindex <= idcodes.Length
    ensures a.Length == ALLOC_SIZE * Pow2(r) && devindex < a.Length
    ensures a[..devindex] == idcodes[..devindex]
    ensures a == idcodes || fresh(a)
  {
    a, r := idcodes, reallocs;
    if devindex >= ALLOC_SIZE * Pow2(reallocs) {
      r := reallocs + 1;
      a := new Word[ALLOC_SIZE * Pow2(r)](i => Zeros(32));
      for i := 0 to idcodes.Length
        invariant idcodes.Length <= a.Length && fresh(a)
        invariant a[..i] == idcodes[..i]
      {
        a[i] := idcodes[i];
        assert a[..i + 1] == a[..i] + [a[i]];
      }
    }
  }

  /** Store the next code, enlarging the array first if it is full. */
  method Append(idcodes: array<Word>, devindex: nat, reallocs: nat, code: Word) returns (a: array<Word>, r: nat)
    requires idcodes.Length == ALLOC_SIZE * Pow2(reallocs) && devindex <= idcodes.Length
    modifies idcodes
    ensures a.Length == ALLOC_SIZE * Pow2(r) && devindex < a.Length
    ensures a[..devindex + 1] == old(idcodes[..devindex]) + [code]
    ensures a == idcodes || fresh(a)
  {
    a, r := MakeRoom(idcodes, devindex, reallocs);
    a[devindex] := code;
    assert a[..devindex + 1] == a[..devindex] + [code];
  }

  /** (temp_rest_code << 12) | (temp_manuf_code << 1) | 0x01. */
  function AssembleId(manuf: Word, rest: Word): Word
  {
    Or(Or(Shl(rest, 12), Shl(manuf, 1)), [true] + Zeros(31))
  }

  // ---------- What the algorithm makes of the bits ----------

  /** What temp_manuf_code and temp_rest_code hold; the code does not initialise them. */
  datatype Leftover = Leftover(manuf: Word, rest: Word)

  /** A word after n bits have been read into it from position k of the output on. */
  function FieldAt(r: seq<bool>, k: nat, n: nat, left: Word): (w: Word)
    requires n <= 32
    ensures forall i :: 0 <= i < 32 ==> w[i] == if i < n then Out(r, k + i) else left[i]
  {
    seq(32, i requires 0 <= i < 32 => if i < n then Out(r, k + i) else left[i])
  }

  /** The bits behind the start bit at k, with what is left over above them, are the end marker. */
  predicate ReadsAsEnd(r: seq<bool>, k: nat, l: Leftover)
  {
    FieldAt(r, k + 1, 11, l.manuf) == DoneCode() + Zeros(21)
  }

  function IdAt(r: seq<bool>, k: nat, l: Leftover): Word
  {
    AssembleId(FieldAt(r, k + 1, 11, l.manuf), FieldAt(r, k + 12, 20, l.rest))
  }

  /** The codes read from position k of the output on. */
  function Decoded(r: seq<bool>, k: nat, max: nat, l: Leftover): (codes: seq<Word>)
    ensures |codes| <= max
    decreases max
  {
    if max == 0 then []
    else if !Out(r, k) then [Ones(32)] + Decoded(r, k + 1, max - 1, l)
    else if ReadsAsEnd(r, k, l) then []
    else [IdAt(r, k, l)] + Decoded(r, k + 32, max - 1, l)
  }

  /** Whatever was in temp_rest_code above its twenty bits is shifted out. */
  lemma {:induction false} RestLeftoverHarmless(r: seq<bool>, k: nat, max: nat, l: Leftover, rest: Word)
    ensures Decoded(r, k, max, l) == Decoded(r, k, max, l.(rest := rest))
    decreases max
  {
    if max > 0 {
      if Out(r, k) {
        RestIgnored(FieldAt(r, k + 1, 11, l.manuf), FieldAt(r, k + 12, 20, l.rest), FieldAt(r, k + 12, 20, rest));
        RestLeftoverHarmless(r, k + 32, max - 1, l, rest);
      } else {
        RestLeftoverHarmless(r, k + 1, max - 1, l, rest);
      }
    }
  }

  lemma {:induction false} RestIgnored(manuf: Word, a: Word, b: Word)
    requires a[..20] == b[..20]
    ensures AssembleId(manuf, a) == AssembleId(manuf, b)
  {
    forall i | 0 <= i < 32
      ensures AssembleId(manuf, a)[i] == AssembleId(manuf, b)[i]
    {
      if i >= 12 {
        assert a[..20][i - 12] == b[..20][i - 12];
      }
    }
  }

  /** With bits left over above the manufacturer field the end is never recognised. */
  lemma {:induction false} DirtyNeverEnds(r: seq<bool>, k: nat, max: nat, l: Leftover)
    requires Dirty(l.manuf, 11)
    ensures |Decoded(r, k, max, l)| == max
    decreases max
  {
    if max > 0 {
      DirtyNotEnd(r, k, l);
      DirtyNeverEnds(r, k + 32, max - 1, l);
      DirtyNeverEnds(r, k + 1, max - 1, l);
    }
  }

  /** The eleven bits alone, when nothing is left over above them. */
  lemma {:induction false} CleanField(r: seq<bool>, k: nat, l: Leftover)
    requires !Dirty(l.manuf, 11)
    ensures ReadsAsEnd(r, k, l) <==> forall i :: 0 <= i < 11 ==> Out(r, k + 1 + i) == DoneCode()[i]
  {
    var w, done := FieldAt(r, k + 1, 11, l.manuf), DoneCode() + Zeros(21);
    assert forall i :: 11 <= i < 32 ==> !w[i] && !done[i];
    if forall i :: 0 <= i < 11 ==> Out(r, k + 1 + i) == DoneCode()[i] {
      assert forall i :: 0 <= i < 11 ==> w[i] == done[i];
      assert w == done;
    } else {
      var i :| 0 <= i < 11 && Out(r, k + 1 + i) != DoneCode()[i];
      assert w[i] != done[i];
    }
  }

  /** A whole code on show is read as it is. */
  lemma {:induction false} CleanId(r: seq<bool>, k: nat, l: Leftover, id: Word)
    requires !Dirty(l.manuf, 11) && id[0] && forall i :: 0 <= i < 32 ==> Out(r, k + i) == id[i]
    ensures IdAt(r, k, l) == id
  {
    DirtyId(r, k, l, id);
  }

  /** With clean variables the algorithm reads devices, and stops at the end of the chain. */
  lemma {:induction false} DecodedIsDiscovered(parts: seq<Part>, j: nat, k: nat, max: nat, l: Leftover)
    requires !Dirty(l.manuf, 11) && AtDevice(parts, j, k)
    requires forall i :: 0 <= i < |parts| ==> ValidPart(parts[i])
    ensures Decoded(Shown(parts), k, max, l) == Discovered(parts[j..], max)
    decreases max
  {
    if max > 0 && j < |parts| {
      NextDevice(parts, j, k);
      DecodedIsDiscovered(parts, j + 1, k + |ShownBy(parts[j])|, max - 1, l);
      OneMoreDevice(parts, j, k, max, l);
    } else if max > 0 {
      EndDecoded(parts, k, max, l);
    }
  }

  lemma {:induction false} OneMoreDevice(parts: seq<Part>, j: nat, k: nat, max: nat, l: Leftover)
    requires !Dirty(l.manuf, 11) && AtDevice(parts, j, k) && j < |parts| && ValidPart(parts[j]) && max > 0
    requires Decoded(Shown(parts), k + |ShownBy(parts[j])|, max - 1, l) == Discovered(parts[j + 1..], max - 1)
    ensures Decoded(Shown(parts), k, max, l) == Discovered(parts[j..], max)
  {
    DeviceDecoded(parts, j, k, max, l);
    DeviceDiscovered(parts, j, max);
  }

  lemma {:induction false} DeviceDiscovered(parts: seq<Part>, j: nat, max: nat)
    requires j < |parts| && max > 0
    ensures Discovered(parts[j..], max) == if LooksLikeEnd(parts[j]) then []
      else [CodeOf(parts[j])] + Discovered(parts[j + 1..], max - 1)
  {
    assert parts[j..][0] == parts[j] && parts[j..][1..] == parts[j + 1..];
  }

  /** Behind the last device the marker is read. */
  lemma {:induction false} EndDecoded(parts: seq<Part>, k: nat, max: nat, l: Leftover)
    requires !Dirty(l.manuf, 11) && AtDevice(parts, |parts|, k) && max > 0
    ensures Decoded(Shown(parts), k, max, l) == [] == Discovered(parts[|parts|..], max)
  {
    AtEnd(parts, k);
    CleanField(Shown(parts), k, l);
    assert parts[|parts|..] == [];
  }

  /** One device's bits are read as its code, or as the end. */
  lemma {:induction false} DeviceDecoded(parts: seq<Part>, j: nat, k: nat, max: nat, l: Leftover)
    requires !Dirty(l.manuf, 11) && AtDevice(parts, j, k) && j < |parts| && ValidPart(parts[j]) && max > 0
    ensures Decoded(Shown(parts), k, max, l) == if LooksLikeEnd(parts[j]) then []
      else [CodeOf(parts[j])] + Decoded(Shown(parts), k + |ShownBy(parts[j])|, max - 1, l)
  {
    if parts[j].id.Some? {
      IdDevice(parts, j, k, l);
    } else {
      NextDevice(parts, j, k);
      assert Out(Shown(parts), k + 0) == ShownBy(parts[j])[0];
    }
  }

  lemma {:induction false} IdDevice(parts: seq<Part>, j: nat, k: nat, l: Leftover)
    requires !Dirty(l.manuf, 11) && AtDevice(parts, j, k) && j < |parts| && ValidPart(parts[j]) && parts[j].id.Some?
    ensures Out(Shown(parts), k)
    ensures ReadsAsEnd(Shown(parts), k, l) <==> LooksLikeEnd(parts[j])
    ensures IdAt(Shown(parts), k, l) == CodeOf(parts[j])
  {
    var r, id := Shown(parts), parts[j].id.value;
    NextDevice(parts, j, k);
    assert forall i :: 0 <= i < 32 ==> Out(r, k + i) == id[i];
    assert Out(r, k + 0) == id[0];
    CleanId(r, k, l, id);
    CleanField(r, k, l);
    assert forall i :: 0 <= i < 11 ==> id[1..12][i] == id[1 + i] == Out(r, k + (1 + i));
  }

  /** What is left over in the manufacturer variable shows up in the code, unless the bits are ones anyway. */
  predicate Absorbs(p: Part, manuf: Word)
  {
    p.id.Some? ==> forall i :: 12 <= i < 32 && manuf[i - 1] ==> p.id.value[i]
  }

  /** A code on show, read into variables with anything in their upper bits. */
  lemma {:induction false} DirtyId(r: seq<bool>, k: nat, l: Leftover, id: Word)
    requires id[0] && forall i :: 0 <= i < 32 ==> Out(r, k + i) == id[i]
    ensures IdAt(r, k, l) == id <==> forall i :: 12 <= i < 32 && l.manuf[i - 1] ==> id[i]
  {
    var manuf, rest := FieldAt(r, k + 1, 11, l.manuf), FieldAt(r, k + 12, 20, l.rest);
    forall i | 0 <= i < 32
      ensures IdAt(r, k, l)[i] == (id[i] || (i >= 12 && l.manuf[i - 1]))
    {
      assert 1 <= i < 12 ==> manuf[i - 1] == Out(r, k + 1 + (i - 1));
      assert i >= 12 ==> rest[i - 12] == Out(r, k + 12 + (i - 12));
    }
    if IdAt(r, k, l) != id {
      var i :| 0 <= i < 32 && IdAt(r, k, l)[i] != id[i];
    }
  }

  /** One device when the end is never recognised. */
  lemma {:induction false} DirtyDevice(parts: seq<Part>, j: nat, k: nat, max: nat, l: Leftover)
      returns (code: Word)
    requires Dirty(l.manuf, 11) && AtDevice(parts, j, k) && j < |parts| && ValidPart(parts[j]) && max > 0
    ensures Decoded(Shown(parts), k, max, l) == [code] + Decoded(Shown(parts), k + |ShownBy(parts[j])|, max - 1, l)
    ensures code == CodeOf(parts[j]) <==> Absorbs(parts[j], l.manuf)
  {
    var r := Shown(parts);
    NextDevice(parts, j, k);
    assert Out(r, k + 0) == ShownBy(parts[j])[0];
    if parts[j].id.Some? {
      DirtyNotEnd(r, k, l);
      DirtyId(r, k, l, parts[j].id.value);
      code := IdAt(r, k, l);
    } else {
      code := Ones(32);
    }
  }

  lemma {:induction false} DirtyNotEnd(r: seq<bool>, k: nat, l: Leftover)
    requires Dirty(l.manuf, 11)
    ensures !ReadsAsEnd(r, k, l)
  {
    var i :| 11 <= i < 32 && l.manuf[i];
    assert FieldAt(r, k + 1, 11, l.manuf)[i] != (DoneCode() + Zeros(21))[i];
  }

  lemma {:induction false} CodesFrom(parts: seq<Part>, j: nat)
    requires j < |parts|
    ensures Codes(parts[j..]) == [CodeOf(parts[j])] + Codes(parts[j + 1..])
  {
    assert parts[j..][0] == parts[j] && parts[j..][1..] == parts[j + 1..];
  }

  lemma {:induction false} SameHead(a: Word, x: seq<Word>, b: Word, y: seq<Word>)
    ensures [a] + x == [b] + y <==> a == b && x == y
  {
    if [a] + x == [b] + y {
      assert a == ([a] + x)[0] && x == ([a] + x)[1..];
      assert b == ([b] + y)[0] && y == ([b] + y)[1..];
    }
  }

  /** Every device from j on absorbs what is left over. */
  ghost predicate AllAbsorb(parts: seq<Part>, j: nat, manuf: Word)
  {
    forall i :: j <= i < |parts| ==> Absorbs(parts[i], manuf)
  }

  lemma {:induction false} AbsorbFrom(parts: seq<Part>, j: nat, manuf: Word)
    requires j < |parts|
    ensures AllAbsorb(parts, j, manuf) <==> Absorbs(parts[j], manuf) && AllAbsorb(parts, j + 1, manuf)
  {
  }

  lemma {:induction false} AtNext(parts: seq<Part>, j: nat, k: nat)
    requires AtDevice(parts, j, k) && j < |parts|
    ensures AtDevice(parts, j + 1, k + |ShownBy(parts[j])|)
  {
    NextDevice(parts, j, k);
  }

  /** With bits left over a list as long as the loop is right when no code suffers. */
  lemma {:induction false} DirtyExact(parts: seq<Part>, j: nat, k: nat, l: Leftover)
    requires Dirty(l.manuf, 11) && AtDevice(parts, j, k)
    requires forall i :: 0 <= i < |parts| ==> ValidPart(parts[i])
    ensures Decoded(Shown(parts), k, |parts| - j, l) == Codes(parts[j..]) <==> AllAbsorb(parts, j, l.manuf)
    decreases |parts| - j
  {
    if j < |parts| {
      AtNext(parts, j, k);
      DirtyExact(parts, j + 1, k + |ShownBy(parts[j])|, l);
      OneMoreDirty(parts, j, k, |parts| - j, l);
      AbsorbFrom(parts, j, l.manuf);
    }
  }

  lemma {:induction false} OneMoreDirty(parts: seq<Part>, j: nat, k: nat, max: nat, l: Leftover)
    requires Dirty(l.manuf, 11) && AtDevice(parts, j, k) && j < |parts| && ValidPart(parts[j]) && max > 0
    ensures Decoded(Shown(parts), k, max, l) == Codes(parts[j..])
       <==> Absorbs(parts[j], l.manuf)
            && Decoded(Shown(parts), k + |ShownBy(parts[j])|, max - 1, l) == Codes(parts[j + 1..])
  {
    var code := DirtyDevice(parts, j, k, max, l);
    CodesFrom(parts, j);
    SameHead(code, Decoded(Shown(parts), k + |ShownBy(parts[j])|, max - 1, l), CodeOf(parts[j]), Codes(parts[j + 1..]));
  }

  /**
   With nothing left over above the manufacturer field: at most max devices and no false end marker.
   Otherwise: exactly max devices, and every bit left over is a one in every code.
   */
  ghost predicate Listable(parts: seq<Part>, max: nat, l: Leftover)
  {
    if Dirty(l.manuf, 11) then |parts| == max && AllAbsorb(parts, 0, l.manuf)
    else |parts| <= max && forall i :: 0 <= i < |parts| ==> !LooksLikeEnd(parts[i])
  }

  /** When the list is the chain's list of codes, for every chain and whatever the variables held. */
  lemma {:induction false} LeftoverExact(parts: seq<Part>, max: nat, l: Leftover)
    requires forall i :: 0 <= i < |parts| ==> ValidPart(parts[i])
    ensures Decoded(Shown(parts), 0, max, l) == Codes(parts) <==> Listable(parts, max, l)
  {
    assert parts[0..] == parts && Shown(parts)[0..] == Shown(parts);
    if Dirty(l.manuf, 11) {
      DirtyNeverEnds(Shown(parts), 0, max, l);
      if |parts| == max {
        DirtyExact(parts, 0, 0, l);
      }
    } else {
      DecodedIsDiscovered(parts, 0, 0, max, l);
      DiscoveryExact(parts, max);
    }
  }

  // ---------- The algorithm, continued ----------

  lemma {:induction false} FieldMade(bits: seq<bool>, left: Word, r: seq<bool>, k: nat)
    requires |bits| <= 32 && forall i :: 0 <= i < |bits| ==> bits[i] == Out(r, k + i)
    ensures bits + left[|bits|..] == FieldAt(r, k, |bits|, left)
  {
  }

  /** Shift in n bits of the marker; what came out replaces the low n bits of the variable. */
  method ReadField(jtag: Jtag, invalidCode: Word, n: nat, left: Word, ghost r: seq<bool>, ghost k: nat)
    returns (field: Word)
    requires 1 <= n < 32 && Showing(jtag.chain, r, k) && invalidCode == Marker(k, 32)
    modifies jtag`chain
    ensures Showing(jtag.chain, r, k + n) && Parts(jtag.chain) == Parts(old(jtag.chain))
    ensures field == FieldAt(r, k, n, left)
  {
    ShowMore(jtag.chain, r, k, n);
    RunKeepsValid(jtag.chain, StreamClocks(Marker(k, n), false));
    MarkerMoves(k, n);
    var bits := jtag.ReadWriteStream(invalidCode[..n], false, false);
    FieldMade(bits, left, r, k);
    field := bits + left[n..];
  }

  /** The outcome of reading one device. */
  datatype Found = Bypass | Id(code: Word) | End

  /**
   Behind a start bit of 1: eleven bits of manufacturer code, and unless they are the end marker,
   twenty more.
   */
  method ReadId(jtag: Jtag, invalidCode: Word, l: Leftover, ghost r: seq<bool>, ghost k: nat)
    returns (found: Found, nextCode: Word)
    requires Showing(jtag.chain, r, k + 1) && invalidCode == Marker(k + 1, 32)
    modifies jtag`chain
    ensures Parts(jtag.chain) == Parts(old(jtag.chain))
    ensures found == if ReadsAsEnd(r, k, l) then End else Id(IdAt(r, k, l))
    ensures found.End? ==> Showing(jtag.chain, r, k + 12)
    ensures !found.End? ==> Showing(jtag.chain, r, k + 32) && nextCode == Marker(k + 32, 32)
  {
    var manuf := ReadField(jtag, invalidCode, 11, l.manuf, r, k + 1);
    nextCode := Shr(invalidCode, 11);
    MarkerMoves(k + 1, 11);
    if manuf == DoneCode() + Zeros(21) {
      return End, nextCode;
    }
    var rest;
    rest, nextCode := ReadRest(jtag, nextCode, l.rest, r, k);
    found := Id(AssembleId(manuf, rest));
  }

  method ReadRest(jtag: Jtag, invalidCode: Word, left: Word, ghost r: seq<bool>, ghost k: nat)
    returns (rest: Word, nextCode: Word)
    requires Showing(jtag.chain, r, k + 12) && invalidCode == Marker(k + 12, 32)
    modifies jtag`chain
    ensures Showing(jtag.chain, r, k + 32) && Parts(jtag.chain) == Parts(old(jtag.chain))
    ensures rest == FieldAt(r, k + 12, 20, left) && nextCode == Marker(k + 32, 32)
  {
    rest := ReadField(jtag, invalidCode, 20, left, r, k + 12);
    nextCode := Shr(invalidCode, 20);
    MarkerMoves(k + 12, 20);
  }

  /** One pass of the discovery loop: a start bit, and behind a 1 the rest of the code. */
  method ReadDevice(jtag: Jtag, invalidCode: Word, l: Leftover, ghost r: seq<bool>, ghost k: nat)
    returns (found: Found, nextCode: Word, ghost k': nat)
    requires Showing(jtag.chain, r, k) && invalidCode == Marker(k, 32)
    modifies jtag`chain
    ensures Showing(jtag.chain, r, k') && Parts(jtag.chain) == Parts(old(jtag.chain))
    ensures found == if !Out(r, k) then Bypass else if ReadsAsEnd(r, k, l) then End else Id(IdAt(r, k, l))
    ensures !found.End? ==> nextCode == Marker(k', 32) && k' == k + if found.Bypass? then 1 else 32
  {
    var start := ReadField(jtag, invalidCode, 1, Zeros(32), r, k);
    nextCode := Shr(invalidCode, 1);
    k' := k + 1;
    MarkerMoves(k, 1);
    assert start[0] == Out(r, k + 0);
    if !start[0] {
      return Bypass, nextCode, k';
    }
    found, nextCode := ReadId(jtag, nextCode, l, r, k);
    k' := k + if found.End? then 12 else 32;
  }

  /** The last three clocks: out of Shift-DR to Run-Test/Idle. */
  method Finish(jtag: Jtag)
    requires ValidChain(jtag.chain) && AllIn(jtag.chain, ShiftDr)
    modifies jtag`chain
    ensures AllIn(jtag.chain, RunTestIdle) && Parts(jtag.chain) == Parts(old(jtag.chain))
  {
    ShiftClock(jtag.chain, Dr, true, false);
    StepKeepsValid(jtag.chain, C(true, false));
    jtag.WriteBit(C(true, false));
    LeaveToIdle(jtag.chain, Dr);
    RunKeepsValid(jtag.chain, ExitToIdle());
    jtag.TapExitToIdle();
  }

  /** Get to Shift-DR with every device's bits on show. */
  method Start(jtag: Jtag)
    requires ValidChain(jtag.chain) && AllReset(jtag.chain, RunTestIdle)
    modifies jtag`chain
    ensures Parts(jtag.chain) == Parts(old(jtag.chain))
    ensures Showing(jtag.chain, Shown(Parts(jtag.chain)), 0)
  {
    FirstShow(jtag.chain);
    RunKeepsValid(jtag.chain, SetShiftDr());
    jtag.TapSetShiftDr();
    assert Parts(jtag.chain) == Parts(old(jtag.chain));
  }

  /** What is stored and what the rest of the output says make up the whole list. */
  ghost predicate Stored(idcodes: array<Word>, devindex: nat, r: seq<bool>, k: nat, l: Leftover, all: seq<Word>)
    reads idcodes
  {
    && devindex <= MAX_DEVICES && devindex <= idcodes.Length
    && idcodes[..devindex] + Decoded(r, k, MAX_DEVICES - devindex, l) == all
  }

  lemma {:induction false} MoreStored(stored: seq<Word>, x: Word, rest: seq<Word>, all: seq<Word>)
    requires stored + ([x] + rest) == all
    ensures (stored + [x]) + rest == all
  {
    assert stored + ([x] + rest) == (stored + [x]) + rest;
  }

  /** One turn of the loop: read a device and store its code, unless it was the end marker. */
  method CollectNext(jtag: Jtag, l: Leftover, idcodes: array<Word>, devindex: nat, reallocs: nat, invalidCode: Word,
                     ghost r: seq<bool>, ghost k: nat, ghost all: seq<Word>)
    returns (done: bool, a: array<Word>, reallocs': nat, nextCode: Word, ghost k': nat)
    requires Showing(jtag.chain, r, k) && invalidCode == Marker(k, 32)
    requires Stored(idcodes, devindex, r, k, l, all) && devindex < MAX_DEVICES
    requires idcodes.Length == ALLOC_SIZE * Pow2(reallocs)
    modifies jtag`chain, idcodes
    ensures Showing(jtag.chain, r, k') && Parts(jtag.chain) == Parts(old(jtag.chain))
    ensures (a == idcodes || fresh(a)) && a.Length == ALLOC_SIZE * Pow2(reallocs')
    ensures done ==> devindex <= a.Length && a[..devindex] == all
    ensures !done ==> nextCode == Marker(k', 32) && Stored(a, devindex + 1, r, k', l, all)
  {
    var found;
    found, nextCode, k' := ReadDevice(jtag, invalidCode, l, r, k);
    a, reallocs' := idcodes, reallocs;
    done := found.End?;
    if !done {
      var code := if found.Bypass? then Ones(32) else found.code;
      MoreStored(idcodes[..devindex], code, Decoded(r, k', MAX_DEVICES - devindex - 1, l), all);
      a, reallocs' := Append(idcodes, devindex, reallocs, code);
    }
  }

  /** The discovery loop itself. */
  method Collect(jtag: Jtag, l: Leftover, ghost r: seq<bool>) returns (idcodes: array<Word>, devindex: nat)
    requires Showing(jtag.chain, r, 0)
    modifies jtag`chain
    ensures devindex <= idcodes.Length && idcodes[..devindex] == Decoded(r, 0, MAX_DEVICES, l)
    ensures Parts(jtag.chain) == Parts(old(jtag.chain)) && ValidChain(jtag.chain) && AllIn(jtag.chain, ShiftDr)
  {
    var invalidCode: Word := Marker(0, 32);
    var reallocs := 0;
    devindex := 0;
    idcodes := new Word[ALLOC_SIZE](i => Zeros(32));
    ghost var k, all := 0, Decoded(r, 0, MAX_DEVICES, l);
    while devindex < MAX_DEVICES
      invariant idcodes.Length == ALLOC_SIZE * Pow2(reallocs) && fresh(idcodes)
      invariant Parts(jtag.chain) == Parts(old(jtag.chain)) && Showing(jtag.chain, r, k)
      invariant invalidCode == Marker(k, 32) && Stored(idcodes, devindex, r, k, l, all)
      decreases MAX_DEVICES - devindex
    {
      var done;
      done, idcodes, reallocs, invalidCode, k :=
        CollectNext(jtag, l, idcodes, devindex, reallocs, invalidCode, r, k, all);
      if done {
        return;
      }
      devindex := devindex + 1;
    }
  }

  /**
   jtag_enumerate_chain on a freshly reset chain of any length. Every array access is in bounds and
   the TAP ends in Run-Test/Idle. With clean variables the codes come back in chain order; otherwise
   the loop always runs to its limit.
   */
  method EnumerateChain(jtag: Jtag, l: Leftover) returns (idcodes: array<Word>, numDevices: nat)
    requires ValidChain(jtag.chain) && AllReset(jtag.chain, RunTestIdle)
    modifies jtag`chain
    ensures numDevices <= idcodes.Length
    ensures idcodes[..numDevices] == Decoded(Shown(Parts(old(jtag.chain))), 0, MAX_DEVICES, l)
    ensures !Dirty(l.manuf, 11) ==> idcodes[..numDevices] == Discovered(Parts(old(jtag.chain)), MAX_DEVICES)
    ensures Dirty(l.manuf, 11) ==> numDevices == MAX_DEVICES
    ensures idcodes[..numDevices] == Codes(Parts(old(jtag.chain))) <==> Listable(Parts(old(jtag.chain)), MAX_DEVICES, l)
    ensures AllIn(jtag.chain, RunTestIdle) && Parts(jtag.chain) == Parts(old(jtag.chain))
  {
    ghost var parts := Parts(jtag.chain);
    forall i | 0 <= i < |parts|
      ensures ValidPart(parts[i])
    {
      assert ValidDevice(jtag.chain[i]);
    }
    Start(jtag);
    idcodes, numDevices := Collect(jtag, l, Shown(parts));
    LeftoverExact(parts, MAX_DEVICES, l);
    if Dirty(l.manuf, 11) {
      DirtyNeverEnds(Shown(parts), 0, MAX_DEVICES, l);
    } else {
      assert parts[0..] == parts && Shown(parts)[0..] == Shown(parts);
      DecodedIsDiscovered(parts, 0, 0, MAX_DEVICES, l);
    }
    Finish(jtag);
  }
}
