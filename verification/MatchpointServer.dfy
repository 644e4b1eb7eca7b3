/**
 rsp_insert_matchpoint and rsp_remove_matchpoint on the hash table, the watchpoint pool, target
 memory and the processor's debug registers.
 */
module MatchpointServer {
  import opened Bits
  import opened MatchTable
  import opened Matchpoints
  import Link = WishboneLink

  /** hwp_in_use and the calls that grant and return watchpoints. */
  class Pool {
    const inUse: array<bool>

    constructor (present: seq<bool>)
      requires |present| == HWP_MAX_WP
      ensures inUse.Length == HWP_MAX_WP && fresh(inUse)
      ensures forall i :: 0 <= i < HWP_MAX_WP ==> inUse[i] == !present[i]
    {
      inUse := new bool[HWP_MAX_WP](i requires 0 <= i < |present| => !present[i]);
    }

    /** Grants the first free watchpoint, or -1. */
    method GetAvailable() returns (hwp: int)
      requires inUse.Length == HWP_MAX_WP
      modifies inUse
      ensures hwp == FirstFree(old(inUse[..]), 0)
      ensures inUse[..] == if hwp == -1 then old(inUse[..]) else old(inUse[..])[hwp := true]
    {
      hwp := -1;
      var i := 0;
      while i < HWP_MAX_WP
        invariant i <= HWP_MAX_WP && inUse[..] == old(inUse[..])
        invariant FirstFree(inUse[..], 0) == FirstFree(inUse[..], i)
      {
        if !inUse[i] {
          inUse[i] := true;
          return i;
        }
        i := i + 1;
      }
    }

    /** Takes a watchpoint back; a number out of range or a free one is only reported. */
    method Return(hwp: nat)
      modifies inUse
      ensures inUse[..] == if hwp < inUse.Length then old(inUse[..])[hwp := false] else old(inUse[..])
    {
      if hwp < inUse.Length && inUse[hwp] {
        inUse[hwp] := false;
      }
    }
  }

  /** Target memory and special purpose registers, as read and written through the debug unit. */
  class Target {
    var mem: Link.Memory
    var spr: Link.Memory

    constructor (mem: Link.Memory, spr: Link.Memory)
      ensures this.mem == mem && this.spr == spr
    {
      this.mem, this.spr := mem, spr;
    }

    method ReadWord(addr: nat) returns (w: Word)
      ensures w == WordAt(mem, Cell(addr))
    {
      w := WordAt(mem, Cell(addr));
    }

    method WriteWord(addr: nat, w: Word)
      modifies this`mem
      ensures mem == old(mem)[Cell(addr) := w]
    {
      mem := mem[Cell(addr) := w];
    }

    method ReadSpr(reg: nat) returns (w: Word)
      ensures w == WordAt(spr, reg)
    {
      w := WordAt(spr, reg);
    }

    method WriteSpr(reg: nat, w: Word)
      modifies this`spr
      ensures spr == old(spr)[reg := w]
    {
      spr := spr[reg := w];
    }

    /** The register accesses of a watchpoint insertion. */
    method ArmWatchpoint(k: Key, hwp: nat)
      requires hwp < HWP_MAX_WP
      modifies this`spr
      ensures spr == Arm(old(spr), k, hwp)
    {
      WriteSpr(Dvr(hwp), NatBits(k.addr, 32));
      WriteSpr(Dcr(hwp), NatBits(DcrCode(k.kind), 32));
      var regdata := ReadSpr(SPR_DMR2);
      WriteSpr(SPR_DMR2, Or(regdata, WgbBit(hwp)));
      regdata := ReadSpr(SPR_DMR1);
      WriteSpr(SPR_DMR1, And(regdata, Not(ChainBits(hwp))));
    }

    /** The register accesses of a watchpoint removal. */
    method DisarmWatchpoint(hwp: nat)
      requires hwp < HWP_MAX_WP
      modifies this`spr
      ensures spr == Disarm(old(spr), hwp)
    {
      var regdata := ReadSpr(SPR_DMR2);
      WriteSpr(SPR_DMR2, And(regdata, Not(WgbBit(hwp))));
      WriteSpr(Dcr(hwp), NatBits(1, 32));
    }
  }

  class Server {
    const table: Table
    const pool: Pool
    const target: Target

    constructor (pool: Pool, target: Target)
      requires pool.inUse.Length == HWP_MAX_WP
      ensures Valid() && this.pool == pool && this.target == target
      ensures Abstract() == State(map[], target.mem, target.spr, pool.inUse[..])
    {
      this.table := new Table();
      this.pool, this.target := pool, target;
    }

    ghost predicate Valid()
      reads this, table, table.buckets, table.Entries(), pool.inUse, target
    {
      && table.Valid()
      && pool.inUse.Length == HWP_MAX_WP
      && Sized(Abstract())
    }

    ghost function Abstract(): State
      reads this, table, pool.inUse, target
    {
      State(table.contents, target.mem, target.spr, pool.inUse[..])
    }

    method InsertBreakpoint(k: Key)
      requires Valid() && k.kind == BpMemory
      modifies table, table.buckets, target
      ensures Valid()
      ensures Abstract() == SetBreakpoint(old(Abstract()), k)
    {
      var instr := target.ReadWord(k.addr);
      table.Add(k.kind, k.addr, NatOf(instr));
      target.WriteWord(k.addr, Trap());
    }

    method InsertWatchpoint(k: Key) returns (reply: Reply)
      requires Valid() && k.kind != BpMemory
      modifies table, table.buckets, pool.inUse, target
      ensures Valid()
      ensures (Abstract(), reply) == SetWatchpoint(old(Abstract()), k)
    {
      var hwp := pool.GetAvailable();
      if hwp == -1 {
        return Unsupported;
      }
      table.Add(k.kind, k.addr, hwp);
      target.ArmWatchpoint(k, hwp);
      reply := Ok;
    }

    method InsertMatchpoint(p: Packet) returns (reply: Reply)
      requires Valid()
      modifies table, table.buckets, pool.inUse, target
      ensures Valid()
      ensures (Abstract(), reply) == Insert(old(Abstract()), p)
    {
      if p.Garbled? || p.digit >= 5 {
        reply := E01;
      } else if p.digit == 0 {
        InsertBreakpoint(KeyFor(p));
        reply := Ok;
      } else {
        reply := InsertWatchpoint(KeyFor(p));
      }
    }

    method RemoveBreakpoint(k: Key)
      requires Valid() && k.kind == BpMemory
      modifies table, table.buckets, table.Entries(), target
      ensures Valid()
      ensures Abstract() == ClearBreakpoint(old(Abstract()), k)
    {
      var mpe := table.Delete(k.kind, k.addr);
      if mpe != null {
        target.WriteWord(k.addr, NatBits(mpe.instr, 32));
      }
    }

    method RemoveWatchpoint(k: Key)
      requires Valid() && k.kind != BpMemory
      modifies table, table.buckets, table.Entries(), pool.inUse, target
      ensures Valid()
      ensures Abstract() == ClearWatchpoint(old(Abstract()), k)
    {
      var mpe := table.Delete(k.kind, k.addr);
      if mpe != null {
        Release(mpe.instr);
      }
    }

    method Release(hwp: nat)
      requires pool.inUse.Length == HWP_MAX_WP && hwp < HWP_MAX_WP
      modifies pool.inUse, target
      ensures target.mem == old(target.mem) && target.spr == Disarm(old(target.spr), hwp)
      ensures pool.inUse[..] == old(pool.inUse[..])[hwp := false]
    {
      target.DisarmWatchpoint(hwp);
      pool.Return(hwp);
    }

    method RemoveMatchpoint(p: Packet) returns (reply: Reply)
      requires Valid()
      modifies table, table.buckets, table.Entries(), pool.inUse, target
      ensures Valid()
      ensures (Abstract(), reply) == Remove(old(Abstract()), p)
    {
      if p.Garbled? || p.digit >= 5 {
        reply := E01;
      } else if p.digit == 0 {
        RemoveBreakpoint(KeyFor(p));
        reply := Ok;
      } else {
        RemoveWatchpoint(KeyFor(p));
        reply := Ok;
      }
    }
  }
}
