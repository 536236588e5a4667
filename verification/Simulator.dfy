/** The simulator itself: registers and tables updated in place, every entry point proved equal to its step. */
module Simulator {
  import opened Sequences
  import opened SlotSpec
  import opened SlotList
  import opened AtuSpec
  import opened AtuRuns
  import opened VtuSpec
  import opened Registers
  import opened SimInvariant
  import SimSpec
  import AtuTable
  import RegisterFile
  import VtuTable

  class Simulator {
    var dev: Device
    var captured: nat
    const regs: array<bv16>
    const clear: array<bool>
    const atu: SlotList<AtuEntry>
    const vtu: SlotList<VtuEntry>

    ghost predicate Shape()
      reads this, regs, clear, atu, atu.nodes, vtu, vtu.nodes
    {
      && regs.Length == 0x400 && clear.Length == 10 && captured < 10 && dev.Fits()
      && atu.Valid() && vtu.Valid() && atu.capacity == SimSpec.ATU_CAPACITY && vtu.capacity == SimSpec.VTU_CAPACITY
      && atu as object != vtu && atu.nodes as object != vtu.nodes
      && regs as object != atu.nodes && regs as object != vtu.nodes
      && clear as object != atu.nodes && clear as object != vtu.nodes && clear as object != regs
    }

    ghost function State(): (s: SimSpec.Sim)
      requires Shape()
      reads this, regs, clear, atu, atu.nodes, vtu, vtu.nodes
      ensures SimSpec.Sound(s)
    {
      SimSpec.Sim(dev, regs[..], atu.model, vtu.model, clear[..], captured)
    }

    ghost predicate Valid()
      reads this, regs, clear, atu, atu.nodes, vtu, vtu.nodes
    {
      Shape() && Inv(State())
    }

    constructor (devId: nat)
      ensures Valid() && State() == SimSpec.FirstBoot(devId)
      ensures fresh(regs) && fresh(clear) && fresh(atu) && fresh(atu.nodes) && fresh(vtu) && fresh(vtu.nodes)
    {
      dev := DeviceOf(devId);
      captured := 0;
      regs := new bv16[0x400](_ => 0);
      clear := new bool[10](_ => false);
      atu := new SlotList<AtuEntry>(SimSpec.ATU_CAPACITY, EMPTY_ENTRY);
      vtu := new SlotList<VtuEntry>(SimSpec.VTU_CAPACITY, EMPTY_VLAN);
      new;
      hide Linked, Distinct, DefaultRegs, AtuInv, VtuInv, RegInv;
      RegisterFile.InitRegs(regs, dev);
      BootInv(devId, SimSpec.NO_FLAGS, 0);
      assert Shape();
      assert clear[..] == SimSpec.NO_FLAGS;
      assert atu.model == Cleared(SimSpec.ATU_CAPACITY);
      assert vtu.model == ClearedVtu(SimSpec.VTU_CAPACITY);
    }

    // ----- Operations

    method AtuOperation(value: bv32) returns (ok: bool)
      requires Shape()
      modifies regs, atu, atu.nodes
      ensures Shape()
      ensures (State(), ok) == SimSpec.AtuOperation(old(State()), value)
    {
      hide Linked, GetAtuInfo, SetAtuInfo, ResetAtuInfo, Add, Del, FlushWhere, FlushDb, First, Follows;
      var op := SimSpec.Field(value);
      ok := true;
      if op == 1 {
        atu.Clear(EMPTY_ENTRY);
        assert atu.model == Cleared(SimSpec.ATU_CAPACITY);
      } else if op == 2 {
        AtuTable.FlushUnlockedEntry(atu);
      } else if op == 3 {
        var e := RegisterFile.ReadAtuInfo(regs, dev.globalBase);
        if e.data & 0xF != 0 {
          ok := AtuTable.AddEntry(atu, e);
        } else {
          ok := AtuTable.DelEntry(atu, e);
        }
      } else if op == 4 {
        var e := RegisterFile.ReadAtuInfo(regs, dev.globalBase);
        var index := AtuTable.FindNext(atu, e);
        ghost var k := First(atu.model.Entries(), Follows(e.mac, e.db));
        if k < atu.size {
          atu.EntryAt(k);
        }
        if index == atu.capacity {
          RegisterFile.ClearAtuInfo(regs, dev.globalBase);
        } else {
          RegisterFile.WriteAtuInfo(regs, dev.globalBase, atu.nodes[index].entry);
        }
      } else if op == 5 {
        AtuTable.FlushInDb(atu, SimSpec.Low4(value));
      } else if op == 6 {
        AtuTable.FlushUnlockedInDb(atu, SimSpec.Low4(value));
      }
    }

    method VtuOperation(value: bv32) returns (ok: bool)
      requires Shape()
      modifies regs, vtu, vtu.nodes
      ensures Shape()
      ensures (State(), ok) == SimSpec.VtuOperation(old(State()), value)
    {
      hide Linked, GetVtuInfo, SetVtuInfo, SimSpec.ClearBusy, AddVlan, DelVlan, First, VidFollows;
      if value & 0x8000 == 0 {
        return false;
      }
      var g, op := dev.globalBase, SimSpec.Field(value);
      RegisterFile.DropBusy(regs, g, 5);
      ok := true;
      if op == 1 {
        vtu.Clear(EMPTY_VLAN);
        assert vtu.model == ClearedVtu(SimSpec.VTU_CAPACITY);
      } else if op == 3 {
        var e := RegisterFile.ReadVtuInfo(regs, g);
        if e.vid >= 0x1000 {
          ok := VtuTable.AddVlanEntry(vtu, dev.vtuSize, e.(vid := e.vid % 0x1000));
        } else {
          ok := VtuTable.DelVlanEntry(vtu, e.vid);
        }
      } else if op == 4 {
        var e := RegisterFile.ReadVtuInfo(regs, g);
        var index := VtuTable.FindNextVlan(vtu, e.vid % 0x1000);
        ghost var k := First(vtu.model.Entries(), VidFollows(e.vid % 0x1000));
        if k < vtu.size {
          vtu.EntryAt(k);
        }
        if index == vtu.capacity {
          regs[At(g, 6)] := 0xFFF;
        } else {
          RegisterFile.WriteVtuInfo(regs, g, vtu.nodes[index].entry);
        }
      } else if op == 7 {
        RegisterFile.ReportViolation(regs, g);
      }
    }

    method StatsOperation(value: bv32) returns (ok: bool)
      requires Shape()
      modifies this`captured, regs, clear
      ensures Shape()
      ensures (State(), ok) == SimSpec.StatsOperation(old(State()), value)
    {
      hide Linked, Distinct, SimSpec.ClearBusy, SimSpec.FlushedPorts, SimSpec.Field, SimSpec.Low6;
      if value & 0x8000 == 0 {
        return false;
      }
      var g, op, n := dev.globalBase, SimSpec.Field(value), SimSpec.Low6(value) as nat;
      RegisterFile.DropBusy(regs, g, 29);
      if op == 1 {
        RegisterFile.MarkPorts(clear, dev.ports);
      } else if op == 2 {
        if n >= dev.ports {
          return false;
        }
        clear[n] := true;
        assert clear[..] == old(clear[..])[n := true];
      } else if op == 4 {
        if clear[captured] {
          regs[At(g, 30)] := 0;
          regs[At(g, 31)] := 0;
        } else {
          regs[At(g, 30)] := captured as bv16;
          regs[At(g, 31)] := SimSpec.Low6(value) as bv16;
        }
      } else if op == 5 {
        if n >= dev.ports {
          return false;
        }
        captured := n;
      } else {
        return false;
      }
      ok := true;
    }

    // ----- Register access

    method WriteReg(port: nat, r: nat, value: bv32) returns (ok: bool)
      requires Valid()
      modifies this, regs, clear, atu, atu.nodes, vtu, vtu.nodes
      ensures Valid()
      ensures (State(), ok) == SimSpec.Write(old(State()), port, r, value)
    {
      hide Linked, Distinct, AtuInv, VtuInv, RegInv, SimSpec.AtuOperation, SimSpec.VtuOperation, SimSpec.StatsOperation,
        SimSpec.EnterNibble, SimSpec.PlainWrite, SimSpec.WriteAction, SimSpec.Norm;
      WriteKeepsInv(State(), port, r, value);
      var p, g := SimSpec.Norm(port), dev.globalBase;
      if p >= 32 || r >= 32 {
        return false;
      }
      match SimSpec.WriteAction(dev, p, r, value) {
        case Reject => return false;
        case AtuOp =>
          if dev.family != F6052 {
            RegisterFile.EnterNibble(regs, g, 11, value);
          }
          ok := AtuOperation(value);
          return;
        case VtuOp =>
          RegisterFile.EnterNibble(regs, g, 5, value);
          ok := VtuOperation(value);
          return;
        case StatsOp =>
          ok := StatsOperation(value);
          return;
        case _ => RegisterFile.WritePlain(regs, dev, p, r, value, SimSpec.WriteAction(dev, p, r, value));
      }
      ok := true;
    }

    method ReadReg(port: nat, r: nat) returns (shown: Option<bv16>)
      requires Valid()
      modifies regs
      ensures Valid()
      ensures (State(), shown) == SimSpec.Read(old(State()), port, r)
    {
      hide Linked, Distinct, AtuInv, VtuInv, RegInv, SimSpec.StatusAfterRead, SimSpec.Summary;
      StepKeepsInv(State(), SimSpec.ReadReg(port, r));
      var p := SimSpec.Norm(port);
      if p >= 32 || r >= 32 {
        return None;
      }
      shown := Some(regs[At(p, r)]);
      if dev.IsGlobal(p) {
        if r == 0 {
          regs[At(p, 0)] := SimSpec.StatusAfterRead(dev.family, regs[At(p, 0)], regs[At(0, 20)]);
        }
      } else if dev.IsPort(p) {
      } else if dev.IsPhy(p) {
        if r == 19 {
          regs[At(p, 19)] := 0;
          regs[At(0, 20)] := SimSpec.Summary(regs[At(0, 20)], p, false);
        } else if r == 20 {
          shown := Some(regs[At(0, 20)]);
        }
      }
    }

    // ----- Interrupts and initialisation

    method SetPhyInt(p: SimSpec.Row, data: bv16)
      requires Valid()
      modifies regs
      ensures Valid()
      ensures State() == SimSpec.SetPhyInt(old(State()), p, data)
    {
      hide Linked, Distinct, AtuInv, VtuInv, RegInv, SimSpec.PhyIntRegs;
      StepKeepsInv(State(), SimSpec.PhyInt(p, data));
      RegisterFile.Interrupt(regs, p, data);
    }

    method SetGlobalInt(data: bv16)
      requires Valid()
      modifies regs
      ensures Valid()
      ensures State() == SimSpec.SetGlobalInt(old(State()), data)
    {
      hide Linked, AtuInv, VtuInv, RegInv;
      StepKeepsInv(State(), SimSpec.GlobalInt(data));
      regs[At(31, 0)] := regs[At(31, 0)] | (data & 0xF);
    }

    /** A later initialisation, possibly as another device. */
    method Init(devId: nat)
      requires Valid()
      modifies this, regs, atu, atu.nodes, vtu, vtu.nodes
      ensures Valid()
      ensures State() == SimSpec.Boot(devId, old(clear[..]), old(captured))
    {
      hide Linked, AtuInv, VtuInv, RegInv, DefaultRegs;
      BootInv(devId, clear[..], captured);
      dev := DeviceOf(devId);
      atu.Clear(EMPTY_ENTRY);
      vtu.Clear(EMPTY_VLAN);
      RegisterFile.InitRegs(regs, dev);
      assert atu.model == Cleared(SimSpec.ATU_CAPACITY);
      assert vtu.model == ClearedVtu(SimSpec.VTU_CAPACITY);
    }
  }
}
