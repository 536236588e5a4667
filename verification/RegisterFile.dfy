/** The register file as one array, and the packing functions that update it in place. */
module RegisterFile {
  import opened AtuSpec
  import opened VtuSpec
  import opened Registers
  import SimSpec

  method ReadAtuInfo(regs: array<bv16>, g: nat) returns (e: AtuEntry)
    requires regs.Length == 0x400 && g < 32
    ensures e == GetAtuInfo(regs[..], g)
  {
    hide Hi, Lo;
    var m01, m23, m45 := regs[At(g, 13)], regs[At(g, 14)], regs[At(g, 15)];
    e := AtuEntry(regs[At(g, 12)], regs[At(g, 11)] & 0xF, [Hi(m01), Lo(m01), Hi(m23), Lo(m23), Hi(m45), Lo(m45)]);
  }

  method EnterDb(regs: array<bv16>, i: nat, db: bv16)
    requires regs.Length == 0x400 && i < 0x400
    modifies regs
    ensures regs[..] == old(regs[..])[i := SetNibble(old(regs[i]), db)]
  {
    regs[i] := regs[i] & 0xFFF0;
    regs[i] := regs[i] | (db & 0xF);
  }

  method WriteAtuInfo(regs: array<bv16>, g: nat, e: AtuEntry)
    requires regs.Length == 0x400 && g < 32
    modifies regs
    ensures regs[..] == SetAtuInfo(old(regs[..]), g, e)
  {
    hide Pack, SetNibble;
    regs[At(g, 12)] := e.data;
    regs[At(g, 13)] := Pack(e.mac[0], e.mac[1]);
    regs[At(g, 14)] := Pack(e.mac[2], e.mac[3]);
    regs[At(g, 15)] := Pack(e.mac[4], e.mac[5]);
    EnterDb(regs, At(g, 11), e.db);
  }

  method ClearAtuInfo(regs: array<bv16>, g: nat)
    requires regs.Length == 0x400 && g < 32
    modifies regs
    ensures regs[..] == ResetAtuInfo(old(regs[..]), g)
  {
    hide SetNibble;
    EnterDb(regs, At(g, 11), 0);
    regs[At(g, 12)] := 0;
    regs[At(g, 13)] := 0xFFFF;
    regs[At(g, 14)] := 0xFFFF;
    regs[At(g, 15)] := 0xFFFF;
  }

  method ReadVtuInfo(regs: array<bv16>, g: nat) returns (e: VtuEntry)
    requires regs.Length == 0x400 && g < 32
    ensures e == GetVtuInfo(regs[..], g)
  {
    hide VtuOf;
    e := VtuOf(regs[At(g, 5)], regs[At(g, 6)], regs[At(g, 7)], regs[At(g, 8)], regs[At(g, 9)]);
  }

  method StoreVtu(regs: array<bv16>, g: nat, w5: bv16, w6: bv16, w7: bv16, w8: bv16, w9: bv16)
    requires regs.Length == 0x400 && g < 32
    modifies regs
    ensures regs[..] == VtuStored(old(regs[..]), g, w5, w6, w7, w8, w9)
  {
    regs[At(g, 5)] := w5;
    regs[At(g, 6)] := w6;
    regs[At(g, 7)] := w7;
    regs[At(g, 8)] := w8;
    regs[At(g, 9)] := w9;
  }

  method WriteVtuInfo(regs: array<bv16>, g: nat, e: VtuEntry)
    requires regs.Length == 0x400 && g < 32
    modifies regs
    ensures regs[..] == SetVtuInfo(old(regs[..]), g, e)
  {
    hide TagWord, MergeDb, VidWord;
    StoreVtu(regs, g, MergeDb(regs[At(g, 5)], e.db), VidWord(e.vid), TagWord(e.tags, 0), TagWord(e.tags, 1),
             TagWord(e.tags, 2));
  }

  method DropBusy(regs: array<bv16>, g: nat, r: nat)
    requires regs.Length == 0x400 && g < 32 && r < 32
    modifies regs
    ensures regs[..] == SimSpec.ClearBusy(old(regs[..]), g, r)
  {
    regs[At(g, r)] := regs[At(g, r)] & 0x7FFF;
  }

  /** The VLAN violation report: port 1, VLAN 1. */
  method ReportViolation(regs: array<bv16>, g: nat)
    requires regs.Length == 0x400 && g < 32
    modifies regs
    ensures regs[..] == SimSpec.VtuRegsOp(old(regs[..]), g, 7, [])
  {
    regs[At(g, 5)] := regs[At(g, 5)] & 0xF000;
    regs[At(g, 5)] := regs[At(g, 5)] | 1;
    regs[At(g, 6)] := 1;
  }

  method EnterNibble(regs: array<bv16>, g: nat, r: nat, value: bv32)
    requires regs.Length == 0x400 && g < 32 && r < 32
    modifies regs
    ensures regs[..] == SimSpec.EnterNibble(old(regs[..]), g, r, value)
  {
    hide SetNibble, SimSpec.Low4;
    EnterDb(regs, At(g, r), SimSpec.Low4(value));
  }

  method ControlPhy(regs: array<bv16>, p: nat, r: nat, value: bv32)
    requires regs.Length == 0x400 && p < 32 && r < 32
    modifies regs
    ensures regs[..] == old(regs[..])[At(p, r) := SimSpec.PhyControl(old(regs[At(p, r)]), value)]
  {
    var v, i := SimSpec.Low16(value) & 0xFB00, At(p, r);
    if v & 0x0800 != 0 {
      regs[i] := v | 0x8200;
    } else if regs[i] & 0x0800 != 0 {
      regs[i] := v & !0x8200;
    } else if v & 0x8200 != 0 {
      regs[i] := v & !0x8200;
    } else {
      regs[i] := regs[i] & 0x3100;
      regs[i] := regs[i] | (v & !0x3100);
    }
  }

  method InitRow(regs: array<bv16>, dev: Device, p: nat)
    requires regs.Length == 0x400 && dev.Fits() && p < 32
    modifies regs
    ensures forall q, r | 0 <= q < 32 && 0 <= r < 32 ::
      regs[At(q, r)] == if q == p then DefaultReg(dev, q, r) else old(regs[At(q, r)])
  {
    hide DefaultReg, At;
    forall r, q, x | 0 <= r < 32 && 0 <= q < 32 && 0 <= x < 32
      ensures At(p, r) == At(q, x) <==> p == q && r == x {
      AtInjective(p, r, q, x);
    }
    for r := 0 to 32
      invariant forall q, x | 0 <= q < 32 && 0 <= x < 32 ::
        regs[At(q, x)] == if q == p && x < r then DefaultReg(dev, q, x) else old(regs[At(q, x)])
    {
      regs[At(p, r)] := DefaultReg(dev, p, r);
    }
  }

  /** All registers to 0xFFFF, then the rows of the PHYs, of the ports and of the global registers. */
  method InitRegs(regs: array<bv16>, dev: Device)
    requires regs.Length == 0x400 && dev.Fits()
    modifies regs
    ensures regs[..] == DefaultRegs(dev)
  {
    hide PhyDefault, PortDefault, GlobalDefault;
    for i := 0 to 0x400
      invariant forall j :: 0 <= j < i ==> regs[j] == 0xFFFF
    {
      regs[i] := 0xFFFF;
    }
    for p := 0 to dev.phys
      invariant forall q, r | 0 <= q < 32 && 0 <= r < 32 ::
        regs[At(q, r)] == if q < p then DefaultReg(dev, q, r) else 0xFFFF
    {
      InitRow(regs, dev, p);
    }
    for p := dev.portBase to dev.portBase + dev.ports
      invariant forall q, r | 0 <= q < 32 && 0 <= r < 32 ::
        regs[At(q, r)] == if q < dev.phys || dev.portBase <= q < p then DefaultReg(dev, q, r) else 0xFFFF
    {
      InitRow(regs, dev, p);
    }
    InitRow(regs, dev, dev.globalBase);
    forall i | 0 <= i < 0x400 ensures regs[i] == DefaultRegs(dev)[i] {
      assert At(i / 32, i % 32) == i;
    }
  }

  /** The writes that touch nothing but registers. */
  method WritePlain(regs: array<bv16>, dev: Device, p: nat, r: nat, value: bv32, a: SimSpec.Action)
    requires regs.Length == 0x400 && dev.Fits() && p < 32 && r < 32
    modifies regs
    ensures regs[..] == SimSpec.PlainWrite(dev, old(regs[..]), p, r, value, a)
  {
    hide DefaultRegs, SimSpec.PhyControl, SimSpec.Low16;
    match a
    case Store(w) => regs[At(p, r)] := w;
    case Reload =>
      InitRegs(regs, dev);
      regs[At(p, 0)] := regs[At(p, 0)] | 1;
    case PhyCtrl => ControlPhy(regs, p, r, value);
    case Duplex =>
      regs[At(p, r)] := regs[At(p, r)] & !0x200;
      regs[At(p, r)] := regs[At(p, r)] | (SimSpec.Low16(value) & 0x200);
    case _ =>
  }

  /** Flush all ports: their flags are set. */
  method MarkPorts(clear: array<bool>, ports: nat)
    requires clear.Length == 10 && ports <= 10
    modifies clear
    ensures clear[..] == SimSpec.FlushedPorts(old(clear[..]), ports)
  {
    for i := 0 to ports
      invariant forall j :: 0 <= j < 10 ==> clear[j] == (j < i || old(clear[j]))
    {
      clear[i] := true;
    }
  }

  /** An injected PHY interrupt: status, summary, and the status bit of row 31. */
  method Interrupt(regs: array<bv16>, p: SimSpec.Row, data: bv16)
    requires regs.Length == 0x400
    modifies regs
    ensures regs[..] == SimSpec.PhyIntRegs(old(regs[..]), p, data)
  {
    hide SimSpec.Summary;
    regs[At(p, 19)] := data;
    AtInjective(p, 19, 0, 20);
    regs[At(0, 20)] := SimSpec.Summary(regs[At(0, 20)], p, data != 0);
    regs[At(31, 0)] := regs[At(31, 0)] | 2;
  }
}
