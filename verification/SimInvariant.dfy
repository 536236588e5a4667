/** The invariant of the simulator, kept by every step, and what it implies for every reachable state. */
module SimInvariant {
  import opened Sequences
  import opened SlotSpec
  import opened MacAddress
  import opened AtuSpec
  import opened AtuRuns
  import opened VtuSpec
  import opened Registers
  import opened SimSpec

  ghost predicate DbsFit(st: Atu) {
    forall i :: 0 <= i < |st.slots| ==> st.slots[i].db < 16
  }

  ghost predicate AtuInv(family: Family, st: Atu) {
    && st.WellFormed() && |st.slots| == ATU_CAPACITY && Sorted(st.Entries()) && DbsFit(st)
    && (family == F6052 ==> OneDb(st, 0) && StrictlySorted(st.Entries()))
  }

  ghost predicate AllStorable(st: Vtu) {
    forall i :: 0 <= i < |st.slots| ==> Storable(st.slots[i])
  }

  ghost predicate VtuInv(limit: nat, st: Vtu) {
    st.WellFormed() && |st.slots| == VTU_CAPACITY && |st.chain| <= limit && Ascending(st.Entries()) && AllStorable(st)
  }

  /** The operation registers: no busy bit, only the low nibble in use. */
  predicate RegInv(dev: Device, regs: Regs)
    requires dev.Fits()
  {
    var g := dev.globalBase;
    && regs[At(g, 11)] < 16
    && (if dev.family == F6052 then regs[At(g, 11)] == 0 else regs[At(g, 5)] < 16 && regs[At(g, 29)] == 0)
  }

  ghost predicate Inv(s: Sim) {
    && Sound(s)
    && AtuInv(s.dev.family, s.atu)
    && VtuInv(s.dev.vtuSize, s.vtu)
    && RegInv(s.dev, s.regs)
  }

  // ----- Tables

  lemma AddKeepsFit(st: Atu, e: AtuEntry)
    requires st.WellFormed() && DbsFit(st) && e.db < 16
    ensures DbsFit(Add(st, e).0)
  {
  }

  lemma ApplyKeepsAtuInv(family: Family, st: Atu, c: AtuCmd)
    requires AtuInv(family, st)
    requires c.Load? ==> c.entry.db < 16 && (family == F6052 ==> c.entry.db == 0)
    ensures AtuInv(family, Apply(st, c).0)
  {
    ApplyKeepsSorted(st, c);
    if c.Load? {
      AddKeepsFit(st, c.entry);
    }
    if family == F6052 {
      ApplyKeepsStrict(st, c, 0);
    }
  }

  lemma AddVlanKeepsInv(st: Vtu, limit: nat, e: VtuEntry)
    requires VtuInv(limit, st) && limit <= VTU_CAPACITY && Storable(e)
    ensures VtuInv(limit, AddVlan(st, limit, e).0)
  {
    hide ToMap;
    hide Storable;
    AddRefinesMap(st, limit, e);
  }

  lemma DelVlanKeepsInv(st: Vtu, limit: nat, v: nat)
    requires VtuInv(limit, st)
    ensures VtuInv(limit, DelVlan(st, v).0)
  {
    hide ToMap;
    hide Storable;
    DelRefinesMap(st, v);
  }

  // ----- Operations

  lemma NibbleLaws(w: bv16, n: bv16)
    requires w < 16
    ensures SetNibble(w, n) == n & 0xF < 16 && w & 0xF == w && w & 0x7FFF == w
    ensures (w & 0xF000) | 1 == 1
    ensures n < 16 ==> w | n < 16
  {
  }

  lemma AtuOperationKeepsInv(s: Sim, value: bv32)
    requires Inv(s)
    ensures Inv(AtuOperation(s, value).0)
  {
    var g := s.dev.globalBase;
    NibbleLaws(s.regs[At(g, 11)], 0);
    match AtuCommand(s.regs, g, value) {
      case Some(c) => ApplyKeepsAtuInv(s.dev.family, s.atu, c);
      case None => AtuGetNextKeepsInv(s.dev, s.regs, s.atu);
    }
  }

  lemma AtuGetNextKeepsInv(dev: Device, regs: Regs, st: Atu)
    requires dev.Fits() && RegInv(dev, regs) && AtuInv(dev.family, st)
    ensures RegInv(dev, AtuGetNext(regs, dev.globalBase, st.Entries()))
  {
    var g, es := dev.globalBase, st.Entries();
    var e := GetAtuInfo(regs, g);
    var k := First(es, Follows(e.mac, e.db));
    NibbleLaws(regs[At(g, 11)], 0);
    if k < |es| {
      NibbleLaws(regs[At(g, 11)], es[k].db);
      assert es[k].db & 0xF == es[k].db by { NibbleLaws(es[k].db, 0); }
    }
  }

  lemma VtuTableOpKeepsInv(st: Vtu, limit: nat, op: bv32, e: VtuEntry)
    requires VtuInv(limit, st) && limit <= VTU_CAPACITY && Storable(e.(vid := e.vid % 0x1000))
    ensures VtuInv(limit, VtuTableOp(st, limit, op, e).0)
  {
    hide Storable, AddVlan, DelVlan;
    AddVlanKeepsInv(st, limit, e.(vid := e.vid % 0x1000));
    DelVlanKeepsInv(st, limit, e.vid);
    ClearedVtuInv(limit);
  }

  lemma ClearedVtuInv(limit: nat)
    ensures VtuInv(limit, ClearedVtu(VTU_CAPACITY))
  {
  }

  lemma VtuRegsOpKeepsRegInv(dev: Device, regs: Regs, op: bv32, st: Vtu)
    requires dev.Fits() && dev.family != F6052 && RegInv(dev, regs) && VtuInv(dev.vtuSize, st)
    ensures RegInv(dev, VtuRegsOp(regs, dev.globalBase, op, st.Entries()))
  {
    hide VtuGetNext;
    VtuGetNextKeepsInv(dev, regs, st);
    NibbleLaws(regs[At(dev.globalBase, 5)], 0);
  }

  lemma ClearBusyKeepsRegInv(dev: Device, regs: Regs, r: nat)
    requires dev.Fits() && dev.family != F6052 && RegInv(dev, regs) && (r == 5 || r == 29)
    ensures RegInv(dev, ClearBusy(regs, dev.globalBase, r))
  {
    NibbleLaws(regs[At(dev.globalBase, r)], 0);
  }

  lemma VtuOperationKeepsInv(s: Sim, value: bv32)
    requires Inv(s) && s.dev.family != F6052
    ensures Inv(VtuOperation(s, value).0)
  {
    hide AtuInv, VtuInv, RegInv, ClearBusy, VtuTableOp, VtuRegsOp, GetVtuInfo, Field, Storable;
    var regs := ClearBusy(s.regs, s.dev.globalBase, 5);
    ClearBusyKeepsRegInv(s.dev, s.regs, 5);
    GotIsStorable(regs, s.dev.globalBase);
    VtuTableOpKeepsInv(s.vtu, s.dev.vtuSize, Field(value), GetVtuInfo(regs, s.dev.globalBase));
    VtuRegsOpKeepsRegInv(s.dev, regs, Field(value), s.vtu);
  }

  lemma VtuGetNextKeepsInv(dev: Device, regs: Regs, st: Vtu)
    requires dev.Fits() && dev.family != F6052 && RegInv(dev, regs) && VtuInv(dev.vtuSize, st)
    ensures RegInv(dev, VtuGetNext(regs, dev.globalBase, st.Entries()))
  {
    var g, es := dev.globalBase, st.Entries();
    var k := First(es, VidFollows(GetVtuInfo(regs, g).vid % 0x1000));
    if k < |es| {
      NibbleLaws(regs[At(g, 5)], es[k].db);
    }
  }

  lemma StatsOperationKeepsInv(s: Sim, value: bv32)
    requires Inv(s) && s.dev.family != F6052
    ensures Inv(StatsOperation(s, value).0)
  {
    hide AtuInv, VtuInv, Field, Low6, ClearBusy;
    ClearBusyKeepsRegInv(s.dev, s.regs, 29);
  }

  // ----- Steps

  lemma DefaultRegsAt(dev: Device, p: nat, r: nat)
    requires dev.Fits() && p < 32 && r < 32
    ensures DefaultRegs(dev)[At(p, r)] == DefaultReg(dev, p, r)
  {
    AtInjective(p, r, p, r);
  }

  lemma DefaultsKeepRegInv(dev: Device)
    requires dev.Fits()
    ensures RegInv(dev, DefaultRegs(dev))
  {
    DefaultRegsAt(dev, dev.globalBase, 11);
    DefaultRegsAt(dev, dev.globalBase, 5);
    DefaultRegsAt(dev, dev.globalBase, 29);
  }

  lemma BootInv(devId: nat, clear: seq<bool>, captured: nat)
    requires |clear| == 10 && captured < 10
    ensures Inv(Boot(devId, clear, captured))
  {
    DefaultsKeepRegInv(DeviceOf(devId));
  }

  lemma StoreKeepsRegInv(dev: Device, regs: Regs, p: nat, r: nat, w: bv16)
    requires dev.Fits() && RegInv(dev, regs) && p < 32 && r < 32
    requires p == dev.globalBase ==> r != 11 && (dev.family != F6052 ==> r != 5 && r != 29)
    ensures RegInv(dev, regs[At(p, r) := w])
  {
    AtInjective(p, r, dev.globalBase, 11);
    AtInjective(p, r, dev.globalBase, 5);
    AtInjective(p, r, dev.globalBase, 29);
  }

  lemma EnterNibbleKeepsRegInv(dev: Device, regs: Regs, r: nat, value: bv32)
    requires dev.Fits() && dev.family != F6052 && RegInv(dev, regs) && (r == 5 || r == 11)
    ensures RegInv(dev, EnterNibble(regs, dev.globalBase, r, value))
  {
    NibbleLaws(regs[At(dev.globalBase, r)], Low4(value));
  }

  lemma PlainWriteKeepsRegInv(dev: Device, regs: Regs, p: nat, r: nat, value: bv32)
    requires dev.Fits() && RegInv(dev, regs) && p < 32 && r < 32
    ensures RegInv(dev, PlainWrite(dev, regs, p, r, value, WriteAction(dev, p, r, value)))
  {
    hide RegInv, At, PhyControl, DefaultRegs;
    match WriteAction(dev, p, r, value)
    case Store(w) => StoreKeepsRegInv(dev, regs, p, r, w);
    case Reload =>
      DefaultsKeepRegInv(dev);
      StoreKeepsRegInv(dev, DefaultRegs(dev), p, 0, DefaultRegs(dev)[At(p, 0)] | 1);
    case PhyCtrl => StoreKeepsRegInv(dev, regs, p, r, PhyControl(regs[At(p, r)], value));
    case Duplex => StoreKeepsRegInv(dev, regs, p, r, (regs[At(p, r)] & !0x200) | (Low16(value) & 0x200));
    case _ =>
  }

  lemma VtuAndStatsNeedGlobal(dev: Device, p: nat, r: nat, value: bv32)
    ensures var a := WriteAction(dev, p, r, value); a.VtuOp? || a.StatsOp? ==> dev.family != F6052
  {
  }

  lemma WriteKeepsInv(s: Sim, port: nat, r: nat, value: bv32)
    requires Inv(s)
    ensures Inv(Write(s, port, r, value).0)
  {
    var p, g := Norm(port), s.dev.globalBase;
    hide AtuInv, VtuInv, RegInv, AtuOperation, VtuOperation, StatsOperation, PlainWrite, WriteAction, EnterNibble;
    if p < 32 && r < 32 {
      VtuAndStatsNeedGlobal(s.dev, p, r, value);
      match WriteAction(s.dev, p, r, value) {
        case Reject =>
        case AtuOp =>
          if s.dev.family == F6052 {
            AtuOperationKeepsInv(s, value);
          } else {
            EnterNibbleKeepsRegInv(s.dev, s.regs, 11, value);
            AtuOperationKeepsInv(s.(regs := EnterNibble(s.regs, g, 11, value)), value);
          }
        case VtuOp =>
          EnterNibbleKeepsRegInv(s.dev, s.regs, 5, value);
          VtuOperationKeepsInv(s.(regs := EnterNibble(s.regs, g, 5, value)), value);
        case StatsOp => StatsOperationKeepsInv(s, value);
        case _ => PlainWriteKeepsRegInv(s.dev, s.regs, p, r, value);
      }
    }
  }

  lemma ReadKeepsRegInv(dev: Device, regs: Regs, p: nat, r: nat)
    requires dev.Fits() && RegInv(dev, regs) && p < 32 && r < 32
    ensures RegInv(dev, ReadEffect(dev, regs, p, r))
  {
    hide RegInv, At, StatusAfterRead, Summary;
    var summary := regs[At(0, 20)];
    if dev.IsGlobal(p) {
      StoreKeepsRegInv(dev, regs, p, 0, StatusAfterRead(dev.family, regs[At(p, 0)], summary));
    } else {
      StoreKeepsRegInv(dev, regs, p, 19, 0);
      StoreKeepsRegInv(dev, regs[At(p, 19) := 0], 0, 20, Summary(summary, p, false));
    }
  }

  lemma PhyIntKeepsRegInv(dev: Device, regs: Regs, p: Row, data: bv16)
    requires dev.Fits() && RegInv(dev, regs)
    ensures RegInv(dev, PhyIntRegs(regs, p, data))
  {
    hide RegInv, At, Summary;
    var w := Summary(regs[At(0, 20)], p, data != 0);
    var r1 := regs[At(p, 19) := data];
    var r2 := r1[At(0, 20) := w];
    StoreKeepsRegInv(dev, regs, p, 19, data);
    StoreKeepsRegInv(dev, r1, 0, 20, w);
    StoreKeepsRegInv(dev, r2, 31, 0, r2[At(31, 0)] | 2);
  }

  lemma StepKeepsInv(s: Sim, op: Op)
    requires Inv(s)
    ensures Inv(Step(s, op))
  {
    hide AtuInv, VtuInv, RegInv, Write, ReadEffect, PhyIntRegs;
    match op
    case WriteReg(port, r, value) => WriteKeepsInv(s, port, r, value);
    case ReadReg(port, r) =>
      if Norm(port) < 32 && r < 32 {
        ReadKeepsRegInv(s.dev, s.regs, Norm(port), r);
      }
    case PhyInt(p, data) => PhyIntKeepsRegInv(s.dev, s.regs, p, data);
    case GlobalInt(data) => StoreKeepsRegInv(s.dev, s.regs, 31, 0, s.regs[At(31, 0)] | (data & 0xF));
    case Init(devId) => BootInv(devId, s.clear, s.captured);
  }

  /** A run: initialisation as device devId, then any sequence of accesses, interrupts and initialisations. */
  ghost function Run(devId: nat, ops: seq<Op>): (s: Sim)
    ensures Inv(s)
  {
    if ops == [] then BootInv(devId, NO_FLAGS, 0); FirstBoot(devId)
    else
      StepKeepsInv(Run(devId, ops[..|ops| - 1]), ops[|ops| - 1]);
      Step(Run(devId, ops[..|ops| - 1]), ops[|ops| - 1])
  }
}
