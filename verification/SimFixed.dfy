/**
 Registers with no behaviour of their own: over every run they hold the last word written, or their reset
 value. Among those never written are the ids of PHYs and switches, and the register of row 31 to which
 injected global interrupts go.
 */
module SimFixed {
  import opened Sequences
  import opened Registers
  import opened SimSpec
  import opened SimInvariant
  import opened SimHistory
  import opened SimAccess
  import opened SimReads

  /**
   Registers that at most a plain write changes: no operation, no status read, no injected PHY interrupt,
   and neither PHY control nor a writable port status. Row 31 belongs to no device.
   */
  predicate Quiet(dev: Device, q: nat, x: nat) {
    && q < 32 && x < 32 && x != 19 && !(q == 0 && x == 20)
    && !(dev.IsGlobal(q) && (x == 0 || 5 <= x <= 9 || 11 <= x <= 15 || x >= 29))
    && (x == 0 ==> !Writable(dev, q, x))
  }

  predicate Fixed(dev: Device, q: nat, x: nat) {
    Quiet(dev, q, x) && !Writable(dev, q, x)
  }

  lemma FixedInFile(dev: Device, q: nat, x: nat)
    requires Fixed(dev, q, x)
    ensures q < 32 && x < 32
  {
  }

  lemma QuietElsewhere(dev: Device, q: nat, x: nat)
    requires dev.Fits() && Quiet(dev, q, x)
    ensures q < 32 && x < 32
    ensures dev.IsGlobal(q) ==> !(5 <= x <= 9) && !(11 <= x <= 15) && x < 29
  {
  }

  lemma OperationsKeep(s: Sim, value: bv32, q: nat, x: nat)
    requires Sound(s) && Quiet(s.dev, q, x)
    ensures AtuOperation(s, value).0.regs[At(q, x)] == s.regs[At(q, x)]
    ensures VtuOperation(s, value).0.regs[At(q, x)] == s.regs[At(q, x)]
    ensures StatsOperation(s, value).0.regs[At(q, x)] == s.regs[At(q, x)]
  {
    QuietElsewhere(s.dev, q, x);
    hide AtuOperation, VtuOperation, StatsOperation, Quiet, At;
    AtuFrame(s, value, q, x);
    VtuFrame(s, value, q, x);
    StatsFrame(s, value, q, x);
  }

  lemma EnteringKeeps(dev: Device, regs: Regs, r: nat, value: bv32, q: nat, x: nat)
    requires dev.Fits() && Quiet(dev, q, x) && (r == 5 || r == 11)
    ensures EnterNibble(regs, dev.globalBase, r, value)[At(q, x)] == regs[At(q, x)]
  {
    QuietElsewhere(dev, q, x);
    AtInjective(dev.globalBase, r, q, x);
    hide Quiet, SetNibble, Low4, At;
  }

  lemma PlainKeeps(dev: Device, regs: Regs, p: nat, r: nat, value: bv32, q: nat, x: nat)
    requires dev.Fits() && Quiet(dev, q, x) && p < 32 && r < 32 && !WriteAction(dev, p, r, value).Reload?
    requires !(q == p && x == r && Writable(dev, q, x))
    ensures PlainWrite(dev, regs, p, r, value, WriteAction(dev, p, r, value))[At(q, x)] == regs[At(q, x)]
  {
    AtInjective(p, r, q, x);
    hide PhyControl, Low16, DefaultRegs, At;
  }

  lemma WriteKeepsQuiet(s: Sim, port: nat, r: nat, value: bv32, q: nat, x: nat)
    requires Inv(s) && Quiet(s.dev, q, x) && !Resets(s.dev, WriteReg(port, r, value))
    requires !(q == Norm(port) && x == r && Writable(s.dev, q, x))
    ensures Write(s, port, r, value).0.regs[At(q, x)] == s.regs[At(q, x)]
  {
    hide AtuInv, VtuInv, RegInv, AtuOperation, VtuOperation, StatsOperation, PlainWrite, WriteAction, EnterNibble,
      Quiet, Writable, At;
    var p, g := Norm(port), s.dev.globalBase;
    QuietElsewhere(s.dev, q, x);
    if p < 32 && r < 32 {
      OnlyResetsReload(s.dev, port, r, value);
      EnteringKeeps(s.dev, s.regs, 11, value, q, x);
      EnteringKeeps(s.dev, s.regs, 5, value, q, x);
      OperationsKeep(s, value, q, x);
      OperationsKeep(s.(regs := EnterNibble(s.regs, g, 11, value)), value, q, x);
      OperationsKeep(s.(regs := EnterNibble(s.regs, g, 5, value)), value, q, x);
      PlainKeeps(s.dev, s.regs, p, r, value, q, x);
    }
  }

  lemma OnlyResetsReload(dev: Device, port: nat, r: nat, value: bv32)
    ensures WriteAction(dev, Norm(port), r, value).Reload? ==> Resets(dev, WriteReg(port, r, value))
  {
  }

  lemma ReloadResets(s: Sim, port: nat, value: bv32, q: nat, x: nat)
    requires Inv(s) && Norm(port) == s.dev.globalBase && value & 0x200 != 0 && q < 32 && x < 32
    ensures Write(s, port, 4, value).0.regs[At(q, x)] == DefaultReg(s.dev, q, x)
  {
    ReloadWrite(s, port, value);
    DefaultRegsAt(s.dev, q, x);
    hide AtuInv, VtuInv, RegInv, Write, DefaultRegs;
  }

  lemma ReadKeepsQuiet(dev: Device, regs: Regs, p: nat, r: nat, q: nat, x: nat)
    requires dev.Fits() && Quiet(dev, q, x) && p < 32 && r < 32
    ensures ReadEffect(dev, regs, p, r)[At(q, x)] == regs[At(q, x)]
  {
    hide Summary, StatusAfterRead, Writable;
  }

  /** An injected PHY interrupt sets bit 1 of register 0 of row 31, where every bit is set already. */
  lemma PhyIntKeepsQuiet(dev: Device, regs: Regs, p: Row, data: bv16, q: nat, x: nat)
    requires dev.Fits() && Quiet(dev, q, x) && regs[At(31, 0)] == 0xFFFF
    ensures PhyIntRegs(regs, p, data)[At(q, x)] == regs[At(q, x)]
  {
    hide Summary, Writable;
    AtInjective(0, 20, 31, 0);
    AtInjective(p, 19, 31, 0);
  }

  predicate Stores(dev: Device, op: Op, q: nat, x: nat) {
    Writes(op, q, x) && Writable(dev, q, x)
  }

  lemma StepQuiet(s: Sim, op: Op, q: nat, x: nat)
    requires Inv(s) && Quiet(Step(s, op).dev, q, x) && s.regs[At(31, 0)] == 0xFFFF
    ensures Step(s, op).regs[At(q, x)] ==
      if Resets(s.dev, op) then DefaultReg(Step(s, op).dev, q, x)
      else if Stores(s.dev, op, q, x) then PlainWord(s.dev, q, x, op.value)
      else s.regs[At(q, x)]
  {
    hide AtuInv, VtuInv, RegInv, Write, ReadEffect, PhyIntRegs, DefaultRegs, DefaultReg, DeviceOf, Writable,
      PlainWord, Quiet;
    StepDev(s, op);
    QuietElsewhere(Step(s, op).dev, q, x);
    match op
    case WriteReg(port, r, value) =>
      if Resets(s.dev, op) {
        ReloadResets(s, port, value, q, x);
      } else if Stores(s.dev, op, q, x) {
        QuietIsPlain(s.dev, q, x, value);
        WriteReadBack(s, port, port, r, value);
      } else {
        WriteKeepsQuiet(s, port, r, value, q, x);
      }
    case ReadReg(port, r) =>
      if Norm(port) < 32 && r < 32 {
        ReadKeepsQuiet(s.dev, s.regs, Norm(port), r, q, x);
      }
    case PhyInt(p, data) => PhyIntKeepsQuiet(s.dev, s.regs, p, data, q, x);
    case GlobalInt(data) => OnesStay(data);
    case Init(id) => DefaultRegsAt(DeviceOf(id), q, x);
  }

  lemma QuietIsPlain(dev: Device, q: nat, x: nat, value: bv32)
    requires dev.Fits() && Quiet(dev, q, x) && Writable(dev, q, x) && !Resets(dev, WriteReg(q, x, value))
    ensures Plain(dev, q, x, value)
  {
  }

  lemma OnesStay(data: bv16)
    ensures (0xFFFF as bv16) | (data & 0xF) == 0xFFFF
  {
  }

  lemma StepFixed(s: Sim, op: Op, q: nat, x: nat)
    requires Inv(s) && Fixed(Step(s, op).dev, q, x) && s.regs[At(31, 0)] == 0xFFFF
    ensures Step(s, op).regs[At(q, x)] ==
      if Resets(s.dev, op) then DefaultReg(Step(s, op).dev, q, x) else s.regs[At(q, x)]
  {
    StepQuiet(s, op, q, x);
    StepDev(s, op);
    hide AtuInv, VtuInv, RegInv, Step, DefaultReg, Quiet, Writable, PlainWord;
  }

  lemma Row31IsFixed(dev: Device)
    requires dev.Fits()
    ensures Fixed(dev, 31, 0) && DefaultReg(dev, 31, 0) == 0xFFFF
  {
  }

  /** Over every run each fixed register holds its reset value; register 0 of row 31 holds 0xFFFF. */
  lemma {:induction false} FixedHistory(devId: nat, ops: seq<Op>, q: nat, x: nat)
    requires Fixed(DevAfter(devId, ops), q, x)
    ensures Run(devId, ops).regs[At(q, x)] == DefaultReg(DevAfter(devId, ops), q, x)
    ensures Run(devId, ops).regs[At(31, 0)] == 0xFFFF
  {
    hide AtuInv, VtuInv, RegInv, Step, DefaultRegs, DefaultReg, Fixed, At;
    RunDev(devId, ops);
    FixedInFile(DevAfter(devId, ops), q, x);
    Row31IsFixed(DevAfter(devId, ops));
    if ops == [] {
      DefaultRegsAt(DeviceOf(devId), q, x);
      DefaultRegsAt(DeviceOf(devId), 31, 0);
    } else {
      var before, op := ops[..|ops| - 1], ops[|ops| - 1];
      RunDev(devId, before);
      Row31IsFixed(DevAfter(devId, before));
      FixedHistory(devId, before, 31, 0);
      if !op.Init? {
        FixedHistory(devId, before, q, x);
      }
      StepFixed(Run(devId, before), op, q, x);
      StepFixed(Run(devId, before), op, 31, 0);
    }
  }

  /** The word last written to a register since the reset, or its reset value. */
  function LastWord(devId: nat, ops: seq<Op>, q: nat, x: nat): bv16
    requires q < 32
  {
    if ops == [] then DefaultReg(DeviceOf(devId), q, x)
    else
      var before, op := ops[..|ops| - 1], ops[|ops| - 1];
      var dev := DevAfter(devId, before);
      if Resets(dev, op) then DefaultReg(DevAfter(devId, ops), q, x)
      else if Stores(dev, op, q, x) then PlainWord(dev, q, x, op.value)
      else LastWord(devId, before, q, x)
  }

  /** Over every run each quiet register holds the word last written to it since the reset. */
  lemma {:induction false} QuietHistory(devId: nat, ops: seq<Op>, q: nat, x: nat)
    requires q < 32 && Quiet(DevAfter(devId, ops), q, x)
    ensures x < 32 && Run(devId, ops).regs[At(q, x)] == LastWord(devId, ops, q, x)
  {
    hide AtuInv, VtuInv, RegInv, Step, DefaultRegs, DefaultReg, Quiet, Fixed, At, PlainWord, Stores, Resets;
    RunDev(devId, ops);
    QuietElsewhere(DevAfter(devId, ops), q, x);
    if ops == [] {
      DefaultRegsAt(DeviceOf(devId), q, x);
    } else {
      var before, op := ops[..|ops| - 1], ops[|ops| - 1];
      RunDev(devId, before);
      Row31IsFixed(DevAfter(devId, before));
      FixedHistory(devId, before, 31, 0);
      if !op.Init? {
        QuietHistory(devId, before, q, x);
      } else {
        InitResets(DevAfter(devId, before), op);
      }
      StepQuiet(Run(devId, before), op, q, x);
    }
  }

  lemma InitResets(dev: Device, op: Op)
    requires op.Init?
    ensures Resets(dev, op)
  {
  }

  /** So a read of any such register, other than the summary's alias in a PHY row, shows that word. */
  lemma QuietShown(devId: nat, ops: seq<Op>, port: nat, x: nat)
    requires var dev := DevAfter(devId, ops);
      Norm(port) < 32 && Quiet(dev, Norm(port), x) && !(Norm(port) < dev.phys && x == 20)
    ensures Read(Run(devId, ops), port, x).1 == Some(LastWord(devId, ops, Norm(port), x))
  {
    hide Run, AtuInv, VtuInv, RegInv, LastWord, Quiet, ReadEffect, At;
    RunDev(devId, ops);
    QuietHistory(devId, ops, Norm(port), x);
    OwnCellShown(Run(devId, ops), port, x);
  }

  /** At reset the VLAN map of the k-th port at row 8 + k joins it with the six others of the first seven. */
  lemma PortMapReset(dev: Device, p: nat, k: nat)
    requires dev.Fits() && dev.IsPort(p) && k < 7
    ensures DefaultReg(dev, p, 6) & ((1 as bv16) << k) != 0 <==> k != p - 8
    ensures DefaultReg(dev, p, 6) < 0x80
  {
    MapBits((p - 8) as nat, k);
  }

  lemma MapBits(i: nat, k: nat)
    requires i < 24 && k < 7
    ensures var w := (0x7F & !((1 as bv32) << i) & 0xFFFF) as bv16;
      (w & ((1 as bv16) << k) != 0 <==> k != i) && w < 0x80
  {
  }

  /** Reset words of quiet global, PHY and port registers. */
  const GLOBAL_WORDS: map<nat, bv16> := map[1 := 0, 2 := 0, 3 := 0, 4 := 0x81, 10 := 0x1130, 16 := 0, 17 := 0,
    18 := 0x5555, 20 := 0xAAAA, 21 := 0xAAAA, 22 := 0xFFFF, 23 := 0xFFFF, 24 := 0xFA41]

  const PHY_WORDS: map<nat, bv16> := map[1 := 0x7849, 2 := 0x0141, 3 := 0x0C1F, 4 := 0x01E1, 5 := 0, 6 := 4,
    7 := 0x2001, 8 := 0, 16 := 0x0130, 17 := 0x40, 18 := 0, 21 := 0, 22 := 0x0A34, 23 := 0x03FC, 24 := 0x42BF]

  const PORT_WORDS: map<nat, bv16> := map[4 := 0x7F, 7 := 1, 16 := 0, 17 := 0]

  lemma ResetWordsAre(dev: Device, q: nat, x: nat)
    requires dev.Fits() && q < 32
    ensures dev.IsGlobal(q) && x in GLOBAL_WORDS ==> Quiet(dev, q, x) && DefaultReg(dev, q, x) == GLOBAL_WORDS[x]
    ensures dev.IsPhy(q) && x in PHY_WORDS ==> Quiet(dev, q, x) && DefaultReg(dev, q, x) == PHY_WORDS[x]
    ensures dev.IsPort(q) && x in PORT_WORDS ==> Quiet(dev, q, x) && DefaultReg(dev, q, x) == PORT_WORDS[x]
  {
  }

  /** A read that follows a reset, before any write, shows the reset word. */
  lemma ResetWordsShown(devId: nat, ops: seq<Op>, port: nat, x: nat)
    requires ops == [] || Resets(DevAfter(devId, ops[..|ops| - 1]), ops[|ops| - 1])
    requires Norm(port) < 32
    ensures var dev, q, shown := DevAfter(devId, ops), Norm(port), Read(Run(devId, ops), port, x).1;
      && (dev.IsGlobal(q) && x in GLOBAL_WORDS ==> shown == Some(GLOBAL_WORDS[x]))
      && (dev.IsPhy(q) && x in PHY_WORDS ==> shown == Some(PHY_WORDS[x]))
      && (dev.IsPort(q) && x in PORT_WORDS ==> shown == Some(PORT_WORDS[x]))
  {
    hide Run, AtuInv, VtuInv, RegInv, Quiet, ReadEffect, DefaultReg, Resets, Read;
    var dev, q := DevAfter(devId, ops), Norm(port);
    ResetWordsAre(dev, q, x);
    if Quiet(dev, q, x) && !(q < dev.phys && x == 20) {
      QuietShown(devId, ops, port, x);
    }
  }

  // ----- Ids

  lemma SwitchIdFixed(id: bv16, dev: Device, q: nat)
    requires dev.Fits() && Describes(id, dev) && PortRows(id).0 <= q < PortRows(id).1
    ensures Fixed(dev, q, 3) && !dev.IsPhy(q) && DefaultReg(dev, q, 3) == id << 4
  {
    hide PortRows;
  }

  /** After every run register 3 of each of the device's port rows shows the switch id. */
  lemma SwitchIdShown(devId: nat, ops: seq<Op>, port: nat)
    requires var (first, end) := PortRows(LastId(devId, ops)); first <= Norm(port) < end
    ensures Read(Run(devId, ops), port, 3).1 == Some(LastId(devId, ops) << 4)
  {
    hide Run, AtuInv, VtuInv, RegInv, LastId, Describes, Fixed, DefaultReg, At, Bit, ReadEffect;
    RunDev(devId, ops);
    DeviceDescribed(devId, ops);
    SwitchIdFixed(LastId(devId, ops), DevAfter(devId, ops), Norm(port));
    FixedInFile(DevAfter(devId, ops), Norm(port), 3);
    FixedHistory(devId, ops, Norm(port), 3);
  }

  lemma PhyIdFixed(id: bv16, dev: Device, q: nat)
    requires dev.Fits() && Describes(id, dev) && q < Phys(id)
    ensures Fixed(dev, q, 2) && DefaultReg(dev, q, 2) == 0x0141
    ensures Fixed(dev, q, 3) && DefaultReg(dev, q, 3) == 0x0C1F
  {
    hide Phys;
  }

  /** After every run registers 2 and 3 of each PHY show its id. */
  lemma PhyIdShown(devId: nat, ops: seq<Op>, port: nat)
    requires Norm(port) < Phys(LastId(devId, ops))
    ensures Read(Run(devId, ops), port, 2).1 == Some(0x0141) && Read(Run(devId, ops), port, 3).1 == Some(0x0C1F)
  {
    hide Run, AtuInv, VtuInv, RegInv, LastId, Describes, Fixed, DefaultReg, At, Bit, ReadEffect;
    RunDev(devId, ops);
    DeviceDescribed(devId, ops);
    PhyIdFixed(LastId(devId, ops), DevAfter(devId, ops), Norm(port));
    FixedInFile(DevAfter(devId, ops), Norm(port), 3);
    FixedHistory(devId, ops, Norm(port), 2);
    FixedHistory(devId, ops, Norm(port), 3);
  }

  // ----- Injected global interrupts

  /** No reachable state is changed by an injected global interrupt. */
  lemma GlobalIntDoesNothing(devId: nat, ops: seq<Op>, data: bv16)
    ensures SetGlobalInt(Run(devId, ops), data) == Run(devId, ops)
  {
    Row31IsFixed(DevAfter(devId, ops));
    FixedHistory(devId, ops, 31, 0);
    OnesStay(data);
    hide Run, AtuInv, VtuInv, RegInv;
    var regs := Run(devId, ops).regs;
    assert regs[At(31, 0) := regs[At(31, 0)]] == regs;
  }

  /** The run without its injected global interrupts. */
  function WithoutGlobalInts(ops: seq<Op>): seq<Op> {
    if ops == [] then []
    else
      var before, op := ops[..|ops| - 1], ops[|ops| - 1];
      WithoutGlobalInts(before) + if op.GlobalInt? then [] else [op]
  }

  /** A run ends in the same state as the run without its injected global interrupts. */
  lemma {:induction false} GlobalIntsInvisible(devId: nat, ops: seq<Op>)
    ensures Run(devId, ops) == Run(devId, WithoutGlobalInts(ops))
  {
    hide AtuInv, VtuInv, RegInv;
    if ops != [] {
      var before, op := ops[..|ops| - 1], ops[|ops| - 1];
      GlobalIntsInvisible(devId, before);
      var kept := WithoutGlobalInts(before);
      if op.GlobalInt? {
        GlobalIntDoesNothing(devId, before, op.status);
        assert WithoutGlobalInts(ops) == kept;
      } else {
        assert (kept + [op])[..|kept|] == kept;
      }
      hide Write, Read, PhyIntRegs, DefaultRegs;
    }
  }
}
