/**
 Interrupts over whole runs: the status of each PHY, the port summary and the global status word as
 functions of the history of accesses.
 */
module SimInterrupts {
  import opened Sequences
  import opened Registers
  import opened SimSpec
  import opened SimInvariant
  import opened SimHistory

  // ----- PHY interrupts

  predicate Has(word: bv16, mask: bv16) {
    word & mask != 0
  }

  predicate BitSet(word: bv16, p: nat) {
    Has(word, Bit(p))
  }

  predicate Disjoint(b: bv16, c: bv16) {
    b & c == 0
  }

  lemma BitNonzero(p: nat)
    requires p < 16
    ensures Bit(p) != 0
  {
  }

  lemma BitsDisjoint(p: nat, q: nat)
    requires p < 16 && p != q
    ensures Disjoint(Bit(p), Bit(q))
  {
    if p == 0 {} else if p == 1 {} else if p == 2 {} else if p == 3 {}
    else if p == 4 {} else if p == 5 {} else if p == 6 {} else if p == 7 {}
    else if p == 8 {} else if p == 9 {} else if p == 10 {} else if p == 11 {}
    else if p == 12 {} else if p == 13 {} else if p == 14 {} else {}
  }

  lemma SetOther(word: bv16, b: bv16, c: bv16)
    requires Disjoint(b, c)
    ensures Has(word | c, b) == Has(word, b)
  {
  }

  lemma ClearOther(word: bv16, b: bv16, c: bv16)
    requires Disjoint(b, c)
    ensures Has(word & !c, b) == Has(word, b)
  {
  }

  lemma WithOther(word: bv16, b: bv16, c: bv16, on: bool)
    requires Disjoint(b, c)
    ensures Has(With(word, c, on), b) == Has(word, b)
  {
    hide Disjoint, Has;
    if on {
      SetOther(word, b, c);
    } else {
      ClearOther(word, b, c);
    }
  }

  lemma WithSame(word: bv16, b: bv16, on: bool)
    requires b != 0
    ensures Has(With(word, b, on), b) == on
  {
    if on {
      assert (word | b) & b == b;
    }
  }

  lemma SummaryBit(word: bv16, q: nat, pending: bool, p: nat)
    requires p < 16
    ensures BitSet(Summary(word, q, pending), p) == if p == q then pending else BitSet(word, p)
  {
    hide Bit, Has, With, Disjoint;
    if p == q {
      BitNonzero(p);
      WithSame(word, Bit(p), pending);
    } else {
      BitsDisjoint(p, q);
      WithOther(word, Bit(p), Bit(q), pending);
    }
  }

  /** Whether the last event at row p since the reset was an injected interrupt with a nonzero status. */
  predicate Pending(devId: nat, ops: seq<Op>, p: nat) {
    if ops == [] then false
    else
      var before, op := ops[..|ops| - 1], ops[|ops| - 1];
      if Resets(DevAfter(devId, before), op) || Clears(DevAfter(devId, before), op, p) then false
      else if op.PhyInt? && op.row == p then op.status != 0
      else Pending(devId, before, p)
  }

  /** The interrupt status of PHY p: last injected, cleared by a read, 0x40 from the reset on. */
  function Status(devId: nat, ops: seq<Op>, p: nat): bv16 {
    if ops == [] then 0x40
    else
      var before, op := ops[..|ops| - 1], ops[|ops| - 1];
      if Resets(DevAfter(devId, before), op) then 0x40
      else if Clears(DevAfter(devId, before), op, p) then 0
      else if op.PhyInt? && op.row == p then op.status
      else Status(devId, before, p)
  }

  /** PHY p has seen neither an injected interrupt nor a status read since the reset. */
  predicate Untouched(devId: nat, ops: seq<Op>, p: nat) {
    if ops == [] then true
    else
      var before, op := ops[..|ops| - 1], ops[|ops| - 1];
      if Resets(DevAfter(devId, before), op) then true
      else if Clears(DevAfter(devId, before), op, p) || (op.PhyInt? && op.row == p) then false
      else Untouched(devId, before, p)
  }

  // ----- PHY status and port summary, step by step

  lemma ReadStatus(dev: Device, regs: Regs, q: nat, r: nat, p: nat)
    requires dev.Fits() && q < 32 && r < 32 && p < dev.phys
    ensures ReadEffect(dev, regs, q, r)[At(p, 19)] == if q == p && r == 19 then 0 else regs[At(p, 19)]
  {
    hide Summary, StatusAfterRead;
    AtInjective(q, 0, p, 19);
    AtInjective(q, 19, p, 19);
    AtInjective(0, 20, p, 19);
  }

  lemma ReadSummary(dev: Device, regs: Regs, q: nat, r: nat, p: nat)
    requires dev.Fits() && q < 32 && r < 32 && p < 16
    ensures BitSet(ReadEffect(dev, regs, q, r)[At(0, 20)], p) <==>
      BitSet(regs[At(0, 20)], p) && !(q == p < dev.phys && r == 19)
  {
    hide Summary, StatusAfterRead, BitSet;
    SummaryBit(regs[At(0, 20)], q, false, p);
    AtInjective(q, 0, 0, 20);
    AtInjective(q, 19, 0, 20);
  }

  lemma PhyIntStatus(regs: Regs, q: Row, data: bv16, p: nat)
    requires p < 8
    ensures PhyIntRegs(regs, q, data)[At(p, 19)] == if q == p then data else regs[At(p, 19)]
  {
    hide Summary;
    AtInjective(q, 19, p, 19);
    AtInjective(0, 20, p, 19);
    AtInjective(31, 0, p, 19);
  }

  lemma PhyIntSummary(regs: Regs, q: Row, data: bv16, p: nat)
    requires p < 16
    ensures BitSet(PhyIntRegs(regs, q, data)[At(0, 20)], p) <==> if q == p then data != 0 else BitSet(regs[At(0, 20)], p)
  {
    hide Summary, BitSet;
    SummaryBit(regs[At(0, 20)], q, data != 0, p);
    AtInjective(q, 19, 0, 20);
    AtInjective(31, 0, 0, 20);
  }

  lemma StepStatus(s: Sim, op: Op, p: nat)
    requires Sound(s) && p < Step(s, op).dev.phys && p < 32
    ensures Step(s, op).regs[At(p, 19)] ==
      if Resets(s.dev, op) then 0x40 else if Clears(s.dev, op, p) then 0
      else if op.PhyInt? && op.row == p then op.status else s.regs[At(p, 19)]
  {
    hide Write, ReadEffect, PhyIntRegs, DefaultRegs;
    StepDev(s, op);
    match op
    case WriteReg(port, r, value) =>
      if Resets(s.dev, op) {
        ReloadDefaults(s, port, r, value, p, 19);
      } else {
        WriteFrame(s, port, r, value, p, 19);
      }
    case ReadReg(port, r) =>
      if Norm(port) < 32 && r < 32 {
        ReadStatus(s.dev, s.regs, Norm(port), r, p);
      }
    case PhyInt(q, data) => PhyIntStatus(s.regs, q, data, p);
    case GlobalInt(data) => AtInjective(31, 0, p, 19);
    case Init(id) => BootDefaults(id, s.clear, s.captured, p, 19);
  }

  lemma StepSummary(s: Sim, op: Op, p: nat)
    requires Sound(s) && p < 16
    ensures BitSet(Step(s, op).regs[At(0, 20)], p) <==>
      if Resets(s.dev, op) || Clears(s.dev, op, p) then false
      else if op.PhyInt? && op.row == p then op.status != 0 else BitSet(s.regs[At(0, 20)], p)
  {
    hide Write, ReadEffect, PhyIntRegs, DefaultRegs, BitSet;
    StepDev(s, op);
    ResetBit(p);
    match op
    case WriteReg(port, r, value) =>
      if Resets(s.dev, op) {
        ReloadDefaults(s, port, r, value, 0, 20);
      } else {
        WriteFrame(s, port, r, value, 0, 20);
      }
    case ReadReg(port, r) =>
      if Norm(port) < 32 && r < 32 {
        ReadSummary(s.dev, s.regs, Norm(port), r, p);
      }
    case PhyInt(q, data) => PhyIntSummary(s.regs, q, data, p);
    case GlobalInt(data) => AtInjective(31, 0, 0, 20);
    case Init(id) => BootDefaults(id, s.clear, s.captured, 0, 20);
  }

  lemma ResetBit(p: nat)
    ensures !BitSet(0, p)
  {
  }

  // ----- PHY status and port summary over a run

  /** Bit p of the port summary, over every run, as a function of the history; rows without a PHY included. */
  lemma {:induction false} SummaryHistory(devId: nat, ops: seq<Op>, p: nat)
    requires p < 16
    ensures BitSet(Run(devId, ops).regs[At(0, 20)], p) <==> Pending(devId, ops, p)
  {
    hide AtuInv, VtuInv, RegInv, Step, DefaultRegs, BitSet, At, WriteAction;
    RunDev(devId, ops);
    if ops == [] {
      ResetBit(p);
      BootDefaults(devId, NO_FLAGS, 0, 0, 20);
    } else {
      var before, op := ops[..|ops| - 1], ops[|ops| - 1];
      RunDev(devId, before);
      SummaryHistory(devId, before, p);
      StepSummary(Run(devId, before), op, p);
    }
  }

  /** The interrupt registers of every PHY, over every run, as functions of the history. */
  lemma {:induction false} InterruptHistory(devId: nat, ops: seq<Op>, p: nat)
    requires p < DevAfter(devId, ops).phys
    ensures Run(devId, ops).regs[At(p, 19)] == Status(devId, ops, p)
    ensures BitSet(Run(devId, ops).regs[At(0, 20)], p) <==> Pending(devId, ops, p)
  {
    hide AtuInv, VtuInv, RegInv, Step, DefaultRegs, BitSet, At, WriteAction, Pending;
    RunDev(devId, ops);
    SummaryHistory(devId, ops, p);
    if ops == [] {
      BootDefaults(devId, NO_FLAGS, 0, p, 19);
    } else {
      var before, op := ops[..|ops| - 1], ops[|ops| - 1];
      RunDev(devId, before);
      if !op.Init? {
        InterruptHistory(devId, before, p);
      }
      StepStatus(Run(devId, before), op, p);
    }
  }

  lemma {:induction false} PendingMeansStatus(devId: nat, ops: seq<Op>, p: nat)
    ensures Status(devId, ops, p) != 0 <==> Pending(devId, ops, p) || Untouched(devId, ops, p)
  {
    if ops != [] {
      PendingMeansStatus(devId, ops[..|ops| - 1], p);
    }
  }

  lemma {:induction false} UntouchedNotPending(devId: nat, ops: seq<Op>, p: nat)
    ensures !(Untouched(devId, ops, p) && Pending(devId, ops, p))
  {
    if ops != [] {
      UntouchedNotPending(devId, ops[..|ops| - 1], p);
    }
  }

  /**
   A set summary bit means a nonzero status; the converse holds exactly when PHY p is not untouched
   since the reset.
   */
  lemma SummaryMeansStatus(devId: nat, ops: seq<Op>, p: nat)
    requires p < DevAfter(devId, ops).phys
    ensures var regs := Run(devId, ops).regs;
      && (BitSet(regs[At(0, 20)], p) ==> regs[At(p, 19)] != 0)
      && ((regs[At(p, 19)] != 0 ==> BitSet(regs[At(0, 20)], p)) <==> !Untouched(devId, ops, p))
  {
    hide BitSet, Run;
    InterruptHistory(devId, ops, p);
    PendingMeansStatus(devId, ops, p);
    UntouchedNotPending(devId, ops, p);
  }

  // ----- Global status

  /** Some row's bit of the port summary is set. */
  predicate AnyPending(devId: nat, ops: seq<Op>) {
    exists p :: 0 <= p < 16 && Pending(devId, ops, p)
  }

  lemma SomeBit(word: bv16)
    ensures word != 0 <==> exists p :: 0 <= p < 16 && BitSet(word, p)
  {
    assert word == 0
      || BitSet(word, 0) || BitSet(word, 1) || BitSet(word, 2) || BitSet(word, 3)
      || BitSet(word, 4) || BitSet(word, 5) || BitSet(word, 6) || BitSet(word, 7)
      || BitSet(word, 8) || BitSet(word, 9) || BitSet(word, 10) || BitSet(word, 11)
      || BitSet(word, 12) || BitSet(word, 13) || BitSet(word, 14) || BitSet(word, 15);
  }

  /** The port summary is nonzero exactly when a row is pending. */
  lemma SummaryNonzero(devId: nat, ops: seq<Op>)
    ensures Run(devId, ops).regs[At(0, 20)] != 0 <==> AnyPending(devId, ops)
  {
    hide Run, BitSet, Pending;
    var word := Run(devId, ops).regs[At(0, 20)];
    SomeBit(word);
    forall p | 0 <= p < 16 ensures BitSet(word, p) <==> Pending(devId, ops, p) {
      SummaryHistory(devId, ops, p);
    }
  }

  predicate ReadsStatus(dev: Device, op: Op) {
    Reads(op, dev.globalBase, 0)
  }

  const READY: bv16 := 0x3C01
  const QUIET: bv16 := 0x3C00
  const PHY_INTERRUPT: bv16 := 0x3C02

  /**
   The global status word: the reset value until the first read, then whether an interrupt was pending
   when it was last read. No injected interrupt appears here.
   */
  function GlobalStatus(devId: nat, ops: seq<Op>): bv16 {
    if ops == [] then READY
    else
      var before, op := ops[..|ops| - 1], ops[|ops| - 1];
      var dev := DevAfter(devId, before);
      if Resets(dev, op) then READY
      else if ReadsStatus(dev, op) then if AnyPending(devId, before) then PHY_INTERRUPT else QUIET
      else GlobalStatus(devId, before)
  }

  lemma StatusWords(f: Family, word: bv16, summary: bv16)
    requires word == READY || word == QUIET || word == PHY_INTERRUPT
    ensures StatusAfterRead(f, word, summary) == if summary != 0 then PHY_INTERRUPT else QUIET
  {
  }

  lemma StepGlobalStatus(s: Sim, op: Op)
    requires Sound(s)
    ensures var g := s.dev.globalBase;
      Step(s, op).regs[At(Step(s, op).dev.globalBase, 0)] ==
        if Resets(s.dev, op) then READY
        else if ReadsStatus(s.dev, op) then StatusAfterRead(s.dev.family, s.regs[At(g, 0)], s.regs[At(0, 20)])
        else s.regs[At(g, 0)]
  {
    hide Write, PhyIntRegs, DefaultRegs, StatusAfterRead, Summary;
    StepDev(s, op);
    var g := s.dev.globalBase;
    match op
    case WriteReg(port, r, value) =>
      if Resets(s.dev, op) {
        ReloadStatus(s, port, r, value);
      } else {
        WriteFrame(s, port, r, value, g, 0);
      }
    case ReadReg(port, r) =>
      if Norm(port) < 32 && r < 32 {
        AtInjective(Norm(port), 19, g, 0);
        AtInjective(0, 20, g, 0);
      }
    case PhyInt(q, data) => PhyIntGlobal(s.regs, q, data, g);
    case GlobalInt(data) => AtInjective(31, 0, g, 0);
    case Init(id) => DefaultRegsAt(DeviceOf(id), DeviceOf(id).globalBase, 0);
  }

  lemma ReloadStatus(s: Sim, port: nat, r: nat, value: bv32)
    requires Sound(s) && Resets(s.dev, WriteReg(port, r, value))
    ensures Write(s, port, r, value).0.regs[At(s.dev.globalBase, 0)] == READY
  {
    hide DefaultRegs, AtuOperation, VtuOperation, StatsOperation;
    DefaultRegsAt(s.dev, s.dev.globalBase, 0);
  }

  lemma PhyIntGlobal(regs: Regs, q: Row, data: bv16, g: nat)
    requires g < 31
    ensures PhyIntRegs(regs, q, data)[At(g, 0)] == regs[At(g, 0)]
  {
    hide Summary;
    AtInjective(q, 19, g, 0);
    AtInjective(0, 20, g, 0);
    AtInjective(31, 0, g, 0);
  }

  /** The global status word, over every run, as a function of the history. */
  lemma {:induction false} GlobalStatusHistory(devId: nat, ops: seq<Op>)
    ensures var w := Run(devId, ops).regs[At(DevAfter(devId, ops).globalBase, 0)];
      w == GlobalStatus(devId, ops) && (w == READY || w == QUIET || w == PHY_INTERRUPT)
  {
    hide AtuInv, VtuInv, RegInv, Step, DefaultRegs, At, AnyPending, StatusAfterRead, Resets, ReadsStatus;
    RunDev(devId, ops);
    if ops == [] {
      DefaultRegsAt(DeviceOf(devId), DeviceOf(devId).globalBase, 0);
    } else {
      var before, op := ops[..|ops| - 1], ops[|ops| - 1];
      var s := Run(devId, before);
      RunDev(devId, before);
      GlobalStatusHistory(devId, before);
      StepGlobalStatus(s, op);
      StatusWords(s.dev.family, s.regs[At(s.dev.globalBase, 0)], s.regs[At(0, 20)]);
      SummaryNonzero(devId, before);
    }
  }

  /** Accesses that leave the shown status as it is: neither resets nor status reads. */
  predicate Silent(dev: Device, ops: seq<Op>) {
    forall i :: 0 <= i < |ops| ==> !Resets(dev, ops[i]) && !ReadsStatus(dev, ops[i])
  }

  lemma {:induction false} SilentKeepsStatus(devId: nat, ops: seq<Op>, more: seq<Op>)
    requires Silent(DevAfter(devId, ops), more)
    ensures DevAfter(devId, ops + more) == DevAfter(devId, ops)
    ensures GlobalStatus(devId, ops + more) == GlobalStatus(devId, ops)
  {
    hide AnyPending;
    if more == [] {
      assert ops + more == ops;
    } else {
      var n := |more| - 1;
      SilentKeepsStatus(devId, ops, more[..n]);
      assert (ops + more)[..|ops| + n] == ops + more[..n];
      assert !Resets(DevAfter(devId, ops), more[n]) && !ReadsStatus(DevAfter(devId, ops), more[n]);
    }
  }

  lemma StatusShown(devId: nat, ops: seq<Op>, port: nat)
    requires Norm(port) == DevAfter(devId, ops).globalBase
    ensures Read(Run(devId, ops), port, 0).1 == Some(GlobalStatus(devId, ops))
  {
    RunDev(devId, ops);
    GlobalStatusHistory(devId, ops);
    hide Run, AtuInv, VtuInv, RegInv, AnyPending, GlobalStatus;
  }

  /**
   The first status read after a reset shows the reset value, whatever interrupts were injected in
   between.
   */
  lemma FirstStatusRead(devId: nat, ops: seq<Op>, more: seq<Op>, port: nat)
    requires ops == [] || Resets(DevAfter(devId, ops[..|ops| - 1]), ops[|ops| - 1])
    requires Silent(DevAfter(devId, ops), more) && Norm(port) == DevAfter(devId, ops).globalBase
    ensures Read(Run(devId, ops + more), port, 0).1 == Some(READY)
  {
    hide Run, Resets, AnyPending;
    SilentKeepsStatus(devId, ops, more);
    StatusShown(devId, ops + more, port);
  }

  /**
   Every later status read shows bit 1 exactly when the port summary was nonzero at the read before it,
   however many interrupts came or were cleared in between.
   */
  lemma SecondStatusRead(devId: nat, ops: seq<Op>, port: nat, more: seq<Op>, port': nat)
    requires Norm(port) == Norm(port') == DevAfter(devId, ops).globalBase && Silent(DevAfter(devId, ops), more)
    ensures var shown := Read(Run(devId, ops + [ReadReg(port, 0)] + more), port', 0).1;
      && shown == Some(if AnyPending(devId, ops) then PHY_INTERRUPT else QUIET)
      && (Has(shown.value, 2) <==> Run(devId, ops).regs[At(0, 20)] != 0)
  {
    hide Run, AnyPending;
    var read := ops + [ReadReg(port, 0)];
    assert read[..|ops|] == ops;
    SummaryNonzero(devId, ops);
    SilentKeepsStatus(devId, read, more);
    StatusShown(devId, read + more, port');
  }
}
