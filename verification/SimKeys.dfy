/** Unique keys over whole runs of register accesses: when they last, and a run that loses them. */
module SimKeys {
  import opened Sequences
  import opened SlotSpec
  import opened MacAddress
  import opened AtuSpec
  import opened AtuFlush
  import opened AtuRuns
  import opened AtuKeys
  import opened Registers
  import opened SimSpec
  import opened SimInvariant
  import opened SimHistory
  import opened SimTables
  import opened SimWalks

  /** An access that is no load, or a load that meets the guard. */
  ghost predicate GuardedOp(s: Sim, op: Op)
    requires Inv(s)
  {
    match Command(s, op)
    case Some(c) => Guarded(s.atu, c)
    case None => true
  }

  lemma StepKeepsUniqueIff(s: Sim, op: Op)
    requires Inv(s) && UniqueKeys(s.atu.Entries())
    ensures Step(s, op).atu.WellFormed()
    ensures UniqueKeys(Step(s, op).atu.Entries()) <==> GuardedOp(s, op)
  {
    StepAtu(s, op);
    InitIsNoCommand(s, op);
    hide Step, Command, Apply, Guarded, VtuInv, RegInv;
    match Command(s, op)
    case Some(c) => ApplyKeepsUniqueIff(s.atu, c);
    case None =>
  }

  lemma InitIsNoCommand(s: Sim, op: Op)
    requires s.dev.Fits()
    ensures op.Init? ==> Command(s, op) == None
  {
  }

  ghost predicate UniqueAfterRun(devId: nat, ops: seq<Op>) {
    UniqueKeys(Run(devId, ops).atu.Entries())
  }

  /** Keys are unique in every state of the run. */
  ghost predicate UniqueThroughout(devId: nat, ops: seq<Op>) {
    forall k :: 0 <= k <= |ops| ==> UniqueAfterRun(devId, ops[..k])
  }

  /** Every load of the run meets the guard in the state that it finds. */
  ghost predicate GuardedThroughout(devId: nat, ops: seq<Op>) {
    forall k :: 0 <= k < |ops| ==> GuardedOp(Run(devId, ops[..k]), ops[k])
  }

  lemma UniqueOneMore(devId: nat, ops: seq<Op>, n: nat)
    requires |ops| == n + 1
    ensures UniqueThroughout(devId, ops) <==> UniqueThroughout(devId, ops[..n]) && UniqueAfterRun(devId, ops)
    ensures UniqueThroughout(devId, ops[..n]) ==> UniqueAfterRun(devId, ops[..n])
  {
    hide UniqueAfterRun;
    assert ops[..n + 1] == ops && ops[..n][..n] == ops[..n];
    assert forall k :: 0 <= k <= n ==> ops[..k] == ops[..n][..k];
  }

  lemma GuardedOneMore(devId: nat, ops: seq<Op>, n: nat)
    requires |ops| == n + 1
    ensures GuardedThroughout(devId, ops) <==>
      GuardedThroughout(devId, ops[..n]) && GuardedOp(Run(devId, ops[..n]), ops[n])
  {
    hide GuardedOp, Run;
    assert forall k :: 0 <= k <= n ==> ops[..k] == ops[..n][..k];
  }

  /** A run of register accesses keeps the keys unique throughout if and only if each of its loads meets the guard. */
  lemma {:induction false} RunKeepsUniqueIff(devId: nat, ops: seq<Op>)
    ensures UniqueThroughout(devId, ops) <==> GuardedThroughout(devId, ops)
  {
    hide UniqueKeys, GuardedOp, Step, AtuInv, VtuInv, RegInv;
    if ops == [] {
      EmptyRunUnique(devId);
    } else {
      var n := |ops| - 1;
      RunKeepsUniqueIff(devId, ops[..n]);
      UniqueOneMore(devId, ops, n);
      GuardedOneMore(devId, ops, n);
      if UniqueAfterRun(devId, ops[..n]) {
        StepKeepsUniqueIff(Run(devId, ops[..n]), ops[n]);
      }
      hide UniqueThroughout, GuardedThroughout;
    }
  }

  lemma UniqueAtEnd(devId: nat, ops: seq<Op>)
    ensures UniqueThroughout(devId, ops) ==> UniqueAfterRun(devId, ops)
  {
    hide UniqueAfterRun;
    assert ops[..|ops|] == ops;
  }

  lemma EmptyRunUnique(devId: nat)
    ensures UniqueThroughout(devId, [])
  {
    assert UniqueAfterRun(devId, []);
  }

  /** After a run whose loads all meet the guard, both unlocked flushes remove exactly the entries they select. */
  lemma GuardedRunsFlushExactly(devId: nat, ops: seq<Op>, d: bv16)
    requires GuardedThroughout(devId, ops)
    ensures var st := Run(devId, ops).atu;
      && Apply(st, FlushUnlocked).0.Entries() == Filter(st.Entries(), Not(Unlocked()))
      && Apply(st, FlushUnlockedInDb(d)).0.Entries() == Filter(st.Entries(), Not(UnlockedInDb(d)))
  {
    RunKeepsUniqueIff(devId, ops);
    UniqueAtEnd(devId, ops);
    hide Run, FlushWhere, GuardedThroughout;
    FlushWhereExactOnUniqueKeys(Run(devId, ops).atu, Unlocked());
    FlushWhereExactOnUniqueKeys(Run(devId, ops).atu, UnlockedInDb(d));
  }

  // ----- A run that loses them

  const MODEL_6063 := 0x153

  /** Data 1 and an address in registers 12 to 15. */
  function Prepare(w01: bv16, w23: bv16, w45: bv16): seq<Op> {
    [WriteReg(15, 12, 1), WriteReg(15, 13, w01 as bv32), WriteReg(15, 14, w23 as bv32), WriteReg(15, 15, w45 as bv32)]
  }

  /** Loads of that entry for databases 1, 2 and 1 again. */
  const LOADS: seq<Op> := [WriteReg(15, 11, 0xB001), WriteReg(15, 11, 0xB002), WriteReg(15, 11, 0xB001)]

  function MacOf(w01: bv16, w23: bv16, w45: bv16): Mac {
    [Hi(w01), Lo(w01), Hi(w23), Lo(w23), Hi(w45), Lo(w45)]
  }

  lemma RunLast(devId: nat, ops: seq<Op>, op: Op)
    ensures Run(devId, ops + [op]) == Step(Run(devId, ops), op)
    ensures AtuTrace(devId, ops + [op]) ==
      if op.Init? then []
      else match Command(Run(devId, ops), op)
           case Some(c) => AtuTrace(devId, ops) + [c]
           case None => AtuTrace(devId, ops)
  {
    hide Step, Command;
    assert (ops + [op])[..|ops|] == ops;
  }

  lemma StoreStep(s: Sim, r: nat, w: bv16)
    requires Sound(s) && s.dev == DeviceOf(MODEL_6063) && 12 <= r <= 15
    ensures Step(s, WriteReg(15, r, w as bv32)) == s.(regs := s.regs[At(15, r) := w])
    ensures Command(s, WriteReg(15, r, w as bv32)) == None
  {
    hide AtuOperation, VtuOperation, StatsOperation, AtuCommand;
    LowOfWord(w);
  }

  lemma LowOfWord(w: bv16)
    ensures Low16(w as bv32) == w
  {
  }

  lemma LoadStep(s: Sim, d: bv16)
    requires Sound(s) && s.dev == DeviceOf(MODEL_6063) && (d == 1 || d == 2) && s.regs[At(15, 12)] == 1
    ensures var op := WriteReg(15, 11, 0xB000 | d as bv32);
      && Command(s, op) == Some(Load(GetAtuInfo(s.regs, 15).(db := d)))
      && Step(s, op).dev == s.dev
      && (forall r :: 12 <= r <= 15 ==> Step(s, op).regs[At(15, r)] == s.regs[At(15, r)])
  {
    hide VtuOperation, StatsOperation, Apply, Hi, Lo;
    NibbleEntered(s.regs, 15, 0xB000 | d as bv32);
  }

  /** A device whose registers 12 to 15 hold the entry to load. */
  ghost predicate Ready(s: Sim, w01: bv16, w23: bv16, w45: bv16) {
    && s.dev == DeviceOf(MODEL_6063) && s.regs[At(15, 12)] == 1
    && s.regs[At(15, 13)] == w01 && s.regs[At(15, 14)] == w23 && s.regs[At(15, 15)] == w45
  }

  lemma Prepared(w01: bv16, w23: bv16, w45: bv16)
    ensures Ready(Run(MODEL_6063, Prepare(w01, w23, w45)), w01, w23, w45)
    ensures AtuTrace(MODEL_6063, Prepare(w01, w23, w45)) == []
  {
    hide Step, Command, DeviceOf, AtuTrace, AtuInv, VtuInv, RegInv;
    var ops := Prepare(w01, w23, w45);
    assert DeviceOf(MODEL_6063) == Run(MODEL_6063, []).dev && AtuTrace(MODEL_6063, []) == [] by {
      RunDev(MODEL_6063, []);
      TraceStart(MODEL_6063);
    }
    StoreStep(Run(MODEL_6063, []), 12, 1);
    RunLast(MODEL_6063, [], ops[0]);
    StoreStep(Run(MODEL_6063, [ops[0]]), 13, w01);
    assert ops[1] == WriteReg(15, 13, w01 as bv32);
    RunLast(MODEL_6063, [ops[0]], ops[1]);
    StoreStep(Run(MODEL_6063, [ops[0]] + [ops[1]]), 14, w23);
    RunLast(MODEL_6063, [ops[0]] + [ops[1]], ops[2]);
    StoreStep(Run(MODEL_6063, [ops[0]] + [ops[1]] + [ops[2]]), 15, w45);
    RunLast(MODEL_6063, [ops[0]] + [ops[1]] + [ops[2]], ops[3]);
    assert [] + [ops[0]] == [ops[0]];
    assert [ops[0]] + [ops[1]] + [ops[2]] + [ops[3]] == ops;
  }

  lemma TraceStart(devId: nat)
    ensures AtuTrace(devId, []) == []
  {
  }

  lemma ReadyLoads(ops: seq<Op>, w01: bv16, w23: bv16, w45: bv16, d: bv16)
    requires Ready(Run(MODEL_6063, ops), w01, w23, w45) && (d == 1 || d == 2)
    ensures var op := WriteReg(15, 11, 0xB000 | d as bv32);
      && Ready(Run(MODEL_6063, ops + [op]), w01, w23, w45)
      && AtuTrace(MODEL_6063, ops + [op]) == AtuTrace(MODEL_6063, ops) + [Load(AtuEntry(1, d, MacOf(w01, w23, w45)))]
  {
    hide Step, Command, DeviceOf, Hi, Lo, AtuTrace, AtuInv, VtuInv, RegInv, Run;
    RunLast(MODEL_6063, ops, WriteReg(15, 11, 0xB000 | d as bv32));
    LoadStep(Run(MODEL_6063, ops), d);
  }

  /** The accesses amount to the three loads that alternate between two databases. */
  lemma AlternatingTrace(w01: bv16, w23: bv16, w45: bv16)
    ensures var ops := Prepare(w01, w23, w45) + LOADS;
      && AtuTrace(MODEL_6063, ops) == Alternating(MacOf(w01, w23, w45))
      && Run(MODEL_6063, ops).dev == DeviceOf(MODEL_6063)
  {
    hide AtuTrace, Run, MacOf, DeviceOf, Prepare;
    var ops := Prepare(w01, w23, w45);
    var one, two := LOADS[0], LOADS[1];
    Prepared(w01, w23, w45);
    ReadyLoads(ops, w01, w23, w45, 1);
    ReadyLoads(ops + [one], w01, w23, w45, 2);
    ReadyLoads(ops + [one] + [two], w01, w23, w45, 1);
    assert ops + [one] + [two] + [one] == ops + LOADS;
  }

  /**
   Seven register writes on an 88E6063 store one unicast address twice under one key; flushing all
   unlocked entries, though each is unlocked, then leaves some behind.
   */
  lemma DuplicateThroughRegisters(w01: bv16, w23: bv16, w45: bv16)
    requires Hi(w01) & 1 == 0
    ensures var ops := Prepare(w01, w23, w45) + LOADS;
      var st := Run(MODEL_6063, ops).atu;
      && !UniqueKeys(st.Entries()) && !GuardedThroughout(MODEL_6063, ops)
      && Filter(st.Entries(), Not(Unlocked())) == []
      && Run(MODEL_6063, ops + [WriteReg(15, 11, 0xA000)]).atu.Entries() != []
  {
    hide Run, Prepare, Apply, AtuTrace, Filter, GuardedThroughout, UniqueThroughout;
    var ops := Prepare(w01, w23, w45) + LOADS;
    AlternatingTrace(w01, w23, w45);
    DuplicateSurvivesFlush(MacOf(w01, w23, w45));
    TraceRefines(MODEL_6063, ops);
    RunKeepsUniqueIff(MODEL_6063, ops);
    UniqueAtEnd(MODEL_6063, ops);
    FlushedRun(ops);
    hide UniqueKeys, ApplyAll, Alternating, Hi, Lo;
  }

  lemma FlushedRun(ops: seq<Op>)
    requires Run(MODEL_6063, ops).dev == DeviceOf(MODEL_6063)
    ensures Run(MODEL_6063, ops + [WriteReg(15, 11, 0xA000)]).atu == Apply(Run(MODEL_6063, ops).atu, FlushUnlocked).0
  {
    hide Run, Step, Command, Apply, AtuTrace, AtuInv, VtuInv, RegInv, DeviceOf;
    var s, flush := Run(MODEL_6063, ops), WriteReg(15, 11, 0xA000);
    FlushCommand(s);
    StepAtu(s, flush);
    RunLast(MODEL_6063, ops, flush);
  }

  lemma FlushCommand(s: Sim)
    requires s.dev == DeviceOf(MODEL_6063)
    ensures Command(s, WriteReg(15, 11, 0xA000)) == Some(FlushUnlocked)
  {
  }
}
