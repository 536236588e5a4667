/**
 Whole runs: register contents as functions of the history of accesses. Each reference function
 reads the list of operations only, never the simulator's registers.
 */
module SimHistory {
  import opened Sequences
  import opened SlotSpec
  import opened AtuSpec
  import opened AtuRuns
  import opened VtuSpec
  import opened Registers
  import opened SimSpec
  import opened SimInvariant

  /** The device a run has last been initialised as. */
  function DevAfter(devId: nat, ops: seq<Op>): (d: Device)
    ensures d.Fits()
  {
    if ops == [] then DeviceOf(devId)
    else if ops[|ops| - 1].Init? then DeviceOf(ops[|ops| - 1].devId)
    else DevAfter(devId, ops[..|ops| - 1])
  }

  lemma StepDev(s: Sim, op: Op)
    requires Sound(s)
    ensures Step(s, op).dev == if op.Init? then DeviceOf(op.devId) else s.dev
  {
    hide AddVlan, DelVlan, Apply;
  }

  lemma {:induction false} RunDev(devId: nat, ops: seq<Op>)
    ensures Run(devId, ops).dev == DevAfter(devId, ops)
  {
    hide AtuInv, VtuInv, RegInv, Step;
    if ops != [] {
      RunDev(devId, ops[..|ops| - 1]);
      StepDev(Run(devId, ops[..|ops| - 1]), ops[|ops| - 1]);
    }
  }

  /** Writes to the global control register that reload the defaults, and initialisations. */
  predicate Resets(dev: Device, op: Op) {
    match op
    case Init(_) => true
    case WriteReg(port, r, value) => Norm(port) == dev.globalBase && r == 4 && value & 0x200 != 0
    case _ => false
  }

  predicate Writes(op: Op, p: nat, r: nat) {
    op.WriteReg? && Norm(op.port) == p && op.reg == r
  }

  predicate Reads(op: Op, p: nat, r: nat) {
    op.ReadReg? && Norm(op.port) == p && op.reg == r
  }

  /** Reading the interrupt status of a PHY clears it. */
  predicate Clears(dev: Device, op: Op, p: nat) {
    Reads(op, p, 19) && p < dev.phys
  }

  // ----- What leaves the registers of a PHY, and the global status, alone

  lemma AtuRegsFrame(regs: Regs, g: nat, es: seq<AtuEntry>, q: nat, x: nat)
    requires g < 32 && q < 32 && x < 32 && (q != g || !(11 <= x <= 15))
    ensures AtuGetNext(regs, g, es)[At(q, x)] == regs[At(q, x)]
  {
    hide Pack, SetNibble, GetAtuInfo, First, At;
    forall r | 11 <= r <= 15 ensures At(g, r) != At(q, x) {
      AtInjective(g, r, q, x);
    }
  }

  lemma AtuFrame(s: Sim, value: bv32, q: nat, x: nat)
    requires s.dev.Fits() && s.atu.WellFormed() && q < 32 && x < 32 && (q != s.dev.globalBase || !(11 <= x <= 15))
    ensures AtuOperation(s, value).0.regs[At(q, x)] == s.regs[At(q, x)]
  {
    hide AtuGetNext, Apply, AtuCommand, At;
    AtuRegsFrame(s.regs, s.dev.globalBase, s.atu.Entries(), q, x);
  }

  lemma VtuRegsFrame(regs: Regs, g: nat, op: bv32, es: seq<VtuEntry>, q: nat, x: nat)
    requires g < 32 && q < 32 && x < 32 && (q != g || !(5 <= x <= 9))
    ensures VtuRegsOp(regs, g, op, es)[At(q, x)] == regs[At(q, x)]
  {
    hide TagWord, MergeDb, VidWord, GetVtuInfo, At;
    forall r | 5 <= r <= 9 ensures At(g, r) != At(q, x) {
      AtInjective(g, r, q, x);
    }
  }

  lemma VtuFrame(s: Sim, value: bv32, q: nat, x: nat)
    requires s.dev.Fits() && s.vtu.WellFormed() && q < 32 && x < 32 && (q != s.dev.globalBase || !(5 <= x <= 9))
    ensures VtuOperation(s, value).0.regs[At(q, x)] == s.regs[At(q, x)]
  {
    hide VtuTableOp, VtuRegsOp, GetVtuInfo, Field, At;
    var g := s.dev.globalBase;
    AtInjective(g, 5, q, x);
    VtuRegsFrame(ClearBusy(s.regs, g, 5), g, Field(value), s.vtu.Entries(), q, x);
  }

  lemma StatsFrame(s: Sim, value: bv32, q: nat, x: nat)
    requires Sound(s) && q < 32 && x < 32 && (q != s.dev.globalBase || x < 29)
    ensures StatsOperation(s, value).0.regs[At(q, x)] == s.regs[At(q, x)]
  {
    hide Field, Low6;
  }

  /**
   Of a PHY's registers a write reaches at most 0, 4, 7, 16 and 18, and those only in the addressed row;
   it never reaches the global status.
   */
  lemma WriteFrame(s: Sim, port: nat, r: nat, value: bv32, q: nat, x: nat)
    requires Sound(s) && x < 32 && !Resets(s.dev, WriteReg(port, r, value))
    requires (q < s.dev.phys && ((q == Norm(port) && x == r) ==> x == 19 || x == 20)) || (q == s.dev.globalBase && x == 0)
    ensures Write(s, port, r, value).0.regs[At(q, x)] == s.regs[At(q, x)]
  {
    hide AtuOperation, VtuOperation, StatsOperation, PhyControl, SetNibble, DefaultRegs;
    var p, g := Norm(port), s.dev.globalBase;
    if p < 32 && r < 32 {
      AtInjective(p, r, q, x);
      AtInjective(g, 11, q, x);
      AtInjective(g, 5, q, x);
      AtuFrame(s, value, q, x);
      AtuFrame(s.(regs := EnterNibble(s.regs, g, 11, value)), value, q, x);
      VtuFrame(s.(regs := EnterNibble(s.regs, g, 5, value)), value, q, x);
      StatsFrame(s, value, q, x);
    }
  }

  lemma ReloadDefaults(s: Sim, port: nat, r: nat, value: bv32, q: nat, x: nat)
    requires Sound(s) && q < s.dev.phys && x < 32 && Resets(s.dev, WriteReg(port, r, value))
    ensures Write(s, port, r, value).0.regs[At(q, x)] == PhyDefault(x)
  {
    hide DefaultRegs, AtuOperation, VtuOperation, StatsOperation;
    AtInjective(Norm(port), 0, q, x);
    DefaultRegsAt(s.dev, q, x);
  }

  lemma BootDefaults(devId: nat, clear: seq<bool>, captured: nat, q: nat, x: nat)
    requires q < DeviceOf(devId).phys && x < 32
    ensures Boot(devId, clear, captured).regs[At(q, x)] == PhyDefault(x)
  {
    DefaultRegsAt(DeviceOf(devId), q, x);
  }

  // ----- PHY control

  /** The values written to the control register of PHY p since the reset. */
  function PhyWrites(devId: nat, ops: seq<Op>, p: nat): seq<bv32> {
    if ops == [] then []
    else
      var before, op := ops[..|ops| - 1], ops[|ops| - 1];
      if Resets(DevAfter(devId, before), op) then []
      else if Writes(op, p, 0) then PhyWrites(devId, before, p) + [op.value]
      else PhyWrites(devId, before, p)
  }

  predicate PowersDown(v: bv32) {
    Low16(v) & 0x0800 != 0
  }

  /** Power-down, reset or restart of negotiation. */
  predicate Commands(v: bv32) {
    Low16(v) & 0x8A00 != 0
  }

  /**
   Speed, negotiation and duplex of the last write that gave a command or that left power-down; the
   defaults before any.
   */
  function Latched(vs: seq<bv32>): bv16 {
    if vs == [] then 0x3100
    else
      var n := |vs| - 1;
      if Commands(vs[n]) || (n > 0 && PowersDown(vs[n - 1])) then Low16(vs[n]) & 0x3100 else Latched(vs[..n])
  }

  /** The control register after a history of writes. */
  function PhyWord(vs: seq<bv32>): bv16 {
    if vs == [] then 0x3100
    else
      var v := vs[|vs| - 1];
      Latched(vs) | (Low16(v) & 0x4000) | (if PowersDown(v) then 0x8A00 else 0)
  }

  lemma {:induction false} LatchedBits(vs: seq<bv32>)
    ensures Latched(vs) & 0x3100 == Latched(vs)
  {
    if vs != [] {
      LatchedBits(vs[..|vs| - 1]);
    }
  }

  lemma WordParts(l: bv16, loopback: bv16, down: bool)
    requires l & 0x3100 == l && loopback & 0x4000 == loopback
    ensures var w := l | loopback | (if down then 0x8A00 else 0);
      w & 0x3100 == l && (w & 0x0800 != 0 <==> down)
  {
  }

  /** One write: what is kept of the old word is its mode bits and whether it was powered down. */
  lemma ControlStep(word: bv16, v: bv32)
    ensures PhyControl(word, v) ==
      (if Commands(v) || word & 0x0800 != 0 then Low16(v) & 0x3100 else word & 0x3100)
      | (Low16(v) & 0x4000) | (if PowersDown(v) then 0x8A00 else 0)
  {
    ControlBits(word, Low16(v));
    hide Low16;
  }

  lemma ControlBits(word: bv16, m: bv16)
    ensures var v := m & 0xFB00;
      && (v & 0x0800 != 0 <==> m & 0x0800 != 0)
      && (m & 0x0800 != 0 ==> m & 0x8A00 != 0 && v | 0x8200 == (m & 0x3100) | (m & 0x4000) | 0x8A00)
      && (m & 0x0800 == 0 ==> v & !0x8200 == (m & 0x3100) | (m & 0x4000))
      && (m & 0x0800 == 0 ==> (v & 0x8200 != 0 <==> m & 0x8A00 != 0))
      && (m & 0x8A00 == 0 ==> v & !0x3100 == m & 0x4000)
  {
  }

  lemma PhyStep(vs: seq<bv32>, v: bv32)
    ensures PhyControl(PhyWord(vs), v) == PhyWord(vs + [v])
  {
    hide PhyControl, Low16;
    ControlStep(PhyWord(vs), v);
    LatchedBits(vs);
    assert (vs + [v])[..|vs|] == vs;
    if vs != [] {
      var u := vs[|vs| - 1];
      LoopbackBits(Low16(u));
      WordParts(Latched(vs), Low16(u) & 0x4000, PowersDown(u));
    }
  }

  lemma LoopbackBits(w: bv16)
    ensures (w & 0x4000) & 0x4000 == w & 0x4000
  {
  }

  lemma StepControl(s: Sim, op: Op, p: nat)
    requires Sound(s) && p < Step(s, op).dev.phys && p < 32
    ensures Step(s, op).regs[At(p, 0)] ==
      if Resets(s.dev, op) then 0x3100
      else if Writes(op, p, 0) then PhyControl(s.regs[At(p, 0)], op.value) else s.regs[At(p, 0)]
  {
    hide DefaultRegs, PhyControl, Summary, StatusAfterRead, SetNibble;
    StepDev(s, op);
    match op
    case WriteReg(port, r, value) =>
      if Resets(s.dev, op) {
        ReloadDefaults(s, port, r, value, p, 0);
      } else if !Writes(op, p, 0) {
        WriteFrame(s, port, r, value, p, 0);
      }
    case ReadReg(port, r) =>
    case PhyInt(q, data) =>
    case GlobalInt(data) =>
    case Init(id) => BootDefaults(id, s.clear, s.captured, p, 0);
  }

  /** The control register of every PHY, over every run, is a function of the writes to it since the reset. */
  lemma {:induction false} ControlHistory(devId: nat, ops: seq<Op>, p: nat)
    requires p < DevAfter(devId, ops).phys
    ensures Run(devId, ops).regs[At(p, 0)] == PhyWord(PhyWrites(devId, ops, p))
  {
    hide AtuInv, VtuInv, RegInv, Step, DefaultRegs, At, WriteAction, PhyWord, PhyControl;
    RunDev(devId, ops);
    InitialWord();
    if ops == [] {
      BootDefaults(devId, NO_FLAGS, 0, p, 0);
    } else {
      var before, op := ops[..|ops| - 1], ops[|ops| - 1];
      RunDev(devId, before);
      if !op.Init? {
        ControlHistory(devId, before, p);
      }
      StepControl(Run(devId, before), op, p);
      if Writes(op, p, 0) {
        PhyStep(PhyWrites(devId, before, p), op.value);
      }
    }
  }

  lemma InitialWord()
    ensures PhyWord([]) == 0x3100
  {
  }

  /**
   In every reachable state power-down, reset and restart are all set or all clear, and only writable
   bits are set.
   */
  lemma ControlShape(devId: nat, ops: seq<Op>, p: nat)
    requires p < DevAfter(devId, ops).phys
    ensures var w := Run(devId, ops).regs[At(p, 0)];
      (w & 0x8A00 == 0 || w & 0x8A00 == 0x8A00) && w & 0xFB00 == w
  {
    hide Run;
    ControlHistory(devId, ops, p);
    WordShape(PhyWrites(devId, ops, p));
  }

  lemma WordShape(vs: seq<bv32>)
    ensures var w := PhyWord(vs); (w & 0x8A00 == 0 || w & 0x8A00 == 0x8A00) && w & 0xFB00 == w
  {
    LatchedBits(vs);
    hide Low16, Latched;
  }

  // ----- Statistics

  /** The three code bits and the six low bits of an operation word. */
  function Code(value: bv32): bv32 {
    value / 0x1000 % 8
  }

  function Index(value: bv32): nat {
    (value % 64) as nat
  }

  lemma OperationWord(value: bv32)
    ensures Field(value) == Code(value) && Low6(value) as nat == Index(value)
    ensures Low6(value) as bv16 == (value % 64) as bv16
  {
  }

  predicate StatsCommand(dev: Device, op: Op, code: bv32) {
    Writes(op, dev.globalBase, 29) && dev.family != F6052 && op.value & 0x8000 != 0 && Code(op.value) == code
  }

  /** The last port successfully captured, 0 before any; initialisation does not change it. */
  function CapturedPort(devId: nat, ops: seq<Op>): nat {
    if ops == [] then 0
    else
      var before, op := ops[..|ops| - 1], ops[|ops| - 1];
      var dev := DevAfter(devId, before);
      if StatsCommand(dev, op, 5) && Index(op.value) < dev.ports then Index(op.value)
      else CapturedPort(devId, before)
  }

  predicate FlushesPort(dev: Device, op: Op, q: nat) {
    q < dev.ports && (StatsCommand(dev, op, 1) || (StatsCommand(dev, op, 2) && Index(op.value) == q))
  }

  /** Whether port q was flushed, alone or with all ports, at any step of the run. */
  predicate Flushed(devId: nat, ops: seq<Op>, q: nat) {
    if ops == [] then false
    else
      var before, op := ops[..|ops| - 1], ops[|ops| - 1];
      Flushed(devId, before, q) || FlushesPort(DevAfter(devId, before), op, q)
  }

  lemma StepStats(s: Sim, op: Op)
    requires Sound(s)
    ensures var s' := Step(s, op);
      && s'.captured == (if StatsCommand(s.dev, op, 5) && Index(op.value) < s.dev.ports
                         then Index(op.value) else s.captured)
      && |s'.clear| == 10
      && forall q :: 0 <= q < 10 ==> (s'.clear[q] <==> s.clear[q] || FlushesPort(s.dev, op, q))
  {
    hide AtuOperation, VtuOperation, StatsOperation, PlainWrite, Code, Index;
    match op
    case WriteReg(port, r, value) =>
      var p, g := Norm(port), s.dev.globalBase;
      if p < 32 && r < 32 {
        StatsOnlyThere(s, value);
        StatsOnlyThere(s.(regs := EnterNibble(s.regs, g, 11, value)), value);
        StatsOnlyThere(s.(regs := EnterNibble(s.regs, g, 5, value)), value);
        StatsEffect(s, value);
      }
    case _ =>
  }

  lemma StatsOnlyThere(s: Sim, value: bv32)
    requires Sound(s)
    ensures AtuOperation(s, value).0.clear == VtuOperation(s, value).0.clear == s.clear
    ensures AtuOperation(s, value).0.captured == VtuOperation(s, value).0.captured == s.captured
  {
    hide VtuTableOp, VtuRegsOp, AtuGetNext, AtuRuns.Apply;
  }

  lemma StatsEffect(s: Sim, value: bv32)
    requires Sound(s)
    ensures var s', busy, n := StatsOperation(s, value).0, value & 0x8000 != 0, Index(value);
      && s'.captured == (if busy && Code(value) == 5 && n < s.dev.ports then n else s.captured)
      && |s'.clear| == 10
      && forall q :: 0 <= q < 10 ==>
           s'.clear[q] ==
           (s.clear[q] || (q < s.dev.ports && busy && (Code(value) == 1 || (Code(value) == 2 && n == q))))
  {
    hide Field, Low6, Code, Index, ClearBusy;
    OperationWord(value);
  }

  lemma {:induction false} StatsHistory(devId: nat, ops: seq<Op>)
    ensures var s := Run(devId, ops);
      s.captured == CapturedPort(devId, ops) && forall q :: 0 <= q < 10 ==> (s.clear[q] <==> Flushed(devId, ops, q))
  {
    hide AtuInv, VtuInv, RegInv, Step, StatsCommand, FlushesPort, Index;
    if ops != [] {
      var before, op := ops[..|ops| - 1], ops[|ops| - 1];
      RunDev(devId, before);
      StatsHistory(devId, before);
      StepStats(Run(devId, before), op);
    }
  }

  lemma CounterRegs(s: Sim, op: Op)
    requires Sound(s) && StatsCommand(s.dev, op, 4)
    ensures var (s', ok) := Write(s, op.port, op.reg, op.value);
      var g, zero := s.dev.globalBase, s.clear[s.captured];
      && ok && s' == s.(regs := s'.regs)
      && s'.regs[At(g, 30)] == (if zero then 0 else s.captured as bv16)
      && s'.regs[At(g, 31)] == (if zero then 0 else (op.value % 64) as bv16)
  {
    OperationWord(op.value);
    hide Field, Low6, Code, ClearBusy, AtuOperation, VtuOperation, PlainWrite;
  }

  /**
   After any run, Read Counter makes the two counter registers show zeros if the captured port was ever
   flushed, else that port and the counter asked for.
   */
  lemma ReadCounter(devId: nat, ops: seq<Op>, op: Op, port: nat)
    requires StatsCommand(DevAfter(devId, ops), op, 4) && Norm(port) == DevAfter(devId, ops).globalBase
    ensures var (s', ok) := Write(Run(devId, ops), op.port, op.reg, op.value);
      var q := CapturedPort(devId, ops);
      && ok && q < 10
      && Read(s', port, 30).1 == Some(if Flushed(devId, ops, q) then 0 else q as bv16)
      && Read(s', port, 31).1 == Some(if Flushed(devId, ops, q) then 0 else (op.value % 64) as bv16)
  {
    RunDev(devId, ops);
    StatsHistory(devId, ops);
    hide AtuInv, VtuInv, RegInv, Run, CapturedPort, Flushed, StatsCommand, Write;
    CounterRegs(Run(devId, ops), op);
  }
}
