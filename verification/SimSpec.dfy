/** The simulator as a transition system on values: what each register access does to the whole state. */
module SimSpec {
  import opened Sequences
  import opened SlotSpec
  import opened AtuSpec
  import opened AtuRuns
  import opened VtuSpec
  import opened Registers

  const ATU_CAPACITY := 0x800
  const VTU_CAPACITY := 0x40
  const NO_FLAGS := [false, false, false, false, false, false, false, false, false, false]

  datatype Sim = Sim(dev: Device, regs: Regs, atu: Atu, vtu: Vtu, clear: seq<bool>, captured: nat)

  // ----- The address table behind global register 11

  function Field(value: bv32): bv32 {
    (value & 0x7000) >> 12
  }

  function Low4(value: bv32): bv16 {
    (value & 0xF) as bv16
  }

  function Low6(value: bv32): bv8 {
    (value & 0x3F) as bv8
  }

  function Low16(value: bv32): bv16 {
    (value & 0xFFFF) as bv16
  }

  /** The table command a write of the operation register amounts to, if any. */
  function AtuCommand(regs: Regs, g: nat, value: bv32): Option<AtuCmd>
    requires g < 32
  {
    var op, e := Field(value), GetAtuInfo(regs, g);
    if op == 1 then Some(FlushAll)
    else if op == 2 then Some(FlushUnlocked)
    else if op == 3 then Some(if e.data & 0xF != 0 then Load(e) else Purge(e.mac, e.db))
    else if op == 5 then Some(FlushInDb(Low4(value)))
    else if op == 6 then Some(FlushUnlockedInDb(Low4(value)))
    else None
  }

  /** The registers after Get-Next on a list of entries. */
  ghost function AtuGetNext(regs: Regs, g: nat, es: seq<AtuEntry>): Regs
    requires g < 32
  {
    var e := GetAtuInfo(regs, g);
    var k := First(es, Follows(e.mac, e.db));
    if k == |es| then ResetAtuInfo(regs, g) else SetAtuInfo(regs, g, es[k])
  }

  ghost function AtuOperation(s: Sim, value: bv32): (Sim, bool)
    requires s.dev.Fits() && s.atu.WellFormed()
  {
    var g := s.dev.globalBase;
    match AtuCommand(s.regs, g, value)
    case Some(c) => var (atu, ok) := Apply(s.atu, c); (s.(atu := atu), ok)
    case None =>
      (if Field(value) == 4 then s.(regs := AtuGetNext(s.regs, g, s.atu.Entries())) else s, true)
  }

  // ----- The VLAN table behind global register 5

  ghost function VtuGetNext(regs: Regs, g: nat, es: seq<VtuEntry>): Regs
    requires g < 32
  {
    var k := First(es, VidFollows(GetVtuInfo(regs, g).vid % 0x1000));
    if k == |es| then regs[At(g, 6) := 0xFFF] else SetVtuInfo(regs, g, es[k])
  }

  function ClearBusy(regs: Regs, g: nat, r: nat): Regs
    requires g < 32 && r < 32
  {
    regs[At(g, r) := regs[At(g, r)] & 0x7FFF]
  }

  /** The table after an operation; a load or purge is told apart by the valid bit of the VLAN id. */
  ghost function VtuTableOp(st: Vtu, limit: nat, op: bv32, e: VtuEntry): (r: (Vtu, bool))
    requires st.WellFormed()
    ensures r.0.WellFormed() && |r.0.slots| == |st.slots|
  {
    if op == 1 then (ClearedVtu(|st.slots|), true)
    else if op == 3 then
      if e.vid >= 0x1000 then AddVlan(st, limit, e.(vid := e.vid % 0x1000)) else DelVlan(st, e.vid)
    else (st, true)
  }

  /** The registers after an operation; a violation query reports port 1 and VLAN 1. */
  ghost function VtuRegsOp(regs: Regs, g: nat, op: bv32, es: seq<VtuEntry>): Regs
    requires g < 32
  {
    if op == 4 then VtuGetNext(regs, g, es)
    else if op == 7 then regs[At(g, 5) := (regs[At(g, 5)] & 0xF000) | 1][At(g, 6) := 1]
    else regs
  }

  ghost function VtuOperation(s: Sim, value: bv32): (Sim, bool)
    requires s.dev.Fits() && s.vtu.WellFormed()
  {
    var g, op := s.dev.globalBase, Field(value);
    if value & 0x8000 == 0 then (s, false)
    else
      var regs := ClearBusy(s.regs, g, 5);
      var (vtu, ok) := VtuTableOp(s.vtu, s.dev.vtuSize, op, GetVtuInfo(regs, g));
      (s.(regs := VtuRegsOp(regs, g, op, s.vtu.Entries()), vtu := vtu), ok)
  }

  // ----- The statistics behind global register 29

  /** All the device's ports marked, the flags beyond them kept. */
  function FlushedPorts(clear: seq<bool>, ports: nat): (r: seq<bool>)
    requires |clear| == 10
    ensures |r| == 10 && forall i :: 0 <= i < 10 ==> r[i] == (i < ports || clear[i])
  {
    seq(10, i requires 0 <= i < 10 => i < ports || clear[i])
  }

  function StatsOperation(s: Sim, value: bv32): (Sim, bool)
    requires s.dev.Fits() && |s.clear| == 10 && s.captured < 10
  {
    var g, op, n := s.dev.globalBase, Field(value), Low6(value) as nat;
    if value & 0x8000 == 0 then (s, false)
    else
      var regs := ClearBusy(s.regs, g, 29);
      var s1 := s.(regs := regs);
      if op == 1 then (s1.(clear := FlushedPorts(s.clear, s.dev.ports)), true)
      else if op == 2 then
        if n >= s.dev.ports then (s1, false) else (s1.(clear := s.clear[n := true]), true)
      else if op == 4 then
        (s1.(regs := if s.clear[s.captured] then regs[At(g, 30) := 0][At(g, 31) := 0]
                     else regs[At(g, 30) := s.captured as bv16][At(g, 31) := Low6(value) as bv16]), true)
      else if op == 5 then
        if n >= s.dev.ports then (s1, false) else (s1.(captured := n), true)
      else (s1, false)
  }

  // ----- PHY control: register 0 of a PHY

  /**
   Power-down forces reset and restart on; leaving it, resetting or restarting latches the mode bits;
   otherwise they stay.
   */
  function PhyControl(word: bv16, value: bv32): bv16 {
    var v := Low16(value) & 0xFB00;
    if v & 0x0800 != 0 then v | 0x8200
    else if word & 0x0800 != 0 then v & !0x8200
    else if v & 0x8200 != 0 then v & !0x8200
    else (word & 0x3100) | (v & !0x3100)
  }

  // ----- Register writes

  datatype Action = Reject | Store(word: bv16) | Reload | AtuOp | VtuOp | StatsOp | PhyCtrl | Duplex

  /** What the dispatcher of the device's family does with a write. */
  function WriteAction(dev: Device, p: nat, r: nat, value: bv32): Action {
    var w, f := Low16(value), dev.family;
    if dev.IsGlobal(p) then
      if r == 0 then Reject
      else if r <= 3 then Store(w)
      else if r == 4 then if value & 0x200 != 0 then Reload else Store(w)
      else if r == 5 then if f == F6052 then Reject else VtuOp
      else if r <= 8 then if f == F6052 then Reject else Store(w)
      else if r == 9 then if f == F6083 then Store(w) else Reject
      else if r == 10 then Store(w & 0x7FFF)
      else if r == 11 then AtuOp
      else if r <= 24 then Store(w)
      else if r == 29 then if f == F6052 then Reject else StatsOp
      else Reject
    else if dev.IsPort(p) then
      if r == 0 then
        if (f == F6021 && p > 9) || ((f == F6063 || f == F6083) && p > 12) then Duplex else Reject
      else if r == 4 || r == 6 || r == 7 then Store(w)
      else if (r == 10 || r == 11) && (f == F6063 || f == F6083) then Store(w)
      else Reject
    else if dev.IsPhy(p) then
      if r == 0 then PhyCtrl
      else if r == 4 || r == 7 || r == 16 || r == 18 then Store(w)
      else Reject
    else Reject
  }

  /** Addresses 0x20 to 0x3F are the same rows again. */
  function Norm(port: nat): nat {
    if port >= 32 then port - 32 else port
  }

  ghost predicate Sound(s: Sim) {
    s.dev.Fits() && s.atu.WellFormed() && s.vtu.WellFormed() && |s.clear| == 10 && s.captured < 10
  }

  /** The writes that touch nothing but registers. */
  function PlainWrite(dev: Device, regs: Regs, p: nat, r: nat, value: bv32, a: Action): Regs
    requires p < 32 && r < 32
  {
    var word := regs[At(p, r)];
    match a
    case Store(w) => regs[At(p, r) := w]
    case Reload => DefaultRegs(dev)[At(p, 0) := DefaultRegs(dev)[At(p, 0)] | 1]
    case PhyCtrl => regs[At(p, r) := PhyControl(word, value)]
    case Duplex => regs[At(p, r) := (word & !0x200) | (Low16(value) & 0x200)]
    case _ => regs
  }

  function EnterNibble(regs: Regs, g: nat, r: nat, value: bv32): Regs
    requires g < 32 && r < 32
  {
    regs[At(g, r) := SetNibble(regs[At(g, r)], Low4(value))]
  }

  ghost function Write(s: Sim, port: nat, r: nat, value: bv32): (Sim, bool)
    requires Sound(s)
  {
    var p, g := Norm(port), s.dev.globalBase;
    if p >= 32 || r >= 32 then (s, false)
    else
      var a := WriteAction(s.dev, p, r, value);
      match a
      case Reject => (s, false)
      case AtuOp =>
        AtuOperation(if s.dev.family == F6052 then s else s.(regs := EnterNibble(s.regs, g, 11, value)), value)
      case VtuOp => VtuOperation(s.(regs := EnterNibble(s.regs, g, 5, value)), value)
      case StatsOp => StatsOperation(s, value)
      case _ => (s.(regs := PlainWrite(s.dev, s.regs, p, r, value, a)), true)
  }

  // ----- Register reads

  function Bit(p: nat): bv16 {
    if p == 0 then 1 else if p == 1 then 2 else if p == 2 then 4 else if p == 3 then 8
    else if p == 4 then 0x10 else if p == 5 then 0x20 else if p == 6 then 0x40 else if p == 7 then 0x80
    else if p == 8 then 0x100 else if p == 9 then 0x200 else if p == 10 then 0x400 else if p == 11 then 0x800
    else if p == 12 then 0x1000 else if p == 13 then 0x2000 else if p == 14 then 0x4000 else if p == 15 then 0x8000
    else 0
  }

  /** A global status word with its interrupt bits recomputed from the port summary. */
  function StatusAfterRead(family: Family, word: bv16, summary: bv16): bv16 {
    (word & !(if family == F6052 then 0xF else 0x7F)) | (if summary != 0 then 2 else 0)
  }

  function ReadEffect(dev: Device, regs: Regs, p: nat, r: nat): Regs
    requires p < 32 && r < 32
  {
    var summary := regs[At(0, 20)];
    if dev.IsGlobal(p) then
      if r == 0 then regs[At(p, 0) := StatusAfterRead(dev.family, regs[At(p, 0)], summary)] else regs
    else if !dev.IsPort(p) && dev.IsPhy(p) && r == 19 then
      regs[At(p, 19) := 0][At(0, 20) := Summary(summary, p, false)]
    else regs
  }

  function Read(s: Sim, port: nat, r: nat): (Sim, Option<bv16>) {
    var p := Norm(port);
    if p >= 32 || r >= 32 then (s, None)
    else
      var shown := if !s.dev.IsGlobal(p) && !s.dev.IsPort(p) && s.dev.IsPhy(p) && r == 20 then At(0, 20) else At(p, r);
      (s.(regs := ReadEffect(s.dev, s.regs, p, r)), Some(s.regs[shown]))
  }

  // ----- Injected interrupts, initialisation and runs

  type Row = p: nat | p < 32

  /** A word with the bits of a mask set or cleared. */
  function With(word: bv16, mask: bv16, on: bool): bv16 {
    if on then word | mask else word & !mask
  }

  function Summary(word: bv16, p: nat, pending: bool): bv16 {
    With(word, Bit(p), pending)
  }

  /**
   The summary bit follows the injected status; the status bit 1 goes to row 31, which no device uses
   as its global row.
   */
  function PhyIntRegs(regs: Regs, p: Row, data: bv16): Regs {
    var r := regs[At(p, 19) := data][At(0, 20) := Summary(regs[At(0, 20)], p, data != 0)];
    r[At(31, 0) := r[At(31, 0)] | 2]
  }

  function SetPhyInt(s: Sim, p: Row, data: bv16): Sim {
    s.(regs := PhyIntRegs(s.regs, p, data))
  }

  function SetGlobalInt(s: Sim, data: bv16): Sim {
    s.(regs := s.regs[At(31, 0) := s.regs[At(31, 0)] | (data & 0xF)])
  }

  /** Initialisation resets tables and registers but neither the statistics flags nor the captured port. */
  ghost function Boot(devId: nat, clear: seq<bool>, captured: nat): Sim {
    Sim(DeviceOf(devId), DefaultRegs(DeviceOf(devId)), Cleared(ATU_CAPACITY), ClearedVtu(VTU_CAPACITY), clear, captured)
  }

  ghost function FirstBoot(devId: nat): Sim {
    Boot(devId, NO_FLAGS, 0)
  }

  datatype Op =
    | WriteReg(port: nat, reg: nat, value: bv32)
    | ReadReg(port: nat, reg: nat)
    | PhyInt(row: Row, status: bv16)
    | GlobalInt(status: bv16)
    | Init(devId: nat)

  ghost function Step(s: Sim, op: Op): Sim
    requires Sound(s)
  {
    match op
    case WriteReg(port, r, value) => Write(s, port, r, value).0
    case ReadReg(port, r) => Read(s, port, r).0
    case PhyInt(p, data) => SetPhyInt(s, p, data)
    case GlobalInt(data) => SetGlobalInt(s, data)
    case Init(devId) => Boot(devId, s.clear, s.captured)
  }
}
