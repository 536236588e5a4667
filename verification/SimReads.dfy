/** What reads show, after every run, in terms of the history of accesses and register numbers only. */
module SimReads {
  import opened Sequences
  import opened SlotSpec
  import opened VtuSpec
  import opened Registers
  import opened SimSpec
  import opened SimInvariant
  import opened SimHistory
  import opened SimInterrupts
  import opened SimAccess
  import opened SimVlans

  predicate Marked(word: bv16, p: nat)
    requires p < 16
  {
    word & ((1 as bv16) << p) != 0
  }

  lemma BitIsPower(p: nat)
    requires p < 16
    ensures Bit(p) == (1 as bv16) << p
  {
  }

  lemma MarkedIs(word: bv16, p: nat)
    requires p < 16
    ensures Marked(word, p) <==> BitSet(word, p)
  {
    hide Bit;
    BitIsPower(p);
  }

  /** PHY control shows the word that the writes since the reset have left. */
  lemma PhyControlShown(devId: nat, ops: seq<Op>, port: nat)
    requires Norm(port) < DevAfter(devId, ops).phys
    ensures Read(Run(devId, ops), port, 0).1 == Some(PhyWord(PhyWrites(devId, ops, Norm(port))))
  {
    RunDev(devId, ops);
    ControlHistory(devId, ops, Norm(port));
    hide Run, PhyWord, PhyWrites, AtuInv, VtuInv, RegInv;
  }

  /** Interrupt status shows what was last injected since the last read of it, or the reset value. */
  lemma PhyStatusShown(devId: nat, ops: seq<Op>, port: nat)
    requires Norm(port) < DevAfter(devId, ops).phys
    ensures Read(Run(devId, ops), port, 19).1 == Some(Status(devId, ops, Norm(port)))
  {
    RunDev(devId, ops);
    InterruptHistory(devId, ops, Norm(port));
    hide Run, Status, AtuInv, VtuInv, RegInv;
  }

  /** Register 20 of every PHY shows the one port summary: bit q is set exactly when row q is pending. */
  lemma SummaryShown(devId: nat, ops: seq<Op>, port: nat)
    requires Norm(port) < DevAfter(devId, ops).phys
    ensures var shown := Read(Run(devId, ops), port, 20).1;
      shown.Some? && forall q :: 0 <= q < 16 ==> (Marked(shown.value, q) <==> Pending(devId, ops, q))
  {
    RunDev(devId, ops);
    hide Run, Pending, AtuInv, VtuInv, RegInv, Marked, BitSet;
    var shown := Read(Run(devId, ops), port, 20).1;
    forall q | 0 <= q < 16 ensures Marked(shown.value, q) <==> Pending(devId, ops, q) {
      SummaryHistory(devId, ops, q);
      MarkedIs(shown.value, q);
    }
  }

  /** Every other register of the file shows its own content; outside the file nothing is shown. */
  lemma OwnCellShown(s: Sim, port: nat, r: nat)
    requires Inv(s) && !(Norm(port) < s.dev.phys && r == 20)
    ensures Read(s, port, r).1 == if Norm(port) < 32 && r < 32 then Some(s.regs[At(Norm(port), r)]) else None
  {
    hide AtuInv, VtuInv, RegInv;
  }

  /** Reads of anything but the global status and the interrupt status of a PHY change nothing. */
  lemma ReadsChangeNothing(s: Sim, port: nat, r: nat)
    requires Inv(s)
    requires !(Norm(port) == s.dev.globalBase && r == 0) && !(Norm(port) < s.dev.phys && r == 19)
    ensures Read(s, port, r).0 == s
  {
    hide AtuInv, VtuInv, RegInv;
  }

  /**
   A read of global status clears the interrupt bits, four on the 88E6051 and 88E6052 and seven elsewhere,
   sets bit 1 again if the port summary is nonzero, and changes nothing else.
   */
  lemma StatusReadClears(s: Sim, port: nat)
    requires Inv(s) && Norm(port) == s.dev.globalBase
    ensures var i, s' := At(Norm(port), 0), Read(s, port, 0).0;
      var mask: bv16 := if s.dev.family == F6052 then 0xF else 0x7F;
      && s' == s.(regs := s.regs[i := s'.regs[i]])
      && s'.regs[i] & mask == (if s.regs[At(0, 20)] != 0 then 2 else 0)
      && s'.regs[i] & !mask == s.regs[i] & !mask
  {
    hide AtuInv, VtuInv, RegInv;
  }

  // ----- Devices

  /** The id of the last initialisation; ids the simulator does not know stand for an 88E6063, 0x153. */
  function KnownId(devId: nat): bv16 {
    if devId == 0x021 then 0x021 else if devId == 0x051 then 0x051 else if devId == 0x052 then 0x052
    else if devId == 0x083 then 0x083 else if devId == 0xF53 then 0xF53 else if devId == 0xF91 then 0xF91
    else if devId == 0xF93 then 0xF93 else 0x153
  }

  function LastId(devId: nat, ops: seq<Op>): bv16 {
    if ops == [] then KnownId(devId)
    else if ops[|ops| - 1].Init? then KnownId(ops[|ops| - 1].devId)
    else LastId(devId, ops[..|ops| - 1])
  }

  /** How many VLANs a device has room for. */
  function Room(id: bv16): nat {
    if id == 0x021 then 16 else if id == 0x153 || id == 0xF53 || id == 0x083 then 64 else 0
  }

  /** The rows of a device's ports, and its global row. */
  function PortRows(id: bv16): (nat, nat) {
    if id == 0x083 then (16, 26) else (8, if id == 0x021 then 11 else if id == 0x051 then 14 else 15)
  }

  function GlobalRow(id: bv16): nat {
    if id == 0x083 then 27 else 15
  }

  function Phys(id: bv16): nat {
    if id == 0x021 then 2 else if id == 0x083 then 8 else 5
  }

  predicate Describes(id: bv16, dev: Device) {
    && dev.id == id && dev.phys == Phys(id) && dev.vtuSize == Room(id) && dev.globalBase == GlobalRow(id)
    && (dev.portBase, dev.portBase + dev.ports) == PortRows(id)
    && (dev.family == F6052 <==> id == 0x051 || id == 0x052)
    && (dev.family == F6021 <==> id == 0x021) && (dev.family == F6083 <==> id == 0x083)
  }

  lemma {:induction false} DeviceDescribed(devId: nat, ops: seq<Op>)
    ensures Describes(LastId(devId, ops), DevAfter(devId, ops))
  {
    if ops != [] {
      DeviceDescribed(devId, ops[..|ops| - 1]);
    }
  }

  /** After every run a load of a VLAN is refused exactly when the device's room is used up. */
  lemma VlanRoom(devId: nat, ops: seq<Op>, port: nat, value: bv32)
    requires Norm(port) == GlobalRow(LastId(devId, ops)) && LastId(devId, ops) !in {0x051, 0x052}
    requires value & 0xF000 == 0xB000 && Run(devId, ops).regs[32 * Norm(port) + 6] & 0x1000 != 0
    ensures Write(Run(devId, ops), port, 5, value).1 <==> |VlanMap(devId, ops)| < Room(LastId(devId, ops))
  {
    RunDev(devId, ops);
    DeviceDescribed(devId, ops);
    hide Run, AtuInv, VtuInv, RegInv, LastId, Write, VlanMap, ToMap;
    VlanHistory(devId, ops);
    VlanWrite(Run(devId, ops), port, value);
    LoadCode(value);
  }

  lemma LoadCode(value: bv32)
    requires value & 0xF000 == 0xB000
    ensures value & 0x8000 != 0 && value & 0x7000 == 0x3000
  {
  }
}
