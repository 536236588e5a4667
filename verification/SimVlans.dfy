/**
 The VLAN table as the registers show it: what a write of global register 5 does to the map from VLAN id
 to entry, in terms of register numbers and bit masks only.
 */
module SimVlans {
  import opened Sequences
  import opened SlotSpec
  import opened VtuSpec
  import opened Registers
  import opened SimSpec
  import opened SimInvariant
  import opened SimHistory
  import AtuRuns
  import opened SimWalks

  /** The ten tags in registers 7 to 9, each in the low half of a nibble. */
  function TagList(w7: bv16, w8: bv16, w9: bv16): Tags {
    [w7 & 3, (w7 >> 4) & 3, (w7 >> 8) & 3, (w7 >> 12) & 3, w8 & 3, (w8 >> 4) & 3, (w8 >> 8) & 3, (w8 >> 12) & 3,
     w9 & 3, (w9 >> 4) & 3]
  }

  /** The entry in global registers 6 to 9, for database d. */
  function VlanIn(regs: Regs, g: nat, d: bv16): VtuEntry
    requires g < 32
  {
    VtuEntry(d, TagList(regs[At(g, 7)], regs[At(g, 8)], regs[At(g, 9)]), VidIn(regs, g))
  }

  function VidIn(regs: Regs, g: nat): nat
    requires g < 32
  {
    (regs[At(g, 6)] & 0xFFF) as nat
  }

  function WrittenNibble(value: bv32): bv16 {
    (value % 16) as bv16
  }

  /** The map and the answer of a write of register 5 on a device with room for `room` VLANs. */
  function VlanStep(m: map<nat, VtuEntry>, room: nat, regs: Regs, g: nat, value: bv32): (map<nat, VtuEntry>, bool)
    requires g < 32
  {
    var v := VidIn(regs, g);
    if value & 0x8000 == 0 then (m, false)
    else if value & 0x7000 == 0x1000 then (map[], true)
    else if value & 0x7000 == 0x3000 then
      if regs[At(g, 6)] & 0x1000 == 0 then (m - {v}, v in m)
      else if |m| < room then (m[v := VlanIn(regs, g, WrittenNibble(value))], true)
      else (m, false)
    else (m, true)
  }

  // ----- Fields of words

  lemma CodeIs(value: bv32)
    ensures Field(value) == 1 <==> value & 0x7000 == 0x1000
    ensures Field(value) == 2 <==> value & 0x7000 == 0x2000
    ensures Field(value) == 3 <==> value & 0x7000 == 0x3000
    ensures Field(value) == 4 <==> value & 0x7000 == 0x4000
    ensures Field(value) == 5 <==> value & 0x7000 == 0x5000
    ensures Field(value) == 6 <==> value & 0x7000 == 0x6000
    ensures Field(value) == 7 <==> value & 0x7000 == 0x7000
  {
  }

  lemma NibbleIs(w: bv16, value: bv32)
    requires w < 16
    ensures Low4(value) == WrittenNibble(value) < 16
    ensures SetNibble(w, Low4(value)) == WrittenNibble(value)
    ensures WrittenNibble(value) & 0x7FFF == WrittenNibble(value) && WrittenNibble(value) & 0xF == WrittenNibble(value)
  {
  }

  lemma NumOfVid(w: bv16)
    ensures NumOf(w & 0x1FFF) == (w & 0x1FFF) as nat
  {
  }

  lemma ValidBitApart(w: bv16)
    ensures (w & 0x1FFF) as nat == (w & 0xFFF) as nat + if w & 0x1000 != 0 then 0x1000 else 0
  {
  }

  /** The VLAN id with its valid bit, as the table operations take it. */
  lemma VidWithBit(w: bv16)
    ensures NumOf(w & 0x1FFF) == (w & 0xFFF) as nat + if w & 0x1000 != 0 then 0x1000 else 0
  {
    hide NumOf;
    NumOfVid(w);
    ValidBitApart(w);
  }

  lemma MaskedVid(w: bv16)
    ensures (w & 0xFFF) as nat < 0x1000
  {
  }

  lemma TagsIn(w: bv16)
    ensures Tag(w, 0) == w & 3 && Tag(w, 1) == (w >> 4) & 3 && Tag(w, 2) == (w >> 8) & 3 && Tag(w, 3) == (w >> 12) & 3
  {
  }

  // ----- One write

  /** The registers a VLAN operation reads: those written before, with the nibble entered in register 5. */
  function Entered(regs: Regs, g: nat, value: bv32): Regs
    requires g < 32
  {
    regs[At(g, 5) := WrittenNibble(value)]
  }

  lemma EnteredIs(s: Sim, value: bv32)
    requires Inv(s) && s.dev.family != F6052
    ensures var g := s.dev.globalBase;
      && EnterNibble(s.regs, g, 5, value) == Entered(s.regs, g, value)
      && ClearBusy(Entered(s.regs, g, value), g, 5) == Entered(s.regs, g, value)
  {
    hide SetNibble, Low4, WrittenNibble, AtuInv, VtuInv;
    NibbleIs(s.regs[At(s.dev.globalBase, 5)], value);
  }

  function VidOf(w6: bv16): nat {
    (w6 & 0xFFF) as nat + if w6 & 0x1000 != 0 then 0x1000 else 0
  }

  lemma VtuOfWords(w5: bv16, w6: bv16, w7: bv16, w8: bv16, w9: bv16)
    ensures VtuOf(w5, w6, w7, w8, w9) == VtuEntry(w5 & 0xF, TagList(w7, w8, w9), VidOf(w6))
  {
    hide Tag, NumOf, TagList;
    VidWithBit(w6);
    TagListIs(w7, w8, w9);
  }

  lemma WordsLayout(regs: Regs, g: nat)
    requires g < 32
    ensures GetVtuInfo(regs, g) ==
      VtuEntry(regs[At(g, 5)] & 0xF, TagList(regs[At(g, 7)], regs[At(g, 8)], regs[At(g, 9)]), VidOf(regs[At(g, 6)]))
  {
    hide VtuOf, TagList, VidOf, At;
    VtuOfWords(regs[At(g, 5)], regs[At(g, 6)], regs[At(g, 7)], regs[At(g, 8)], regs[At(g, 9)]);
  }

  lemma VlanLayout(regs: Regs, g: nat)
    requires g < 32
    ensures GetVtuInfo(regs, g) ==
      VlanIn(regs, g, regs[At(g, 5)] & 0xF).(vid := VidIn(regs, g) + if regs[At(g, 6)] & 0x1000 != 0 then 0x1000 else 0)
  {
    hide GetVtuInfo, TagList, At;
    WordsLayout(regs, g);
  }

  lemma TagListIs(w7: bv16, w8: bv16, w9: bv16)
    ensures VtuOf(0, 0, w7, w8, w9).tags == TagList(w7, w8, w9)
  {
    hide NumOf;
    TagsIn(w7);
    TagsIn(w8);
    TagsIn(w9);
  }

  lemma VlanRead(regs: Regs, g: nat, value: bv32)
    requires g < 32
    ensures GetVtuInfo(Entered(regs, g, value), g) ==
      VlanIn(regs, g, WrittenNibble(value)).(vid := VidIn(regs, g) + if regs[At(g, 6)] & 0x1000 != 0 then 0x1000 else 0)
  {
    hide GetVtuInfo, WrittenNibble;
    NibbleIs(0, value);
    VlanLayout(Entered(regs, g, value), g);
  }

  lemma VlanWriteIs(s: Sim, port: nat, value: bv32)
    requires Inv(s) && s.dev.family != F6052 && Norm(port) == s.dev.globalBase
    ensures var g, es := s.dev.globalBase, s.vtu.Entries();
      var regs := Entered(s.regs, g, value);
      Write(s, port, 5, value) ==
        if value & 0x8000 == 0 then (s.(regs := regs), false)
        else
          var (vtu, ok) := VtuTableOp(s.vtu, s.dev.vtuSize, Field(value), GetVtuInfo(regs, g));
          (s.(regs := VtuRegsOp(regs, g, Field(value), es), vtu := vtu), ok)
  {
    hide AtuInv, VtuInv, RegInv, Field, Entered, EnterNibble, ClearBusy, GetVtuInfo, VtuTableOp, VtuRegsOp;
    EnteredIs(s, value);
    assert WriteAction(s.dev, Norm(port), 5, value).VtuOp?;
  }

  lemma VidInRange(regs: Regs, g: nat)
    requires g < 32
    ensures VidIn(regs, g) < 0x1000
  {
    MaskedVid(regs[At(g, 6)]);
  }

  lemma TableStep(st: Vtu, limit: nat, regs: Regs, g: nat, value: bv32)
    requires VtuInv(limit, st) && limit <= VTU_CAPACITY && g < 32 && value & 0x8000 != 0
    ensures var (st', ok) := VtuTableOp(st, limit, Field(value), GetVtuInfo(Entered(regs, g, value), g));
      (ToMap(st'.Entries()), ok) == VlanStep(ToMap(st.Entries()), limit, regs, g, value)
  {
    hide ToMap, AddVlan, DelVlan, GetVtuInfo, Entered, VidIn, Storable, Field;
    CodeIs(value);
    VlanRead(regs, g, value);
    VidInRange(regs, g);
    var d := WrittenNibble(value);
    AddRefinesMap(st, limit, VlanIn(regs, g, d));
    DelRefinesMap(st, VidIn(regs, g));
    EmptyMap(|st.slots|);
  }

  lemma EmptyMap(n: nat)
    ensures ToMap(ClearedVtu(n).Entries()) == map[]
  {
  }

  /**
   A write of register 5: what becomes of the map, the answer, and the registers. Without the busy bit it
   is refused. Code 1 empties the map; code 3 loads the entry in registers 5 to 9 under its VLAN id if the
   valid bit is set and there is room, and else purges the id; code 7 reports port 1 and VLAN 1.
   */
  lemma VlanWrite(s: Sim, port: nat, value: bv32)
    requires Inv(s) && s.dev.family != F6052 && Norm(port) == s.dev.globalBase
    ensures var g, (s', ok) := s.dev.globalBase, Write(s, port, 5, value);
      && s' == s.(regs := s'.regs, vtu := s'.vtu) && s'.vtu.WellFormed()
      && (ToMap(s'.vtu.Entries()), ok) == VlanStep(ToMap(s.vtu.Entries()), s.dev.vtuSize, s.regs, g, value)
      && (value & 0xF000 != 0xC000 && value & 0xF000 != 0xF000 ==> s'.regs == s.regs[At(g, 5) := WrittenNibble(value)])
      && (value & 0xF000 == 0xF000 ==> s'.regs == s.regs[At(g, 5) := 1][At(g, 6) := 1])
  {
    hide AtuInv, RegInv, ToMap, VtuTableOp, VtuRegsOp, GetVtuInfo, WrittenNibble, Field, Write, Storable, Entered,
      VlanStep, Norm;
    var g, es := s.dev.globalBase, s.vtu.Entries();
    VlanWriteIs(s, port, value);
    if value & 0x8000 != 0 {
      TableStep(s.vtu, s.dev.vtuSize, s.regs, g, value);
      RegsStep(s.regs, g, value, es);
    } else {
      Refused(ToMap(es), s.dev.vtuSize, s.regs, g, value);
    }
    RegsEntered(s.regs, g, value);
  }

  lemma Refused(m: map<nat, VtuEntry>, room: nat, regs: Regs, g: nat, value: bv32)
    requires g < 32 && value & 0x8000 == 0
    ensures VlanStep(m, room, regs, g, value) == (m, false)
    ensures value & 0xF000 != 0xF000
  {
  }

  lemma RegsEntered(regs: Regs, g: nat, value: bv32)
    requires g < 32
    ensures Entered(regs, g, value) == regs[At(g, 5) := WrittenNibble(value)]
  {
    hide WrittenNibble;
  }

  lemma RegsStep(regs: Regs, g: nat, value: bv32, es: seq<VtuEntry>)
    requires g < 32 && value & 0x8000 != 0
    ensures var regs' := VtuRegsOp(Entered(regs, g, value), g, Field(value), es);
      && (value & 0xF000 != 0xC000 && value & 0xF000 != 0xF000 ==> regs' == Entered(regs, g, value))
      && (value & 0xF000 == 0xF000 ==> regs' == regs[At(g, 5) := 1][At(g, 6) := 1])
  {
    hide Field, VtuGetNext, WrittenNibble;
    CodeIs(value);
    BusyCode(value);
    NibbleIs(0, value);
    NibbleLaws(WrittenNibble(value), 0);
  }

  lemma BusyCode(value: bv32)
    requires value & 0x8000 != 0
    ensures value & 0xF000 == 0xC000 <==> value & 0x7000 == 0x4000
    ensures value & 0xF000 == 0xF000 <==> value & 0x7000 == 0x7000
  {
  }

  // ----- Get-Next

  /** Whether VLAN u comes after v, 0xFFF standing for the start. */
  predicate Comes(v: nat, u: nat) {
    v == 0xFFF || u > v
  }

  predicate Next(m: map<nat, VtuEntry>, v: nat, u: nat) {
    u in m && Comes(v, u) && forall x :: x in m && Comes(v, x) ==> u <= x
  }

  lemma KeyAt(es: seq<VtuEntry>, u: nat) returns (i: nat)
    requires u in ToMap(es)
    ensures i < |es| && es[i].vid == u
  {
    i :| i < |es| && es[i].vid == u;
  }

  lemma NextIsFirst(es: seq<VtuEntry>, v: nat)
    requires Ascending(es)
    ensures var j, m := First(es, VidFollows(v)), ToMap(es);
      if j == |es| then forall u :: u in m ==> !Comes(v, u)
      else Next(m, v, es[j].vid) && m[es[j].vid] == es[j]
  {
    hide First, Vlan, ToMap, VidFollows, Comes;
    var j, m := First(es, VidFollows(v)), ToMap(es);
    ComesIs(v);
    forall u | u in m && Comes(v, u) ensures j < |es| && es[j].vid <= u {
      var i := KeyAt(es, u);
      assert VidFollows(v)(es[i]);
    }
    if j < |es| {
      VlanIs(es, j);
      MapIsVlans(es, es[j].vid);
    }
  }

  lemma ComesIs(v: nat)
    ensures forall e :: VidFollows(v)(e) <==> Comes(v, e.vid)
  {
  }

  /** What Get-Next leaves in the registers when it shows an entry. */
  predicate Shows(regs: Regs, regs': Regs, g: nat, value: bv32, e: VtuEntry)
    requires g < 32
  {
    && regs'[At(g, 6)] & 0x1000 != 0
    && VlanIn(regs', g, regs'[At(g, 5)] & 0xF) == e.(db := WrittenNibble(value) | e.db)
    && forall i :: 0 <= i < 0x400 && !(At(g, 5) <= i <= At(g, 9)) ==> regs'[i] == regs[i]
  }

  lemma SetShows(regs: Regs, g: nat, value: bv32, e: VtuEntry)
    requires g < 32 && Storable(e)
    ensures Shows(regs, SetVtuInfo(Entered(regs, g, value), g, e), g, value, e)
  {
    hide GetVtuInfo, SetVtuInfo, WrittenNibble, VlanIn, VidIn;
    var regs' := SetVtuInfo(Entered(regs, g, value), g, e);
    NibbleIs(0, value);
    SetGetVtu(Entered(regs, g, value), g, e);
    VlanLayout(regs', g);
    VidInRange(regs', g);
    VlanIdIn(regs', g);
    SetVtuElsewhere(Entered(regs, g, value), g, e);
  }

  lemma VlanIdIn(regs: Regs, g: nat)
    requires g < 32
    ensures VlanIn(regs, g, regs[At(g, 5)] & 0xF).vid == VidIn(regs, g)
  {
  }

  lemma SetVtuElsewhere(regs: Regs, g: nat, e: VtuEntry)
    requires g < 32
    ensures forall i :: 0 <= i < 0x400 && !(At(g, 5) <= i <= At(g, 9)) ==> SetVtuInfo(regs, g, e)[i] == regs[i]
  {
    hide MergeDb, VidWord, TagWord;
  }

  /**
   Code 4 shows the entry with the least VLAN id above the one in register 6, any for 0xFFF, its database
   merged with the written nibble; if there is none register 6 becomes 0xFFF.
   */
  lemma VlanNextWrite(s: Sim, port: nat, value: bv32)
    requires Inv(s) && s.dev.family != F6052 && Norm(port) == s.dev.globalBase && value & 0xF000 == 0xC000
    ensures var g, (s', ok), m := s.dev.globalBase, Write(s, port, 5, value), ToMap(s.vtu.Entries());
      var v, regs' := VidIn(s.regs, g), s'.regs;
      && ok && s' == s.(regs := regs')
      && if forall u :: u in m ==> !Comes(v, u) then
           regs' == s.regs[At(g, 5) := WrittenNibble(value)][At(g, 6) := 0xFFF]
         else exists u :: Next(m, v, u) && Shows(s.regs, regs', g, value, m[u])
  {
    hide AtuInv, VtuInv, RegInv, ToMap, Write, Norm, First, VtuGetNext, Entered, VidFollows, VidIn, Comes, Shows;
    var g, es := s.dev.globalBase, s.vtu.Entries();
    var regs, v := Entered(s.regs, g, value), VidIn(s.regs, g);
    var j := First(es, VidFollows(v));
    NextWriteIs(s, port, value);
    NextRegs(s, value);
    AscendingInv(s);
    NextIsFirst(es, v);
    RegsEntered(s.regs, g, value);
  }

  lemma NextWriteIs(s: Sim, port: nat, value: bv32)
    requires Inv(s) && s.dev.family != F6052 && Norm(port) == s.dev.globalBase && value & 0xF000 == 0xC000
    ensures var g := s.dev.globalBase;
      Write(s, port, 5, value) == (s.(regs := VtuGetNext(Entered(s.regs, g, value), g, s.vtu.Entries())), true)
  {
    hide AtuInv, VtuInv, RegInv, GetVtuInfo, Field, Write, Norm, VtuGetNext, Entered;
    NextCode(value);
    VlanWriteIs(s, port, value);
  }

  lemma NextRegs(s: Sim, value: bv32)
    requires Inv(s)
    ensures var g, es := s.dev.globalBase, s.vtu.Entries();
      var regs := Entered(s.regs, g, value);
      var j, regs' := First(es, VidFollows(VidIn(s.regs, g))), VtuGetNext(regs, g, es);
      if j == |es| then regs' == regs[At(g, 6) := 0xFFF] else Shows(s.regs, regs', g, value, es[j])
  {
    hide AtuInv, VtuInv, RegInv, GetVtuInfo, SetVtuInfo, First, VidFollows, VidIn, VlanIn, Entered, Shows,
      Storable, WrittenNibble;
    var g, es := s.dev.globalBase, s.vtu.Entries();
    var j := First(es, VidFollows(VidIn(s.regs, g)));
    VlanRead(s.regs, g, value);
    VidInRange(s.regs, g);
    if j < |es| {
      StoredFits(s, j);
      SetShows(s.regs, g, value, es[j]);
    }
  }

  lemma NextCode(value: bv32)
    requires value & 0xF000 == 0xC000
    ensures value & 0x8000 != 0 && Field(value) == 4
  {
  }

  // ----- Whole runs

  /** The map after a run as a function of the writes of register 5 since the initialisation. */
  ghost function VlanMap(devId: nat, ops: seq<Op>): map<nat, VtuEntry> {
    if ops == [] then map[]
    else
      var before, op := ops[..|ops| - 1], ops[|ops| - 1];
      var dev := DevAfter(devId, before);
      if op.Init? then map[]
      else if dev.family != F6052 && Writes(op, dev.globalBase, 5) then
        VlanStep(VlanMap(devId, before), dev.vtuSize, Run(devId, before).regs, dev.globalBase, op.value).0
      else VlanMap(devId, before)
  }

  lemma StepVtu(s: Sim, op: Op)
    requires Inv(s) && !op.Init? && (s.dev.family == F6052 || !Writes(op, s.dev.globalBase, 5))
    ensures Step(s, op).vtu == s.vtu
  {
    hide AtuInv, VtuInv, RegInv, AtuOperation, VtuOperation, StatsOperation, PlainWrite, ReadEffect, PhyIntRegs,
      EnterNibble;
    match op
    case WriteReg(port, r, value) =>
      OthersKeepVtu(s, value);
      OthersKeepVtu(s.(regs := EnterNibble(s.regs, s.dev.globalBase, 11, value)), value);
    case _ =>
  }

  lemma OthersKeepVtu(s: Sim, value: bv32)
    requires Sound(s)
    ensures AtuOperation(s, value).0.vtu == StatsOperation(s, value).0.vtu == s.vtu
  {
    hide AtuRuns.Apply, AtuGetNext, AtuCommand, Field, Low6, ClearBusy;
  }

  /** After every run the VLAN table is the map that the written operation words give, one after another. */
  lemma {:induction false} VlanHistory(devId: nat, ops: seq<Op>)
    ensures ToMap(Run(devId, ops).vtu.Entries()) == VlanMap(devId, ops)
  {
    hide AtuInv, VtuInv, RegInv, ToMap, Step, VlanStep;
    EmptyMap(VTU_CAPACITY);
    if ops != [] {
      var before, op := ops[..|ops| - 1], ops[|ops| - 1];
      var s := Run(devId, before);
      RunDev(devId, before);
      VlanHistory(devId, before);
      if op.Init? {
        BootEmpty(s, op);
      } else if s.dev.family != F6052 && Writes(op, s.dev.globalBase, 5) {
        StepIsWrite(s, op);
        VlanWrite(s, op.port, op.value);
      } else {
        StepVtu(s, op);
      }
    } else {
      BootVtu(devId);
    }
  }

  lemma StepIsWrite(s: Sim, op: Op)
    requires Inv(s) && Writes(op, s.dev.globalBase, 5)
    ensures op.WriteReg? && Norm(op.port) == s.dev.globalBase && Step(s, op) == Write(s, op.port, 5, op.value).0
  {
    hide Write;
  }

  lemma BootEmpty(s: Sim, op: Op)
    requires Inv(s) && op.Init?
    ensures Step(s, op).vtu == ClearedVtu(VTU_CAPACITY)
  {
  }

  lemma BootVtu(devId: nat)
    ensures Run(devId, []).vtu == ClearedVtu(VTU_CAPACITY)
  {
  }

  // ----- Where the tags stand

  /** Writing back what was read keeps the low half of every tag nibble and clears the other half. */
  lemma TagsInPlace(regs: Regs, g: nat)
    requires g < 32
    ensures var regs' := SetVtuInfo(regs, g, GetVtuInfo(regs, g));
      && regs'[At(g, 7)] == regs[At(g, 7)] & 0x3333
      && regs'[At(g, 8)] == regs[At(g, 8)] & 0x3333
      && regs'[At(g, 9)] == regs[At(g, 9)] & 0x33
  {
    hide Tag, PackTags, VidWord, MergeDb, NumOf;
    Repacked(regs[At(g, 7)]);
    Repacked(regs[At(g, 8)]);
    Repacked(regs[At(g, 9)]);
  }

  lemma RepackedBits(w: bv16)
    ensures PackTags(w & 3, (w >> 4) & 3, (w >> 8) & 3, (w >> 12) & 3) == w & 0x3333
    ensures PackTags(w & 3, (w >> 4) & 3, 0, 0) == w & 0x33
  {
  }

  lemma Repacked(w: bv16)
    ensures PackTags(Tag(w, 0), Tag(w, 1), Tag(w, 2), Tag(w, 3)) == w & 0x3333
    ensures PackTags(Tag(w, 0), Tag(w, 1), 0, 0) == w & 0x33
  {
    hide Tag, PackTags;
    TagsIn(w);
    RepackedBits(w);
  }
}
