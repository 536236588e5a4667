/**
 The address table as the registers show it: what a write of global register 11 does to the list of
 entries, in terms of register numbers and bit masks only.
 */
module SimAddresses {
  import opened Sequences
  import opened SlotSpec
  import opened MacAddress
  import opened AtuSpec
  import opened AtuFlush
  import opened AtuRuns
  import opened Registers
  import opened SimSpec
  import opened SimInvariant
  import opened SimTables
  import opened SimWalks
  import opened SimVlans

  function MacOfWords(w13: bv16, w14: bv16, w15: bv16): Mac {
    [(w13 >> 8) as bv8, (w13 & 0xFF) as bv8, (w14 >> 8) as bv8, (w14 & 0xFF) as bv8, (w15 >> 8) as bv8,
     (w15 & 0xFF) as bv8]
  }

  /** The address in global registers 13 to 15, high bytes first. */
  function MacIn(regs: Regs, g: nat): Mac
    requires g < 32
  {
    MacOfWords(regs[At(g, 13)], regs[At(g, 14)], regs[At(g, 15)])
  }

  /** The database of a load, purge or Get-Next: the written nibble, which the single-database devices ignore. */
  function Database(dev: Device, value: bv32): bv16 {
    if dev.family == F6052 then 0 else WrittenNibble(value)
  }

  /** Locked or multicast entries, which the unlocked flushes spare. */
  predicate Spared(e: AtuEntry) {
    e.data & 0xF == 0xF || e.mac[0] & 1 == 1
  }

  predicate Goes(e: AtuEntry) {
    !Spared(e)
  }

  function SparedFrom(d: bv16): AtuEntry -> bool {
    (e: AtuEntry) => e.db != d || Spared(e)
  }

  function GoesFrom(d: bv16): AtuEntry -> bool {
    (e: AtuEntry) => e.db == d && !Spared(e)
  }

  function OutsideOf(d: bv16): AtuEntry -> bool {
    (e: AtuEntry) => e.db != d
  }

  // ----- Fields of words

  lemma BytesOf(w: bv16)
    ensures Hi(w) == (w >> 8) as bv8 && Lo(w) == (w & 0xFF) as bv8
  {
  }

  lemma MacLayout(w13: bv16, w14: bv16, w15: bv16)
    ensures MacOfWords(w13, w14, w15) == [Hi(w13), Lo(w13), Hi(w14), Lo(w14), Hi(w15), Lo(w15)]
  {
    BytesOf(w13);
    BytesOf(w14);
    BytesOf(w15);
    hide Hi, Lo;
  }

  lemma AtuLayout(regs: Regs, g: nat)
    requires g < 32
    ensures GetAtuInfo(regs, g) == AtuEntry(regs[At(g, 12)], regs[At(g, 11)] & 0xF, MacIn(regs, g))
  {
    hide MacOfWords, Hi, Lo;
    MacLayout(regs[At(g, 13)], regs[At(g, 14)], regs[At(g, 15)]);
  }

  // ----- One write

  /** The registers an address operation reads: those written before, with the database entered in register 11. */
  function DbEntered(s: Sim, value: bv32): Regs
    requires s.dev.Fits()
  {
    s.regs[At(s.dev.globalBase, 11) := Database(s.dev, value)]
  }

  lemma DatabaseEntered(s: Sim, value: bv32)
    requires Inv(s)
    ensures AtuRegs(s.dev, s.regs, value) == DbEntered(s, value)
    ensures Database(s.dev, value) & 0xF == Database(s.dev, value) && Low4(value) == WrittenNibble(value)
  {
    hide SetNibble, Low4, WrittenNibble, AtuInv, VtuInv;
    NibbleIs(s.regs[At(s.dev.globalBase, 11)], value);
  }

  lemma AtuWriteIs(s: Sim, port: nat, value: bv32)
    requires Inv(s) && Norm(port) == s.dev.globalBase
    ensures Write(s, port, 11, value) == AtuOperation(s.(regs := DbEntered(s, value)), value)
  {
    hide AtuOperation, DbEntered, AtuInv, VtuInv, RegInv, EnterNibble;
    DatabaseEntered(s, value);
    assert WriteAction(s.dev, Norm(port), 11, value).AtuOp?;
  }

  /** The entry that a load takes from the registers. */
  function EntryIn(s: Sim, value: bv32): AtuEntry
    requires s.dev.Fits()
  {
    var g := s.dev.globalBase;
    AtuEntry(s.regs[At(g, 12)], Database(s.dev, value), MacIn(s.regs, g))
  }

  lemma EntryRead(s: Sim, value: bv32)
    requires Inv(s)
    ensures GetAtuInfo(DbEntered(s, value), s.dev.globalBase) == EntryIn(s, value)
  {
    hide GetAtuInfo, MacOfWords, Database, AtuInv, VtuInv, RegInv;
    DatabaseEntered(s, value);
    AtuLayout(DbEntered(s, value), s.dev.globalBase);
  }

  /** The state after a write that turns the table into st: nothing but the table and register 11 changes. */
  function WithTable(s: Sim, value: bv32, st: Atu): Sim
    requires s.dev.Fits()
  {
    s.(regs := s.regs[At(s.dev.globalBase, 11) := Database(s.dev, value)], atu := st)
  }

  ghost predicate Changes(s: Sim, value: bv32, s': Sim) {
    s.dev.Fits() && s'.atu.WellFormed() && s' == WithTable(s, value, s'.atu)
  }

  lemma CommandWrite(s: Sim, port: nat, value: bv32, c: AtuCmd)
    requires Inv(s) && Norm(port) == s.dev.globalBase
    requires AtuCommand(DbEntered(s, value), s.dev.globalBase, value) == Some(c)
    ensures var (s', ok) := Write(s, port, 11, value);
      Changes(s, value, s') && (s'.atu, ok) == Apply(s.atu, c)
  {
    hide AtuCommand, Apply, Database, AtuInv, VtuInv, RegInv, Write;
    AtuWriteIs(s, port, value);
  }

  /** Code 1 empties the table. */
  lemma FlushAllWrite(s: Sim, port: nat, value: bv32)
    requires Inv(s) && Norm(port) == s.dev.globalBase && value & 0x7000 == 0x1000
    ensures var (s', ok) := Write(s, port, 11, value);
      ok && Changes(s, value, s') && s'.atu.Entries() == []
  {
    hide Database, AtuInv, VtuInv, RegInv, Write, Field, GetAtuInfo;
    CodeIs(value);
    CommandWrite(s, port, value, FlushAll);
  }

  /** Codes 0 and 7 do nothing. */
  lemma IdleWrite(s: Sim, port: nat, value: bv32)
    requires Inv(s) && Norm(port) == s.dev.globalBase && (value & 0x7000 == 0 || value & 0x7000 == 0x7000)
    ensures Write(s, port, 11, value) == (WithTable(s, value, s.atu), true)
  {
    hide Database, AtuInv, VtuInv, RegInv, Write, Field, GetAtuInfo, AtuGetNext;
    CodeIs(value);
    IdleCode(value);
    AtuWriteIs(s, port, value);
  }

  lemma IdleCode(value: bv32)
    requires value & 0x7000 == 0 || value & 0x7000 == 0x7000
    ensures Field(value) == 0 || Field(value) == 7
  {
  }

  lemma LoadOrPurge(s: Sim, value: bv32)
    requires Inv(s) && value & 0x7000 == 0x3000
    ensures var g, e := s.dev.globalBase, EntryIn(s, value);
      AtuCommand(DbEntered(s, value), g, value) ==
        Some(if s.regs[At(g, 12)] & 0xF != 0 then Load(e) else Purge(e.mac, e.db))
  {
    hide Database, AtuInv, VtuInv, RegInv, Field, GetAtuInfo, MacIn, DbEntered;
    CodeIs(value);
    EntryRead(s, value);
  }

  /**
   Code 3 with state 0 in the data register purges: it is refused if the key in registers 11 and 13 to 15
   is absent; else exactly the first entry with that key goes.
   */
  lemma PurgeWrite(s: Sim, port: nat, value: bv32)
    requires Inv(s) && Norm(port) == s.dev.globalBase && value & 0x7000 == 0x3000
    requires s.regs[At(s.dev.globalBase, 12)] & 0xF == 0
    ensures var es, e, (s', ok) := s.atu.Entries(), EntryIn(s, value), Write(s, port, 11, value);
      && Changes(s, value, s')
      && (ok <==> exists k :: 0 <= k < |es| && es[k].mac == e.mac && es[k].db == e.db)
      && if ok then exists k :: 0 <= k < |es| && s'.atu.Entries() == Without(es, k)
                      && es[k].mac == e.mac && es[k].db == e.db
                      && forall j :: 0 <= j < k ==> !(es[j].mac == e.mac && es[j].db == e.db)
         else s'.atu.Entries() == es
  {
    hide Database, AtuInv, VtuInv, RegInv, Write, Field, AtuCommand, EntryIn, DbEntered, Del;
    LoadOrPurge(s, value);
    var e := EntryIn(s, value);
    CommandWrite(s, port, value, Purge(e.mac, e.db));
    DelRefinesList(s.atu, e.mac, e.db);
  }

  /**
   Code 3 with any other state loads: it is refused if all 0x800 slots are taken; else the entry in the
   registers takes over the first entry with its address or goes in before all with an address as large.
   */
  lemma LoadWrite(s: Sim, port: nat, value: bv32)
    requires Inv(s) && Norm(port) == s.dev.globalBase && value & 0x7000 == 0x3000
    requires s.regs[At(s.dev.globalBase, 12)] & 0xF != 0
    ensures var es, e, (s', ok) := s.atu.Entries(), EntryIn(s, value), Write(s, port, 11, value);
      && Changes(s, value, s')
      && (ok <==> |es| < 0x800)
      && if ok then exists k :: 0 <= k <= |es| && IsPlaceOf(es, k, e.mac) && s'.atu.Entries() == Placed(es, k, e)
         else s'.atu.Entries() == es
  {
    hide Database, VtuInv, RegInv, Write, AtuCommand, EntryIn, DbEntered, Add, Num, Placed;
    LoadOrPurge(s, value);
    CommandWrite(s, port, value, Load(EntryIn(s, value)));
    AddRefinesList(s.atu, EntryIn(s, value));
  }

  // ----- Flushes

  lemma {:induction false} FilterSame(es: seq<AtuEntry>, p: AtuEntry -> bool, q: AtuEntry -> bool)
    requires forall e :: p(e) == q(e)
    ensures Filter(es, p) == Filter(es, q)
  {
    if es != [] {
      FilterSame(es[1..], p, q);
    }
  }

  lemma SafeSame(st: Atu, p: AtuEntry -> bool, q: AtuEntry -> bool)
    requires st.WellFormed() && forall e :: p(e) == q(e)
    ensures FlushSafe(st, p) <==> FlushSafe(st, q)
  {
    forall a, b | 0 <= a < b < |st.chain| ensures Clash(st, p, a, b) <==> Clash(st, q, a, b) {
    }
  }

  /** Code 5 removes every entry of the written database, locked or not, and no other. */
  lemma FlushDbWrite(s: Sim, port: nat, value: bv32)
    requires Inv(s) && Norm(port) == s.dev.globalBase && value & 0x7000 == 0x5000
    ensures var (s', ok) := Write(s, port, 11, value);
      ok && Changes(s, value, s') && s'.atu.Entries() == Filter(s.atu.Entries(), OutsideOf(WrittenNibble(value)))
  {
    hide Database, AtuInv, VtuInv, RegInv, Write, Field, GetAtuInfo, WrittenNibble, FlushDb, Filter;
    var d := WrittenNibble(value);
    CodeIs(value);
    DatabaseEntered(s, value);
    CommandWrite(s, port, value, FlushInDb(d));
    FlushDbExact(s.atu, d);
    FilterSame(s.atu.Entries(), Not(InDb(d)), OutsideOf(d));
  }

  lemma ExactIff(st: Atu, p: AtuEntry -> bool, goes: AtuEntry -> bool, stays: AtuEntry -> bool)
    requires st.WellFormed() && forall e :: p(e) == goes(e) && stays(e) == !goes(e)
    ensures FlushWhere(st, 0, p).Entries() == Filter(st.Entries(), stays) <==> FlushSafe(st, goes)
    ensures UniqueKeys(st.Entries()) ==> FlushSafe(st, goes)
  {
    hide FlushWhere, FlushSafe, Filter, UniqueKeys;
    FlushWhereExactIff(st, p);
    SafeSame(st, p, goes);
    FilterSame(st.Entries(), Not(p), stays);
    if UniqueKeys(st.Entries()) {
      FlushWhereExactOnUniqueKeys(st, p);
    }
  }

  /** Code 2 removes exactly the entries that are not spared if and only if no duplicates clash; unique keys never do. */
  lemma FlushUnlockedWrite(s: Sim, port: nat, value: bv32)
    requires Inv(s) && Norm(port) == s.dev.globalBase && value & 0x7000 == 0x2000
    ensures var es, (s', ok) := s.atu.Entries(), Write(s, port, 11, value);
      && ok && Changes(s, value, s')
      && (s'.atu.Entries() == Filter(es, Spared) <==> FlushSafe(s.atu, Goes))
      && (UniqueKeys(es) ==> s'.atu.Entries() == Filter(es, Spared))
  {
    hide Database, AtuInv, VtuInv, RegInv, Write, Field, GetAtuInfo, FlushWhere, Filter, FlushSafe, UniqueKeys;
    CodeIs(value);
    CommandWrite(s, port, value, FlushUnlocked);
    ExactIff(s.atu, Unlocked(), Goes, Spared);
  }

  lemma UnlockedDbSame(d: bv16)
    ensures forall e :: UnlockedInDb(d)(e) == GoesFrom(d)(e) && SparedFrom(d)(e) == !GoesFrom(d)(e)
  {
    forall e: AtuEntry ensures UnlockedInDb(d)(e) == GoesFrom(d)(e) && SparedFrom(d)(e) == !GoesFrom(d)(e) {
      SparedIs(e);
    }
  }

  lemma SparedIs(e: AtuEntry)
    ensures Unlocked()(e) <==> !Spared(e)
  {
  }

  /** Code 6 does the same in the written database alone. */
  lemma FlushUnlockedDbWrite(s: Sim, port: nat, value: bv32)
    requires Inv(s) && Norm(port) == s.dev.globalBase && value & 0x7000 == 0x6000
    ensures var es, (s', ok), d := s.atu.Entries(), Write(s, port, 11, value), WrittenNibble(value);
      && ok && Changes(s, value, s')
      && (s'.atu.Entries() == Filter(es, SparedFrom(d)) <==> FlushSafe(s.atu, GoesFrom(d)))
      && (UniqueKeys(es) ==> s'.atu.Entries() == Filter(es, SparedFrom(d)))
  {
    hide Database, AtuInv, VtuInv, RegInv, Write, Field, GetAtuInfo, WrittenNibble, FlushWhere, Filter, FlushSafe,
      UniqueKeys;
    var d := WrittenNibble(value);
    CodeIs(value);
    DatabaseEntered(s, value);
    CommandWrite(s, port, value, FlushUnlockedInDb(d));
    UnlockedDbSame(d);
    ExactIff(s.atu, UnlockedInDb(d), GoesFrom(d), SparedFrom(d));
  }

  // ----- Get-Next

  /** Whether an entry of database d comes after address m, the broadcast address standing for the start. */
  predicate After(m: Mac, d: bv16, e: AtuEntry) {
    e.db == d && (m == [0xFF, 0xFF, 0xFF, 0xFF, 0xFF, 0xFF] || Num(e.mac) > Num(m))
  }

  /** Registers 11 to 15 hold an entry, and no other register differs. */
  ghost predicate EntryShown(regs: Regs, regs': Regs, g: nat, e: AtuEntry)
    requires g < 32
  {
    && regs'[At(g, 11)] == e.db && regs'[At(g, 12)] == e.data && MacIn(regs', g) == e.mac
    && forall i :: 0 <= i < 0x400 && !(At(g, 11) <= i <= At(g, 15)) ==> regs'[i] == regs[i]
  }

  /** Code 4 shows the first entry of the database after the address in registers 13 to 15, or the reset pattern. */
  lemma NextWrite(s: Sim, port: nat, value: bv32)
    requires Inv(s) && Norm(port) == s.dev.globalBase && value & 0x7000 == 0x4000
    ensures var es, g, (s', ok) := s.atu.Entries(), s.dev.globalBase, Write(s, port, 11, value);
      var m, d := MacIn(s.regs, g), Database(s.dev, value);
      && ok && s' == s.(regs := s'.regs)
      && if forall k :: 0 <= k < |es| ==> !After(m, d, es[k]) then
           EntryShown(s.regs, s'.regs, g, AtuEntry(0, 0, [0xFF, 0xFF, 0xFF, 0xFF, 0xFF, 0xFF]))
         else
           exists k :: 0 <= k < |es| && After(m, d, es[k]) && EntryShown(s.regs, s'.regs, g, es[k])
             && forall j :: 0 <= j < k ==> !After(m, d, es[j])
  {
    hide Database, AtuInv, VtuInv, RegInv, Write, Field, GetAtuInfo, MacIn, SetAtuInfo, ResetAtuInfo, Num, First,
      EntryShown, DbEntered;
    var es, g := s.atu.Entries(), s.dev.globalBase;
    var e := EntryIn(s, value);
    var k := First(es, Follows(e.mac, e.db));
    CodeIs(value);
    AtuWriteIs(s, port, value);
    EntryRead(s, value);
    DbsBelow16(s);
    EnteredFits(s, value);
    if k < |es| {
      SetShown(s, value, es[k]);
      assert After(e.mac, e.db, es[k]);
    } else {
      ResetShown(s, value);
    }
  }

  lemma EnteredFits(s: Sim, value: bv32)
    requires Inv(s)
    ensures DbEntered(s, value)[At(s.dev.globalBase, 11)] < 16
  {
    DatabaseEntered(s, value);
    NibbleIs(0, value);
    hide WrittenNibble, AtuInv, VtuInv, RegInv;
  }

  lemma SetShown(s: Sim, value: bv32, e: AtuEntry)
    requires Inv(s) && e.db < 16 && DbEntered(s, value)[At(s.dev.globalBase, 11)] < 16
    ensures EntryShown(s.regs, SetAtuInfo(DbEntered(s, value), s.dev.globalBase, e), s.dev.globalBase, e)
  {
    hide Database, AtuInv, VtuInv, RegInv, MacOfWords, Pack, SetNibble;
    var regs, g := DbEntered(s, value), s.dev.globalBase;
    PackedMac(e.mac);
    NibbleLaws(regs[At(g, 11)], e.db);
    SmallNibble(e.db);
  }

  lemma SmallNibble(n: bv16)
    requires n < 16
    ensures n & 0xF == n
  {
  }

  lemma PackedMac(m: Mac)
    ensures MacOfWords(Pack(m[0], m[1]), Pack(m[2], m[3]), Pack(m[4], m[5])) == m
  {
    hide Pack, Hi, Lo, MacOfWords;
    MacLayout(Pack(m[0], m[1]), Pack(m[2], m[3]), Pack(m[4], m[5]));
    PackUnpack(m[0], m[1], 0);
    PackUnpack(m[2], m[3], 0);
    PackUnpack(m[4], m[5], 0);
  }

  lemma OnesMac()
    ensures MacOfWords(0xFFFF, 0xFFFF, 0xFFFF) == [0xFF, 0xFF, 0xFF, 0xFF, 0xFF, 0xFF]
  {
  }

  lemma ResetShown(s: Sim, value: bv32)
    requires Inv(s) && DbEntered(s, value)[At(s.dev.globalBase, 11)] < 16
    ensures var g := s.dev.globalBase;
      EntryShown(s.regs, ResetAtuInfo(DbEntered(s, value), g), g, AtuEntry(0, 0, [0xFF, 0xFF, 0xFF, 0xFF, 0xFF, 0xFF]))
  {
    hide Database, AtuInv, VtuInv, RegInv, MacOfWords, SetNibble;
    var regs, g := DbEntered(s, value), s.dev.globalBase;
    OnesMac();
    NibbleLaws(regs[At(g, 11)], 0);
    SmallNibble(0);
  }
}
