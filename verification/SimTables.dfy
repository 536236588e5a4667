/** The two tables as a user of the registers sees them: runs of commands, and walks with Get-Next. */
module SimTables {
  import opened Sequences
  import opened SlotSpec
  import opened MacAddress
  import opened AtuSpec
  import opened AtuFlush
  import opened AtuRuns
  import opened VtuSpec
  import opened Registers
  import opened SimSpec
  import opened SimInvariant
  import opened SimHistory

  // ----- The address table over a run

  /** The registers an address operation works on: devices with several databases first enter the written nibble. */
  function AtuRegs(dev: Device, regs: Regs, value: bv32): Regs
    requires dev.Fits()
  {
    if dev.family == F6052 then regs else EnterNibble(regs, dev.globalBase, 11, value)
  }

  /** The table command an access amounts to, if any. */
  function Command(s: Sim, op: Op): Option<AtuCmd>
    requires s.dev.Fits()
  {
    if Writes(op, s.dev.globalBase, 11) then
      AtuCommand(AtuRegs(s.dev, s.regs, op.value), s.dev.globalBase, op.value)
    else None
  }

  /** The table commands issued by a run since the last initialisation. */
  ghost function AtuTrace(devId: nat, ops: seq<Op>): seq<AtuCmd> {
    if ops == [] then []
    else
      var before, op := ops[..|ops| - 1], ops[|ops| - 1];
      if op.Init? then []
      else
        match Command(Run(devId, before), op)
        case Some(c) => AtuTrace(devId, before) + [c]
        case None => AtuTrace(devId, before)
  }

  lemma StepAtu(s: Sim, op: Op)
    requires Sound(s)
    ensures Step(s, op).atu ==
      if op.Init? then Cleared(ATU_CAPACITY)
      else
        match Command(s, op)
        case Some(c) => Apply(s.atu, c).0
        case None => s.atu
  {
    hide AtuCommand, Apply, AtuOperation, VtuOperation, StatsOperation, PlainWrite, ReadEffect, PhyIntRegs, EnterNibble;
    match op
    case WriteReg(port, r, value) =>
      var g := s.dev.globalBase;
      AtuOperationTable(s, value);
      AtuOperationTable(s.(regs := EnterNibble(s.regs, g, 11, value)), value);
      OthersKeepAtu(s, value);
      OthersKeepAtu(s.(regs := EnterNibble(s.regs, g, 5, value)), value);
    case _ =>
  }

  lemma AtuOperationTable(s: Sim, value: bv32)
    requires Sound(s)
    ensures AtuOperation(s, value).0.atu ==
      match AtuCommand(s.regs, s.dev.globalBase, value)
      case Some(c) => Apply(s.atu, c).0
      case None => s.atu
  {
    hide AtuCommand, Apply, AtuGetNext;
  }

  lemma OthersKeepAtu(s: Sim, value: bv32)
    requires Sound(s)
    ensures VtuOperation(s, value).0.atu == StatsOperation(s, value).0.atu == s.atu
  {
    hide VtuTableOp, VtuRegsOp, Field, Low6, ClearBusy;
  }

  /** The address table after a run is the commands of its trace applied to the empty table. */
  lemma {:induction false} TraceRefines(devId: nat, ops: seq<Op>)
    ensures Run(devId, ops).atu == ApplyAll(Cleared(ATU_CAPACITY), AtuTrace(devId, ops))
  {
    hide AtuInv, VtuInv, RegInv, Step, Command, Apply, Cleared;
    if ops != [] {
      var before, op := ops[..|ops| - 1], ops[|ops| - 1];
      TraceRefines(devId, before);
      StepAtu(Run(devId, before), op);
      var t := AtuTrace(devId, before);
      assert forall c :: (t + [c])[..|t|] == t;
    }
  }

  /**
   However a run begins, from the k-th table command on, provided none that follows is a purge or unlocked
   flush of the key, the first entry with a key is its last successful load.
   */
  lemma RunLastLoadWins(devId: nat, ops: seq<Op>, m: Mac, db: bv16, k: nat)
    requires k <= |AtuTrace(devId, ops)|
    requires forall i :: k <= i < |AtuTrace(devId, ops)| ==> !MayDelete(AtuTrace(devId, ops)[i], m, db)
    ensures var t := AtuTrace(devId, ops);
      Lookup(Run(devId, ops).atu.Entries(), m, db)
      == LastLoaded(ApplyAll(Cleared(ATU_CAPACITY), t[..k]), t[k..], m, db)
  {
    TraceRefines(devId, ops);
    hide AtuTrace, Lookup, LastLoaded, MayDelete, Run, ApplyAll, Sorted;
    var t, st0 := AtuTrace(devId, ops), Cleared(ATU_CAPACITY);
    RunSorted(ATU_CAPACITY, t[..k]);
    ApplyAllSplit(st0, t[..k], t[k..]);
    assert t[..k] + t[k..] == t;
    LastLoadWins(ApplyAll(st0, t[..k]), t[k..], m, db);
  }

  /**
   On the 88E6051 and 88E6052 register 11 stays 0, all entries are of database 0, addresses are
   strictly increasing and keys unique.
   */
  lemma SingleDatabaseDevices(devId: nat, ops: seq<Op>)
    requires DevAfter(devId, ops).family == F6052
    ensures var s := Run(devId, ops); var es := s.atu.Entries();
      && s.regs[At(s.dev.globalBase, 11)] == 0
      && (forall k :: 0 <= k < |es| ==> es[k].db == 0)
      && StrictlySorted(es) && UniqueKeys(es)
  {
    RunDev(devId, ops);
    var s := Run(devId, ops);
    hide Run;
    StrictMeansUnique(s.atu.Entries());
  }

  /** So on those devices the unlocked flush removes exactly the unlocked entries, after any run. */
  lemma SingleDatabaseFlush(devId: nat, ops: seq<Op>)
    requires DevAfter(devId, ops).family == F6052
    ensures var st := Run(devId, ops).atu;
      Apply(st, FlushUnlocked).0.Entries() == Filter(st.Entries(), Not(Unlocked()))
  {
    SingleDatabaseDevices(devId, ops);
    var st := Run(devId, ops).atu;
    hide Run, FlushWhere, FlushSafe;
    FlushWhereExactOnUniqueKeys(st, Unlocked());
  }

  /** After any run the VLAN table is a map with ascending keys below 0x1000, never larger than the device allows. */
  lemma VlanTableIsMap(devId: nat, ops: seq<Op>, e: VtuEntry)
    ensures var s := Run(devId, ops);
      var es := s.vtu.Entries();
      && Ascending(es) && |ToMap(es)| == |es| <= s.dev.vtuSize <= VTU_CAPACITY
      && (forall k :: 0 <= k < |es| ==> es[k].vid < 0x1000)
      && (AddVlan(s.vtu, s.dev.vtuSize, e).1 <==> |ToMap(es)| < s.dev.vtuSize)
  {
    var s := Run(devId, ops);
    hide Run, RegInv, AtuInv, ToMap, TagsFit;
    MapSize(s.vtu.Entries());
    AddRefinesMap(s.vtu, s.dev.vtuSize, e);
  }

  /** No read of an operation register ever shows the busy bit, or any other above the low nibble. */
  lemma NeverBusy(devId: nat, ops: seq<Op>, port: nat, r: nat)
    requires var dev := DevAfter(devId, ops);
      Norm(port) == dev.globalBase && (r == 11 || (dev.family != F6052 && (r == 5 || r == 29)))
    ensures var shown := Read(Run(devId, ops), port, r).1; shown.Some? && shown.value < 16
  {
    RunDev(devId, ops);
    hide Run, AtuInv, VtuInv;
  }

  /** Slots are conserved in both tables, and a load of an address is refused exactly when all slots are linked. */
  lemma SlotsAlwaysConserved(devId: nat, ops: seq<Op>, e: AtuEntry)
    ensures var s := Run(devId, ops);
      && |s.atu.chain| + |Free(s.atu)| == ATU_CAPACITY
      && |s.vtu.chain| + |Free(s.vtu)| == VTU_CAPACITY
      && (Add(s.atu, e).1 <==> |s.atu.chain| < ATU_CAPACITY)
      && (|s.atu.chain| < ATU_CAPACITY ==> s.atu.FirstFree(0) < ATU_CAPACITY)
  {
    var s := Run(devId, ops);
    hide Run, RegInv, Free;
    SlotsConserved(s.atu);
    SlotsConserved(s.vtu);
    FreeSlotExists(s.atu);
  }

  // ----- Walking one database with Get-Next

  /** The first entry of each address of database d, in list order. */
  ghost function Listing(es: seq<AtuEntry>, d: bv16): (l: seq<AtuEntry>)
    ensures |l| <= |es|
  {
    if es == [] then []
    else
      var rest := Listing(es[1..], d);
      if es[0].db != d then rest
      else if rest != [] && rest[0].mac == es[0].mac then [es[0]] + rest[1..]
      else [es[0]] + rest
  }

  /**
   What a complete listing of database d is: ascending, each the first entry of its address, and no
   address missing.
   */
  ghost predicate IsListing(l: seq<AtuEntry>, es: seq<AtuEntry>, d: bv16) {
    && StrictlySorted(l)
    && (forall k :: 0 <= k < |l| ==> IsFirst(es, l[k], d))
    && (forall i :: 0 <= i < |es| && es[i].db == d ==> Lists(l, es[i].mac))
  }

  ghost predicate IsFirst(es: seq<AtuEntry>, e: AtuEntry, d: bv16) {
    e.db == d && var k := First(es, HasKey(e.mac, d)); k < |es| && es[k] == e
  }

  ghost predicate Lists(l: seq<AtuEntry>, m: Mac) {
    exists k :: 0 <= k < |l| && l[k].mac == m
  }

  /** An entry further on stays first of its address when an entry with another key goes in front. */
  lemma FirstBehind(es: seq<AtuEntry>, e: AtuEntry, d: bv16)
    requires es != [] && IsFirst(es[1..], e, d) && !HasKey(e.mac, d)(es[0])
    ensures IsFirst(es, e, d)
  {
  }

  lemma ListingFloor(es: seq<AtuEntry>, d: bv16, k: nat)
    requires es != [] && Sorted(es) && IsListing(Listing(es[1..], d), es[1..], d)
    requires k < |Listing(es[1..], d)|
    ensures Num(es[0].mac) <= Num(Listing(es[1..], d)[k].mac)
  {
    var e := Listing(es[1..], d)[k];
    assert IsFirst(es[1..], e, d);
    var i := First(es[1..], HasKey(e.mac, d));
    assert es[1..][i] == es[i + 1];
  }

  lemma {:induction false} ListingIs(es: seq<AtuEntry>, d: bv16)
    requires Sorted(es)
    ensures IsListing(Listing(es, d), es, d)
  {
    if es != [] {
      var e, rest := es[0], Listing(es[1..], d);
      ListingIs(es[1..], d);
      if e.db != d {
        ListingSkips(es, d);
      } else {
        ListingAdds(es, d);
      }
    }
  }

  lemma ListingSkips(es: seq<AtuEntry>, d: bv16)
    requires es != [] && es[0].db != d && IsListing(Listing(es[1..], d), es[1..], d)
    ensures IsListing(Listing(es, d), es, d)
  {
    hide Num, First;
    var l := Listing(es, d);
    assert l == Listing(es[1..], d);
    forall k | 0 <= k < |l| ensures IsFirst(es, l[k], d) {
      assert IsFirst(es[1..], l[k], d);
      FirstBehind(es, l[k], d);
    }
    forall i | 0 <= i < |es| && es[i].db == d ensures Lists(l, es[i].mac) {
      assert es[1..][i - 1] == es[i];
    }
  }

  lemma ListingAdds(es: seq<AtuEntry>, d: bv16)
    requires es != [] && es[0].db == d && Sorted(es) && IsListing(Listing(es[1..], d), es[1..], d)
    ensures IsListing(Listing(es, d), es, d)
  {
    ListingAbove(es, d);
    AddedAscends(es, d);
    AddedAreFirst(es, d);
    AddedAreAll(es, d);
    hide Listing, Num, First, IsFirst, Lists;
  }

  lemma AddedAscends(es: seq<AtuEntry>, d: bv16)
    requires es != [] && es[0].db == d && StrictlySorted(Listing(es[1..], d))
    requires var rest := Listing(es[1..], d);
      forall k :: 0 <= k < |rest| && (k > 0 || rest[0].mac != es[0].mac) ==> Num(es[0].mac) < Num(rest[k].mac)
    ensures StrictlySorted(Listing(es, d))
  {
    hide Num;
  }

  lemma AddedAreFirst(es: seq<AtuEntry>, d: bv16)
    requires es != [] && es[0].db == d && IsListing(Listing(es[1..], d), es[1..], d)
    requires var rest := Listing(es[1..], d);
      forall k :: 0 <= k < |rest| && (k > 0 || rest[0].mac != es[0].mac) ==> Num(es[0].mac) < Num(rest[k].mac)
    ensures forall k :: 0 <= k < |Listing(es, d)| ==> IsFirst(es, Listing(es, d)[k], d)
  {
    hide Num, First, IsFirst, Lists;
    var rest, l := Listing(es[1..], d), Listing(es, d);
    var same := rest != [] && rest[0].mac == es[0].mac;
    HeadIsFirst(es, d);
    forall k | 0 < k < |l| ensures IsFirst(es, l[k], d) {
      var j := if same then k else k - 1;
      assert l[k] == rest[j];
      assert IsFirst(es[1..], rest[j], d);
      FirstBehind(es, rest[j], d);
    }
  }

  lemma AddedAreAll(es: seq<AtuEntry>, d: bv16)
    requires es != [] && es[0].db == d && IsListing(Listing(es[1..], d), es[1..], d)
    ensures forall i :: 0 <= i < |es| && es[i].db == d ==> Lists(Listing(es, d), es[i].mac)
  {
    hide Num, First, IsFirst, StrictlySorted;
    var rest, l := Listing(es[1..], d), Listing(es, d);
    var same := rest != [] && rest[0].mac == es[0].mac;
    assert l[0].mac == es[0].mac;
    forall i | 0 < i < |es| && es[i].db == d ensures Lists(l, es[i].mac) {
      assert es[1..][i - 1] == es[i];
      var j :| 0 <= j < |rest| && rest[j].mac == es[i].mac;
      assert l[if same then j else j + 1].mac == es[i].mac;
    }
  }

  lemma HeadIsFirst(es: seq<AtuEntry>, d: bv16)
    requires es != [] && es[0].db == d
    ensures IsFirst(es, es[0], d)
  {
  }

  /** All addresses listed behind the head entry are above it, except that the first may equal it. */
  lemma ListingAbove(es: seq<AtuEntry>, d: bv16)
    requires es != [] && Sorted(es) && IsListing(Listing(es[1..], d), es[1..], d)
    ensures var rest := Listing(es[1..], d);
      forall k :: 0 <= k < |rest| && (k > 0 || rest[0].mac != es[0].mac) ==> Num(es[0].mac) < Num(rest[k].mac)
  {
    hide Num, First, IsFirst, Lists;
    var rest := Listing(es[1..], d);
    forall k | 0 <= k < |rest| && (k > 0 || rest[0].mac != es[0].mac) ensures Num(es[0].mac) < Num(rest[k].mac) {
      ListingFloor(es, d, k);
      ListingFloor(es, d, 0);
      if k == 0 && Num(es[0].mac) == Num(rest[0].mac) {
        NumInjective(es[0].mac, rest[0].mac);
      }
    }
  }

  /** Whatever Get-Next finds is listed, and not before the k-th place. */
  lemma FoundIsListed(l: seq<AtuEntry>, es: seq<AtuEntry>, d: bv16, m: Mac, k: nat) returns (q: nat)
    requires IsListing(l, es, d) && k <= |l| && First(es, Follows(m, d)) < |es|
    requires if m == BROADCAST then k == 0 else k > 0 && l[k - 1].mac == m
    ensures k <= q < |l| && l[q] == es[First(es, Follows(m, d))]
  {
    hide Num;
    var j := First(es, Follows(m, d));
    assert Lists(l, es[j].mac);
    q :| 0 <= q < |l| && l[q].mac == es[j].mac;
    assert IsFirst(es, l[q], d);
    var f := First(es, HasKey(l[q].mac, d));
    assert HasKey(l[q].mac, d)(es[j]);
    assert Follows(m, d)(es[f]);
  }

  lemma NextIsFound(l: seq<AtuEntry>, es: seq<AtuEntry>, d: bv16, m: Mac, k: nat) returns (i: nat)
    requires IsListing(l, es, d) && k < |l|
    requires if m == BROADCAST then k == 0 else k > 0 && l[k - 1].mac == m
    ensures First(es, Follows(m, d)) <= i < |es| && es[i] == l[k]
  {
    hide Num;
    assert IsFirst(es, l[k], d);
    i := First(es, HasKey(l[k].mac, d));
    assert Follows(m, d)(es[i]);
  }

  /**
   Get-Next from the broadcast address finds the first element of the listing, from the k-th address
   the next one.
   */
  lemma Successor(l: seq<AtuEntry>, es: seq<AtuEntry>, d: bv16, m: Mac, k: nat)
    requires Sorted(es) && IsListing(l, es, d) && k <= |l|
    requires if m == BROADCAST then k == 0 else k > 0 && l[k - 1].mac == m
    ensures var j := First(es, Follows(m, d));
      if k == |l| then j == |es| else j < |es| && es[j] == l[k]
  {
    hide Num, Follows, IsFirst, Lists, First, Sorted, StrictlySorted;
    var j := First(es, Follows(m, d));
    if k < |l| {
      var i := NextIsFound(l, es, d, m, k);
      var q := FoundIsListed(l, es, d, m, k);
      NotBeyond(l, es, k, q, j, i);
    } else if j < |es| {
      var q := FoundIsListed(l, es, d, m, k);
    }
  }

  lemma NotBeyond(l: seq<AtuEntry>, es: seq<AtuEntry>, k: nat, q: nat, j: nat, i: nat)
    requires Sorted(es) && StrictlySorted(l) && k <= q < |l| && j <= i < |es|
    requires es[i] == l[k] && es[j] == l[q]
    ensures q == k
  {
    hide Num;
  }
}
