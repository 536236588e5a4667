/**
 Listing the tables through the registers: repeated Get-Next operations, each starting from the
 result of the last.
 */
module SimWalks {
  import opened Sequences
  import opened SlotSpec
  import opened MacAddress
  import opened AtuSpec
  import opened AtuRuns
  import opened VtuSpec
  import opened Registers
  import opened SimSpec
  import opened SimInvariant
  import opened SimTables

  /** The same register write, n times over. */
  ghost function Repeat(s: Sim, port: nat, r: nat, value: bv32, n: nat): (t: Sim)
    requires Inv(s)
    ensures Inv(t)
  {
    if n == 0 then s
    else
      WriteKeepsInv(Repeat(s, port, r, value, n - 1), port, r, value);
      Write(Repeat(s, port, r, value, n - 1), port, r, value).0
  }

  // ----- Addresses

  lemma NibbleEntered(regs: Regs, g: nat, value: bv32)
    requires g < 32
    ensures GetAtuInfo(EnterNibble(regs, g, 11, value), g) == GetAtuInfo(regs, g).(db := Low4(value))
  {
    NibbleOf(regs[At(g, 11)], value);
  }

  lemma NibbleOf(w: bv16, value: bv32)
    ensures SetNibble(w, Low4(value)) & 0xF == Low4(value) < 16
    ensures w < 16 ==> SetNibble(w, Low4(value)) == Low4(value)
  {
  }

  lemma AtuFound(regs: Regs, g: nat, es: seq<AtuEntry>)
    requires g < 32 && forall k :: 0 <= k < |es| ==> es[k].db < 16
    ensures var e := GetAtuInfo(regs, g);
      var j := First(es, Follows(e.mac, e.db));
      GetAtuInfo(AtuGetNext(regs, g, es), g) == if j == |es| then NOTHING_FOUND else es[j]
  {
    hide Num, Follows, First, GetAtuInfo, SetAtuInfo, ResetAtuInfo;
    var e := GetAtuInfo(regs, g);
    var j := First(es, Follows(e.mac, e.db));
    if j < |es| {
      SetGetAtu(regs, g, es[j]);
    } else {
      ResetGetAtu(regs, g);
    }
  }

  /** The database a Get-Next asks for: the written nibble, which the single-database devices ignore. */
  function WalkDb(dev: Device, value: bv32): bv16 {
    if dev.family == F6052 then 0 else Low4(value)
  }

  lemma AtuRegsRead(s: Sim, value: bv32)
    requires Inv(s)
    ensures var g := s.dev.globalBase;
      GetAtuInfo(AtuRegs(s.dev, s.regs, value), g) == GetAtuInfo(s.regs, g).(db := WalkDb(s.dev, value))
  {
    hide EnterNibble, Low4, AtuInv, VtuInv;
    if s.dev.family != F6052 {
      NibbleEntered(s.regs, s.dev.globalBase, value);
    }
  }

  lemma DbsBelow16(s: Sim)
    requires Inv(s)
    ensures forall k :: 0 <= k < |s.atu.chain| ==> s.atu.Entries()[k].db < 16
  {
  }

  /** One Get-Next for database d changes only registers 11 to 15, to the entry that follows them in d. */
  lemma AtuGetNextWrite(s: Sim, port: nat, value: bv32, d: bv16)
    requires Inv(s) && Norm(port) == s.dev.globalBase && Field(value) == 4 && WalkDb(s.dev, value) == d
    ensures var s', es := Write(s, port, 11, value).0, s.atu.Entries();
      var j := First(es, Follows(GetAtuInfo(s.regs, s.dev.globalBase).mac, d));
      && s' == s.(regs := s'.regs)
      && GetAtuInfo(s'.regs, s.dev.globalBase) == if j == |es| then NOTHING_FOUND else es[j]
  {
    hide GetAtuInfo, AtuGetNext, Low4, Field, EnterNibble, Follows, First, AtuInv, VtuInv, RegInv;
    var g, es := s.dev.globalBase, s.atu.Entries();
    var regs := AtuRegs(s.dev, s.regs, value);
    AtuRegsRead(s, value);
    DbsBelow16(s);
    AtuFound(regs, g, es);
    assert WriteAction(s.dev, Norm(port), 11, value).AtuOp?;
    assert AtuCommand(regs, g, value) == None;
  }

  /**
   What the n-th operation of a walk shows: the listing, then nothing, unless the listing ends in the
   broadcast address.
   */
  ghost function WalkShows(l: seq<AtuEntry>, n: nat): AtuEntry
    requires 1 <= n <= |l| + 1
  {
    if n <= |l| then l[n - 1]
    else if l != [] && l[|l| - 1].mac == BROADCAST then l[0]
    else NOTHING_FOUND
  }

  /**
   A walk of database d from the all-ones address shows, one per operation, the first entry of each
   address in strictly ascending order, within atuSize operations, and then the reset pattern; but if
   the broadcast address is stored in d, which is then shown last, the walk starts over instead.
   */
  lemma {:induction false} AtuWalk(s: Sim, port: nat, value: bv32, d: bv16, n: nat)
    requires Inv(s) && Norm(port) == s.dev.globalBase && Field(value) == 4 && WalkDb(s.dev, value) == d
    requires GetAtuInfo(s.regs, s.dev.globalBase).mac == BROADCAST
    requires n <= |Listing(s.atu.Entries(), d)| + 1
    ensures var t, l := Repeat(s, port, 11, value, n), Listing(s.atu.Entries(), d);
      && IsListing(l, s.atu.Entries(), d) && |l| <= |s.atu.chain|
      && t == s.(regs := t.regs)
      && (n > 0 ==> GetAtuInfo(t.regs, s.dev.globalBase) == WalkShows(l, n))
  {
    hide AtuInv, VtuInv, RegInv, GetAtuInfo, Write, Low4, Field, Follows, First, Num, IsListing, Listing, Norm;
    var es := s.atu.Entries();
    var l := Listing(es, d);
    SortedInv(s);
    ListingIs(es, d);
    if n > 0 {
      AtuWalk(s, port, value, d, n - 1);
      var t := Repeat(s, port, 11, value, n - 1);
      var m := GetAtuInfo(t.regs, s.dev.globalBase).mac;
      AtuGetNextWrite(t, port, value, d);
      if n > 1 && n - 1 < |l| {
        OnlyLastIsBroadcast(es, d, n - 2);
      }
      Successor(l, es, d, m, if m == BROADCAST then 0 else n - 1);
    }
  }

  /**
   The walk ends with the reset pattern if no entry of the database has the broadcast address, else it
   shows that and starts over.
   */
  lemma WalkEnds(s: Sim, d: bv16)
    requires Inv(s)
    ensures var es := s.atu.Entries();
      var l := Listing(es, d);
      if forall k :: 0 <= k < |es| && es[k].db == d ==> es[k].mac != BROADCAST
      then WalkShows(l, |l| + 1) == NOTHING_FOUND
      else l != [] && l[|l| - 1].mac == BROADCAST && WalkShows(l, |l| + 1) == l[0]
  {
    hide Num, First, Listing, IsListing;
    var es := s.atu.Entries();
    SortedInv(s);
    ListingIs(es, d);
    if k :| 0 <= k < |es| && es[k].db == d && es[k].mac == BROADCAST {
      BroadcastListedLast(Listing(es, d), es, d, k);
    } else {
      BroadcastNotListed(Listing(es, d), es, d);
    }
  }

  lemma BroadcastListedLast(l: seq<AtuEntry>, es: seq<AtuEntry>, d: bv16, k: nat)
    requires IsListing(l, es, d) && k < |es| && es[k].db == d && es[k].mac == BROADCAST
    ensures l != [] && l[|l| - 1].mac == BROADCAST
  {
    hide Num, IsFirst;
    assert Lists(l, es[k].mac);
    var q :| 0 <= q < |l| && l[q].mac == BROADCAST;
    BroadcastIsLargest(l[|l| - 1].mac);
  }

  lemma BroadcastNotListed(l: seq<AtuEntry>, es: seq<AtuEntry>, d: bv16)
    requires IsListing(l, es, d) && forall k :: 0 <= k < |es| && es[k].db == d ==> es[k].mac != BROADCAST
    ensures l != [] ==> l[|l| - 1].mac != BROADCAST
  {
    hide Num, StrictlySorted, Lists, First;
    if l != [] {
      assert IsFirst(es, l[|l| - 1], d);
    }
  }

  lemma OnlyLastIsBroadcast(es: seq<AtuEntry>, d: bv16, k: nat)
    requires IsListing(Listing(es, d), es, d) && k < |Listing(es, d)| - 1
    ensures Listing(es, d)[k].mac != BROADCAST
  {
    hide Num, IsFirst, Lists, Listing;
    BroadcastIsLargest(Listing(es, d)[k + 1].mac);
  }

  lemma SortedInv(s: Sim)
    requires Inv(s)
    ensures Sorted(s.atu.Entries())
  {
  }

  // ----- VLANs

  lemma {:induction false} NextVlan(es: seq<VtuEntry>, v: nat, k: nat)
    requires Ascending(es) && k <= |es|
    requires if v == ALL_VLANS then k == 0 else k > 0 && es[k - 1].vid == v
    ensures First(es, VidFollows(v)) == k
  {
    assert k < |es| ==> VidFollows(v)(es[k]);
    assert forall i :: 0 <= i < k ==> es[i].vid <= es[k - 1].vid;
  }

  lemma VlanNibble(w: bv16, value: bv32, db: bv16)
    requires w < 16 && db < 16
    ensures ((SetNibble(w, Low4(value)) & 0x7FFF) & 0xF) | db == Low4(value) | db
  {
  }

  /** An entry as its registers show it: valid bit set, database merged with the nibble that was written. */
  function Shown(e: VtuEntry, value: bv32): VtuEntry {
    VtuEntry(Low4(value) | e.db, e.tags, e.vid + 0x1000)
  }

  /** The registers of a VLAN operation once the nibble is entered and the busy bit dropped. */
  function VtuRegs(regs: Regs, g: nat, value: bv32): Regs
    requires g < 32
  {
    ClearBusy(EnterNibble(regs, g, 5, value), g, 5)
  }

  lemma VtuRegsRead(regs: Regs, g: nat, value: bv32)
    requires g < 32
    ensures GetVtuInfo(VtuRegs(regs, g, value), g).vid == GetVtuInfo(regs, g).vid
  {
    hide Tag, NumOf;
  }

  /** One Get-Next shows the next entry, its database merged with the nibble that was written. */
  lemma VtuGetNextWrite(s: Sim, port: nat, value: bv32)
    requires Inv(s) && s.dev.family != F6052 && Norm(port) == s.dev.globalBase
    requires value & 0x8000 != 0 && Field(value) == 4
    ensures var s', g, es := Write(s, port, 5, value).0, s.dev.globalBase, s.vtu.Entries();
      var j := First(es, VidFollows(GetVtuInfo(s.regs, g).vid % 0x1000));
      && s' == s.(regs := s'.regs)
      && (j == |es| ==> s'.regs[At(g, 6)] == 0xFFF)
      && (j < |es| ==> GetVtuInfo(s'.regs, g) == Shown(es[j], value))
  {
    hide GetVtuInfo, SetVtuInfo, Low4, Field, EnterNibble, ClearBusy, VidFollows, First, AtuInv, VtuInv, RegInv;
    var g, es := s.dev.globalBase, s.vtu.Entries();
    var regs := VtuRegs(s.regs, g, value);
    var j := First(es, VidFollows(GetVtuInfo(s.regs, g).vid % 0x1000));
    VtuRegsRead(s.regs, g, value);
    assert WriteAction(s.dev, Norm(port), 5, value).VtuOp?;
    assert Write(s, port, 5, value).0 == s.(regs := VtuGetNext(regs, g, es));
    if j < |es| {
      StoredFits(s, j);
      SetGetVtu(regs, g, es[j]);
      MergedDb(s, value, es[j].db);
    }
  }

  lemma StoredFits(s: Sim, k: nat)
    requires Inv(s) && k < |s.vtu.chain|
    ensures Storable(s.vtu.Entries()[k])
  {
    hide Storable;
  }

  lemma MergedDb(s: Sim, value: bv32, db: bv16)
    requires Inv(s) && s.dev.family != F6052 && db < 16
    ensures var g := s.dev.globalBase; (VtuRegs(s.regs, g, value)[At(g, 5)] & 0xF) | db == Low4(value) | db
  {
    hide Low4, AtuInv, VtuInv;
    VlanNibble(s.regs[At(s.dev.globalBase, 5)], value, db);
  }

  /**
   A walk from VLAN id 0xFFF shows the table in ascending order, one entry per operation with its VLAN
   id, tags and database, and then ends with 0xFFF; but if VLAN 0xFFF is stored, which is then shown
   last, the walk starts over instead. The database is exact when the written nibble is zero.
   */
  lemma {:induction false} VtuWalk(s: Sim, port: nat, value: bv32, n: nat)
    requires Inv(s) && s.dev.family != F6052 && Norm(port) == s.dev.globalBase
    requires value & 0x8000 != 0 && Field(value) == 4
    requires GetVtuInfo(s.regs, s.dev.globalBase).vid % 0x1000 == ALL_VLANS
    requires n <= |s.vtu.chain| + 1
    ensures var t, g, es := Repeat(s, port, 5, value, n), s.dev.globalBase, s.vtu.Entries();
      && t == s.(regs := t.regs)
      && (0 < n <= |es| ==> GetVtuInfo(t.regs, g) == Shown(es[n - 1], value))
      && (n == |es| + 1 ==>
            if ALL_VLANS in Vids(es) then GetVtuInfo(t.regs, g) == Shown(es[0], value) else t.regs[At(g, 6)] == 0xFFF)
  {
    hide AtuInv, VtuInv, RegInv, GetVtuInfo, Write, Low4, Field, VidFollows, First, Norm, Storable, Vids;
    var es := s.vtu.Entries();
    if n > 0 {
      VtuWalk(s, port, value, n - 1);
      var t := Repeat(s, port, 5, value, n - 1);
      VtuGetNextWrite(t, port, value);
      AscendingInv(s);
      if n > 1 {
        StoredVid(s, n - 2);
        LargestVlan(s, n - 2);
      } else {
        NoVids(es);
      }
      var v := GetVtuInfo(t.regs, s.dev.globalBase).vid % 0x1000;
      NextVlan(es, v, if v == ALL_VLANS then 0 else n - 1);
    }
  }

  lemma NoVids(es: seq<VtuEntry>)
    ensures es == [] ==> ALL_VLANS !in Vids(es)
  {
  }

  /** VLAN 0xFFF can only be stored last. */
  lemma LargestVlan(s: Sim, k: nat)
    requires Inv(s) && k < |s.vtu.chain|
    ensures var es := s.vtu.Entries();
      && (k < |es| - 1 ==> es[k].vid != ALL_VLANS)
      && (k == |es| - 1 ==> (es[k].vid == ALL_VLANS <==> ALL_VLANS in Vids(es)))
  {
    var es := s.vtu.Entries();
    StoredFits(s, k);
    AscendingInv(s);
    hide AtuInv, VtuInv, RegInv;
    if k < |es| - 1 {
      StoredFits(s, k + 1);
    } else if ALL_VLANS in Vids(es) {
      var j :| 0 <= j < |es| && es[j].vid == ALL_VLANS;
    }
  }

  lemma AscendingInv(s: Sim)
    requires Inv(s)
    ensures Ascending(s.vtu.Entries())
  {
  }

  lemma StoredVid(s: Sim, k: nat)
    requires Inv(s) && k < |s.vtu.chain|
    ensures (s.vtu.Entries()[k].vid + 0x1000) % 0x1000 == s.vtu.Entries()[k].vid
  {
    StoredFits(s, k);
  }

  /**
   The database shown is the stored one exactly when the written nibble has no bit outside it; a zero
   nibble always does.
   */
  lemma DatabaseShownExactly(e: VtuEntry, value: bv32)
    ensures Shown(e, value).db == e.db <==> Low4(value) & !e.db == 0
    ensures Low4(value) == 0 ==> Shown(e, value).db == e.db
  {
  }
}
