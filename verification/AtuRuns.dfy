/** Properties of the address table over whole runs of commands, and of a walk through one database. */
module AtuRuns {
  import opened Sequences
  import opened SlotSpec
  import opened MacAddress
  import opened AtuSpec
  import opened AtuFlush

  /** What one write of the ATU operation register asks of the table. */
  datatype AtuCmd =
    | FlushAll
    | FlushUnlocked
    | Load(entry: AtuEntry)
    | Purge(mac: Mac, db: bv16)
    | FlushInDb(db: bv16)
    | FlushUnlockedInDb(db: bv16)

  ghost function Apply(st: Atu, c: AtuCmd): (r: (Atu, bool))
    requires st.WellFormed()
    ensures r.0.WellFormed() && |r.0.slots| == |st.slots|
  {
    match c
    case FlushAll => (Cleared(|st.slots|), true)
    case FlushUnlocked => (FlushWhere(st, 0, Unlocked()), true)
    case Load(e) => Add(st, e)
    case Purge(m, db) => Del(st, m, db)
    case FlushInDb(d) => (FlushDb(st, 0, d), true)
    case FlushUnlockedInDb(d) => (FlushWhere(st, 0, UnlockedInDb(d)), true)
  }

  ghost function ApplyAll(st: Atu, cs: seq<AtuCmd>): (r: Atu)
    requires st.WellFormed()
    ensures r.WellFormed() && |r.slots| == |st.slots|
  {
    if cs == [] then st else Apply(ApplyAll(st, cs[..|cs| - 1]), cs[|cs| - 1]).0
  }

  // ----- Order

  lemma ApplyKeepsSorted(st: Atu, c: AtuCmd)
    requires st.WellFormed() && Sorted(st.Entries())
    ensures Sorted(Apply(st, c).0.Entries())
  {
    match c
    case FlushAll =>
    case FlushUnlocked => FlushWhereKeepsOrder(st, 0, Unlocked());
    case Load(e) => AddRefinesList(st, e);
    case Purge(m, db) => DelKeepsOrder(st, m, db);
    case FlushInDb(d) => FlushDbKeepsOrder(st, 0, d);
    case FlushUnlockedInDb(d) => FlushWhereKeepsOrder(st, 0, UnlockedInDb(d));
  }

  /** In every run from the empty table the list is in nondecreasing address order. */
  lemma {:induction false} RunSorted(n: nat, cs: seq<AtuCmd>)
    ensures Sorted(ApplyAll(Cleared(n), cs).Entries())
  {
    if cs != [] {
      RunSorted(n, cs[..|cs| - 1]);
      ApplyKeepsSorted(ApplyAll(Cleared(n), cs[..|cs| - 1]), cs[|cs| - 1]);
    }
  }

  lemma {:induction false} ApplyAllSplit(st: Atu, cs: seq<AtuCmd>, more: seq<AtuCmd>)
    requires st.WellFormed()
    ensures ApplyAll(st, cs + more) == ApplyAll(ApplyAll(st, cs), more)
  {
    hide Apply;
    if more == [] {
      assert cs + more == cs;
    } else {
      var n := |more| - 1;
      ApplyAllSplit(st, cs, more[..n]);
      ApplyLast(st, cs + more[..n], more[n]);
      ApplyLast(ApplyAll(st, cs), more[..n], more[n]);
      assert more[..n] + [more[n]] == more;
      assert cs + more[..n] + [more[n]] == cs + more;
    }
  }

  ghost predicate OneDb(st: Atu, d: bv16) {
    forall i :: 0 <= i < |st.slots| ==> st.slots[i].db == d
  }

  lemma AddKeepsDb(st: Atu, e: AtuEntry)
    requires st.WellFormed() && OneDb(st, e.db)
    ensures OneDb(Add(st, e).0, e.db)
  {
  }

  lemma PlacedKeepsStrict(es: seq<AtuEntry>, k: nat, e: AtuEntry)
    requires StrictlySorted(es) && IsPlaceOf(es, k, e.mac)
    requires forall j :: 0 <= j < |es| ==> es[j].db == e.db
    ensures StrictlySorted(Placed(es, k, e))
  {
    if k < |es| && Num(es[k].mac) == Num(e.mac) {
      NumInjective(es[k].mac, e.mac);
    }
  }

  lemma AddKeepsStrict(st: Atu, e: AtuEntry)
    requires st.WellFormed() && StrictlySorted(st.Entries()) && OneDb(st, e.db)
    ensures StrictlySorted(Add(st, e).0.Entries())
  {
    var es := st.Entries();
    AddRefinesList(st, e);
    if Add(st, e).1 {
      var k: nat :| IsPlaceOf(es, k, e.mac) && Add(st, e).0.Entries() == Placed(es, k, e);
      PlacedKeepsStrict(es, k, e);
    }
  }

  /** While all entries are of one database, addresses are strictly increasing: the keys are unique. */
  lemma ApplyKeepsStrict(st: Atu, c: AtuCmd, d: bv16)
    requires st.WellFormed() && StrictlySorted(st.Entries()) && OneDb(st, d)
    requires c.Load? ==> c.entry.db == d
    requires c.FlushAll? ==> d == 0
    ensures StrictlySorted(Apply(st, c).0.Entries()) && OneDb(Apply(st, c).0, d)
  {
    match c
    case FlushAll =>
    case FlushUnlocked => FlushWhereKeepsOrder(st, 0, Unlocked());
    case Load(e) => AddKeepsStrict(st, e); AddKeepsDb(st, e);
    case Purge(m, db) => DelKeepsOrder(st, m, db);
    case FlushInDb(d') => FlushDbKeepsOrder(st, 0, d');
    case FlushUnlockedInDb(d') => FlushWhereKeepsOrder(st, 0, UnlockedInDb(d'));
  }

  lemma StrictMeansUnique(es: seq<AtuEntry>)
    requires StrictlySorted(es)
    ensures UniqueKeys(es)
  {
  }

  // ----- The last load wins

  /** The data of the first entry with a key. */
  ghost function Lookup(es: seq<AtuEntry>, m: Mac, db: bv16): Option<bv16> {
    var k := First(es, HasKey(m, db));
    if k == |es| then None else Some(es[k].data)
  }

  lemma LookupIs(es: seq<AtuEntry>, m: Mac, db: bv16, k: nat)
    requires k < |es| && HasKey(m, db)(es[k]) && forall j :: 0 <= j < k ==> !HasKey(m, db)(es[j])
    ensures Lookup(es, m, db) == Some(es[k].data)
  {
  }

  lemma LookupNone(es: seq<AtuEntry>, m: Mac, db: bv16)
    requires forall j :: 0 <= j < |es| ==> !HasKey(m, db)(es[j])
    ensures Lookup(es, m, db) == None
  {
  }

  /** A successful load of a key makes it the first entry with that key; other keys keep theirs. */
  lemma LoadLookup(st: Atu, e: AtuEntry, m: Mac, db: bv16)
    requires st.WellFormed() && Sorted(st.Entries())
    ensures Lookup(Add(st, e).0.Entries(), m, db) ==
      if HasKey(m, db)(e) && |st.chain| < |st.slots| then Some(e.data) else Lookup(st.Entries(), m, db)
  {
    var es, es' := st.Entries(), Add(st, e).0.Entries();
    AddRefinesList(st, e);
    if Add(st, e).1 {
      var k: nat :| IsPlaceOf(es, k, e.mac) && es' == Placed(es, k, e);
      PlacedLookup(es, k, e, m, db);
    }
  }

  lemma PlacedLookup(es: seq<AtuEntry>, k: nat, e: AtuEntry, m: Mac, db: bv16)
    requires IsPlaceOf(es, k, e.mac)
    ensures Lookup(Placed(es, k, e), m, db) == if HasKey(m, db)(e) then Some(e.data) else Lookup(es, m, db)
  {
    hide Num, First;
    var es' := Placed(es, k, e);
    if HasKey(m, db)(e) {
      LookupIs(es', m, db, k);
    } else {
      var i := First(es, HasKey(m, db));
      var grown := |es'| > |es|;
      if i < |es| {
        LookupIs(es', m, db, if grown && k <= i then i + 1 else i);
      } else {
        forall j | 0 <= j < |es'| ensures !HasKey(m, db)(es'[j]) {
          assert es'[j] == if j == k then e else if grown && k < j then es[j - 1] else es[j];
        }
        LookupNone(es', m, db);
      }
    }
  }

  lemma WithoutLookup(es: seq<AtuEntry>, k: nat, m: Mac, db: bv16)
    requires k < |es| && !HasKey(m, db)(es[k])
    ensures Lookup(Without(es, k), m, db) == Lookup(es, m, db)
  {
    var i := First(es, HasKey(m, db));
    if i < |es| {
      LookupIs(Without(es, k), m, db, if k < i then i - 1 else i);
    } else {
      LookupNone(Without(es, k), m, db);
    }
  }

  lemma DelLookup(st: Atu, m': Mac, db': bv16, m: Mac, db: bv16)
    requires st.WellFormed() && !(m' == m && db' == db)
    ensures Lookup(Del(st, m', db').0.Entries(), m, db) == Lookup(st.Entries(), m, db)
  {
    var k := First(st.Entries(), HasKey(m', db'));
    if k < |st.chain| {
      RemoveEntries(st, k);
      WithoutLookup(st.Entries(), k, m, db);
    }
  }

  lemma {:induction false} FlushDbLookup(st: Atu, i: nat, d: bv16, m: Mac, db: bv16)
    requires st.WellFormed() && d != db
    ensures Lookup(FlushDb(st, i, d).Entries(), m, db) == Lookup(st.Entries(), m, db)
    decreases |st.slots| - i
  {
    if i < |st.slots| {
      if st.slots[i].db == d {
        DelLookup(st, st.slots[i].mac, d, m, db);
      }
      FlushDbLookup(VisitDb(st, i, d), i + 1, d, m, db);
    }
  }

  lemma {:induction false} FlushWhereLookup(st: Atu, i: nat, d: bv16, m: Mac, db: bv16)
    requires st.WellFormed() && d != db
    ensures Lookup(FlushWhere(st, i, UnlockedInDb(d)).Entries(), m, db) == Lookup(st.Entries(), m, db)
    decreases |st.slots| - i
  {
    if i < |st.slots| {
      if UnlockedInDb(d)(st.slots[i]) && i in st.chain {
        DelLookup(st, st.slots[i].mac, d, m, db);
      }
      FlushWhereLookup(VisitWhere(st, i, UnlockedInDb(d)), i + 1, d, m, db);
    }
  }

  lemma FlushedLookup(st: Atu, m: Mac, db: bv16)
    requires st.WellFormed()
    ensures Lookup(FlushDb(st, 0, db).Entries(), m, db) == None
  {
    var es := FlushDb(st, 0, db).Entries();
    FlushDbExact(st, db);
    FilterMembers(st.Entries(), Not(InDb(db)));
    assert forall j :: 0 <= j < |es| ==> es[j] in es;
  }

  /**
   Commands that may delete some entries with the key and bring an older one to the front; those that
   surely delete all of them are not among these.
   */
  predicate MayDelete(c: AtuCmd, m: Mac, db: bv16) {
    match c
    case FlushUnlocked => true
    case Purge(m', db') => m' == m && db' == db
    case FlushUnlockedInDb(d) => d == db
    case _ => false
  }

  /** Commands that leave no entry of the database. */
  predicate Empties(c: AtuCmd, db: bv16) {
    c.FlushAll? || c == FlushInDb(db)
  }

  /**
   The data of the last load of the key that found room, unless a flush of everything or of its database
   came after; what the table held at the start if there was neither.
   */
  ghost function LastLoaded(st: Atu, cs: seq<AtuCmd>, m: Mac, db: bv16): Option<bv16>
    requires st.WellFormed()
  {
    if cs == [] then Lookup(st.Entries(), m, db)
    else
      var before, c := cs[..|cs| - 1], cs[|cs| - 1];
      if Empties(c, db) then None
      else if c.Load? && HasKey(m, db)(c.entry) && |ApplyAll(st, before).chain| < |st.slots| then Some(c.entry.data)
      else LastLoaded(st, before, m, db)
  }

  lemma {:induction false} ApplyAllSorted(st: Atu, cs: seq<AtuCmd>)
    requires st.WellFormed() && Sorted(st.Entries())
    ensures Sorted(ApplyAll(st, cs).Entries())
  {
    if cs != [] {
      ApplyAllSorted(st, cs[..|cs| - 1]);
      ApplyKeepsSorted(ApplyAll(st, cs[..|cs| - 1]), cs[|cs| - 1]);
    }
  }

  lemma ApplyLookup(st: Atu, c: AtuCmd, m: Mac, db: bv16)
    requires st.WellFormed() && Sorted(st.Entries()) && !MayDelete(c, m, db)
    ensures Lookup(Apply(st, c).0.Entries(), m, db) ==
      if Empties(c, db) then None
      else if c.Load? && HasKey(m, db)(c.entry) && |st.chain| < |st.slots| then Some(c.entry.data)
      else Lookup(st.Entries(), m, db)
  {
    match c
    case Load(e) => LoadLookup(st, e, m, db);
    case Purge(m', db') => DelLookup(st, m', db', m, db);
    case FlushAll =>
    case FlushInDb(d) =>
      if d == db {
        FlushedLookup(st, m, db);
      } else {
        FlushDbLookup(st, 0, d, m, db);
      }
    case FlushUnlockedInDb(d) => FlushWhereLookup(st, 0, d, m, db);
  }

  /**
   Over any run without a purge or unlocked flush of a key, the first entry with the key carries the data
   of its last successful load since the last full flush, whatever older duplicates lie behind it.
   */
  lemma {:induction false} LastLoadWins(st: Atu, cs: seq<AtuCmd>, m: Mac, db: bv16)
    requires st.WellFormed() && Sorted(st.Entries())
    requires forall i :: 0 <= i < |cs| ==> !MayDelete(cs[i], m, db)
    ensures Lookup(ApplyAll(st, cs).Entries(), m, db) == LastLoaded(st, cs, m, db)
  {
    if cs != [] {
      var before := cs[..|cs| - 1];
      LastLoadWins(st, before, m, db);
      ApplyAllSorted(st, before);
      ApplyLookup(ApplyAll(st, before), cs[|cs| - 1], m, db);
    }
  }

  // ----- Duplicates

  /**
   An entry whose address is not above the first one's, and that differs from it in address or
   database, goes in front.
   */
  lemma AddInFront(st: Atu, e: AtuEntry, f: nat)
    requires st.WellFormed() && |st.chain| < |st.slots| && f == st.FirstFree(0) < |st.slots|
    requires st.chain != [] ==>
      Num(st.slots[st.chain[0]].mac) >= Num(e.mac) && !HasKey(e.mac, e.db)(st.slots[st.chain[0]])
    ensures Add(st, e) == (SlotState([f] + st.chain, st.slots[f := e]), true)
  {
    assert st.chain != [] ==> AtLeast(e.mac)(st.Entries()[0]);
    assert First(st.Entries(), AtLeast(e.mac)) == 0;
    assert st.chain[..0] + [f] + st.chain[0..] == [f] + st.chain;
  }

  lemma ApplyLast(st: Atu, cs: seq<AtuCmd>, c: AtuCmd)
    requires st.WellFormed()
    ensures ApplyAll(st, cs + [c]) == Apply(ApplyAll(st, cs), c).0
  {
    assert (cs + [c])[..|cs|] == cs;
  }

  /** The three loads that leave two entries under one key: an address loaded for database 1, then 2, then 1 again. */
  function Alternating(m: Mac): seq<AtuCmd> {
    [Load(AtuEntry(1, 1, m)), Load(AtuEntry(1, 2, m)), Load(AtuEntry(1, 1, m))]
  }

  lemma AlternatingAdds(m: Mac)
    ensures var st1 := Add(Cleared(0x800), AtuEntry(1, 1, m)).0;
      var st2 := Add(st1, AtuEntry(1, 2, m)).0;
      var st3 := Add(st2, AtuEntry(1, 1, m)).0;
      && st3.chain == [2, 1, 0] && |st3.slots| == 0x800
      && st3.slots[..3] == [AtuEntry(1, 1, m), AtuEntry(1, 2, m), AtuEntry(1, 1, m)]
  {
    hide Num, Add, First;
    var st0 := Cleared(0x800);
    var st1 := Add(st0, AtuEntry(1, 1, m)).0;
    AddInFront(st0, AtuEntry(1, 1, m), 0);
    assert st1.FirstFree(0) == st1.FirstFree(1) == 1;
    var st2 := Add(st1, AtuEntry(1, 2, m)).0;
    AddInFront(st1, AtuEntry(1, 2, m), 1);
    assert st2.FirstFree(0) == st2.FirstFree(1) == st2.FirstFree(2) == 2;
    AddInFront(st2, AtuEntry(1, 1, m), 2);
  }

  lemma AlternatingState(m: Mac)
    ensures var st := ApplyAll(Cleared(0x800), Alternating(m));
      && st.chain == [2, 1, 0]
      && st.slots[..3] == [AtuEntry(1, 1, m), AtuEntry(1, 2, m), AtuEntry(1, 1, m)]
  {
    hide Add;
    AlternatingAdds(m);
    var cs, st0 := Alternating(m), Cleared(0x800);
    ApplyLast(st0, [], cs[0]);
    ApplyLast(st0, [] + [cs[0]], cs[1]);
    ApplyLast(st0, [] + [cs[0]] + [cs[1]], cs[2]);
    assert [] + [cs[0]] + [cs[1]] + [cs[2]] == cs;
  }

  /**
   In that reachable state keys are not unique and flushing the unlocked entries leaves some behind,
   for any unicast address.
   */
  lemma DuplicateSurvivesFlush(m: Mac)
    requires m[0] & 1 == 0
    ensures var st := ApplyAll(Cleared(0x800), Alternating(m));
      && !UniqueKeys(st.Entries())
      && Filter(st.Entries(), Not(Unlocked())) == []
      && Apply(st, FlushUnlocked).0.Entries() != []
  {
    hide ApplyAll, FlushWhere, Unlocked, Filter;
    AlternatingState(m);
    var st := ApplyAll(Cleared(0x800), Alternating(m));
    var es := st.Entries();
    assert st.slots[..3][0] == st.slots[0] == es[2];
    assert st.slots[..3][1] == st.slots[1] == es[1];
    assert st.slots[..3][2] == st.slots[2] == es[0];
    assert HasKey(es[0].mac, es[0].db)(es[2]);
    UnlockedState(es[0]);
    UnlockedState(es[1]);
    assert Clash(st, Unlocked(), 0, 2);
    FlushWhereExactIff(st, Unlocked());
    FilterKeepsNone(es, Not(Unlocked()));
  }

  lemma UnlockedState(e: AtuEntry)
    requires e.data == 1 && e.mac[0] & 1 == 0
    ensures Unlocked()(e)
  {
  }
}
