/** When the address table keeps its keys unique: exactly when every load meets a guard on the list it finds. */
module AtuKeys {
  import opened Sequences
  import opened SlotSpec
  import opened MacAddress
  import opened AtuSpec
  import opened AtuFlush
  import opened AtuRuns

  /**
   A load that finds room leaves no duplicate if its key is absent or is that of the first entry with its
   address or a larger one, the only entry the load looks at.
   */
  ghost predicate LoadGuard(st: Atu, e: AtuEntry)
    requires st.WellFormed()
  {
    var es := st.Entries();
    var i := First(es, HasKey(e.mac, e.db));
    |st.chain| == |st.slots| || i == |es| || i == First(es, AtLeast(e.mac))
  }

  predicate Absent(es: seq<AtuEntry>, e: AtuEntry) {
    forall j :: 0 <= j < |es| ==> !HasKey(e.mac, e.db)(es[j])
  }

  lemma OverwrittenUnique(es: seq<AtuEntry>, k: nat, e: AtuEntry)
    requires UniqueKeys(es) && k < |es| && HasKey(e.mac, e.db)(es[k])
    ensures UniqueKeys(es[k := e])
  {
  }

  lemma InsertedUnique(es: seq<AtuEntry>, k: nat, e: AtuEntry)
    requires UniqueKeys(es) && k <= |es| && Absent(es, e)
    ensures UniqueKeys(es[..k] + [e] + es[k..])
  {
    var es' := es[..k] + [e] + es[k..];
    forall i, j | 0 <= i < j < |es'| ensures !HasKey(es'[i].mac, es'[i].db)(es'[j]) {
      assert es'[i] == if i < k then es[i] else if i == k then e else es[i - 1];
      assert es'[j] == if j < k then es[j] else if j == k then e else es[j - 1];
    }
  }

  lemma InsertedTwice(es: seq<AtuEntry>, k: nat, e: AtuEntry)
    requires k <= |es| && !Absent(es, e)
    ensures !UniqueKeys(es[..k] + [e] + es[k..])
  {
    var es' := es[..k] + [e] + es[k..];
    var j :| 0 <= j < |es| && HasKey(e.mac, e.db)(es[j]);
    if j < k {
      assert HasKey(es'[j].mac, es'[j].db)(es'[k]);
    } else {
      assert es'[j + 1] == es[j];
      assert HasKey(es'[k].mac, es'[k].db)(es'[j + 1]);
    }
  }

  /** Placing an entry keeps keys unique exactly when it overwrites its key or the key is absent. */
  lemma PlacedUniqueIff(es: seq<AtuEntry>, k: nat, e: AtuEntry)
    requires UniqueKeys(es) && k <= |es|
    ensures UniqueKeys(Placed(es, k, e)) <==> (k < |es| && HasKey(e.mac, e.db)(es[k])) || Absent(es, e)
  {
    hide UniqueKeys, Absent;
    if k < |es| && HasKey(e.mac, e.db)(es[k]) {
      OverwrittenUnique(es, k, e);
    } else if Absent(es, e) {
      InsertedUnique(es, k, e);
    } else {
      InsertedTwice(es, k, e);
    }
  }

  lemma PlaceIsUnique(es: seq<AtuEntry>, k: nat, m: Mac)
    requires IsPlaceOf(es, k, m)
    ensures First(es, AtLeast(m)) == k
  {
    hide Num;
    var f := First(es, AtLeast(m));
    assert k < |es| ==> AtLeast(m)(es[k]);
  }

  /** At the place of an address stands the first entry with a key of that address exactly when it has that key. */
  lemma KeyAtPlace(es: seq<AtuEntry>, k: nat, e: AtuEntry)
    requires IsPlaceOf(es, k, e.mac)
    ensures var i := First(es, HasKey(e.mac, e.db));
      && (i == |es| <==> Absent(es, e))
      && (k < |es| && HasKey(e.mac, e.db)(es[k]) <==> i < |es| && i == k)
  {
    hide Num;
  }

  /** A load keeps keys unique if and only if it meets the guard. */
  lemma AddKeepsUniqueIff(st: Atu, e: AtuEntry)
    requires st.WellFormed() && Sorted(st.Entries()) && UniqueKeys(st.Entries())
    ensures UniqueKeys(Add(st, e).0.Entries()) <==> LoadGuard(st, e)
  {
    hide Add, UniqueKeys, First, Absent, Sorted, Num;
    var es := st.Entries();
    AddRefinesList(st, e);
    FreeSlotExists(st);
    if Add(st, e).1 {
      var k: nat :| IsPlaceOf(es, k, e.mac) && Add(st, e).0.Entries() == Placed(es, k, e);
      PlacedUniqueIff(es, k, e);
      PlaceIsUnique(es, k, e.mac);
      KeyAtPlace(es, k, e);
    }
  }

  // ----- The other commands only remove

  lemma WithoutKeepsUnique(es: seq<AtuEntry>, k: nat)
    requires k < |es| && UniqueKeys(es)
    ensures UniqueKeys(Without(es, k))
  {
  }

  lemma DelKeepsUnique(st: Atu, m: Mac, db: bv16)
    requires st.WellFormed() && UniqueKeys(st.Entries())
    ensures UniqueKeys(Del(st, m, db).0.Entries())
  {
    hide UniqueKeys;
    var k := First(st.Entries(), HasKey(m, db));
    if k < |st.chain| {
      RemoveEntries(st, k);
      WithoutKeepsUnique(st.Entries(), k);
    }
  }

  lemma {:induction false} FlushWhereKeepsUnique(st: Atu, i: nat, p: AtuEntry -> bool)
    requires st.WellFormed() && UniqueKeys(st.Entries())
    ensures UniqueKeys(FlushWhere(st, i, p).Entries())
    decreases |st.slots| - i
  {
    hide Del, UniqueKeys;
    if i < |st.slots| {
      DelKeepsUnique(st, st.slots[i].mac, st.slots[i].db);
      FlushWhereKeepsUnique(VisitWhere(st, i, p), i + 1, p);
    }
  }

  lemma {:induction false} FlushDbKeepsUnique(st: Atu, i: nat, d: bv16)
    requires st.WellFormed() && UniqueKeys(st.Entries())
    ensures UniqueKeys(FlushDb(st, i, d).Entries())
    decreases |st.slots| - i
  {
    hide Del, UniqueKeys;
    if i < |st.slots| {
      DelKeepsUnique(st, st.slots[i].mac, st.slots[i].db);
      FlushDbKeepsUnique(VisitDb(st, i, d), i + 1, d);
    }
  }

  ghost predicate Guarded(st: Atu, c: AtuCmd)
    requires st.WellFormed()
  {
    c.Load? ==> LoadGuard(st, c.entry)
  }

  /** A command keeps keys unique unless it is a load that fails the guard. */
  lemma ApplyKeepsUniqueIff(st: Atu, c: AtuCmd)
    requires st.WellFormed() && Sorted(st.Entries()) && UniqueKeys(st.Entries())
    ensures UniqueKeys(Apply(st, c).0.Entries()) <==> Guarded(st, c)
  {
    hide LoadGuard;
    match c
    case FlushAll =>
    case FlushUnlocked => FlushWhereKeepsUnique(st, 0, Unlocked());
    case Load(e) => AddKeepsUniqueIff(st, e);
    case Purge(m, db) => DelKeepsUnique(st, m, db);
    case FlushInDb(d) => FlushDbKeepsUnique(st, 0, d);
    case FlushUnlockedInDb(d) => FlushWhereKeepsUnique(st, 0, UnlockedInDb(d));
  }

  // ----- Runs

  /** Keys are unique in every state a run passes through. */
  ghost predicate AlwaysUnique(st: Atu, cs: seq<AtuCmd>)
    requires st.WellFormed()
  {
    forall k :: 0 <= k <= |cs| ==> UniqueAfter(st, cs[..k])
  }

  ghost predicate UniqueAfter(st: Atu, cs: seq<AtuCmd>)
    requires st.WellFormed()
  {
    UniqueKeys(ApplyAll(st, cs).Entries())
  }

  /** Every load of a run meets the guard in the state that it finds. */
  ghost predicate AlwaysGuarded(st: Atu, cs: seq<AtuCmd>)
    requires st.WellFormed()
  {
    forall k :: 0 <= k < |cs| ==> GuardedAfter(st, cs[..k], cs[k])
  }

  ghost predicate GuardedAfter(st: Atu, before: seq<AtuCmd>, c: AtuCmd)
    requires st.WellFormed()
  {
    Guarded(ApplyAll(st, before), c)
  }

  /** A run keeps keys unique throughout if and only if each of its loads meets the guard. */
  lemma {:induction false} RunUniqueIff(st: Atu, cs: seq<AtuCmd>)
    requires st.WellFormed() && Sorted(st.Entries()) && UniqueKeys(st.Entries())
    ensures AlwaysUnique(st, cs) <==> AlwaysGuarded(st, cs)
  {
    hide UniqueKeys, Guarded, Sorted, Apply;
    if cs == [] {
      assert forall k :: 0 <= k <= |cs| ==> ApplyAll(st, cs[..k]) == st;
    } else {
      var n := |cs| - 1;
      var before := cs[..n];
      RunUniqueIff(st, before);
      ApplyAllSorted(st, before);
      assert cs[..n + 1] == cs;
      assert forall k :: 0 <= k <= n ==> cs[..k] == before[..k];
      if UniqueKeys(ApplyAll(st, before).Entries()) {
        ApplyKeepsUniqueIff(ApplyAll(st, before), cs[n]);
      }
      PrefixUnique(st, cs, n);
      PrefixGuarded(st, cs, n);
    }
  }

  lemma PrefixUnique(st: Atu, cs: seq<AtuCmd>, n: nat)
    requires st.WellFormed() && |cs| == n + 1
    ensures AlwaysUnique(st, cs) <==> AlwaysUnique(st, cs[..n]) && UniqueAfter(st, cs)
    ensures AlwaysUnique(st, cs[..n]) ==> UniqueAfter(st, cs[..n])
  {
    hide UniqueAfter;
    assert cs[..n + 1] == cs && cs[..n][..n] == cs[..n];
    assert forall k :: 0 <= k <= n ==> cs[..k] == cs[..n][..k];
  }

  lemma PrefixGuarded(st: Atu, cs: seq<AtuCmd>, n: nat)
    requires st.WellFormed() && |cs| == n + 1
    ensures AlwaysGuarded(st, cs) <==> AlwaysGuarded(st, cs[..n]) && GuardedAfter(st, cs[..n], cs[n])
  {
    hide GuardedAfter;
    assert forall k :: 0 <= k <= n ==> cs[..k] == cs[..n][..k];
  }
}
