/** The address translation unit as operations on values: what each table function does to the slots. */
module AtuSpec {
  import opened Sequences
  import opened SlotSpec
  import opened MacAddress

  datatype AtuEntry = AtuEntry(data: bv16, db: bv16, mac: Mac)

  const EMPTY_ENTRY := AtuEntry(0, 0, [0, 0, 0, 0, 0, 0])

  type Atu = SlotState<AtuEntry>

  function AtLeast(m: Mac): AtuEntry -> bool {
    (e: AtuEntry) => Num(e.mac) >= Num(m)
  }

  function HasKey(m: Mac, db: bv16): AtuEntry -> bool {
    (e: AtuEntry) => e.mac == m && e.db == db
  }

  /** What Get-Next looks for: the broadcast address asks for the first entry of the database. */
  function Follows(m: Mac, db: bv16): AtuEntry -> bool {
    (e: AtuEntry) => (m == BROADCAST || Num(e.mac) > Num(m)) && e.db == db
  }

  function InDb(d: bv16): AtuEntry -> bool {
    (e: AtuEntry) => e.db == d
  }

  /** Neither locked (state 0xF) nor multicast. */
  function Unlocked(): AtuEntry -> bool {
    (e: AtuEntry) => e.data & 0xF != 0xF && e.mac[0] & 1 == 0
  }

  function UnlockedInDb(d: bv16): AtuEntry -> bool {
    (e: AtuEntry) => e.db == d && Unlocked()(e)
  }

  function Not(p: AtuEntry -> bool): AtuEntry -> bool {
    (e: AtuEntry) => !p(e)
  }

  ghost predicate Sorted(es: seq<AtuEntry>) {
    forall i, j :: 0 <= i < j < |es| ==> Num(es[i].mac) <= Num(es[j].mac)
  }

  ghost predicate StrictlySorted(es: seq<AtuEntry>) {
    forall i, j :: 0 <= i < j < |es| ==> Num(es[i].mac) < Num(es[j].mac)
  }

  ghost predicate UniqueKeys(es: seq<AtuEntry>) {
    forall i, j :: 0 <= i < j < |es| ==> !HasKey(es[i].mac, es[i].db)(es[j])
  }

  ghost function Cleared(n: nat): Atu {
    SlotState([], seq(n, _ => EMPTY_ENTRY))
  }

  /** The capacity test and the search for a free slot come first, so a full table refuses even an overwrite. */
  ghost function Add(st: Atu, e: AtuEntry): (r: (Atu, bool))
    requires st.WellFormed()
    ensures r.0.WellFormed() && |r.0.slots| == |st.slots|
  {
    var es, f := st.Entries(), st.FirstFree(0);
    var k := First(es, AtLeast(e.mac));
    if |st.chain| >= |st.slots| || f == |st.slots| then
      (st, false)
    else if k < |es| && HasKey(e.mac, e.db)(es[k]) then
      OverwriteEntries(st, k, es[k].(data := e.data));
      (st.OverwriteAt(k, es[k].(data := e.data)), true)
    else
      InsertEntries(st, k, f, e);
      (st.InsertAt(k, f, e), true)
  }

  ghost function Del(st: Atu, m: Mac, db: bv16): (r: (Atu, bool))
    requires st.WellFormed()
    ensures r.0.WellFormed() && r.0.slots == st.slots
  {
    var k := First(st.Entries(), HasKey(m, db));
    if k == |st.chain| then (st, false)
    else
      RemoveEntries(st, k);
      (st.RemoveAt(k), true)
  }

  /** One visit of an unlocked flush: if slot i is linked and satisfies p, the first entry with its key goes. */
  ghost function VisitWhere(st: Atu, i: nat, p: AtuEntry -> bool): (r: Atu)
    requires st.WellFormed() && i < |st.slots|
    ensures r.WellFormed() && r.slots == st.slots
  {
    if p(st.slots[i]) && i in st.chain then Del(st, st.slots[i].mac, st.slots[i].db).0 else st
  }

  ghost function FlushWhere(st: Atu, i: nat, p: AtuEntry -> bool): (r: Atu)
    requires st.WellFormed()
    ensures r.WellFormed() && r.slots == st.slots
    decreases |st.slots| - i
  {
    if i >= |st.slots| then st else FlushWhere(VisitWhere(st, i, p), i + 1, p)
  }

  lemma VisitInDb(st: Atu, i: nat, d: bv16)
    requires st.WellFormed() && i < |st.slots|
    ensures VisitWhere(st, i, UnlockedInDb(d)) == if st.slots[i].db == d then VisitWhere(st, i, Unlocked()) else st
  {
  }

  /**
   One visit of a database flush: if slot i, linked or free, is of database d, the first entry with its
   key goes.
   */
  ghost function VisitDb(st: Atu, i: nat, d: bv16): (r: Atu)
    requires st.WellFormed() && i < |st.slots|
    ensures r.WellFormed() && r.slots == st.slots
  {
    if st.slots[i].db == d then Del(st, st.slots[i].mac, st.slots[i].db).0 else st
  }

  ghost function FlushDb(st: Atu, i: nat, d: bv16): (r: Atu)
    requires st.WellFormed()
    ensures r.WellFormed() && r.slots == st.slots
    decreases |st.slots| - i
  {
    if i >= |st.slots| then st else FlushDb(VisitDb(st, i, d), i + 1, d)
  }

  /** k separates the entries with a smaller address from the rest. */
  ghost predicate IsPlaceOf(es: seq<AtuEntry>, k: nat, m: Mac) {
    && k <= |es|
    && (forall j :: 0 <= j < k ==> Num(es[j].mac) < Num(m))
    && (forall j :: k <= j < |es| ==> Num(m) <= Num(es[j].mac))
  }

  /** The entry takes over the one at k if that has the same address and database, else goes in before it. */
  function Placed(es: seq<AtuEntry>, k: nat, e: AtuEntry): seq<AtuEntry>
    requires k <= |es|
  {
    if k < |es| && es[k].mac == e.mac && es[k].db == e.db then es[k := e] else es[..k] + [e] + es[k..]
  }

  lemma InsertKeepsSorted(es: seq<AtuEntry>, k: nat, e: AtuEntry)
    requires Sorted(es) && IsPlaceOf(es, k, e.mac)
    ensures Sorted(es[..k] + [e] + es[k..])
  {
  }

  lemma PlaceIsFirst(es: seq<AtuEntry>, m: Mac)
    requires Sorted(es)
    ensures IsPlaceOf(es, First(es, AtLeast(m)), m)
  {
  }

  /** Add on the list an observer sees: refused exactly when full, otherwise one update or one insertion. */
  lemma AddRefinesList(st: Atu, e: AtuEntry)
    requires st.WellFormed() && Sorted(st.Entries())
    ensures var es, (st', ok) := st.Entries(), Add(st, e);
      && (ok <==> |es| < |st.slots|)
      && (!ok ==> st' == st)
      && (ok ==> exists k: nat :: IsPlaceOf(es, k, e.mac) && st'.Entries() == Placed(es, k, e))
      && Sorted(st'.Entries())
  {
    hide Num, First;
    var es := st.Entries();
    var k := First(es, AtLeast(e.mac));
    PlaceIsFirst(es, e.mac);
    FreeSlotExists(st);
    if Add(st, e).1 {
      assert IsPlaceOf(es, k, e.mac);
      if k < |es| && HasKey(e.mac, e.db)(es[k]) {
        OverwriteEntries(st, k, es[k].(data := e.data));
      } else {
        InsertEntries(st, k, st.FirstFree(0), e);
        InsertKeepsSorted(es, k, e);
      }
    }
  }

  /** Del on the list: refused exactly when the key is absent, otherwise only the first match goes. */
  lemma DelRefinesList(st: Atu, m: Mac, db: bv16)
    requires st.WellFormed()
    ensures var es, es' := st.Entries(), Del(st, m, db).0.Entries();
      if exists e :: e in es && e.mac == m && e.db == db then
        && Del(st, m, db).1
        && exists k :: 0 <= k < |es| && es' == Without(es, k) && es[k].mac == m && es[k].db == db
             && forall j :: 0 <= j < k ==> !(es[j].mac == m && es[j].db == db)
      else
        !Del(st, m, db).1 && es' == es
  {
    var es := st.Entries();
    var k := First(es, HasKey(m, db));
    if k < |es| {
      RemoveEntries(st, k);
      assert es[k] in es;
    }
  }

  lemma WithoutKeepsOrder(es: seq<AtuEntry>, k: nat)
    requires k < |es|
    ensures Sorted(es) ==> Sorted(Without(es, k))
    ensures StrictlySorted(es) ==> StrictlySorted(Without(es, k))
  {
  }

  lemma DelKeepsOrder(st: Atu, m: Mac, db: bv16)
    requires st.WellFormed()
    ensures Sorted(st.Entries()) ==> Sorted(Del(st, m, db).0.Entries())
    ensures StrictlySorted(st.Entries()) ==> StrictlySorted(Del(st, m, db).0.Entries())
  {
    var k := First(st.Entries(), HasKey(m, db));
    if k < |st.chain| {
      RemoveEntries(st, k);
      WithoutKeepsOrder(st.Entries(), k);
    }
  }

  lemma {:induction false} FlushWhereKeepsOrder(st: Atu, i: nat, p: AtuEntry -> bool)
    requires st.WellFormed()
    ensures Sorted(st.Entries()) ==> Sorted(FlushWhere(st, i, p).Entries())
    ensures StrictlySorted(st.Entries()) ==> StrictlySorted(FlushWhere(st, i, p).Entries())
    decreases |st.slots| - i
  {
    hide Del, Num;
    if i < |st.slots| {
      DelKeepsOrder(st, st.slots[i].mac, st.slots[i].db);
      FlushWhereKeepsOrder(VisitWhere(st, i, p), i + 1, p);
    }
  }

  lemma {:induction false} FlushDbKeepsOrder(st: Atu, i: nat, d: bv16)
    requires st.WellFormed()
    ensures Sorted(st.Entries()) ==> Sorted(FlushDb(st, i, d).Entries())
    ensures StrictlySorted(st.Entries()) ==> StrictlySorted(FlushDb(st, i, d).Entries())
    decreases |st.slots| - i
  {
    hide Del, Num;
    if i < |st.slots| {
      DelKeepsOrder(st, st.slots[i].mac, st.slots[i].db);
      FlushDbKeepsOrder(VisitDb(st, i, d), i + 1, d);
    }
  }
}
