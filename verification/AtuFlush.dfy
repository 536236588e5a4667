/**
 What the scanning flushes do to the list, although they delete by key: the first entry with the
 scanned slot's key goes, which need not be the scanned slot.
 */
module AtuFlush {
  import opened Sequences
  import opened SlotSpec
  import opened MacAddress
  import opened AtuSpec

  // ----- Flush of one database: exact, duplicates or not

  /** The linked slots holding a key. */
  ghost function Holding(st: Atu, m: Mac, db: bv16): set<nat>
    requires st.WellFormed()
  {
    set x | x in st.chain && HasKey(m, db)(st.slots[x])
  }

  /** The slots holding a key, linked or free. */
  ghost function Copies(slots: seq<AtuEntry>, m: Mac, db: bv16): set<nat> {
    set x | x in Below(|slots|) && HasKey(m, db)(slots[x])
  }

  /** The members of s that a scan standing at slot i has still to visit. */
  ghost function From(s: set<nat>, i: nat): set<nat> {
    set x | x in s && i <= x
  }

  lemma FromNext(s: set<nat>, i: nat)
    ensures From(s, i + 1) == From(s, i) - {i}
  {
  }

  lemma DelHolding(st: Atu, m: Mac, db: bv16, m': Mac, db': bv16)
    requires st.WellFormed()
    ensures var h, h' := Holding(st, m', db'), Holding(Del(st, m, db).0, m', db');
      if m == m' && db == db' && h != {} then exists x :: x in h && h' == h - {x} else h' == h
  {
    var k := First(st.Entries(), HasKey(m, db));
    if k < |st.chain| {
      RemoveEntries(st, k);
      var h, h' := Holding(st, m', db'), Holding(Del(st, m, db).0, m', db');
      if m == m' && db == db' {
        assert st.chain[k] in h;
        assert h' == h - {st.chain[k]};
      } else {
        assert h' == h;
      }
    }
  }

  lemma VisitDbBound(st: Atu, i: nat, d: bv16, m: Mac)
    requires st.WellFormed() && i < |st.slots|
    requires |Holding(st, m, d)| <= |From(Copies(st.slots, m, d), i)|
    ensures |Holding(VisitDb(st, i, d), m, d)| <= |From(Copies(st.slots, m, d), i + 1)|
  {
    FromNext(Copies(st.slots, m, d), i);
    DelHolding(st, st.slots[i].mac, d, m, d);
  }

  /** The counting argument: a key is visited at least as often as it is linked, so no copy survives. */
  lemma {:induction false} FlushDbEmpties(st: Atu, i: nat, d: bv16, m: Mac)
    requires st.WellFormed() && |Holding(st, m, d)| <= |From(Copies(st.slots, m, d), i)|
    ensures Holding(FlushDb(st, i, d), m, d) == {}
    decreases |st.slots| - i
  {
    if i >= |st.slots| {
      assert From(Copies(st.slots, m, d), i) == {};
    } else {
      VisitDbBound(st, i, d, m);
      FlushDbEmpties(VisitDb(st, i, d), i + 1, d, m);
    }
  }

  lemma DelFilter(st: Atu, m: Mac, db: bv16, q: AtuEntry -> bool)
    requires st.WellFormed()
    requires forall e :: HasKey(m, db)(e) ==> !q(e)
    ensures Filter(Del(st, m, db).0.Entries(), q) == Filter(st.Entries(), q)
  {
    var k := First(st.Entries(), HasKey(m, db));
    if k < |st.chain| {
      RemoveEntries(st, k);
      FilterWithout(st.Entries(), k, q);
    }
  }

  lemma {:induction false} FlushDbKeepsOthers(st: Atu, i: nat, d: bv16)
    requires st.WellFormed()
    ensures Filter(FlushDb(st, i, d).Entries(), Not(InDb(d))) == Filter(st.Entries(), Not(InDb(d)))
    decreases |st.slots| - i
  {
    if i < |st.slots| {
      if st.slots[i].db == d {
        DelFilter(st, st.slots[i].mac, d, Not(InDb(d)));
      }
      FlushDbKeepsOthers(VisitDb(st, i, d), i + 1, d);
    }
  }

  /** Flushing database d removes every entry of d, keeps all others and their order, for any list whatever. */
  lemma FlushDbExact(st: Atu, d: bv16)
    requires st.WellFormed()
    ensures FlushDb(st, 0, d).Entries() == Filter(st.Entries(), Not(InDb(d)))
  {
    var r := FlushDb(st, 0, d);
    FlushDbKeepsOthers(st, 0, d);
    forall e | e in r.Entries() ensures Not(InDb(d))(e) {
      if e.db == d {
        FlushDbRemoves(st, e.mac, d);
      }
    }
    FilterKeepsAll(r.Entries(), Not(InDb(d)));
  }

  lemma FlushDbRemoves(st: Atu, m: Mac, d: bv16)
    requires st.WellFormed()
    ensures forall x :: x in FlushDb(st, 0, d).chain ==> !HasKey(m, d)(st.slots[x])
  {
    SubsetSize(Holding(st, m, d), From(Copies(st.slots, m, d), 0));
    FlushDbEmpties(st, 0, d, m);
    var r := FlushDb(st, 0, d);
    forall x | x in r.chain ensures !HasKey(m, d)(st.slots[x]) {
      assert x !in Holding(r, m, d);
    }
  }

  lemma {:induction false} SubsetSize(a: set<nat>, b: set<nat>)
    requires a <= b
    ensures |a| <= |b|
  {
    if a != {} {
      var x :| x in a;
      SubsetSize(a - {x}, b - {x});
    }
  }

  // ----- Flush of the unlocked entries: exact under a condition on duplicates

  /**
   Whenever two linked slots hold the same key and the later one in the list is to be flushed, the
   earlier one is to be flushed as well and is scanned first. Unique keys make this trivially true.
   */
  ghost predicate FlushSafe(st: Atu, p: AtuEntry -> bool)
    requires st.WellFormed()
  {
    forall a, b :: 0 <= a < b < |st.chain| ==> !Clash(st, p, a, b)
  }

  ghost predicate Clash(st: Atu, p: AtuEntry -> bool, a: nat, b: nat)
    requires st.WellFormed() && a < |st.chain| && b < |st.chain|
  {
    var x, y := st.chain[a], st.chain[b];
    && st.slots[x].mac == st.slots[y].mac && st.slots[x].db == st.slots[y].db
    && p(st.slots[y]) && !(p(st.slots[x]) && x < y)
  }

  ghost predicate Scanned(st: Atu, i: nat, p: AtuEntry -> bool)
    requires st.WellFormed()
  {
    forall x :: x in st.chain && x < i ==> !p(st.slots[x])
  }

  /** The slot whose entry goes when the linked slot i is flushed: the first in the list with its key. */
  lemma Victim(st: Atu, i: nat) returns (k: nat)
    requires st.WellFormed() && i in st.chain
    ensures k < |st.chain| && HasKey(st.slots[i].mac, st.slots[i].db)(st.slots[st.chain[k]])
    ensures forall j :: 0 <= j < k ==> !HasKey(st.slots[i].mac, st.slots[i].db)(st.slots[st.chain[j]])
    ensures Del(st, st.slots[i].mac, st.slots[i].db).0 == st.RemoveAt(k)
    ensures st.RemoveAt(k).WellFormed()
    ensures forall x :: x in st.RemoveAt(k).chain <==> x in st.chain && x != st.chain[k]
  {
    k := First(st.Entries(), HasKey(st.slots[i].mac, st.slots[i].db));
    var c :| 0 <= c < |st.chain| && st.chain[c] == i;
    assert HasKey(st.slots[i].mac, st.slots[i].db)(st.Entries()[c]);
    RemoveEntries(st, k);
  }

  lemma RemoveKeepsSafe(st: Atu, k: nat, p: AtuEntry -> bool)
    requires st.WellFormed() && k < |st.chain| && FlushSafe(st, p) && st.RemoveAt(k).WellFormed()
    ensures FlushSafe(st.RemoveAt(k), p)
  {
    var st' := st.RemoveAt(k);
    forall a, b | 0 <= a < b < |st'.chain| ensures !Clash(st', p, a, b) {
      assert !Clash(st, p, if a < k then a else a + 1, if b < k then b else b + 1);
    }
  }

  lemma SafeVisit(st: Atu, i: nat, p: AtuEntry -> bool) returns (st': Atu)
    requires st.WellFormed() && FlushSafe(st, p) && Scanned(st, i, p) && i < |st.slots|
    ensures st' == VisitWhere(st, i, p) && st'.WellFormed() && st'.slots == st.slots
    ensures FlushSafe(st', p) && Scanned(st', i + 1, p)
    ensures Filter(st'.Entries(), Not(p)) == Filter(st.Entries(), Not(p))
  {
    st' := VisitWhere(st, i, p);
    if p(st.slots[i]) && i in st.chain {
      var k := Victim(st, i);
      var c :| 0 <= c < |st.chain| && st.chain[c] == i;
      assert k < c ==> !Clash(st, p, k, c);
      RemoveEntries(st, k);
      FilterWithout(st.Entries(), k, Not(p));
      RemoveKeepsSafe(st, k, p);
    }
  }

  lemma {:induction false} SafeFlushEmpties(st: Atu, i: nat, p: AtuEntry -> bool)
    requires st.WellFormed() && FlushSafe(st, p) && Scanned(st, i, p)
    ensures Scanned(FlushWhere(st, i, p), |st.slots|, p)
    decreases |st.slots| - i
  {
    if i < |st.slots| {
      var st' := SafeVisit(st, i, p);
      SafeFlushEmpties(st', i + 1, p);
    }
  }

  lemma {:induction false} SafeFlushKeepsOthers(st: Atu, i: nat, p: AtuEntry -> bool)
    requires st.WellFormed() && FlushSafe(st, p) && Scanned(st, i, p)
    ensures Filter(FlushWhere(st, i, p).Entries(), Not(p)) == Filter(st.Entries(), Not(p))
    decreases |st.slots| - i
  {
    if i < |st.slots| {
      var st' := SafeVisit(st, i, p);
      SafeFlushKeepsOthers(st', i + 1, p);
    }
  }

  /** The linked slots to be flushed that hold a key. */
  ghost function Doomed(st: Atu, p: AtuEntry -> bool, m: Mac, db: bv16): set<nat>
    requires st.WellFormed()
  {
    set x | x in st.chain && HasKey(m, db)(st.slots[x]) && p(st.slots[x])
  }

  lemma VisitKeepsSurplus(st: Atu, i: nat, p: AtuEntry -> bool, m: Mac, db: bv16)
    requires st.WellFormed() && i < |st.slots| && |From(Doomed(st, p, m, db), i)| < |Doomed(st, p, m, db)|
    ensures var u := Doomed(VisitWhere(st, i, p), p, m, db); |From(u, i + 1)| < |u|
  {
    hide Del, From, Distinct;
    var u := Doomed(st, p, m, db);
    if p(st.slots[i]) && i in st.chain {
      var k := Victim(st, i);
      var y := st.chain[k];
      assert Doomed(st.RemoveAt(k), p, m, db) == u - {y};
      assert i in u || y !in u;
      SurplusAfterRemoval(u, i, y);
    } else {
      FromNext(u, i);
      assert i !in u;
    }
  }

  lemma SurplusAfterRemoval(u: set<nat>, i: nat, y: nat)
    requires |From(u, i)| < |u| && (i in u || y !in u)
    ensures |From(u - {y}, i + 1)| < |u - {y}|
  {
    FromNext(u, i);
    var v := From(u, i);
    assert From(u - {y}, i + 1) == v - {i} - {y};
    SubsetSize(v - {i} - {y}, v - {i});
  }

  /** Once fewer slots are pending than doomed, each further visit deletes at most one of them: some survive. */
  lemma {:induction false} SurplusSurvives(st: Atu, i: nat, p: AtuEntry -> bool, m: Mac, db: bv16)
    requires st.WellFormed() && |From(Doomed(st, p, m, db), i)| < |Doomed(st, p, m, db)|
    ensures exists x :: x in FlushWhere(st, i, p).chain && p(st.slots[x])
    decreases |st.slots| - i
  {
    if i >= |st.slots| {
      var x :| x in Doomed(st, p, m, db);
    } else {
      VisitKeepsSurplus(st, i, p, m, db);
      SurplusSurvives(VisitWhere(st, i, p), i + 1, p, m, db);
    }
  }

  /** Visit i gets another slot deleted in place of slot i, which is left behind with no visit to come. */
  ghost predicate Missed(st: Atu, i: nat, p: AtuEntry -> bool)
    requires st.WellFormed() && i < |st.slots|
  {
    var u := Doomed(VisitWhere(st, i, p), p, st.slots[i].mac, st.slots[i].db);
    |From(u, i + 1)| < |u|
  }

  /** A visit that is no miss deletes the visited slot, and no earlier slot of the list has its key. */
  lemma UnmissedVictim(st: Atu, i: nat, p: AtuEntry -> bool) returns (k: nat)
    requires st.WellFormed() && i in st.chain && i < |st.slots| && p(st.slots[i]) && !Missed(st, i, p)
    ensures k < |st.chain| && st.chain[k] == i && VisitWhere(st, i, p) == st.RemoveAt(k)
    ensures forall j :: 0 <= j < k ==> !HasKey(st.slots[i].mac, st.slots[i].db)(st.slots[st.chain[j]])
  {
    k := Victim(st, i);
    if st.chain[k] != i {
      var u := Doomed(VisitWhere(st, i, p), p, st.slots[i].mac, st.slots[i].db);
      assert i in u;
      SubsetSize(From(u, i + 1), u - {i});
    }
  }

  lemma ClashPersists(st: Atu, k: nat, p: AtuEntry -> bool, a: nat, b: nat)
    requires st.WellFormed() && a < b < |st.chain| && k < |st.chain| && k != a && k != b
    requires Clash(st, p, a, b) && st.RemoveAt(k).WellFormed()
    ensures !FlushSafe(st.RemoveAt(k), p)
  {
    assert Clash(st.RemoveAt(k), p, if a < k then a else a - 1, if b < k then b else b - 1);
  }

  /** Neither party to a clash is the first of its key to be scanned. */
  lemma ClashSpared(st: Atu, i: nat, p: AtuEntry -> bool, k: nat, a: nat, b: nat)
    requires st.WellFormed() && Scanned(st, i, p) && k < |st.chain| && st.chain[k] == i && p(st.slots[i])
    requires forall j :: 0 <= j < k ==> !HasKey(st.slots[i].mac, st.slots[i].db)(st.slots[st.chain[j]])
    requires a < b < |st.chain| && Clash(st, p, a, b)
    ensures k != a && k != b
  {
    assert st.chain[b] in st.chain;
  }

  /** A clash outlives every visit that is no miss. */
  lemma UnsafeVisit(st: Atu, i: nat, p: AtuEntry -> bool) returns (st': Atu)
    requires st.WellFormed() && !FlushSafe(st, p) && Scanned(st, i, p) && i < |st.slots| && !Missed(st, i, p)
    ensures st' == VisitWhere(st, i, p) && st'.WellFormed() && st'.slots == st.slots
    ensures !FlushSafe(st', p) && Scanned(st', i + 1, p)
  {
    st' := VisitWhere(st, i, p);
    if p(st.slots[i]) && i in st.chain {
      var k := UnmissedVictim(st, i, p);
      RemoveEntries(st, k);
      var a, b :| 0 <= a < b < |st.chain| && Clash(st, p, a, b);
      ClashSpared(st, i, p, k, a, b);
      ClashPersists(st, k, p, a, b);
    }
  }

  lemma ClashUnscanned(st: Atu, i: nat, p: AtuEntry -> bool)
    requires st.WellFormed() && !FlushSafe(st, p) && Scanned(st, i, p)
    ensures i < |st.slots|
  {
    var a, b :| 0 <= a < b < |st.chain| && Clash(st, p, a, b);
    assert st.chain[b] in st.chain;
  }

  lemma {:induction false} UnsafeFlush(st: Atu, i: nat, p: AtuEntry -> bool)
    requires st.WellFormed() && !FlushSafe(st, p) && Scanned(st, i, p)
    ensures exists x :: x in FlushWhere(st, i, p).chain && p(st.slots[x])
    decreases |st.slots| - i
  {
    ClashUnscanned(st, i, p);
    if Missed(st, i, p) {
      SurplusSurvives(VisitWhere(st, i, p), i + 1, p, st.slots[i].mac, st.slots[i].db);
    } else {
      var st' := UnsafeVisit(st, i, p);
      UnsafeFlush(st', i + 1, p);
    }
  }

  /** The unlocked flushes remove exactly the entries they select if and only if no duplicates clash. */
  lemma FlushWhereExactIff(st: Atu, p: AtuEntry -> bool)
    requires st.WellFormed()
    ensures FlushWhere(st, 0, p).Entries() == Filter(st.Entries(), Not(p)) <==> FlushSafe(st, p)
  {
    var r := FlushWhere(st, 0, p);
    if FlushSafe(st, p) {
      SafeFlushEmpties(st, 0, p);
      SafeFlushKeepsOthers(st, 0, p);
      FilterKeepsAll(r.Entries(), Not(p));
    } else {
      UnsafeFlush(st, 0, p);
      var x :| x in r.chain && p(st.slots[x]);
      var k :| 0 <= k < |r.chain| && r.chain[k] == x;
      assert r.Entries()[k] in r.Entries();
      FilterMembers(st.Entries(), Not(p));
    }
  }

  lemma FlushWhereExactOnUniqueKeys(st: Atu, p: AtuEntry -> bool)
    requires st.WellFormed() && UniqueKeys(st.Entries())
    ensures FlushWhere(st, 0, p).Entries() == Filter(st.Entries(), Not(p))
  {
    forall a, b | 0 <= a < b < |st.chain| ensures !Clash(st, p, a, b) {
      assert !HasKey(st.Entries()[a].mac, st.Entries()[a].db)(st.Entries()[b]);
    }
    FlushWhereExactIff(st, p);
  }
}
