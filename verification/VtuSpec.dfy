/** The VLAN table: its operations as values, and the finite map from VLAN id to entry that they maintain. */
module VtuSpec {
  import opened Sequences
  import opened SlotSpec

  type Tags = t: seq<bv16> | |t| == 10 witness [0, 0, 0, 0, 0, 0, 0, 0, 0, 0]

  datatype VtuEntry = VtuEntry(db: bv16, tags: Tags, vid: nat)

  const EMPTY_VLAN := VtuEntry(0, [0, 0, 0, 0, 0, 0, 0, 0, 0, 0], 0)
  const ALL_VLANS := 0xFFF

  type Vtu = SlotState<VtuEntry>

  function VidAtLeast(v: nat): VtuEntry -> bool {
    (e: VtuEntry) => e.vid >= v
  }

  function HasVid(v: nat): VtuEntry -> bool {
    (e: VtuEntry) => e.vid == v
  }

  /** What Get-Next looks for: VLAN id 0xFFF asks for the first entry. */
  function VidFollows(v: nat): VtuEntry -> bool {
    (e: VtuEntry) => v == ALL_VLANS || e.vid > v
  }

  ghost predicate Ascending(es: seq<VtuEntry>) {
    forall i, j :: 0 <= i < j < |es| ==> es[i].vid < es[j].vid
  }

  ghost function ClearedVtu(n: nat): Vtu {
    SlotState([], seq(n, _ => EMPTY_VLAN))
  }

  /** `limit` is the device's table size; the capacity test comes first, so a full table refuses even an overwrite. */
  ghost function AddVlan(st: Vtu, limit: nat, e: VtuEntry): (r: (Vtu, bool))
    requires st.WellFormed()
    ensures r.0.WellFormed() && |r.0.slots| == |st.slots|
  {
    var es, f := st.Entries(), st.FirstFree(0);
    var k := First(es, VidAtLeast(e.vid));
    if |st.chain| >= limit || f == |st.slots| then
      (st, false)
    else if k < |es| && es[k].vid == e.vid then
      OverwriteEntries(st, k, e);
      (st.OverwriteAt(k, e), true)
    else
      InsertEntries(st, k, f, e);
      (st.InsertAt(k, f, e), true)
  }

  ghost function DelVlan(st: Vtu, v: nat): (r: (Vtu, bool))
    requires st.WellFormed()
    ensures r.0.WellFormed() && r.0.slots == st.slots
  {
    var k := First(st.Entries(), HasVid(v));
    if k == |st.chain| then (st, false)
    else
      RemoveEntries(st, k);
      (st.RemoveAt(k), true)
  }

  ghost function UpdateVlan(st: Vtu, e: VtuEntry): (r: (Vtu, bool))
    requires st.WellFormed()
    ensures r.0.WellFormed() && |r.0.slots| == |st.slots|
  {
    var k := First(st.Entries(), HasVid(e.vid));
    if k == |st.chain| then (st, false)
    else
      OverwriteEntries(st, k, e);
      (st.OverwriteAt(k, e), true)
  }

  /** The table as a finite map. */
  ghost function ToMap(es: seq<VtuEntry>): (m: map<nat, VtuEntry>) {
    map v | v in Vids(es) :: es[First(es, HasVid(v))]
  }

  ghost function Vids(es: seq<VtuEntry>): set<nat> {
    set k | 0 <= k < |es| :: es[k].vid
  }

  /** The entry a VLAN id maps to. */
  ghost function Vlan(es: seq<VtuEntry>, v: nat): Option<VtuEntry> {
    var k := First(es, HasVid(v));
    if k == |es| then None else Some(es[k])
  }

  lemma VlanIs(es: seq<VtuEntry>, k: nat)
    requires Ascending(es) && k < |es|
    ensures Vlan(es, es[k].vid) == Some(es[k])
  {
  }

  lemma VlanNone(es: seq<VtuEntry>, v: nat)
    requires forall k :: 0 <= k < |es| ==> es[k].vid != v
    ensures Vlan(es, v) == None
  {
  }

  lemma MapIsVlans(es: seq<VtuEntry>, v: nat)
    ensures v in ToMap(es) <==> Vlan(es, v).Some?
    ensures v in ToMap(es) ==> Vlan(es, v) == Some(ToMap(es)[v])
  {
  }

  /** One entry changed under its VLAN id, or one VLAN id dropped, is one key of the map changed or dropped. */
  lemma MapUpdate(es: seq<VtuEntry>, es': seq<VtuEntry>, e: VtuEntry)
    requires forall v :: Vlan(es', v) == if v == e.vid then Some(e) else Vlan(es, v)
    ensures ToMap(es') == ToMap(es)[e.vid := e]
  {
    hide ToMap, Vlan;
    forall v ensures v in ToMap(es') <==> v in ToMap(es) || v == e.vid {
      MapIsVlans(es, v);
      MapIsVlans(es', v);
    }
    forall v | v in ToMap(es') ensures ToMap(es')[v] == ToMap(es)[e.vid := e][v] {
      MapIsVlans(es, v);
      MapIsVlans(es', v);
    }
  }

  lemma MapDrop(es: seq<VtuEntry>, es': seq<VtuEntry>, d: nat)
    requires forall v :: Vlan(es', v) == if v == d then None else Vlan(es, v)
    ensures ToMap(es') == ToMap(es) - {d}
  {
    hide ToMap, Vlan;
    forall v ensures v in ToMap(es') <==> v in ToMap(es) && v != d {
      MapIsVlans(es, v);
      MapIsVlans(es', v);
    }
    forall v | v in ToMap(es') ensures ToMap(es')[v] == ToMap(es)[v] {
      MapIsVlans(es, v);
      MapIsVlans(es', v);
    }
  }

  /** The list has one entry for each key of the map. */
  lemma {:induction false} OneEntryPerVid(es: seq<VtuEntry>)
    requires Ascending(es)
    ensures |es| == |Vids(es)|
  {
    if es != [] {
      var n := |es| - 1;
      assert Vids(es) == Vids(es[..n]) + {es[n].vid};
      OneEntryPerVid(es[..n]);
    }
  }

  lemma MapSize(es: seq<VtuEntry>)
    requires Ascending(es)
    ensures |ToMap(es)| == |es|
  {
    assert ToMap(es).Keys == Vids(es);
    OneEntryPerVid(es);
  }

  ghost predicate Above(es: seq<VtuEntry>, k: nat, v: nat)
    requires k <= |es|
  {
    && (forall j :: 0 <= j < k ==> es[j].vid < v)
    && (forall j :: k <= j < |es| ==> v < es[j].vid)
  }

  lemma InsertAscending(es: seq<VtuEntry>, k: nat, e: VtuEntry)
    requires Ascending(es) && k <= |es| && Above(es, k, e.vid)
    ensures Ascending(es[..k] + [e] + es[k..])
  {
  }

  lemma InsertVlan(es: seq<VtuEntry>, k: nat, e: VtuEntry, v: nat)
    requires Ascending(es) && k <= |es| && Above(es, k, e.vid)
    ensures Vlan(es[..k] + [e] + es[k..], v) == if v == e.vid then Some(e) else Vlan(es, v)
  {
    var es' := es[..k] + [e] + es[k..];
    InsertAscending(es, k, e);
    var i := First(es, HasVid(v));
    if v == e.vid {
      VlanIs(es', k);
    } else if i < |es| {
      VlanIs(es', if i < k then i else i + 1);
    } else {
      VlanNone(es', v);
    }
  }

  lemma OverwriteVlan(es: seq<VtuEntry>, k: nat, e: VtuEntry, v: nat)
    requires Ascending(es) && k < |es| && es[k].vid == e.vid
    ensures Vlan(es[k := e], v) == if v == e.vid then Some(e) else Vlan(es, v)
  {
    var i := First(es, HasVid(v));
    if v == e.vid {
      VlanIs(es[k := e], k);
    } else if i < |es| {
      VlanIs(es[k := e], i);
    } else {
      VlanNone(es[k := e], v);
    }
  }

  lemma RemoveAscending(es: seq<VtuEntry>, k: nat)
    requires Ascending(es) && k < |es|
    ensures Ascending(Without(es, k))
    ensures forall j :: 0 <= j < |es| && j != k ==> es[j].vid != es[k].vid
  {
  }

  lemma RemoveVlan(es: seq<VtuEntry>, k: nat, v: nat)
    requires Ascending(es) && k < |es|
    ensures Vlan(Without(es, k), v) == if v == es[k].vid then None else Vlan(es, v)
  {
    RemoveAscending(es, k);
    var i := First(es, HasVid(v));
    if i < |es| && v != es[k].vid {
      VlanIs(Without(es, k), if i < k then i else i - 1);
    } else {
      VlanNone(Without(es, k), v);
    }
  }

  /** AddVlan inserts or replaces exactly one key; it refuses exactly when the device's table is full. */
  lemma AddRefinesMap(st: Vtu, limit: nat, e: VtuEntry)
    requires st.WellFormed() && Ascending(st.Entries()) && limit <= |st.slots|
    ensures var (st', ok) := AddVlan(st, limit, e);
      && (ok <==> |ToMap(st.Entries())| < limit)
      && Ascending(st'.Entries())
      && ToMap(st'.Entries()) == if ok then ToMap(st.Entries())[e.vid := e] else ToMap(st.Entries())
  {
    AddVlanRefuses(st, limit, e);
    hide ToMap, AddVlan, Vlan;
    MapSize(st.Entries());
    if AddVlan(st, limit, e).1 {
      AddIsUpdate(st, limit, e);
      MapUpdate(st.Entries(), AddVlan(st, limit, e).0.Entries(), e);
    }
  }

  lemma AddVlanRefuses(st: Vtu, limit: nat, e: VtuEntry)
    requires st.WellFormed() && limit <= |st.slots|
    ensures AddVlan(st, limit, e).1 <==> |st.chain| < limit
    ensures !AddVlan(st, limit, e).1 ==> AddVlan(st, limit, e).0 == st
  {
    FreeSlotExists(st);
  }

  lemma AddIsUpdate(st: Vtu, limit: nat, e: VtuEntry)
    requires st.WellFormed() && Ascending(st.Entries()) && AddVlan(st, limit, e).1
    ensures var es, es' := st.Entries(), AddVlan(st, limit, e).0.Entries();
      Ascending(es') && forall v :: Vlan(es', v) == if v == e.vid then Some(e) else Vlan(es, v)
  {
    hide Vlan, First;
    var es, es' := st.Entries(), AddVlan(st, limit, e).0.Entries();
    var k := First(es, VidAtLeast(e.vid));
    if k < |es| && es[k].vid == e.vid {
      OverwriteEntries(st, k, e);
      assert es' == es[k := e];
      forall v ensures Vlan(es', v) == if v == e.vid then Some(e) else Vlan(es, v) {
        OverwriteVlan(es, k, e, v);
      }
    } else {
      InsertEntries(st, k, st.FirstFree(0), e);
      assert es' == es[..k] + [e] + es[k..];
      assert forall j :: k < j < |es| ==> es[k].vid < es[j].vid;
      InsertAscending(es, k, e);
      forall v ensures Vlan(es', v) == if v == e.vid then Some(e) else Vlan(es, v) {
        InsertVlan(es, k, e, v);
      }
    }
  }

  lemma DelRefinesMap(st: Vtu, v: nat)
    requires st.WellFormed() && Ascending(st.Entries())
    ensures var (st', ok) := DelVlan(st, v);
      && (ok <==> v in ToMap(st.Entries()))
      && Ascending(st'.Entries())
      && ToMap(st'.Entries()) == ToMap(st.Entries()) - {v}
  {
    hide ToMap;
    var es := st.Entries();
    var k := First(es, HasVid(v));
    MapIsVlans(es, v);
    if k < |es| {
      RemoveEntries(st, k);
      RemoveAscending(es, k);
      forall u { RemoveVlan(es, k, u); }
      MapDrop(es, Without(es, k), v);
    }
  }

  lemma UpdateRefinesMap(st: Vtu, e: VtuEntry)
    requires st.WellFormed() && Ascending(st.Entries())
    ensures var (st', ok) := UpdateVlan(st, e);
      && (ok <==> e.vid in ToMap(st.Entries()))
      && Ascending(st'.Entries())
      && ToMap(st'.Entries()) == if ok then ToMap(st.Entries())[e.vid := e] else ToMap(st.Entries())
  {
    hide ToMap;
    var es := st.Entries();
    var k := First(es, HasVid(e.vid));
    MapIsVlans(es, e.vid);
    if k < |es| {
      OverwriteEntries(st, k, e);
      forall v { OverwriteVlan(es, k, e, v); }
      MapUpdate(es, es[k := e], e);
    }
  }
}
