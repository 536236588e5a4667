/**
 The value behind an index-linked list kept in a fixed array: `chain` is the order in which the
 links visit the slots, `slots` what every slot holds, freed slots included.
 */
module SlotSpec {
  import opened Sequences

  datatype SlotState<E> = SlotState(chain: seq<nat>, slots: seq<E>) {

    ghost predicate WellFormed() {
      && (forall k :: 0 <= k < |chain| ==> chain[k] < |slots|)
      && Distinct(chain)
    }

    /** The list an outside observer sees: the entries in link order. */
    ghost function Entries(): (es: seq<E>)
      requires WellFormed()
      ensures |es| == |chain|
      ensures forall k :: 0 <= k < |chain| ==> es[k] == slots[chain[k]]
    {
      seq(|chain|, k requires 0 <= k < |chain| && WellFormed() => slots[chain[k]])
    }

    /** The lowest slot from `from` on that no link reaches, or |slots|. */
    function FirstFree(from: nat): (f: nat)
      requires from <= |slots|
      ensures from <= f <= |slots|
      ensures f !in chain || f == |slots|
      ensures forall i :: from <= i < f ==> i in chain
      decreases |slots| - from
    {
      if from == |slots| || from !in chain then from else FirstFree(from + 1)
    }

    function InsertAt(k: nat, f: nat, e: E): (s: SlotState<E>)
      requires k <= |chain| && f < |slots|
    {
      SlotState(chain[..k] + [f] + chain[k..], slots[f := e])
    }

    function OverwriteAt(k: nat, e: E): (s: SlotState<E>)
      requires k < |chain| && chain[k] < |slots|
    {
      SlotState(chain, slots[chain[k] := e])
    }

    function RemoveAt(k: nat): (s: SlotState<E>)
      requires k < |chain|
    {
      SlotState(Without(chain, k), slots)
    }
  }

  /** Slots are conserved: the free ones and the linked ones partition the array. */
  lemma SlotsConserved<E>(st: SlotState<E>)
    requires st.WellFormed()
    ensures |st.chain| + |Free(st)| == |st.slots|
  {
    var used := set k | 0 <= k < |st.chain| :: st.chain[k];
    ImageSize(st.chain);
    assert used !! Free(st);
    assert used + Free(st) == Below(|st.slots|);
  }

  ghost function Free<E>(st: SlotState<E>): set<nat> {
    set i | i in Below(|st.slots|) && i !in st.chain
  }

  ghost function Below(n: nat): (s: set<nat>)
    ensures |s| == n
    ensures forall i: nat :: i in s <==> i < n
  {
    if n == 0 then {} else Below(n - 1) + {n - 1}
  }

  lemma {:induction false} ImageSize(s: seq<nat>)
    requires Distinct(s)
    ensures |set k | 0 <= k < |s| :: s[k]| == |s|
  {
    if s != [] {
      var t := s[..|s| - 1];
      ImageSize(t);
      assert (set k | 0 <= k < |s| :: s[k]) == (set k | 0 <= k < |t| :: t[k]) + {s[|t|]};
    }
  }

  /** A list that is not full always has a slot to allocate. */
  lemma FreeSlotExists<E>(st: SlotState<E>)
    requires st.WellFormed()
    ensures |st.chain| <= |st.slots|
    ensures st.FirstFree(0) < |st.slots| <==> |st.chain| < |st.slots|
  {
    SlotsConserved(st);
    var f := st.FirstFree(0);
    if f < |st.slots| {
      assert f in Free(st);
    } else {
      assert Free(st) == {};
    }
  }

  lemma InsertEntries<E>(st: SlotState<E>, k: nat, f: nat, e: E)
    requires st.WellFormed() && k <= |st.chain| && f < |st.slots| && f !in st.chain
    ensures st.InsertAt(k, f, e).WellFormed()
    ensures st.InsertAt(k, f, e).Entries() == st.Entries()[..k] + [e] + st.Entries()[k..]
  {
  }

  lemma OverwriteEntries<E>(st: SlotState<E>, k: nat, e: E)
    requires st.WellFormed() && k < |st.chain|
    ensures st.OverwriteAt(k, e).WellFormed()
    ensures st.OverwriteAt(k, e).Entries() == st.Entries()[k := e]
  {
  }

  lemma RemoveEntries<E>(st: SlotState<E>, k: nat)
    requires st.WellFormed() && k < |st.chain|
    ensures st.RemoveAt(k).WellFormed()
    ensures st.RemoveAt(k).Entries() == Without(st.Entries(), k)
    ensures forall i :: i in st.RemoveAt(k).chain <==> i in st.chain && i != st.chain[k]
  {
    WithoutMembers(st.chain, k);
  }

  lemma WithoutMembers(c: seq<nat>, k: nat)
    requires k < |c| && Distinct(c)
    ensures forall i :: i in Without(c, k) <==> i in c && i != c[k]
  {
    var r := Without(c, k);
    forall i ensures i in r <==> i in c && i != c[k] {
      if i in c && i != c[k] {
        var j :| 0 <= j < |c| && c[j] == i;
        assert i == if j < k then r[j] else r[j - 1];
      }
      if i in r {
        var j :| 0 <= j < |r| && r[j] == i;
        assert i == if j < k then c[j] else c[j + 1];
      }
    }
  }
}
