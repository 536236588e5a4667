/**
 The array list itself (ATUNode/ATUList and VTUNode/VTUList): nodes in one fixed array, linked by
 index. `next == capacity` marks a free node. Lists are walked by count: the last node's link and,
 when the list is empty, the head are stale, and may name a free node.
 */
module SlotList {
  import opened SlotSpec
  import opened Sequences

  datatype Node<E> = Node(entry: E, next: nat)

  /** The links of `ns` lead along `chain`; the last node's link may point anywhere in the array. */
  ghost predicate Threaded<E>(ns: seq<Node<E>>, chain: seq<nat>) {
    && (forall k :: 0 <= k < |chain| ==> chain[k] < |ns| && ns[chain[k]].next < |ns|)
    && (forall j, k :: 0 <= j < k < |chain| && k == j + 1 ==> ns[chain[j]].next == chain[k])
  }

  lemma ThreadedAt<E>(ns: seq<Node<E>>, chain: seq<nat>, k: nat)
    requires Threaded(ns, chain) && k < |chain|
    ensures chain[k] < |ns| && ns[chain[k]].next < |ns|
    ensures k + 1 < |chain| ==> ns[chain[k]].next == chain[k + 1]
  {
  }

  /** The links of `ns`, followed from `head`, visit exactly st.chain; every other node is free. */
  ghost predicate Linked<E>(ns: seq<Node<E>>, head: nat, st: SlotState<E>) {
    && 0 < |ns| == |st.slots|
    && st.WellFormed()
    && head < |ns|
    && (|st.chain| > 0 ==> head == st.chain[0])
    && (forall i :: 0 <= i < |ns| ==> ns[i].entry == st.slots[i])
    && (forall i :: 0 <= i < |ns| && i !in st.chain ==> ns[i].next == |ns|)
    && Threaded(ns, st.chain)
  }

  /** Rewriting a link nobody in the chain owns, or only the last node's link, keeps the thread. */
  lemma ThreadedInsert<E>(ns: seq<Node<E>>, c: seq<nat>, i: nat, f: nat, ns': seq<Node<E>>)
    requires Threaded(ns, c) && |ns'| == |ns|
    requires i <= |c| && f < |ns| && ns'[f].next < |ns|
    requires forall m :: 0 <= m < |c| ==> ns'[c[m]].next == if m == i - 1 then f else ns[c[m]].next
    requires i < |c| ==> ns'[f].next == c[i]
    ensures Threaded(ns', c[..i] + [f] + c[i..])
  {
    var c' := c[..i] + [f] + c[i..];
    forall j, k | 0 <= j < k < |c'| && k == j + 1 ensures ns'[c'[j]].next == c'[k] {
      if k < i {
        assert c'[j] == c[j] && c'[k] == c[k];
      } else if k == i {
        assert c'[j] == c[j] && c'[k] == f;
      } else if j == i {
        assert c'[j] == f && c'[k] == c[i];
      } else {
        assert c'[j] == c[j - 1] && c'[k] == c[k - 1];
      }
    }
  }

  /** The node that k links lead to from the head, whether it is in use or not. */
  function Reached<E>(ns: seq<Node<E>>, head: nat, k: nat): nat {
    if k == 0 then head
    else
      var i := Reached(ns, head, k - 1);
      if i < |ns| then ns[i].next else i
  }

  lemma {:induction false} ReachedIsChain<E>(ns: seq<Node<E>>, head: nat, st: SlotState<E>, k: nat)
    requires Linked(ns, head, st) && k < |st.chain|
    ensures Reached(ns, head, k) == st.chain[k]
  {
    if k > 0 {
      ReachedIsChain(ns, head, st, k - 1);
      ThreadedAt(ns, st.chain, k - 1);
    }
  }

  lemma StaleLinkInRange<E>(ns: seq<Node<E>>, head: nat, st: SlotState<E>)
    requires Linked(ns, head, st)
    ensures Reached(ns, head, |st.chain|) < |ns|
  {
    if st.chain != [] {
      ReachedIsChain(ns, head, st, |st.chain| - 1);
      ThreadedAt(ns, st.chain, |st.chain| - 1);
    }
  }

  lemma InUseIsLinked<E>(ns: seq<Node<E>>, head: nat, st: SlotState<E>, i: nat)
    requires Linked(ns, head, st) && i < |ns|
    ensures ns[i].next != |ns| <==> i in st.chain
  {
    if i in st.chain {
      var k :| 0 <= k < |st.chain| && st.chain[k] == i;
      ThreadedAt(ns, st.chain, k);
    }
  }

  /** The first n nodes followed from the head. */
  ghost function Path<E>(ns: seq<Node<E>>, head: nat, n: nat): (p: seq<nat>)
    ensures |p| == n
  {
    seq(n, k requires 0 <= k < n => Reached(ns, head, k))
  }

  /**
   Walking by count from the head visits distinct nodes, all of them in use and every one in use; no
   freed node is visited, and the link that follows the last one still points into the array.
   */
  lemma WalkByCount<E>(ns: seq<Node<E>>, head: nat, st: SlotState<E>)
    requires Linked(ns, head, st)
    ensures var path := Path(ns, head, |st.chain|);
      Distinct(path) && forall i: nat :: i < |ns| ==> (ns[i].next != |ns| <==> i in path)
    ensures Reached(ns, head, |st.chain|) < |ns|
  {
    PathIsChain(ns, head, st);
    StaleLinkInRange(ns, head, st);
    hide Linked, Reached, Path;
    LinkedDistinct(ns, head, st);
    forall i: nat | i < |ns| ensures ns[i].next != |ns| <==> i in st.chain {
      InUseIsLinked(ns, head, st, i);
    }
  }

  lemma PathIsChain<E>(ns: seq<Node<E>>, head: nat, st: SlotState<E>)
    requires Linked(ns, head, st)
    ensures Path(ns, head, |st.chain|) == st.chain
  {
    hide Linked;
    forall k: nat | k < |st.chain| ensures Path(ns, head, |st.chain|)[k] == st.chain[k] {
      ReachedIsChain(ns, head, st, k);
    }
  }

  lemma LinkedDistinct<E>(ns: seq<Node<E>>, head: nat, st: SlotState<E>)
    requires Linked(ns, head, st)
    ensures Distinct(st.chain)
  {
  }

  /** The node array after node f is filled and linked in before the i-th node of the chain. */
  function Relinked<E>(ns: seq<Node<E>>, c: seq<nat>, head: nat, i: nat, f: nat, e: E): (r: seq<Node<E>>)
    requires i <= |c| && f < |ns| && forall k :: 0 <= k < |c| ==> c[k] < |ns|
    ensures |r| == |ns| && r[f].next == if i == 0 || i == |c| then head else ns[c[i - 1]].next
  {
    if i == 0 then ns[f := Node(e, head)]
    else
      var pre := c[i - 1];
      ns[pre := Node(ns[pre].entry, f)][f := Node(e, if i == |c| then head else ns[pre].next)]
  }

  lemma RelinkedNodes<E>(ns: seq<Node<E>>, c: seq<nat>, head: nat, i: nat, f: nat, e: E)
    requires i <= |c| && f < |ns| && Distinct(c) && f !in c && forall k :: 0 <= k < |c| ==> c[k] < |ns|
    ensures forall m :: 0 <= m < |c| ==>
      Relinked(ns, c, head, i, f, e)[c[m]].next == if m == i - 1 then f else ns[c[m]].next
    ensures forall x :: 0 <= x < |ns| ==> Relinked(ns, c, head, i, f, e)[x].entry == if x == f then e else ns[x].entry
    ensures forall x: nat :: x < |ns| && x != f && x !in c ==> Relinked(ns, c, head, i, f, e)[x] == ns[x]
  {
    forall m | 0 <= m < |c|
      ensures Relinked(ns, c, head, i, f, e)[c[m]].next == if m == i - 1 then f else ns[c[m]].next
    {
      if m != i - 1 && i > 0 {
        assert c[m] != c[i - 1];
      }
    }
  }

  lemma LinkedInsert<E>(ns: seq<Node<E>>, head: nat, st: SlotState<E>, i: nat, f: nat, e: E)
    requires Linked(ns, head, st) && i <= |st.chain| && f < |ns| && f !in st.chain
    ensures Linked(Relinked(ns, st.chain, head, i, f, e), if i == 0 then f else head, st.InsertAt(i, f, e))
  {
    hide Relinked, Threaded, Distinct;
    var c := st.chain;
    if i > 0 {
      ThreadedAt(ns, c, i - 1);
    }
    InsertEntries(st, i, f, e);
    RelinkedNodes(ns, c, head, i, f, e);
    ThreadedInsert(ns, c, i, f, Relinked(ns, c, head, i, f, e));
    InsertMembers(c, i, f);
  }

  lemma InsertMembers(c: seq<nat>, i: nat, f: nat)
    requires i <= |c|
    ensures forall x :: x in c[..i] + [f] + c[i..] <==> x in c || x == f
  {
    assert c == c[..i] + c[i..];
  }

  lemma ThreadedRemove<E>(ns: seq<Node<E>>, c: seq<nat>, i: nat, ns': seq<Node<E>>)
    requires Threaded(ns, c) && |ns'| == |ns| && i < |c|
    requires forall m :: 0 <= m < |c| && m != i ==>
      ns'[c[m]].next == if m == i - 1 && i != |c| - 1 then ns[c[i]].next else ns[c[m]].next
    ensures Threaded(ns', Without(c, i))
  {
    var c' := Without(c, i);
    forall k | 0 <= k < |c'| ensures c'[k] < |ns| && ns'[c'[k]].next < |ns| {
      assert c'[k] == if k < i then c[k] else c[k + 1];
    }
    forall j, k | 0 <= j < k < |c'| && k == j + 1 ensures ns'[c'[j]].next == c'[k] {
      if k < i {
        assert c'[j] == c[j] && c'[k] == c[k];
      } else if k == i {
        assert c'[j] == c[j] && c'[k] == c[k + 1];
      } else {
        assert c'[j] == c[j + 1] && c'[k] == c[k + 1];
      }
    }
  }

  /** The node array after the i-th node of the chain is bypassed (unless it is an end) and freed. */
  function Unlinked<E>(ns: seq<Node<E>>, c: seq<nat>, i: nat): (r: seq<Node<E>>)
    requires i < |c| && forall k :: 0 <= k < |c| ==> c[k] < |ns|
    ensures |r| == |ns| && r[c[i]].next == |ns|
  {
    var node := c[i];
    var bypassed := if i == 0 || i == |c| - 1 then ns else ns[c[i - 1] := Node(ns[c[i - 1]].entry, ns[node].next)];
    bypassed[node := Node(ns[node].entry, |ns|)]
  }

  lemma UnlinkedNodes<E>(ns: seq<Node<E>>, c: seq<nat>, i: nat)
    requires i < |c| && Distinct(c) && forall k :: 0 <= k < |c| ==> c[k] < |ns|
    ensures forall m :: 0 <= m < |c| && m != i ==>
      Unlinked(ns, c, i)[c[m]].next == if m == i - 1 && i != |c| - 1 then ns[c[i]].next else ns[c[m]].next
    ensures forall x :: 0 <= x < |ns| ==> Unlinked(ns, c, i)[x].entry == ns[x].entry
    ensures forall x: nat :: x < |ns| && x !in c ==> Unlinked(ns, c, i)[x] == ns[x]
  {
    forall m | 0 <= m < |c| && m != i
      ensures Unlinked(ns, c, i)[c[m]].next == if m == i - 1 && i != |c| - 1 then ns[c[i]].next else ns[c[m]].next
    {
      assert c[m] != c[i];
      if m != i - 1 && i > 0 {
        assert c[m] != c[i - 1];
      }
    }
  }

  lemma LinkedRemove<E>(ns: seq<Node<E>>, head: nat, st: SlotState<E>, i: nat, head': nat)
    requires Linked(ns, head, st) && i < |st.chain|
    requires head' == if i == 0 then ns[st.chain[i]].next else head
    ensures Linked(Unlinked(ns, st.chain, i), head', st.RemoveAt(i))
  {
    hide Unlinked, Threaded, Distinct;
    var c := st.chain;
    ThreadedAt(ns, c, i);
    RemoveEntries(st, i);
    UnlinkedNodes(ns, c, i);
    ThreadedRemove(ns, c, i, Unlinked(ns, c, i));
  }

  class SlotList<E> {
    const capacity: nat
    const nodes: array<Node<E>>
    var size: nat
    var head: nat
    ghost var model: SlotState<E>

    ghost predicate Valid()
      reads this, nodes
    {
      && capacity == nodes.Length == |model.slots|
      && model.WellFormed()
      && size == |model.chain|
      && (size > 0 ==> head == model.chain[0])
      && Linked(nodes[..], head, model)
    }

    /** `node` is what i link steps from the head reach; past the last node it is stale. */
    ghost predicate Cursor(i: nat, node: nat)
      reads this
    {
      size == |model.chain| && i <= size && (i < size ==> node == model.chain[i])
    }

    lemma NodeAt(i: nat)
      requires Valid() && i < capacity
      ensures nodes[i].entry == model.slots[i]
      ensures nodes[i].next != capacity <==> i in model.chain
    {
      assert nodes[..][i] == nodes[i];
    }

    lemma EntryAt(k: nat)
      requires Valid() && k < size
      ensures model.chain[k] < capacity && nodes[model.chain[k]].entry == model.Entries()[k]
    {
      NodeAt(model.chain[k]);
    }

    constructor (n: nat, zero: E)
      requires n > 0
      ensures Valid() && fresh(nodes) && capacity == n
      ensures model == SlotState([], seq(n, _ => zero))
    {
      capacity := n;
      nodes := new Node<E>[n](_ => Node(zero, n));
      size, head := 0, 0;
      model := SlotState([], seq(n, _ => zero));
    }

    method Clear(zero: E)
      requires Valid()
      modifies this, nodes
      ensures Valid()
      ensures model == SlotState([], seq(capacity, _ => zero))
    {
      for i := 0 to capacity
        invariant nodes.Length == capacity
        invariant forall j :: 0 <= j < i ==> nodes[j] == Node(zero, capacity)
      {
        nodes[i] := Node(zero, capacity);
      }
      size, head := 0, 0;
      model := SlotState([], seq(capacity, _ => zero));
    }

    /** Follow one link; past the last node the result is stale but still an index into the array. */
    method Next(i: nat, node: nat) returns (next: nat)
      requires Valid() && i < size && node == model.chain[i]
      ensures next == nodes[node].next < capacity
      ensures i + 1 < size ==> next == model.chain[i + 1]
    {
      next := nodes[node].next;
      assert nodes[..][node] == nodes[node];
    }

    method FindFree() returns (f: nat)
      requires Valid()
      ensures f == model.FirstFree(0)
    {
      f := 0;
      assert forall i :: 0 <= i < capacity ==> (i in model.chain <==> nodes[..][i].next != capacity);
      while f < capacity && nodes[f].next != capacity
        invariant f <= capacity
        invariant forall j :: 0 <= j < f ==> j in model.chain
      {
        f := f + 1;
      }
    }

    method Insert(i: nat, pre: nat, f: nat, e: E)
      requires Valid() && f < capacity && f !in model.chain
      requires i <= size && (i > 0 ==> pre == model.chain[i - 1])
      modifies this, nodes
      ensures Valid()
      ensures model == old(model).InsertAt(i, f, e)
    {
      hide Distinct, Threaded;
      if i == 0 {
        nodes[f] := Node(e, head);
        head := f;
      } else if i == size {
        nodes[pre] := Node(nodes[pre].entry, f);
        nodes[f] := Node(e, head);
      } else {
        nodes[f] := Node(e, nodes[pre].next);
        nodes[pre] := Node(nodes[pre].entry, f);
      }
      size := size + 1;
      assert nodes[..] == Relinked(old(nodes[..]), model.chain, old(head), i, f, e);
      LinkedInsert(old(nodes[..]), old(head), model, i, f, e);
      model := model.InsertAt(i, f, e);
    }

    method Overwrite(i: nat, node: nat, e: E)
      requires Valid() && i < size && node == model.chain[i]
      modifies this`model, nodes
      ensures Valid()
      ensures model == old(model).OverwriteAt(i, e)
    {
      nodes[node] := Node(e, nodes[node].next);
      OverwriteEntries(model, i, e);
      model := model.OverwriteAt(i, e);
    }

    method Remove(i: nat, pre: nat, node: nat)
      requires Valid() && i < size && node == model.chain[i] && (i > 0 ==> pre == model.chain[i - 1])
      modifies this, nodes
      ensures Valid()
      ensures model == old(model).RemoveAt(i)
    {
      hide Distinct, Threaded;
      ThreadedAt(nodes[..], model.chain, i);
      if i == 0 {
        head := nodes[node].next;
      } else if i != size - 1 {
        nodes[pre] := Node(nodes[pre].entry, nodes[node].next);
      }
      size := size - 1;
      nodes[node] := Node(nodes[node].entry, capacity);
      assert nodes[..] == Unlinked(old(nodes[..]), model.chain, i);
      LinkedRemove(old(nodes[..]), old(head), model, i, head);
      model := model.RemoveAt(i);
    }
  }
}
