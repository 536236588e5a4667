/** The VLAN table functions, run on the array list; each is proved equal to its value-level step. */
module VtuTable {
  import opened Sequences
  import opened SlotSpec
  import opened SlotList
  import opened VtuSpec

  type VtuList = SlotList<VtuEntry>

  /** The index of the node to report, or the capacity when there is none. */
  method FindNextVlan(l: VtuList, vid: nat) returns (r: nat)
    requires l.Valid()
    ensures var k := First(l.model.Entries(), VidFollows(vid));
      r == if k < l.size then l.model.chain[k] else l.capacity
  {
    hide Linked;
    var node, i := l.head, 0;
    if vid == ALL_VLANS {
      if l.size != 0 {
        assert VidFollows(vid)(l.model.Entries()[0]);
        return node;
      } else {
        return l.capacity;
      }
    }
    while i < l.size
      invariant l.Cursor(i, node)
      invariant forall j :: 0 <= j < i ==> !VidFollows(vid)(l.model.Entries()[j])
    {
      l.EntryAt(i);
      if l.nodes[node].entry.vid > vid {
        break;
      }
      node := l.Next(i, node);
      i := i + 1;
    }
    r := if i == l.size then l.capacity else node;
  }

  method AddVlanEntry(l: VtuList, limit: nat, entry: VtuEntry) returns (ok: bool)
    requires l.Valid()
    modifies l, l.nodes
    ensures l.Valid()
    ensures (l.model, ok) == AddVlan(old(l.model), limit, entry)
  {
    hide Linked;
    if l.size >= limit {
      return false;
    }
    var free := l.FindFree();
    if free == l.capacity {
      return false;
    }
    var pre, node, i := l.head, l.head, 0;
    while i < l.size
      modifies {}
      invariant l.Cursor(i, node) && (i > 0 ==> pre == l.model.chain[i - 1])
      invariant forall j :: 0 <= j < i ==> !VidAtLeast(entry.vid)(l.model.Entries()[j])
    {
      l.EntryAt(i);
      if l.nodes[node].entry.vid >= entry.vid {
        break;
      }
      pre := node;
      node := l.Next(i, node);
      i := i + 1;
    }
    if i != l.size {
      l.EntryAt(i);
      if l.nodes[node].entry.vid == entry.vid {
        l.Overwrite(i, node, entry);
        return true;
      }
    }
    l.Insert(i, pre, free, entry);
    return true;
  }

  /** The search shared by DelVlanEntry and UpdateVlanEntry: the node with the VLAN id, and the node before it. */
  method FindVid(l: VtuList, vid: nat) returns (i: nat, pre: nat, node: nat)
    requires l.Valid()
    ensures i == First(l.model.Entries(), HasVid(vid))
    ensures l.Cursor(i, node) && (i > 0 ==> pre == l.model.chain[i - 1])
  {
    hide Linked;
    pre, node, i := l.head, l.head, 0;
    while i < l.size
      invariant l.Cursor(i, node) && (i > 0 ==> pre == l.model.chain[i - 1])
      invariant forall j :: 0 <= j < i ==> !HasVid(vid)(l.model.Entries()[j])
    {
      l.EntryAt(i);
      if l.nodes[node].entry.vid == vid {
        return;
      }
      pre := node;
      node := l.Next(i, node);
      i := i + 1;
    }
  }

  method DelVlanEntry(l: VtuList, vid: nat) returns (ok: bool)
    requires l.Valid()
    modifies l, l.nodes
    ensures l.Valid()
    ensures (l.model, ok) == DelVlan(old(l.model), vid)
  {
    hide Linked;
    var i, pre, node := FindVid(l, vid);
    if i == l.size {
      return false;
    }
    l.Remove(i, pre, node);
    return true;
  }

  method UpdateVlanEntry(l: VtuList, entry: VtuEntry) returns (ok: bool)
    requires l.Valid()
    modifies l, l.nodes
    ensures l.Valid()
    ensures (l.model, ok) == UpdateVlan(old(l.model), entry)
  {
    hide Linked;
    var i, pre, node := FindVid(l, entry.vid);
    if i == l.size {
      return false;
    }
    l.Overwrite(i, node, entry);
    return true;
  }
}
