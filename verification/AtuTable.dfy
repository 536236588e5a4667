/** The table functions of the simulator, run on the array list; each is proved equal to its value-level step. */
module AtuTable {
  import opened Sequences
  import opened SlotSpec
  import opened SlotList
  import opened MacAddress
  import opened AtuSpec

  type AtuList = SlotList<AtuEntry>

  /** The index of the node to report, or the capacity when there is none. */
  method FindNext(l: AtuList, entry: AtuEntry) returns (r: nat)
    requires l.Valid()
    ensures var k := First(l.model.Entries(), Follows(entry.mac, entry.db));
      r == if k < l.size then l.model.chain[k] else l.capacity
  {
    hide Linked;
    if entry.mac == BROADCAST {
      r := FindFirst(l, entry);
    } else {
      r := FindAfter(l, entry);
    }
  }

  method FindFirst(l: AtuList, entry: AtuEntry) returns (r: nat)
    requires l.Valid() && entry.mac == BROADCAST
    ensures var k := First(l.model.Entries(), Follows(entry.mac, entry.db));
      r == if k < l.size then l.model.chain[k] else l.capacity
  {
    hide Linked, Num;
    var node, i := l.head, 0;
    if l.size != 0 {
      l.EntryAt(0);
      if l.nodes[node].entry.db == entry.db {
        return node;
      }
      while i < l.size
        invariant l.Cursor(i, node)
        invariant forall j :: 0 <= j < i ==> !Follows(entry.mac, entry.db)(l.model.Entries()[j])
      {
        l.EntryAt(i);
        if l.nodes[node].entry.db == entry.db {
          return node;
        }
        node := l.Next(i, node);
        i := i + 1;
      }
    }
    r := l.capacity;
  }

  method FindAfter(l: AtuList, entry: AtuEntry) returns (r: nat)
    requires l.Valid() && entry.mac != BROADCAST
    ensures var k := First(l.model.Entries(), Follows(entry.mac, entry.db));
      r == if k < l.size then l.model.chain[k] else l.capacity
  {
    hide Linked, Num;
    var node, i := l.head, 0;
    while i < l.size
      invariant l.Cursor(i, node)
      invariant forall j :: 0 <= j < i ==> !Follows(entry.mac, entry.db)(l.model.Entries()[j])
    {
      l.EntryAt(i);
      var order := CmpEtherMac(l.nodes[node].entry.mac, entry.mac);
      if order > 0 {
        if l.nodes[node].entry.db == entry.db {
          break;
        }
      }
      node := l.Next(i, node);
      i := i + 1;
    }
    r := if i == l.size then l.capacity else node;
  }

  /** The search of AddEntry: the first node whose address is not smaller, and the node before it. */
  method FindPlace(l: AtuList, mac: Mac) returns (i: nat, pre: nat, node: nat)
    requires l.Valid()
    ensures i == First(l.model.Entries(), AtLeast(mac))
    ensures l.Cursor(i, node) && (i > 0 ==> pre == l.model.chain[i - 1])
  {
    hide Linked, Num;
    pre, node, i := l.head, l.head, 0;
    while i < l.size
      invariant l.Cursor(i, node) && (i > 0 ==> pre == l.model.chain[i - 1])
      invariant forall j :: 0 <= j < i ==> !AtLeast(mac)(l.model.Entries()[j])
    {
      l.EntryAt(i);
      var order := CmpEtherMac(l.nodes[node].entry.mac, mac);
      if order >= 0 {
        return;
      }
      pre := node;
      node := l.Next(i, node);
      i := i + 1;
    }
  }

  method AddEntry(l: AtuList, entry: AtuEntry) returns (ok: bool)
    requires l.Valid()
    modifies l, l.nodes
    ensures l.Valid()
    ensures (l.model, ok) == Add(old(l.model), entry)
  {
    hide Linked, Num;
    if l.size >= l.capacity {
      return false;
    }
    var free := l.FindFree();
    if free == l.capacity {
      return false;
    }
    var i, pre, node := FindPlace(l, entry.mac);
    if i != l.size {
      l.EntryAt(i);
      var order := CmpEtherMac(l.nodes[node].entry.mac, entry.mac);
      if order == 0 {
        if l.nodes[node].entry.db == entry.db {
          l.Overwrite(i, node, l.nodes[node].entry.(data := entry.data));
          return true;
        }
      }
    }
    l.Insert(i, pre, free, entry);
    return true;
  }

  /** The search of DelEntry: the first node with the key, and the node before it. */
  method FindKey(l: AtuList, mac: Mac, db: bv16) returns (i: nat, pre: nat, node: nat)
    requires l.Valid()
    ensures i == First(l.model.Entries(), HasKey(mac, db))
    ensures l.Cursor(i, node) && (i > 0 ==> pre == l.model.chain[i - 1])
  {
    hide Linked, Num;
    pre, node, i := l.head, l.head, 0;
    while i < l.size
      invariant l.Cursor(i, node) && (i > 0 ==> pre == l.model.chain[i - 1])
      invariant forall j :: 0 <= j < i ==> !HasKey(mac, db)(l.model.Entries()[j])
    {
      l.EntryAt(i);
      var order := CmpEtherMac(l.nodes[node].entry.mac, mac);
      if order == 0 {
        if l.nodes[node].entry.db == db {
          return;
        }
      }
      pre := node;
      node := l.Next(i, node);
      i := i + 1;
    }
  }

  method DelEntry(l: AtuList, entry: AtuEntry) returns (ok: bool)
    requires l.Valid()
    modifies l, l.nodes
    ensures l.Valid()
    ensures (l.model, ok) == Del(old(l.model), entry.mac, entry.db)
  {
    hide Linked;
    var i, pre, node := FindKey(l, entry.mac, entry.db);
    if i == l.size {
      return false;
    }
    l.Remove(i, pre, node);
    return true;
  }

  /**
   One visit of the unlocked flushes: a linked node that is neither locked nor multicast gives its key
   to DelEntry.
   */
  method FlushIfUnlocked(l: AtuList, i: nat)
    requires l.Valid() && i < l.capacity
    modifies l, l.nodes
    ensures l.Valid()
    ensures l.model == VisitWhere(old(l.model), i, Unlocked())
  {
    hide Linked;
    l.NodeAt(i);
    var e := l.nodes[i].entry;
    if e.data & 0xF != 0xF && e.mac[0] & 1 == 0 && l.nodes[i].next != l.capacity {
      var _ := DelEntry(l, e);
    }
  }

  method FlushUnlockedEntry(l: AtuList)
    requires l.Valid()
    modifies l, l.nodes
    ensures l.Valid()
    ensures l.model == FlushWhere(old(l.model), 0, Unlocked())
  {
    hide Linked, VisitWhere, Unlocked;
    for i := 0 to l.capacity
      invariant l.Valid()
      invariant FlushWhere(l.model, i, Unlocked()) == FlushWhere(old(l.model), 0, Unlocked())
    {
      FlushIfUnlocked(l, i);
    }
  }

  method FlushInDb(l: AtuList, db: bv16)
    requires l.Valid()
    modifies l, l.nodes
    ensures l.Valid()
    ensures l.model == FlushDb(old(l.model), 0, db)
  {
    hide Linked, Del;
    for i := 0 to l.capacity
      invariant l.Valid()
      invariant FlushDb(l.model, i, db) == FlushDb(old(l.model), 0, db)
    {
      l.NodeAt(i);
      if l.nodes[i].entry.db == db {
        var _ := DelEntry(l, l.nodes[i].entry);
      }
    }
  }

  method FlushUnlockedInDb(l: AtuList, db: bv16)
    requires l.Valid()
    modifies l, l.nodes
    ensures l.Valid()
    ensures l.model == FlushWhere(old(l.model), 0, UnlockedInDb(db))
  {
    hide Linked, VisitWhere, Unlocked, UnlockedInDb;
    for i := 0 to l.capacity
      invariant l.Valid()
      invariant FlushWhere(l.model, i, UnlockedInDb(db)) == FlushWhere(old(l.model), 0, UnlockedInDb(db))
    {
      l.NodeAt(i);
      VisitInDb(l.model, i, db);
      if l.nodes[i].entry.db == db {
        FlushIfUnlocked(l, i);
      }
    }
  }
}
