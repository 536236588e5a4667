/**
 Interrupt priorities of the nested vectored interrupt controller: encoding, decoding and the
 priority registers.
 */
module Nvic {

  /** A field of at most eight bits. */
  type Width = k: bv32 | k <= 8 witness 0

  /** Number of implemented priority bits, __NVIC_PRIO_BITS. */
  type PrioBits = n: bv32 | 1 <= n <= 8 witness 4

  function PreemptBits(n: PrioBits, group: bv32): Width {
    var g := group & 7;
    if 7 - g > n then n else 7 - g
  }

  function SubBits(n: PrioBits, group: bv32): Width {
    var g := group & 7;
    if g + n < 7 then 0 else g - 7 + n
  }

  /** Two widths that share out n bits. */
  predicate Share(a: Width, b: Width, n: PrioBits) {
    a + b == n
  }

  /**
   Of n implemented bits, group g (0 to 7) gives 7 - g to the preempt part, if there are that many, and the
   rest to the sub part.
   */
  lemma WidthsShare(n: PrioBits, group: bv32)
    ensures Share(PreemptBits(n, group), SubBits(n, group), n)
    ensures var g := (group % 8) as nat;
      var a := if 7 - g < n as nat then 7 - g else n as nat;
      PreemptBits(n, group) as nat == a && SubBits(n, group) as nat == n as nat - a
  {
  }

  /** (1 << k) - 1 */
  function Ones(k: Width): bv32 {
    ((1 as bv32) << k) - 1
  }

  predicate Fits(w: bv32, k: Width) {
    w <= Ones(k)
  }

  /** The k low bits of w, and the bits above them. */
  function Cut(w: bv32, k: Width): bv32 {
    w & Ones(k)
  }

  function Upper(w: bv32, k: Width): bv32 {
    w >> k
  }

  function Combine(upper: bv32, lower: bv32, k: Width): bv32 {
    (upper << k) | lower
  }

  function Encode(n: PrioBits, group: bv32, preempt: bv32, sub: bv32): bv32 {
    Combine(Cut(preempt, PreemptBits(n, group)), Cut(sub, SubBits(n, group)), SubBits(n, group))
  }

  function Decode(n: PrioBits, group: bv32, priority: bv32): (bv32, bv32) {
    (Cut(Upper(priority, SubBits(n, group)), PreemptBits(n, group)), Cut(priority, SubBits(n, group)))
  }

  /** What is left of a priority after it is stored in an 8-bit register aligned to the top and read back. */
  function Stored(n: PrioBits, priority: bv32): bv8 {
    ((priority << (8 - n)) & 0xFF) as bv8
  }

  function Loaded(n: PrioBits, cell: bv8): bv32 {
    cell as bv32 >> (8 - n)
  }

  class Controller {
    const n: PrioBits
    const ip: array<bv8>
    const shp: array<bv8>

    constructor (bits: PrioBits)
      ensures Valid() && n == bits && fresh(ip) && fresh(shp)
    {
      n := bits;
      ip := new bv8[240](_ => 0);
      shp := new bv8[12](_ => 0);
    }

    ghost predicate Valid() {
      ip.Length == 240 && shp.Length == 12 && ip != shp
    }

    /** Core interrupts -12 to -1 have system handler registers, device interrupts their own. */
    static predicate HasPriority(irq: int) {
      -12 <= irq < 240
    }

    ghost function Cell(irq: int): bv8
      requires Valid() && HasPriority(irq)
      reads ip, shp
    {
      if irq < 0 then shp[irq + 16 - 4] else ip[irq]
    }

    method SetPriority(irq: int, priority: bv32)
      requires Valid() && HasPriority(irq)
      modifies ip, shp
      ensures Valid()
      ensures shp[..] == if irq < 0 then old(shp[..])[irq + 12 := Stored(n, priority)] else old(shp[..])
      ensures ip[..] == if irq < 0 then old(ip[..]) else old(ip[..])[irq := Stored(n, priority)]
      ensures Cell(irq) == Stored(n, priority)
      ensures forall other :: HasPriority(other) && other != irq ==> Cell(other) == old(Cell(other))
    {
      var cell := ((priority << (8 - n)) & 0xFF) as bv8;
      if irq < 0 {
        shp[irq % 16 - 4] := cell;
      } else {
        ip[irq] := cell;
      }
    }

    method GetPriority(irq: int) returns (priority: bv32)
      requires Valid() && HasPriority(irq)
      ensures priority == Loaded(n, Cell(irq))
      ensures priority == if irq < 0 then shp[irq + 12] as bv32 >> (8 - n) else ip[irq] as bv32 >> (8 - n)
    {
      if irq < 0 {
        priority := shp[irq % 16 - 4] as bv32 >> (8 - n);
      } else {
        priority := ip[irq] as bv32 >> (8 - n);
      }
    }
  }

  // ----- Fields of words

  lemma CutFits(w: bv32, k: Width)
    ensures Fits(Cut(w, k), k)
  {
  }

  lemma CutOfFitting(w: bv32, k: Width)
    requires Fits(w, k)
    ensures Cut(w, k) == w
  {
  }

  lemma UpperOfCombine(u: bv32, l: bv32, a: Width, b: Width)
    requires Fits(u, a) && Fits(l, b)
    ensures Upper(Combine(u, l, b), b) == u
  {
  }

  lemma LowerOfCombine(u: bv32, l: bv32, a: Width, b: Width)
    requires Fits(u, a) && Fits(l, b)
    ensures Cut(Combine(u, l, b), b) == l
  {
  }

  lemma CombineFits(u: bv32, l: bv32, a: Width, b: Width, n: PrioBits)
    requires Share(a, b, n) && Fits(u, a) && Fits(l, b)
    ensures Fits(Combine(u, l, b), n)
  {
  }

  lemma UpperFits(w: bv32, a: Width, b: Width, n: PrioBits)
    requires Share(a, b, n) && Fits(w, n)
    ensures Fits(Upper(w, b), a)
  {
    if n == 1 {} else if n == 2 {} else if n == 3 {} else if n == 4 {}
    else if n == 5 {} else if n == 6 {} else if n == 7 {} else {}
  }

  lemma CombineOfParts(w: bv32, b: Width, n: PrioBits)
    requires Fits(w, n)
    ensures Combine(Upper(w, b), Cut(w, b), b) == w
  {
  }

  predicate Below(v: bv32, w: bv32) {
    v < w
  }

  predicate IsByte(w: bv32) {
    w < 256
  }

  lemma FittingIsByte(w: bv32, k: Width)
    requires Fits(w, k)
    ensures IsByte(w)
  {
  }

  lemma UpperStep(w: bv32, b: Width)
    ensures b > 0 ==> Upper(w, b) == Upper(Upper(w, b - 1), 1)
    ensures Upper(w, 0) == w
  {
  }

  lemma HalvesOrder(v: bv32, w: bv32)
    requires Below(Upper(v, 1), Upper(w, 1))
    ensures Below(v, w)
  {
  }

  lemma {:induction false} UpperOrders(v: bv32, w: bv32, b: Width)
    requires Below(Upper(v, b), Upper(w, b))
    ensures Below(v, w)
    decreases b
  {
    hide Upper, Below;
    UpperStep(v, b);
    UpperStep(w, b);
    if b > 0 {
      HalvesOrder(Upper(v, b - 1), Upper(w, b - 1));
      UpperOrders(v, w, b - 1);
    }
  }

  lemma UpperDecides(u1: bv32, l1: bv32, u2: bv32, l2: bv32, a: Width, b: Width)
    requires Fits(u1, a) && Fits(u2, a) && Fits(l1, b) && Fits(l2, b) && Below(u1, u2)
    ensures Below(Combine(u1, l1, b), Combine(u2, l2, b))
  {
    hide Ones, Fits, Combine, Upper, Below;
    UpperOfCombine(u1, l1, a, b);
    UpperOfCombine(u2, l2, a, b);
    UpperOrders(Combine(u1, l1, b), Combine(u2, l2, b), b);
  }

  lemma LowerDecides(u: bv32, l1: bv32, l2: bv32, b: Width)
    requires IsByte(u) && Fits(l1, b) && Fits(l2, b) && Below(l1, l2)
    ensures Below(Combine(u, l1, b), Combine(u, l2, b))
  {
  }

  lemma Asymmetric(v: bv32, w: bv32)
    ensures Below(v, w) ==> !Below(w, v) && v != w
  {
  }

  lemma Comparable(v: bv32, w: bv32)
    requires IsByte(v) && IsByte(w)
    ensures Below(v, w) || v == w || Below(w, v)
  {
  }

  lemma SameUpper(u: bv32, l1: bv32, l2: bv32, b: Width)
    requires IsByte(u) && Fits(l1, b) && Fits(l2, b)
    ensures Below(Combine(u, l1, b), Combine(u, l2, b)) <==> Below(l1, l2)
  {
    hide Ones, Fits, Combine, Below, IsByte;
    FittingIsByte(l1, b);
    FittingIsByte(l2, b);
    Comparable(l1, l2);
    if Below(l1, l2) {
      LowerDecides(u, l1, l2, b);
    } else if l1 == l2 {
      Asymmetric(Combine(u, l1, b), Combine(u, l2, b));
    } else {
      LowerDecides(u, l2, l1, b);
      Asymmetric(Combine(u, l2, b), Combine(u, l1, b));
    }
  }

  lemma CombineOrder(u1: bv32, l1: bv32, u2: bv32, l2: bv32, a: Width, b: Width)
    requires Fits(u1, a) && Fits(u2, a) && Fits(l1, b) && Fits(l2, b)
    ensures Below(Combine(u1, l1, b), Combine(u2, l2, b)) <==> Below(u1, u2) || (u1 == u2 && Below(l1, l2))
  {
    hide Ones, Fits, Combine, Below, IsByte;
    FittingIsByte(u1, a);
    FittingIsByte(u2, a);
    Comparable(u1, u2);
    if Below(u1, u2) {
      UpperDecides(u1, l1, u2, l2, a, b);
    } else if u1 == u2 {
      SameUpper(u1, l1, l2, b);
    } else {
      UpperDecides(u2, l2, u1, l1, a, b);
      Asymmetric(Combine(u2, l2, b), Combine(u1, l1, b));
    }
  }

  lemma StoredBack(n: PrioBits, w: bv32)
    requires Fits(w, n)
    ensures Loaded(n, Stored(n, w)) == w
  {
  }

  // ----- Priorities

  lemma EncodeFits(n: PrioBits, group: bv32, preempt: bv32, sub: bv32)
    ensures Fits(Encode(n, group, preempt, sub), n)
  {
    hide PreemptBits, SubBits, Share, Ones, Fits, Cut, Combine;
    var a, b := PreemptBits(n, group), SubBits(n, group);
    WidthsShare(n, group);
    CutFits(preempt, a);
    CutFits(sub, b);
    CombineFits(Cut(preempt, a), Cut(sub, b), a, b, n);
  }

  lemma DecodeOfEncode(n: PrioBits, group: bv32, preempt: bv32, sub: bv32)
    ensures Decode(n, group, Encode(n, group, preempt, sub))
      == (Cut(preempt, PreemptBits(n, group)), Cut(sub, SubBits(n, group)))
  {
    hide PreemptBits, SubBits, Ones, Fits, Cut, Combine, Upper;
    var a, b := PreemptBits(n, group), SubBits(n, group);
    CutFits(preempt, a);
    CutFits(sub, b);
    UpperOfCombine(Cut(preempt, a), Cut(sub, b), a, b);
    LowerOfCombine(Cut(preempt, a), Cut(sub, b), a, b);
    CutOfFitting(Cut(preempt, a), a);
  }

  lemma Masks(n: PrioBits, group: bv32, preempt: bv32, sub: bv32)
    ensures var g := group & 7;
      var a := if 7 - g < n then 7 - g else n;
      && Cut(preempt, PreemptBits(n, group)) == preempt & ((1 << a) - 1)
      && Cut(sub, SubBits(n, group)) == sub & ((1 << (n - a)) - 1)
  {
  }

  /**
   Setting an encoded priority, reading it back and decoding it yields the low 7 - g bits of the preempt
   part, n if that is less, and of the sub part as many low bits as are left of n.
   */
  lemma SetGetDecode(n: PrioBits, group: bv32, preempt: bv32, sub: bv32)
    ensures var g := group & 7;
      var a := if 7 - g < n then 7 - g else n;
      Decode(n, group, Loaded(n, Stored(n, Encode(n, group, preempt, sub))))
      == (preempt & ((1 << a) - 1), sub & ((1 << (n - a)) - 1))
  {
    hide PreemptBits, SubBits, Ones, Fits, Cut, Encode, Decode, Loaded, Stored;
    EncodeFits(n, group, preempt, sub);
    StoredBack(n, Encode(n, group, preempt, sub));
    DecodeOfEncode(n, group, preempt, sub);
    Masks(n, group, preempt, sub);
  }

  /** A stored priority fills the cell from the top: the n upper bits are its low n bits, the others zero. */
  lemma StoredAtTop(n: PrioBits, priority: bv32)
    ensures Stored(n, priority) as bv32 >> (8 - n) == priority & ((1 << n) - 1)
    ensures Stored(n, priority) as bv32 & ((1 << (8 - n)) - 1) == 0
  {
  }

  /** The bits of a cell above bit g, and the others. */
  function Above(cell: bv8, g: bv32): bv32
    requires g <= 7
  {
    cell as bv32 >> (g + 1)
  }

  function UpTo(cell: bv8, g: bv32): bv32
    requires g <= 7
  {
    cell as bv32 & ((2 << g) - 1)
  }

  /** The preempt and sub widths of group g. */
  predicate GroupWidths(n: PrioBits, g: bv32, a: Width, b: Width) {
    g <= 7 && a == (if 7 - g < n then 7 - g else n) && Share(a, b, n)
  }

  lemma UpperIgnoresLow(n: PrioBits, u: bv32, l: bv32, l': bv32, a: Width, b: Width, g: bv32)
    requires GroupWidths(n, g, a, b) && Fits(u, a) && Fits(l, b) && Fits(l', b)
    ensures Above(Stored(n, Combine(u, l, b)), g) == Above(Stored(n, Combine(u, l', b)), g)
  {
    if n == 1 {} else if n == 2 {} else if n == 3 {} else if n == 4 {}
    else if n == 5 {} else if n == 6 {} else if n == 7 {} else {}
  }

  lemma LowIgnoresUpper(n: PrioBits, u: bv32, u': bv32, l: bv32, a: Width, b: Width, g: bv32)
    requires GroupWidths(n, g, a, b) && Fits(u, a) && Fits(u', a) && Fits(l, b)
    ensures UpTo(Stored(n, Combine(u, l, b)), g) == UpTo(Stored(n, Combine(u', l, b)), g)
  {
    if n == 1 {} else if n == 2 {} else if n == 3 {} else if n == 4 {}
    else if n == 5 {} else if n == 6 {} else if n == 7 {} else {}
  }

  lemma WidthsOfGroup(n: PrioBits, group: bv32)
    ensures GroupWidths(n, group & 7, PreemptBits(n, group), SubBits(n, group))
  {
  }

  /**
   In the stored cell the group number is the dividing bit: the bits above it depend on the preempt part
   alone, it and the bits below on the sub part alone.
   */
  lemma GroupSplitsCell(n: PrioBits, group: bv32, p: bv32, s: bv32, p': bv32, s': bv32)
    ensures var g, cell := group & 7, Stored(n, Encode(n, group, p, s));
      && Above(cell, g) == Above(Stored(n, Encode(n, group, p, s')), g)
      && UpTo(cell, g) == UpTo(Stored(n, Encode(n, group, p', s)), g)
  {
    hide PreemptBits, SubBits, Ones, Fits, Cut, Combine, Stored, Above, UpTo;
    var a, b, g := PreemptBits(n, group), SubBits(n, group), group & 7;
    WidthsOfGroup(n, group);
    CutFits(p, a);
    CutFits(p', a);
    CutFits(s, b);
    CutFits(s', b);
    UpperIgnoresLow(n, Cut(p, a), Cut(s, b), Cut(s', b), a, b, g);
    LowIgnoresUpper(n, Cut(p, a), Cut(p', a), Cut(s, b), a, b, g);
  }

  /** Encoding a decoded n-bit priority gives it back. */
  lemma EncodeOfDecode(n: PrioBits, group: bv32, priority: bv32)
    requires Fits(priority, n)
    ensures Encode(n, group, Decode(n, group, priority).0, Decode(n, group, priority).1) == priority
  {
    hide PreemptBits, SubBits, Share, Ones, Fits, Cut, Combine, Upper;
    var a, b := PreemptBits(n, group), SubBits(n, group);
    WidthsShare(n, group);
    UpperFits(priority, a, b, n);
    CombineOfParts(priority, b, n);
    CutOfFitting(Upper(priority, b), a);
    CutFits(priority, b);
    CutOfFitting(Cut(priority, b), b);
  }

  /** Comparing encodings as numbers compares the preempt parts first and the sub parts second. */
  lemma EncodingOrder(n: PrioBits, group: bv32, p1: bv32, s1: bv32, p2: bv32, s2: bv32)
    ensures var a, b := PreemptBits(n, group), SubBits(n, group);
      Below(Encode(n, group, p1, s1), Encode(n, group, p2, s2))
      <==> Below(Cut(p1, a), Cut(p2, a)) || (Cut(p1, a) == Cut(p2, a) && Below(Cut(s1, b), Cut(s2, b)))
  {
    hide PreemptBits, SubBits, Ones, Fits, Cut, Combine, Below;
    var a, b := PreemptBits(n, group), SubBits(n, group);
    CutFits(p1, a);
    CutFits(s1, b);
    CutFits(p2, a);
    CutFits(s2, b);
    CombineOrder(Cut(p1, a), Cut(s1, b), Cut(p2, a), Cut(s2, b), a, b);
  }
}
