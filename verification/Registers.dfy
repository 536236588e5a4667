/** The simulated devices, their register file with its reset values, and the packing of table entries into it. */
module Registers {
  import opened MacAddress
  import opened AtuSpec
  import opened VtuSpec

  // ----- Devices

  /** Which of the four read/write dispatchers serves the device. */
  datatype Family = F6052 | F6021 | F6063 | F6083

  datatype Device =
    Device(family: Family, id: bv16, phys: nat, ports: nat, portBase: nat, globalBase: nat, vtuSize: nat)
  {
    /** PHY, port and global registers occupy disjoint rows of the register file. */
    predicate Fits() {
      0 < phys <= 8 <= portBase && portBase + ports <= globalBase < 31 && ports <= 10 && vtuSize <= 0x40
    }

    predicate IsGlobal(p: nat) { p == globalBase }

    predicate IsPort(p: nat) { portBase <= p < portBase + ports }

    predicate IsPhy(p: nat) { p < phys }
  }

  /** Geometry by device id, at base address 0; unknown ids become an 88E6063. */
  function DeviceOf(devId: nat): (d: Device)
    ensures d.Fits()
  {
    if devId == 0x021 then Device(F6021, 0x021, 2, 3, 8, 15, 16)
    else if devId == 0x051 then Device(F6052, 0x051, 5, 6, 8, 15, 0)
    else if devId == 0x052 then Device(F6052, 0x052, 5, 7, 8, 15, 0)
    else if devId == 0xF53 then Device(F6063, 0xF53, 5, 7, 8, 15, 64)
    else if devId == 0xF91 then Device(F6063, 0xF91, 5, 7, 8, 15, 0)
    else if devId == 0xF93 then Device(F6063, 0xF93, 5, 7, 8, 15, 0)
    else if devId == 0x083 then Device(F6083, 0x083, 8, 10, 0x10, 0x1B, 64)
    else Device(F6063, 0x153, 5, 7, 8, 15, 64)
  }

  // ----- The register file

  type Regs = r: seq<bv16> | |r| == 0x400 witness seq(0x400, _ => 0)

  function At(p: nat, r: nat): (i: nat)
    requires p < 32 && r < 32
    ensures i < 0x400
  {
    32 * p + r
  }

  lemma AtInjective(p: nat, r: nat, p': nat, r': nat)
    requires p < 32 && r < 32 && p' < 32 && r' < 32
    ensures At(p, r) == At(p', r') <==> p == p' && r == r'
    ensures At(p, r) / 32 == p && At(p, r) % 32 == r
  {
  }

  function PhyDefault(r: nat): bv16 {
    if r == 0 then 0x3100 else if r == 1 then 0x7849 else if r == 2 then 0x0141 else if r == 3 then 0x0C1F
    else if r == 4 then 0x01E1 else if r == 5 then 0 else if r == 6 then 4 else if r == 7 then 0x2001
    else if r == 8 then 0 else if r == 16 then 0x130 else if r == 17 then 0x40 else if r == 18 then 0
    else if r == 19 then 0x40 else if r == 20 then 0 else if r == 21 then 0 else if r == 22 then 0xA34
    else if r == 23 then 0x3FC else if r == 24 then 0x42BF else 0xFFFF
  }

  function PortDefault(dev: Device, p: nat, r: nat): bv16
    requires 8 <= p < 32
  {
    if r == 0 then 0x800 else if r == 3 then dev.id << 4 else if r == 4 then 0x7F
    else if r == 6 then (0x7F & !((1 as bv32) << (p - 8)) & 0xFFFF) as bv16 else if r == 7 then 1
    else if r == 16 || r == 17 then 0 else 0xFFFF
  }

  function GlobalDefault(family: Family, r: nat): bv16 {
    if r == 0 then 0x3C01 else if r <= 3 then 0 else if r == 4 then 0x81
    else if r == 10 then 0x1130 else if 11 <= r <= 17 then 0
    else if r == 18 || r == 19 then 0x5555 else if r == 20 || r == 21 then 0xAAAA
    else if r == 22 || r == 23 then 0xFFFF else if r == 24 then 0xFA41
    else if family != F6052 && (5 <= r <= 7 || 29 <= r) then 0
    else if (family == F6063 || family == F6083) && r == 8 then 0
    else if family == F6083 && r == 9 then 0
    else 0xFFFF
  }

  function DefaultReg(dev: Device, p: nat, r: nat): bv16
    requires p < 32
  {
    if dev.IsGlobal(p) then GlobalDefault(dev.family, r)
    else if dev.IsPort(p) && 8 <= p then PortDefault(dev, p, r)
    else if dev.IsPhy(p) then PhyDefault(r)
    else 0xFFFF
  }

  function DefaultRegs(dev: Device): Regs {
    seq(0x400, i requires 0 <= i < 0x400 => DefaultReg(dev, i / 32, i % 32))
  }

  // ----- Packing of address entries: global registers 11 to 15

  function Pack(hi: bv8, lo: bv8): bv16 {
    (hi as bv16 << 8) | lo as bv16
  }

  function Hi(w: bv16): bv8 { ((w >> 8) & 0xFF) as bv8 }

  function Lo(w: bv16): bv8 { (w & 0xFF) as bv8 }

  lemma PackUnpack(hi: bv8, lo: bv8, w: bv16)
    ensures Hi(Pack(hi, lo)) == hi && Lo(Pack(hi, lo)) == lo
    ensures Pack(Hi(w), Lo(w)) == w
  {
  }

  /** A register as a number, and a number as a register. */
  function NumOf(w: bv16): nat {
    Hi(w) as nat * 256 + Lo(w) as nat
  }

  function Word(n: nat): bv16
    requires n < 0x1_0000
  {
    Pack((n / 256) as bv8, (n % 256) as bv8)
  }

  lemma ByteBack(n: nat)
    requires n < 256
    ensures (n as bv8) as nat == n
    ensures n < 16 ==> n as bv8 < 16
  {
  }

  function Valid(w: bv16): bv16 {
    (w & 0xFFF) | 0x1000
  }

  /** A VLAN id survives the masking and the valid bit of its register. */
  lemma VidBack(v: nat)
    requires v < 0x1000
    ensures NumOf(Valid(Word(v)) & 0x1FFF) == v + 0x1000
  {
    var hi, lo := (v / 256) as bv8, (v % 256) as bv8;
    ByteBack(v / 256);
    ByteBack(v % 256);
    ValidBit(hi);
    VidBits(hi, lo);
    hide Hi, Lo, Pack;
    assert Word(v) == Pack(hi, lo);
  }

  lemma VidBits(hi: bv8, lo: bv8)
    requires hi < 16
    ensures var w := ((Pack(hi, lo) & 0xFFF) | 0x1000) & 0x1FFF; Hi(w) == hi | 0x10 && Lo(w) == lo
  {
  }

  lemma ValidBit(hi: bv8)
    requires hi < 16
    ensures (hi | 0x10) as nat == hi as nat + 16
  {
  }

  lemma VidWidth(w: bv16)
    ensures NumOf(w & 0x1FFF) < 0x2000
  {
  }

  function SetNibble(w: bv16, n: bv16): bv16 {
    (w & 0xFFF0) | (n & 0xF)
  }

  function GetAtuInfo(regs: Regs, g: nat): (e: AtuEntry)
    requires g < 32
  {
    var m01, m23, m45 := regs[At(g, 13)], regs[At(g, 14)], regs[At(g, 15)];
    AtuEntry(regs[At(g, 12)], regs[At(g, 11)] & 0xF, [Hi(m01), Lo(m01), Hi(m23), Lo(m23), Hi(m45), Lo(m45)])
  }

  function SetAtuInfo(regs: Regs, g: nat, e: AtuEntry): (r: Regs)
    requires g < 32
  {
    regs[At(g, 12) := e.data]
        [At(g, 13) := Pack(e.mac[0], e.mac[1])][At(g, 14) := Pack(e.mac[2], e.mac[3])]
        [At(g, 15) := Pack(e.mac[4], e.mac[5])][At(g, 11) := SetNibble(regs[At(g, 11)], e.db)]
  }

  function ResetAtuInfo(regs: Regs, g: nat): (r: Regs)
    requires g < 32
  {
    regs[At(g, 11) := SetNibble(regs[At(g, 11)], 0)][At(g, 12) := 0]
        [At(g, 13) := 0xFFFF][At(g, 14) := 0xFFFF][At(g, 15) := 0xFFFF]
  }

  /**
   Writing an entry and reading it back is the identity for the sixteen database numbers the field can
   hold, and only those.
   */
  lemma SetGetAtu(regs: Regs, g: nat, e: AtuEntry)
    requires g < 32
    ensures GetAtuInfo(SetAtuInfo(regs, g, e), g) == e <==> e.db < 16
  {
    var r := SetAtuInfo(regs, g, e);
    PackUnpack(e.mac[0], e.mac[1], 0);
    PackUnpack(e.mac[2], e.mac[3], 0);
    PackUnpack(e.mac[4], e.mac[5], 0);
    assert GetAtuInfo(r, g).mac == e.mac;
    NibbleBack(regs[At(g, 11)], e.db);
  }

  lemma NibbleBack(w: bv16, n: bv16)
    ensures SetNibble(w, n) & 0xF == n <==> n < 16
    ensures SetNibble(w, w & 0xF) == w
  {
  }

  /** Reading the registers as an entry and writing that entry back changes nothing. */
  lemma GetSetAtu(regs: Regs, g: nat)
    requires g < 32
    ensures SetAtuInfo(regs, g, GetAtuInfo(regs, g)) == regs
  {
    PackUnpack(0, 0, regs[At(g, 13)]);
    PackUnpack(0, 0, regs[At(g, 14)]);
    PackUnpack(0, 0, regs[At(g, 15)]);
    NibbleBack(regs[At(g, 11)], 0);
  }

  /** What is read after a search that found nothing. */
  const NOTHING_FOUND := AtuEntry(0, 0, BROADCAST)

  /** The reset pattern reads as the broadcast address, which makes the next Get-Next start over. */
  lemma ResetGetAtu(regs: Regs, g: nat)
    requires g < 32
    ensures GetAtuInfo(ResetAtuInfo(regs, g), g) == NOTHING_FOUND
  {
    NibbleBack(regs[At(g, 11)], 0);
    var r := ResetAtuInfo(regs, g);
    assert r[At(g, 11)] == SetNibble(regs[At(g, 11)], 0) && r[At(g, 12)] == 0;
    assert r[At(g, 13)] == r[At(g, 14)] == r[At(g, 15)] == 0xFFFF;
    assert GetAtuInfo(r, g).mac == BROADCAST;
  }

  // ----- Packing of VLAN entries: global registers 5 to 9

  function Tag(w: bv16, k: nat): (t: bv16)
    requires k < 4
    ensures t < 4
  {
    (w >> (4 * k)) & 0x3
  }

  function PackTags(a: bv16, b: bv16, c: bv16, d: bv16): bv16 {
    a | (b << 4) | (c << 8) | (d << 12)
  }

  lemma PackTagsBack(a: bv16, b: bv16, c: bv16, d: bv16)
    requires a < 4 && b < 4 && c < 4 && d < 4
    ensures var w := PackTags(a, b, c, d);
      Tag(w, 0) == a && Tag(w, 1) == b && Tag(w, 2) == c && Tag(w, 3) == d
  {
  }

  /** The VLAN id is read with its valid bit 0x1000. */
  function GetVtuInfo(regs: Regs, g: nat): (e: VtuEntry)
    requires g < 32
  {
    VtuOf(regs[At(g, 5)], regs[At(g, 6)], regs[At(g, 7)], regs[At(g, 8)], regs[At(g, 9)])
  }

  function VtuOf(w5: bv16, w6: bv16, w7: bv16, w8: bv16, w9: bv16): VtuEntry {
    VtuEntry(w5 & 0xF,
             [Tag(w7, 0), Tag(w7, 1), Tag(w7, 2), Tag(w7, 3), Tag(w8, 0), Tag(w8, 1), Tag(w8, 2), Tag(w8, 3),
              Tag(w9, 0), Tag(w9, 1)],
             NumOf(w6 & 0x1FFF))
  }

  /** Global registers 5 to 9 with new words. */
  function VtuStored(regs: Regs, g: nat, w5: bv16, w6: bv16, w7: bv16, w8: bv16, w9: bv16): (r: Regs)
    requires g < 32
  {
    regs[At(g, 5) := w5][At(g, 6) := w6][At(g, 7) := w7][At(g, 8) := w8][At(g, 9) := w9]
  }

  /** The id register's word: twelve bits and the valid bit. */
  function VidWord(v: nat): bv16 {
    Valid(Word(v % 0x1_0000))
  }

  function MergeDb(w: bv16, db: bv16): bv16 {
    w | db
  }

  /** The k-th member tag register. */
  function TagWord(t: Tags, k: nat): bv16
    requires k < 3
  {
    if k == 0 then PackTags(t[0], t[1], t[2], t[3])
    else if k == 1 then PackTags(t[4], t[5], t[6], t[7])
    else PackTags(t[8], t[9], 0, 0)
  }

  function SetVtuInfo(regs: Regs, g: nat, e: VtuEntry): (r: Regs)
    requires g < 32
  {
    VtuStored(regs, g, MergeDb(regs[At(g, 5)], e.db), VidWord(e.vid), TagWord(e.tags, 0), TagWord(e.tags, 1),
              TagWord(e.tags, 2))
  }

  /** What the table can hold: every field within the width its register gives it. */
  predicate Storable(e: VtuEntry) {
    e.db < 16 && e.vid < 0x1000 && TagsFit(e.tags)
  }

  predicate TagsFit(t: Tags) {
    t[0] < 4 && t[1] < 4 && t[2] < 4 && t[3] < 4 && t[4] < 4 && t[5] < 4 && t[6] < 4 && t[7] < 4 && t[8] < 4 && t[9] < 4
  }

  /** What Get reads always fits the table once the valid bit is masked. */
  lemma GotIsStorable(regs: Regs, g: nat)
    requires g < 32
    ensures var e := GetVtuInfo(regs, g); Storable(e.(vid := e.vid % 0x1000)) && e.vid < 0x2000
  {
    hide Tag, NumOf, At, Storable, VtuOf;
    WordsAreStorable(regs[At(g, 5)], regs[At(g, 6)], regs[At(g, 7)], regs[At(g, 8)], regs[At(g, 9)]);
  }

  lemma NibbleSmall(w: bv16)
    ensures w & 0xF < 16
  {
  }

  lemma TagsRead(w7: bv16, w8: bv16, w9: bv16)
    ensures TagsFit(VtuOf(0, 0, w7, w8, w9).tags)
  {
    hide Tag, NumOf;
  }

  lemma WordsAreStorable(w5: bv16, w6: bv16, w7: bv16, w8: bv16, w9: bv16)
    ensures var e := VtuOf(w5, w6, w7, w8, w9); Storable(e.(vid := e.vid % 0x1000)) && e.vid < 0x2000
  {
    VidWidth(w6);
    NibbleSmall(w5);
    hide Tag, NumOf, TagsFit;
    TagsRead(w7, w8, w9);
  }

  lemma DbMerged(w: bv16, d: bv16)
    requires d < 16
    ensures (w | d) & 0xF == (w & 0xF) | d
  {
  }

  lemma VtuStoredAt(regs: Regs, g: nat, w5: bv16, w6: bv16, w7: bv16, w8: bv16, w9: bv16)
    requires g < 32
    ensures GetVtuInfo(VtuStored(regs, g, w5, w6, w7, w8, w9), g) == VtuOf(w5, w6, w7, w8, w9)
  {
    hide VtuOf;
  }

  lemma VidWordBack(v: nat)
    requires v < 0x1000
    ensures NumOf(VidWord(v) & 0x1FFF) == v + 0x1000
  {
    hide NumOf, Valid, Word;
    VidBack(v);
  }

  lemma TagWordsBack(t: Tags)
    requires TagsFit(t)
    ensures VtuOf(0, 0, TagWord(t, 0), TagWord(t, 1), TagWord(t, 2)).tags == t
  {
    hide PackTags, Tag, NumOf;
    PackTagsBack(t[0], t[1], t[2], t[3]);
    PackTagsBack(t[4], t[5], t[6], t[7]);
    PackTagsBack(t[8], t[9], 0, 0);
  }

  lemma VtuOfPacked(w: bv16, d: bv16, v: nat, t: Tags)
    requires d < 16 && v < 0x1000 && TagsFit(t)
    ensures VtuOf(MergeDb(w, d), VidWord(v), TagWord(t, 0), TagWord(t, 1), TagWord(t, 2))
      == VtuEntry((w & 0xF) | d, t, v + 0x1000)
  {
    hide TagWord, Tag, NumOf, VidWord;
    DbMerged(w, d);
    VidWordBack(v);
    TagWordsBack(t);
  }

  /**
   Writing an entry and reading it back gives its VLAN id with the valid bit, its ten tags, and its
   database merged into the old one.
   */
  lemma SetGetVtu(regs: Regs, g: nat, e: VtuEntry)
    requires g < 32 && Storable(e)
    ensures GetVtuInfo(SetVtuInfo(regs, g, e), g)
      == VtuEntry((regs[At(g, 5)] & 0xF) | e.db, e.tags, e.vid + 0x1000)
  {
    hide TagWord, MergeDb, VtuStored, VtuOf, GetVtuInfo, VidWord, TagsFit, At;
    var t, w := e.tags, regs[At(g, 5)];
    VtuStoredAt(regs, g, MergeDb(w, e.db), VidWord(e.vid), TagWord(t, 0), TagWord(t, 1), TagWord(t, 2));
    VtuOfPacked(w, e.db, e.vid, t);
  }
}
