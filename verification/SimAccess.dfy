/** Plain register access: what is stored is read back, and which registers can be written. */
module SimAccess {
  import opened Sequences
  import opened Registers
  import opened SimSpec
  import opened SimInvariant

  /**
   The registers a write can reach. Port status is among them for the high port numbers only, where its
   duplex bit can be set, and on the 88E6051 and 88E6052 never.
   */
  predicate Writable(dev: Device, p: nat, r: nat) {
    var f := dev.family;
    if dev.IsGlobal(p) then
      1 <= r <= 4 || 10 <= r <= 24 || (f != F6052 && (5 <= r <= 8 || r == 29)) || (f == F6083 && r == 9)
    else if dev.IsPort(p) then
      || r == 4 || r == 6 || r == 7
      || (f != F6052 && f != F6021 && (r == 10 || r == 11))
      || (r == 0 && ((f == F6021 && p >= 10) || (f != F6052 && f != F6021 && p >= 13)))
    else
      dev.IsPhy(p) && (r == 0 || r == 4 || r == 7 || r == 16 || r == 18)
  }

  predicate Operates(dev: Device, p: nat, r: nat) {
    dev.IsGlobal(p) && (r == 5 || r == 11 || r == 29)
  }

  /** Writable registers without a behaviour of their own; global control is one unless the reload bit is set. */
  predicate Plain(dev: Device, p: nat, r: nat, value: bv32) {
    && Writable(dev, p, r) && !Operates(dev, p, r)
    && !(dev.IsPort(p) && r == 0) && !(dev.IsPhy(p) && r == 0)
    && !(dev.IsGlobal(p) && r == 4 && value & 0x200 != 0)
  }

  /** What a plain write stores: the low 16 bits, in ATU control without bit 15. */
  function PlainWord(dev: Device, p: nat, r: nat, value: bv32): bv16 {
    (if dev.IsGlobal(p) && r == 10 then value & 0x7FFF else value & 0xFFFF) as bv16
  }

  lemma MaskedWord(value: bv32)
    ensures Low16(value) == (value & 0xFFFF) as bv16
    ensures Low16(value) & 0x7FFF == (value & 0x7FFF) as bv16
  {
  }

  lemma PlainStores(dev: Device, p: nat, r: nat, value: bv32)
    requires dev.Fits() && Plain(dev, p, r, value)
    ensures WriteAction(dev, p, r, value) == Store(PlainWord(dev, p, r, value))
  {
    hide Low16;
    MaskedWord(value);
  }

  /**
   A read through either alias of the row shows the low 16 bits of what was written, in ATU control without
   bit 15; no other register, table or flag is disturbed.
   */
  lemma WriteReadBack(s: Sim, port: nat, port': nat, r: nat, value: bv32)
    requires Inv(s) && Norm(port) < 32 && r < 32 && Norm(port') == Norm(port)
    requires Plain(s.dev, Norm(port), r, value)
    ensures var p, (s', ok) := Norm(port), Write(s, port, r, value);
      && ok && s' == s.(regs := s.regs[At(p, r) := PlainWord(s.dev, p, r, value)])
      && Read(s', port', r).1 == Some(PlainWord(s.dev, p, r, value))
  {
    PlainStores(s.dev, Norm(port), r, value);
    PhySummaryNotPlain(s.dev, Norm(port), r, value);
    hide AtuInv, VtuInv, RegInv, AtuOperation, VtuOperation, StatsOperation, PhyControl, DefaultRegs, WriteAction,
      PlainWord,
      Plain, ReadEffect;
  }

  lemma PhySummaryNotPlain(dev: Device, p: nat, r: nat, value: bv32)
    requires dev.Fits() && Plain(dev, p, r, value)
    ensures !(dev.IsPhy(p) && r == 20)
  {
  }

  /** Where port status is writable, its duplex bit takes the written value and nothing else changes. */
  lemma PortStatusWrite(s: Sim, port: nat, value: bv32)
    requires Inv(s) && Norm(port) < 32 && s.dev.IsPort(Norm(port)) && Writable(s.dev, Norm(port), 0)
    ensures var i, (s', ok) := At(Norm(port), 0), Write(s, port, 0, value);
      && ok && s' == s.(regs := s.regs[i := s'.regs[i]])
      && (s'.regs[i] & 0x200 != 0 <==> value & 0x200 != 0)
      && s'.regs[i] & 0xFDFF == s.regs[i] & 0xFDFF
  {
    hide AtuInv, VtuInv, RegInv, AtuOperation, VtuOperation, StatsOperation, Low16, PhyControl, DefaultRegs;
    DuplexBit(s.regs[At(Norm(port), 0)], value);
  }

  lemma DuplexBit(w: bv16, value: bv32)
    ensures var w' := (w & !0x200) | (Low16(value) & 0x200);
      (w' & 0x200 != 0 <==> value & 0x200 != 0) && w' & 0xFDFF == w & 0xFDFF
  {
  }

  /** A reload resets every register of the file and leaves both tables and the statistics alone. */
  lemma ReloadWrite(s: Sim, port: nat, value: bv32)
    requires Inv(s) && Norm(port) == s.dev.globalBase && value & 0x200 != 0
    ensures Write(s, port, 4, value) == (s.(regs := DefaultRegs(s.dev)), true)
  {
    var g := s.dev.globalBase;
    DefaultRegsAt(s.dev, g, 0);
    assert WriteAction(s.dev, Norm(port), 4, value).Reload?;
    ResetWord(s.dev);
    hide AtuInv, VtuInv, RegInv, AtuOperation, VtuOperation, StatsOperation, DefaultRegs, DefaultReg;
    var d := DefaultRegs(s.dev);
    assert d[At(g, 0) := d[At(g, 0)] | 1] == d;
  }

  lemma ResetWord(dev: Device)
    requires dev.Fits()
    ensures DefaultReg(dev, dev.globalBase, 0) | 1 == DefaultReg(dev, dev.globalBase, 0)
  {
  }

  /** Addresses 0x20 to 0x3F reach the same rows as 0 to 0x1F; higher ones reach nothing. */
  lemma RowAliases(s: Sim, port: nat, r: nat, value: bv32)
    requires Inv(s)
    ensures port < 32 ==> Write(s, port + 32, r, value) == Write(s, port, r, value)
    ensures port < 32 ==> Read(s, port + 32, r) == Read(s, port, r)
    ensures port >= 64 ==> Write(s, port, r, value) == (s, false) && Read(s, port, r) == (s, None)
  {
    hide AtuInv, VtuInv, RegInv, AtuOperation, VtuOperation, StatsOperation, PlainWrite, WriteAction, ReadEffect;
  }

  /**
   A write to any other register, or outside the register file, is refused and changes nothing; one to a
   writable register succeeds and changes registers only, the three operation registers apart.
   */
  lemma ReadOnlyIsRejected(s: Sim, port: nat, r: nat, value: bv32)
    requires Inv(s)
    ensures var p, (s', ok) := Norm(port), Write(s, port, r, value);
      if p >= 32 || r >= 32 || !Writable(s.dev, p, r) then s' == s && !ok
      else Operates(s.dev, p, r) || (ok && s' == s.(regs := s'.regs))
  {
    hide AtuInv, VtuInv, RegInv, AtuOperation, VtuOperation, StatsOperation, PlainWrite;
  }
}
