/** The path of a 68040/68060 table search on raw longwords and address bits. */
module Path040 {
  import opened Words
  import opened Bits
  import opened Walk040

  // ---------------------------------------------------------------- addresses

  /** The root table of the privilege asked for: the pointer with its low 9 bits clear, plus address
      bits 31-25 times 4. */
  function RootAt(c: Cfg, q: Ask): u32
  {
    var p := if q.super then c.srp else c.urp;
    (p - p % 0x200 + And(q.addr / 0x80_0000, 0x1fc)) % 0x1_0000_0000
  }

  /** The pointer table: low 9 bits clear, plus address bits 24-18 times 4. */
  function PointerAt(q: Ask, d: u32): u32
  {
    (d - d % 0x200 + And(q.addr / 0x1_0000, 0x1fc)) % 0x1_0000_0000
  }

  /** The page table: with 8K pages low 7 bits clear, plus address bits 17-13 times 4; with 4K pages
      low 8 bits clear, plus address bits 17-12 times 4. */
  function PageAt(c: Cfg, q: Ask, d: u32): u32
  {
    (if c.big then d - d % 0x80 + And(q.addr / 0x800, 0x7c) else d - d % 0x100 + And(q.addr / 0x400, 0xfc))
    % 0x1_0000_0000
  }

  lemma AndTimes4(x: nat, n: nat)
    ensures And(x, 4 * (Pow2(n) - 1)) == x / 4 % Pow2(n) * 4
  {
    hide And; hide Pow2;
    AndQuarter(x, Pow2(n) - 1);
    AndAllOnes(x / 4, n);
  }

  lemma AndQuarter(x: nat, m: nat)
    ensures And(x, 4 * m) == 4 * And(x / 4, m)
  {
    hide *;
    AndTwice(x, 2 * m);
    AndTwice(x / 2, m);
    assert 2 * (2 * m) == 4 * m && x / 2 / 2 == x / 4;
  }

  lemma AndTwice(x: nat, m: nat)
    ensures And(x, 2 * m) == 2 * And(x / 2, m)
  {
    hide And;
    AndEven(x, 2 * m);
    DivModUnique(2 * m, 2, m, 0);
  }

  lemma AddressFields(a: u32)
    ensures And(a / 0x80_0000, 0x1fc) == a / 0x200_0000 % 128 * 4 && And(a / 0x1_0000, 0x1fc) == a / 0x4_0000 % 128 * 4
    ensures And(a / 0x800, 0x7c) == a / 0x2000 % 32 * 4 && And(a / 0x400, 0xfc) == a / 0x1000 % 64 * 4
  {
    hide And;
    assert Pow2(7) == 128 && Pow2(5) == 32 && Pow2(6) == 64;
    hide Pow2;
    AndTimes4(a / 0x80_0000, 7);
    AndTimes4(a / 0x1_0000, 7);
    AndTimes4(a / 0x800, 5);
    AndTimes4(a / 0x400, 6);
  }

  /** The bits of a descriptor below its hi and mid fields. */
  function Low(w: Word): nat { Flag(w.m, 0x10) + Flag(w.u, 8) + Flag(w.wp, 4) + w.ty }

  lemma PointerMask(w: Word)
    ensures PointerTable(w) == Raw(w) - Raw(w) % 0x200
  {
    DivModUnique(Raw(w), 0x200, w.hi / 2, w.hi % 2 * 0x100 + w.mid * 0x20 + Low(w));
  }

  lemma PageMask(c: Cfg, w: Word)
    ensures PageTable(c, w) == Raw(w) - if c.big then Raw(w) % 0x80 else Raw(w) % 0x100
  {
    DivModUnique(Raw(w), 0x80, w.hi * 2 + w.mid / 4, w.mid % 4 * 0x20 + Low(w));
    DivModUnique(Raw(w), 0x100, w.hi, w.mid * 0x20 + Low(w));
  }

  lemma NoCarry(p: u32, i: nat)
    ensures i < 0x200 ==> Plus(p - p % 0x200, i) == p - p % 0x200 + i < WRAP
    ensures i < 0x100 ==> Plus(p - p % 0x100, i) == p - p % 0x100 + i < WRAP
    ensures i < 0x80 ==> Plus(p - p % 0x80, i) == p - p % 0x80 + i < WRAP
  {
    if i < 0x200 { Within(p, 0x200, 0x80_0000, i); }
    if i < 0x100 { Within(p, 0x100, 0x100_0000, i); }
    if i < 0x80 { Within(p, 0x80, 0x200_0000, i); }
  }

  lemma AlignMeans(a: u32)
    ensures Align(a, 512) == a - a % 0x200
  {
  }

  lemma Indices(a: u32)
    ensures a / 0x200_0000 % 128 * 4 < 0x200 && a / 0x4_0000 % 128 * 4 < 0x200
    ensures a / 0x2000 % 32 * 4 < 0x80 && a / 0x1000 % 64 * 4 < 0x100
  {
  }

  /** The addresses the search computes are those. */
  lemma RootMeans(c: Cfg, q: Ask)
    ensures RootEntry(c, q) == RootAt(c, q)
  {
    hide And; hide Plus; hide Align;
    AddressFields(q.addr);
    Indices(q.addr);
    var p := if q.super then c.srp else c.urp;
    AlignMeans(p);
    NoCarry(p, q.addr / 0x200_0000 % 128 * 4);
  }

  lemma PointerMeans(q: Ask, d: Word)
    ensures PointerEntry(q, d) == PointerAt(q, Raw(d))
  {
    hide And; hide Plus; hide Raw; hide PointerTable;
    AddressFields(q.addr);
    Indices(q.addr);
    PointerMask(d);
    NoCarry(Raw(d), q.addr / 0x4_0000 % 128 * 4);
  }

  lemma PageMeans(c: Cfg, q: Ask, d: Word)
    ensures PageEntry(c, q, d) == PageAt(c, q, Raw(d))
  {
    hide And; hide Plus; hide Raw; hide PageTable;
    PageMask(c, d);
    if c.big { BigPages(Raw(d), q.addr); } else { SmallPages(Raw(d), q.addr); }
  }

  lemma BigPages(p: u32, a: u32)
    ensures Plus(p - p % 0x80, a / 0x2000 % 32 * 4) == (p - p % 0x80 + And(a / 0x800, 0x7c)) % 0x1_0000_0000
  {
    hide And; hide Plus;
    AddressFields(a);
    Indices(a);
    NoCarry(p, a / 0x2000 % 32 * 4);
  }

  lemma SmallPages(p: u32, a: u32)
    ensures Plus(p - p % 0x100, a / 0x1000 % 64 * 4) == (p - p % 0x100 + And(a / 0x400, 0xfc)) % 0x1_0000_0000
  {
    hide And; hide Plus;
    AddressFields(a);
    Indices(a);
    NoCarry(p, a / 0x1000 % 64 * 4);
  }

  // ---------------------------------------------------------------- the search on longwords

  /** The search with every test and mask on raw longwords: bit 1 says that a table descriptor is
      valid, bit 3 that it is used, bit 2 that it protects. */
  function RootSearch(c: Cfg, m: Mem, q: Ask): Walked
  {
    var a := RootAt(c, q);
    if a !in m then Walked(m, Broken) else
      var d := Raw(m[a]);
      if d / 2 % 2 == 0 then Walked(m, Fail)
      else if d / 8 % 2 == 0 && a in c.rom then Walked(m, Broken)
      else PointerSearch(c, m[a := m[a].(u := true)], q, PointerAt(q, d), d / 4 % 2 == 1)
  }

  function PointerSearch(c: Cfg, m: Mem, q: Ask, a: u32, wp: bool): Walked
  {
    if a !in m then Walked(m, Broken) else
      var d := Raw(m[a]);
      if d / 2 % 2 == 0 then Walked(m, Fail)
      else if d / 8 % 2 == 0 && a in c.rom then Walked(m, Broken)
      else PageSearch(c, m[a := m[a].(u := true)], q, PageAt(c, q, d), wp || d / 4 % 2 == 1)
  }

  /** Type 2 is an indirection through the address in bits 31-2, followed once. */
  function PageSearch(c: Cfg, m: Mem, q: Ask, a: u32, wp: bool): Walked
  {
    if a !in m then Walked(m, Broken) else
      var d := Raw(m[a]);
      if d % 4 != 2 then LeafSearch(c, m, q, a, wp)
      else if d - 2 !in m then Walked(m, Broken)
      else LeafSearch(c, m, q, d - 2, wp)
  }

  /** A page descriptor has bit 0 set. It is marked used, and modified (bit 4) by a write that
      neither protection nor bit 7, supervisor only, forbids. */
  function LeafSearch(c: Cfg, m: Mem, q: Ask, a: u32, wp: bool): Walked
    requires a in m
  {
    var d := Raw(m[a]);
    if d % 2 == 0 then Walked(m, Fail) else
      var all := wp || d / 4 % 2 == 1;
      var sets := q.write && !all && (d / 0x80 % 2 == 0 || q.super);
      if (d / 8 % 2 == 0 || (sets && d / 0x10 % 2 == 0)) && a in c.rom then Walked(m, Broken)
      else
        var w := if sets then m[a].(u := true, m := true) else m[a].(u := true);
        Walked(m[a := w], Page(w, all))
  }

  lemma TypeBits(w: Word)
    ensures w.ty >= 2 <==> Raw(w) / 2 % 2 == 1
    ensures w.ty % 2 == Raw(w) % 2 && (w.ty == 2 <==> Raw(w) % 4 == 2)
  {
    hide Raw;
    RawFields(w);
    var r, k := Raw(w), Raw(w) / 4;
    DivModUnique(r, 2, 2 * k + w.ty / 2, w.ty % 2);
    DivModUnique(2 * k + w.ty / 2, 2, k, w.ty / 2);
  }

  lemma HighBits(w: Word)
    ensures SuperOnly(w) <==> Raw(w) / 0x80 % 2 == 1
    ensures Global(w) <==> Raw(w) / 0x400 % 2 == 1
  {
    DivModUnique(Raw(w), 0x80, w.hi * 2 + w.mid / 4, w.mid % 4 * 0x20 + Low(w));
    DivModUnique(w.hi * 2 + w.mid / 4, 2, w.hi, w.mid / 4);
    DivModUnique(Raw(w), 0x400, w.hi / 4, w.hi % 4 * 0x100 + w.mid * 0x20 + Low(w));
  }

  lemma LeafIs(c: Cfg, m: Mem, q: Ask, a: u32, wp: bool)
    requires a in m
    ensures Leaf(c, m, q, a, wp) == LeafSearch(c, m, q, a, wp)
  {
    hide Raw; hide SuperOnly; hide Above2; hide Above4; hide Above8;
    RawFields(m[a]);
    TypeBits(m[a]);
    HighBits(m[a]);
  }

  lemma PageIs(c: Cfg, m: Mem, q: Ask, a: u32, wp: bool)
    ensures FromPage(c, m, q, a, wp) == PageSearch(c, m, q, a, wp)
  {
    hide Raw; hide Leaf; hide LeafSearch; hide Above2; hide Above4; hide Above8;
    if a in m {
      RawFields(m[a]);
      TypeBits(m[a]);
      var b := if m[a].ty == 2 then Above2(m[a]) else a;
      if b in m { LeafIs(c, m, q, b, wp); }
    }
  }

  lemma PointerIs(c: Cfg, m: Mem, q: Ask, a: u32, wp: bool)
    ensures FromPointer(c, m, q, a, wp) == PointerSearch(c, m, q, a, wp)
  {
    hide Raw; hide FromPage; hide PageSearch; hide PageEntry; hide PageAt; hide Above2; hide Above4; hide Above8;
    if a in m {
      RawFields(m[a]);
      TypeBits(m[a]);
      PageMeans(c, q, m[a]);
      PageIs(c, m[a := m[a].(u := true)], q, PageEntry(c, q, m[a]), wp || m[a].wp);
    }
  }

  /** The search is that on longwords, for all tables. */
  lemma WalkIs(c: Cfg, m: Mem, q: Ask)
    ensures Walk(c, m, q) == RootSearch(c, m, q)
  {
    hide Raw; hide FromPointer; hide PointerSearch; hide PointerEntry; hide PointerAt; hide RootEntry; hide RootAt;
    hide Above2; hide Above4; hide Above8;
    var a := RootEntry(c, q);
    RootMeans(c, q);
    if a in m {
      RawFields(m[a]);
      TypeBits(m[a]);
      PointerMeans(q, m[a]);
      PointerIs(c, m[a := m[a].(u := true)], q, PointerEntry(q, m[a]), m[a].wp);
    }
  }

  /** A search uses the root pointer of its own privilege only. */
  lemma OwnRoot(c: Cfg, m: Mem, q: Ask, x: u32)
    ensures !q.super ==> Walk(c.(srp := x), m, q) == Walk(c, m, q)
    ensures q.super ==> Walk(c.(urp := x), m, q) == Walk(c, m, q)
  {
    hide PointerSearch; hide Walk; hide Raw; hide And;
    var b := if q.super then c.(urp := x) else c.(srp := x);
    WalkIs(c, m, q);
    WalkIs(b, m, q);
    forall n: Mem, a: u32, wp: bool ensures PointerSearch(b, n, q, a, wp) == PointerSearch(c, n, q, a, wp) {
      SamePointer(b, c, n, q, a, wp);
    }
  }

  lemma SamePointer(b: Cfg, c: Cfg, m: Mem, q: Ask, a: u32, wp: bool)
    requires b.big == c.big && b.rom == c.rom
    ensures PointerSearch(b, m, q, a, wp) == PointerSearch(c, m, q, a, wp)
  {
    hide Raw; hide And;
  }

  /** What a search refuses: no page, a supervisor page (bit 7) to a user, a write to a page that
      any descriptor of the path protects (bit 2). */
  lemma RefusedMeans(r: Res, q: Ask)
    ensures Refused(r, q) <==> !r.Page? || (Raw(r.d) / 0x80 % 2 == 1 && !q.super) || (q.write && r.wp)
  {
    hide Raw; hide SuperOnly;
    if r.Page? { HighBits(r.d); }
  }
}
