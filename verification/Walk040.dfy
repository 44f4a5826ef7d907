/** The 68040/68060 table search: three levels and at most one indirection. */
module Walk040 {
  import opened Words

  /** Root pointers, page size (8K or 4K), processor, and the addresses at which a write ends in a
      bus error. */
  datatype Cfg = Cfg(srp: u32, urp: u32, big: bool, is60: bool, rom: set<u32>)

  datatype Ask = Ask(addr: u32, super: bool, write: bool)

  /** `Page` holds the descriptor as the search leaves it, and the write protection gathered
      on the way; `Broken` is a bus error on reading or writing a descriptor. */
  datatype Res = Page(d: Word, wp: bool) | Fail | Broken

  datatype Walked = Walked(mem: Mem, res: Res)

  function PageBits(c: Cfg): nat { if c.big then 8192 else 4096 }

  /** Bit 7 of a page descriptor: supervisor only. */
  predicate SuperOnly(d: Word) { d.mid >= 4 }

  /** Bit 10: global. */
  predicate Global(d: Word) { (d.hi / 4) % 2 == 1 }

  function Align(a: u32, n: nat): u32
    requires n > 0
  {
    DivNat(a, n);
    a - a % n
  }

  /** `Raw(w) & 0xfffffe00`. */
  function PointerTable(w: Word): u32 { w.hi * 0x100 - (w.hi % 2) * 0x100 }

  /** `Raw(w) & 0xffffff80` with 8K pages, `& 0xffffff00` with 4K pages. */
  function PageTable(c: Cfg, w: Word): u32 { w.hi * 0x100 + if c.big then (w.mid / 4) * 0x80 else 0 }

  function RootEntry(c: Cfg, q: Ask): u32
  {
    Plus(Align(if q.super then c.srp else c.urp, 512), (q.addr / 0x200_0000) % 128 * 4)
  }

  function PointerEntry(q: Ask, d: Word): u32 { Plus(PointerTable(d), (q.addr / 0x4_0000) % 128 * 4) }

  function PageEntry(c: Cfg, q: Ask, d: Word): u32
  {
    Plus(PageTable(c, d), if c.big then (q.addr / 0x2000) % 32 * 4 else (q.addr / 0x1000) % 64 * 4)
  }

  /** Fetch a table descriptor, set its U bit, and go on. */
  function Walk(c: Cfg, m: Mem, q: Ask): Walked
  {
    var a := RootEntry(c, q);
    if a !in m then Walked(m, Broken)
    else if m[a].ty < 2 then Walked(m, Fail)
    else if !m[a].u && a in c.rom then Walked(m, Broken)
    else FromPointer(c, m[a := m[a].(u := true)], q, PointerEntry(q, m[a]), m[a].wp)
  }

  function FromPointer(c: Cfg, m: Mem, q: Ask, a: u32, wp: bool): Walked
  {
    if a !in m then Walked(m, Broken)
    else if m[a].ty < 2 then Walked(m, Fail)
    else if !m[a].u && a in c.rom then Walked(m, Broken)
    else FromPage(c, m[a := m[a].(u := true)], q, PageEntry(c, q, m[a]), wp || m[a].wp)
  }

  function FromPage(c: Cfg, m: Mem, q: Ask, a: u32, wp: bool): Walked
  {
    if a !in m then Walked(m, Broken)
    else if m[a].ty == 2 then
      if Above2(m[a]) !in m then Walked(m, Broken) else Leaf(c, m, q, Above2(m[a]), wp)
    else Leaf(c, m, q, a, wp)
  }

  /** The page descriptor with its bits set: M only when the write is allowed. */
  function Marked(q: Ask, d: Word, wp: bool): Word
  {
    if q.write && !wp && !(SuperOnly(d) && !q.super) then d.(u := true, m := true) else d.(u := true)
  }

  function Leaf(c: Cfg, m: Mem, q: Ask, a: u32, wp: bool): Walked
    requires a in m
  {
    if m[a].ty % 2 == 0 then Walked(m, Fail)
    else
      var d := Marked(q, m[a], wp || m[a].wp);
      if d != m[a] && a in c.rom then Walked(m, Broken) else Walked(m[a := d], Page(d, wp || d.wp))
  }

  /** The access is not allowed: nothing there, privileged, or write protected. */
  predicate Refused(r: Res, q: Ask)
  {
    !r.Page? || (SuperOnly(r.d) && !q.super) || (q.write && r.wp)
  }

  // ---------------------------------------------------------------- layout

  predicate SameBits(v: Word, w: Word) { v.hi == w.hi && v.mid == w.mid && v.wp == w.wp && v.ty == w.ty }

  /** Memories alike but for U and M bits of descriptors. */
  ghost predicate Alike4(L: Layout, m: Mem, n: Mem)
  {
    && (forall a :: Known(L, a) ==> (a in m <==> a in n))
    && (forall a :: a in L.heads && a in m && a in n ==> SameBits(m[a], n[a]))
    && (forall a :: a in L.tails && a in m && a in n ==> m[a] == n[a])
  }

  ghost predicate Grows4(L: Layout, m: Mem, n: Mem)
  {
    Alike4(L, m, n) && forall a :: a in L.heads && a in m && a in n ==> Keeps(m[a], n[a])
  }

  ghost predicate LaidLeaf(L: Layout, m: Mem, a: u32)
  {
    a in m && m[a].ty % 2 == 1 ==> a in L.heads
  }

  ghost predicate LaidPage(L: Layout, m: Mem, a: u32)
  {
    && Known(L, a)
    && (a in m ==>
         if m[a].ty == 2 then a in L.tails && Known(L, Above2(m[a])) && LaidLeaf(L, m, Above2(m[a]))
         else LaidLeaf(L, m, a))
  }

  ghost predicate LaidPointer(c: Cfg, L: Layout, m: Mem, q: Ask, a: u32)
  {
    Known(L, a) && (a in m && m[a].ty >= 2 ==> a in L.heads && LaidPage(L, m, PageEntry(c, q, m[a])))
  }

  /** Table and page descriptors are heads, all of which can be written; the longword in front of
      an indirect page descriptor is a tail. */
  ghost predicate Laid4(c: Cfg, L: Layout, m: Mem, q: Ask)
  {
    var a := RootEntry(c, q);
    && Free(L, c.rom) && Known(L, a)
    && (a in m && m[a].ty >= 2 ==> a in L.heads && LaidPointer(c, L, m, q, PointerEntry(q, m[a])))
  }

  /** Same verdict, whatever U and M say. */
  predicate SameRes(r: Res, s: Res)
  {
    match r
    case Page(d, wp) => s.Page? && SameBits(d, s.d) && wp == s.wp
    case _ => r == s
  }

  ghost predicate SameWalk4(L: Layout, w: Walked, v: Walked) { SameRes(w.res, v.res) && Alike4(L, w.mem, v.mem) }

  lemma PutAlike4(L: Layout, m: Mem, n: Mem, a: u32, v: Word, w: Word)
    requires Apart(L) && Alike4(L, m, n) && a in L.heads && a in m && a in n && SameBits(m[a], v) && SameBits(n[a], w)
    ensures Alike4(L, m[a := v], n[a := w])
  {
  }

  lemma LaidPageAlike(L: Layout, m: Mem, n: Mem, a: u32)
    requires Apart(L) && Alike4(L, m, n) && LaidPage(L, m, a)
    ensures LaidPage(L, n, a)
  {
  }

  lemma LaidPointerAlike(c: Cfg, L: Layout, m: Mem, n: Mem, q: Ask, a: u32)
    requires Apart(L) && Alike4(L, m, n) && LaidPointer(c, L, m, q, a)
    ensures LaidPointer(c, L, n, q, a)
  {
    hide LaidPage;
    if a in m && m[a].ty >= 2 { LaidPageAlike(L, m, n, PageEntry(c, q, m[a])); }
  }

  lemma LeafAlike(c: Cfg, L: Layout, m: Mem, n: Mem, q: Ask, p: Ask, a: u32, wp: bool)
    requires Apart(L) && Free(L, c.rom) && Alike4(L, m, n) && LaidLeaf(L, m, a) && Known(L, a) && a in m
    ensures a in n && SameWalk4(L, Leaf(c, m, q, a, wp), Leaf(c, n, p, a, wp))
  {
    if m[a].ty % 2 == 1 {
      PutAlike4(L, m, n, a, Marked(q, m[a], wp || m[a].wp), Marked(p, n[a], wp || n[a].wp));
    }
  }

  lemma FromPageAlike(c: Cfg, L: Layout, m: Mem, n: Mem, q: Ask, p: Ask, a: u32, wp: bool)
    requires Apart(L) && Free(L, c.rom) && Alike4(L, m, n) && LaidPage(L, m, a)
    ensures SameWalk4(L, FromPage(c, m, q, a, wp), FromPage(c, n, p, a, wp))
  {
    hide Leaf;
    if a in m {
      var b := if m[a].ty == 2 then Above2(m[a]) else a;
      if b in m { LeafAlike(c, L, m, n, q, p, b, wp); }
    }
  }

  lemma FromPointerAlike(c: Cfg, L: Layout, m: Mem, n: Mem, q: Ask, p: Ask, a: u32, wp: bool)
    requires Apart(L) && Free(L, c.rom) && Alike4(L, m, n) && LaidPointer(c, L, m, q, a)
    requires q.addr == p.addr && q.super == p.super
    ensures SameWalk4(L, FromPointer(c, m, q, a, wp), FromPointer(c, n, p, a, wp))
  {
    hide FromPage; hide LaidPage;
    if a in m && m[a].ty >= 2 {
      var m1, n1 := m[a := m[a].(u := true)], n[a := n[a].(u := true)];
      PutAlike4(L, m, n, a, m[a].(u := true), n[a].(u := true));
      PutAlike4(L, m, m, a, m[a].(u := true), m[a]);
      assert m[a := m[a]] == m;
      AlikeBack(L, m1, m);
      LaidPageAlike(L, m, m1, PageEntry(c, q, m[a]));
      FromPageAlike(c, L, m1, n1, q, p, PageEntry(c, q, m[a]), wp || m[a].wp);
    }
  }

  lemma AlikeBack(L: Layout, m: Mem, n: Mem)
    requires Alike4(L, m, n)
    ensures Alike4(L, n, m)
  {
  }

  lemma AlikeSelf4(L: Layout, m: Mem)
    ensures Alike4(L, m, m) && Grows4(L, m, m)
  {
  }

  lemma SameEntries(c: Cfg, q: Ask, p: Ask)
    requires q.addr == p.addr && q.super == p.super
    ensures RootEntry(c, q) == RootEntry(c, p)
    ensures forall d, e :: SameBits(d, e) ==> PointerEntry(q, d) == PointerEntry(p, e) == PointerEntry(q, e)
  {
  }

  lemma AlikeAt(L: Layout, m: Mem, n: Mem, a: u32)
    requires Apart(L) && Alike4(L, m, n) && Known(L, a)
    ensures (a in m <==> a in n) && (a in m ==> SameBits(m[a], n[a]))
  {
  }

  /** Searches from memories that differ in U and M bits agree, read or write. */
  lemma WalkAlike4(c: Cfg, L: Layout, m: Mem, n: Mem, q: Ask, p: Ask)
    requires Apart(L) && Alike4(L, m, n) && Laid4(c, L, m, q)
    requires q.addr == p.addr && q.super == p.super
    ensures SameWalk4(L, Walk(c, m, q), Walk(c, n, p))
    ensures Laid4(c, L, n, q)
  {
    hide RootEntry; hide PointerEntry; hide FromPointer; hide LaidPointer; hide Alike4;
    var a := RootEntry(c, q);
    SameEntries(c, q, p);
    AlikeAt(L, m, n, a);
    if a in m && m[a].ty >= 2 {
      var m1, n1 := m[a := m[a].(u := true)], n[a := n[a].(u := true)];
      PutAlike4(L, m, n, a, m[a].(u := true), n[a].(u := true));
      AlikeSelf4(L, m);
      PutAlike4(L, m, m, a, m[a].(u := true), m[a]);
      assert m[a := m[a]] == m;
      AlikeBack(L, m1, m);
      LaidPointerAlike(c, L, m, m1, q, PointerEntry(q, m[a]));
      LaidPointerAlike(c, L, m, n, q, PointerEntry(q, m[a]));
      FromPointerAlike(c, L, m1, n1, q, p, PointerEntry(q, m[a]), m[a].wp);
    }
  }
}
