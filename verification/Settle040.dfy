/** What a 68040/68060 search does to memory, and that a page once searched stays settled. */
module Settle040 {
  import opened Words
  import opened Walk040

  // ---------------------------------------------------------------- effect on memory

  /** The descriptors a search visits, in order: the entry of the root table, the entry of the
      pointer table, and the page descriptor after any indirection. */
  function Path(c: Cfg, m: Mem, q: Ask): seq<u32>
  {
    var a := RootEntry(c, q);
    if a !in m || m[a].ty < 2 then []
    else if !m[a].u && a in c.rom then [a]
    else [a] + PointerPath(c, m[a := m[a].(u := true)], q, PointerEntry(q, m[a]))
  }

  function PointerPath(c: Cfg, m: Mem, q: Ask, a: u32): seq<u32>
  {
    if a !in m || m[a].ty < 2 then []
    else if !m[a].u && a in c.rom then [a]
    else [a] + PagePath(m[a := m[a].(u := true)], PageEntry(c, q, m[a]))
  }

  function PagePath(m: Mem, a: u32): seq<u32>
  {
    if a !in m || LeafAt(m, a) !in m || m[LeafAt(m, a)].ty % 2 == 0 then [] else [LeafAt(m, a)]
  }

  /** Where the page descriptor is, given its slot in the page table. */
  function LeafAt(m: Mem, a: u32): u32
    requires a in m
  {
    if m[a].ty == 2 then Above2(m[a]) else a
  }

  /** Only U and M bits are set, only in the descriptors of the path, and M only in the last of
      them, the page descriptor that the search reports, by a write that nothing forbids. */
  ghost predicate Sets(q: Ask, m: Mem, w: Walked, path: seq<u32>)
  {
    && Ors(m, w.mem) && (w.res.Page? ==> path != [] && path[|path| - 1] in w.mem && w.mem[path[|path| - 1]] == w.res.d)
    && (forall x :: x in m && w.mem[x] != m[x] ==> x in path)
    && (forall x :: x in m && w.mem[x].m != m[x].m ==>
          && w.res.Page? && path != [] && x == path[|path| - 1]
          && q.write && !w.res.wp && !(SuperOnly(w.res.d) && !q.super))
  }

  lemma OrsAfter(m: Mem, a: u32, n: Mem)
    requires a in m && Ors(m[a := m[a].(u := true)], n)
    ensures Ors(m, n)
  {
  }

  lemma SetsAfter(q: Ask, m: Mem, a: u32, w: Walked, path: seq<u32>)
    requires a in m && Sets(q, m[a := m[a].(u := true)], w, path)
    ensures Sets(q, m, w, [a] + path)
  {
    hide SuperOnly; hide Ors;
    var m1 := m[a := m[a].(u := true)];
    OrsAfter(m, a, w.mem);
    var full := [a] + path;
    assert path != [] ==> full[|full| - 1] == path[|path| - 1];
    forall x | x in m && w.mem[x] != m[x] ensures x in full {
      if x != a { assert x in m1 && w.mem[x] != m1[x]; }
    }
    forall x | x in m && w.mem[x].m != m[x].m
      ensures w.res.Page? && full != [] && x == full[|full| - 1]
      ensures q.write && !w.res.wp && !(SuperOnly(w.res.d) && !q.super)
    {
      assert x in m1 && w.mem[x].m != m1[x].m;
    }
  }

  lemma LeafSets(c: Cfg, m: Mem, q: Ask, a: u32, wp: bool)
    requires a in m
    ensures Sets(q, m, Leaf(c, m, q, a, wp), if m[a].ty % 2 == 0 then [] else [a])
  {
  }

  lemma FromPageSets(c: Cfg, m: Mem, q: Ask, a: u32, wp: bool)
    ensures Sets(q, m, FromPage(c, m, q, a, wp), PagePath(m, a))
  {
    hide Leaf; hide Above2; hide SuperOnly;
    if a in m && LeafAt(m, a) in m { LeafSets(c, m, q, LeafAt(m, a), wp); }
  }

  lemma FromPointerSets(c: Cfg, m: Mem, q: Ask, a: u32, wp: bool)
    ensures Sets(q, m, FromPointer(c, m, q, a, wp), PointerPath(c, m, q, a))
  {
    hide FromPage; hide PagePath; hide SuperOnly;
    if a in m && m[a].ty >= 2 && (m[a].u || a !in c.rom) {
      var m1, b := m[a := m[a].(u := true)], PageEntry(c, q, m[a]);
      FromPageSets(c, m1, q, b, wp || m[a].wp);
      SetsAfter(q, m, a, FromPage(c, m1, q, b, wp || m[a].wp), PagePath(m1, b));
    }
  }

  /** Searches set nothing but U and M bits on their path, M only in the final page descriptor of
      a permitted write. */
  lemma WalkSets(c: Cfg, m: Mem, q: Ask)
    ensures Sets(q, m, Walk(c, m, q), Path(c, m, q)) && |Path(c, m, q)| <= 3
  {
    hide RootEntry; hide FromPointer; hide SuperOnly; hide PageEntry; hide PointerEntry; hide LeafAt;
    var a := RootEntry(c, q);
    if a in m && m[a].ty >= 2 && (m[a].u || a !in c.rom) {
      var m1, b := m[a := m[a].(u := true)], PointerEntry(q, m[a]);
      FromPointerSets(c, m1, q, b, m[a].wp);
      SetsAfter(q, m, a, FromPointer(c, m1, q, b, m[a].wp), PointerPath(c, m1, q, b));
    }
  }

  // ---------------------------------------------------------------- settled paths

  ghost predicate UsedPage(m: Mem, a: u32)
  {
    a in m && LeafAt(m, a) in m && m[LeafAt(m, a)].u && m[LeafAt(m, a)].ty % 2 == 1
  }

  ghost predicate UsedPointer(c: Cfg, m: Mem, q: Ask, a: u32)
  {
    a in m && m[a].u && m[a].ty >= 2 && UsedPage(m, PageEntry(c, q, m[a]))
  }

  /** The path of a page is complete and every descriptor on it is marked used. */
  ghost predicate UsedPath(c: Cfg, m: Mem, q: Ask)
  {
    var a := RootEntry(c, q);
    a in m && m[a].u && m[a].ty >= 2 && UsedPointer(c, m, q, PointerEntry(q, m[a]))
  }

  /** The page descriptor at the end of a complete path. */
  function LeafOf(c: Cfg, m: Mem, q: Ask): Word
    requires UsedPath(c, m, q)
  {
    var a := RootEntry(c, q);
    var b := PointerEntry(q, m[a]);
    m[LeafAt(m, PageEntry(c, q, m[b]))]
  }

  lemma FromPageSettles(c: Cfg, L: Layout, m: Mem, q: Ask, a: u32, wp: bool)
    requires Apart(L) && Free(L, c.rom) && LaidPage(L, m, a)
    ensures var w := FromPage(c, m, q, a, wp);
      Grows4(L, m, w.mem) && (w.res.Page? ==> UsedPage(w.mem, a) && w.mem[LeafAt(w.mem, a)] == w.res.d)
  {
  }

  lemma GrowsThen(L: Layout, m: Mem, n: Mem, o: Mem)
    requires Grows4(L, m, n) && Grows4(L, n, o)
    ensures Grows4(L, m, o)
  {
  }

  lemma MarkGrows(L: Layout, m: Mem, a: u32)
    requires Apart(L) && a in L.heads && a in m
    ensures Grows4(L, m, m[a := m[a].(u := true)])
  {
  }

  lemma FromPointerSettles(c: Cfg, L: Layout, m: Mem, q: Ask, a: u32, wp: bool)
    requires Apart(L) && Free(L, c.rom) && LaidPointer(c, L, m, q, a)
    ensures var w := FromPointer(c, m, q, a, wp);
      Grows4(L, m, w.mem) &&
        (w.res.Page? ==> UsedPointer(c, w.mem, q, a) && w.mem[LeafAt(w.mem, PageEntry(c, q, w.mem[a]))] == w.res.d)
  {
    hide FromPage; hide LaidPage; hide UsedPage;
    AlikeSelf4(L, m);
    if a in m && m[a].ty >= 2 {
      var m1 := m[a := m[a].(u := true)];
      MarkGrows(L, m, a);
      LaidPageAlike(L, m, m1, PageEntry(c, q, m[a]));
      FromPageSettles(c, L, m1, q, PageEntry(c, q, m[a]), wp || m[a].wp);
      GrowsThen(L, m, m1, FromPage(c, m1, q, PageEntry(c, q, m[a]), wp || m[a].wp).mem);
    }
  }

  /** After a search that finds a page, its path is complete and ends at the descriptor
      reported. */
  lemma WalkSettles4(c: Cfg, L: Layout, m: Mem, q: Ask)
    requires Apart(L) && Laid4(c, L, m, q)
    ensures var w := Walk(c, m, q);
      Grows4(L, m, w.mem) && (w.res.Page? ==> UsedPath(c, w.mem, q) && LeafOf(c, w.mem, q) == w.res.d)
  {
    hide RootEntry; hide FromPointer; hide LaidPointer; hide LaidPage; hide UsedPage;
    AlikeSelf4(L, m);
    var a := RootEntry(c, q);
    if a in m && m[a].ty >= 2 {
      var m1 := m[a := m[a].(u := true)];
      MarkGrows(L, m, a);
      LaidPointerAlike(c, L, m, m1, q, PointerEntry(q, m[a]));
      FromPointerSettles(c, L, m1, q, PointerEntry(q, m[a]), m[a].wp);
      GrowsThen(L, m, m1, FromPointer(c, m1, q, PointerEntry(q, m[a]), m[a].wp).mem);
    }
  }

  /** Searching a settled page changes nothing: for reading always, for writing if its M bit
      is set. */
  lemma UsedIsQuiet(c: Cfg, m: Mem, q: Ask)
    requires UsedPath(c, m, q) && (q.write ==> LeafOf(c, m, q).m)
    ensures Walk(c, m, q).mem == m && Walk(c, m, q).res.Page? && Walk(c, m, q).res.d == LeafOf(c, m, q)
  {
    hide RootEntry; hide PointerEntry; hide PageEntry;
    var a := RootEntry(c, q);
    assert m[a := m[a].(u := true)] == m;
    var b := PointerEntry(q, m[a]);
    assert m[b := m[b].(u := true)] == m;
    var p := PageEntry(c, q, m[b]);
    var l := LeafAt(m, p);
    assert m[l := Marked(q, m[l], true)] == m && m[l := Marked(q, m[l], false)] == m;
  }

  lemma UsedPageLater(L: Layout, m: Mem, n: Mem, a: u32)
    requires Apart(L) && Grows4(L, m, n) && LaidPage(L, m, a) && UsedPage(m, a)
    ensures UsedPage(n, a) && Keeps(m[LeafAt(m, a)], n[LeafAt(n, a)])
  {
  }

  /** Settled pages stay settled while memory gains U and M bits. */
  lemma UsedLater(c: Cfg, L: Layout, m: Mem, n: Mem, q: Ask)
    requires Apart(L) && Laid4(c, L, m, q) && Grows4(L, m, n) && UsedPath(c, m, q)
    ensures UsedPath(c, n, q) && Keeps(LeafOf(c, m, q), LeafOf(c, n, q))
  {
    hide RootEntry; hide UsedPage; hide LaidPage;
    var a := RootEntry(c, q);
    var b := PointerEntry(q, m[a]);
    UsedPageLater(L, m, n, PageEntry(c, q, m[b]));
  }
}
