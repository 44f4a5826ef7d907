/** 68040/68060 table searches over descriptors that cannot be written. */
module Rom040 {
  import opened Words
  import opened Walk040
  import opened Settle040

  /** The same machine with all memory writable. */
  function Unlocked(c: Cfg): Cfg { c.(rom := {}) }

  /** No address of `rom` has changed. */
  ghost predicate Spared(rom: set<u32>, m: Mem, n: Mem)
  {
    forall a :: a in rom && a in m && a in n ==> n[a] == m[a]
  }

  /** `w` is a search from `m`, `v` the same with all memory writable: they are the same exactly
      when `v` changes nothing in `rom`, and otherwise `w` is a bus error. */
  ghost predicate Halts(rom: set<u32>, m: Mem, w: Walked, v: Walked)
  {
    (w == v <==> Spared(rom, m, v.mem)) && (w != v ==> w.res.Broken?)
  }

  /** A mark outside `rom`, or one that was there, makes no difference. */
  lemma HaltsAfter(rom: set<u32>, m: Mem, a: u32, w: Walked, v: Walked)
    requires a in m && (m[a].u || a !in rom) && Halts(rom, m[a := m[a].(u := true)], w, v)
    ensures Halts(rom, m, w, v)
  {
    var m1 := m[a := m[a].(u := true)];
    assert forall x :: x in rom && x in m ==> x in m1 && m1[x] == m[x];
    assert Spared(rom, m, v.mem) <==> Spared(rom, m1, v.mem);
  }

  /** A mark that cannot be written ends the search. */
  lemma HaltsHere(rom: set<u32>, m: Mem, a: u32, v: Walked)
    requires a in m && !m[a].u && a in rom && Ors(m[a := m[a].(u := true)], v.mem)
    ensures Halts(rom, m, Walked(m, Broken), v)
  {
    assert v.mem[a].u;
  }

  lemma LeafHalts(c: Cfg, m: Mem, q: Ask, a: u32, wp: bool)
    requires a in m
    ensures Halts(c.rom, m, Leaf(c, m, q, a, wp), Leaf(Unlocked(c), m, q, a, wp))
  {
    hide SuperOnly;
  }

  lemma FromPageHalts(c: Cfg, m: Mem, q: Ask, a: u32, wp: bool)
    ensures Halts(c.rom, m, FromPage(c, m, q, a, wp), FromPage(Unlocked(c), m, q, a, wp))
  {
    hide Leaf; hide Above2;
    if a in m && LeafAt(m, a) in m { LeafHalts(c, m, q, LeafAt(m, a), wp); }
  }

  lemma SameEntry(c: Cfg, q: Ask, d: Word)
    ensures PageEntry(c, q, d) == PageEntry(Unlocked(c), q, d) && RootEntry(c, q) == RootEntry(Unlocked(c), q)
  {
  }

  lemma FromPointerHalts(c: Cfg, m: Mem, q: Ask, a: u32, wp: bool)
    ensures Halts(c.rom, m, FromPointer(c, m, q, a, wp), FromPointer(Unlocked(c), m, q, a, wp))
  {
    hide FromPage; hide PageEntry; hide Halts; hide PagePath;
    if a in m && m[a].ty >= 2 {
      var m1, b := m[a := m[a].(u := true)], PageEntry(c, q, m[a]);
      SameEntry(c, q, m[a]);
      var w, v := FromPage(c, m1, q, b, wp || m[a].wp), FromPage(Unlocked(c), m1, q, b, wp || m[a].wp);
      if !m[a].u && a in c.rom {
        FromPageSets(Unlocked(c), m1, q, b, wp || m[a].wp);
        HaltsHere(c.rom, m, a, v);
      } else {
        FromPageHalts(c, m1, q, b, wp || m[a].wp);
        HaltsAfter(c.rom, m, a, w, v);
      }
    } else {
      HaltsStill(c.rom, FromPointer(c, m, q, a, wp));
    }
  }

  lemma HaltsStill(rom: set<u32>, w: Walked)
    ensures Halts(rom, w.mem, w, w)
  {
  }

  /** A search behaves as with all memory writable exactly when that search would change no
      descriptor that cannot be written; otherwise it ends in a bus error. */
  lemma HaltsExactly(c: Cfg, m: Mem, q: Ask)
    ensures var w, v := Walk(c, m, q), Walk(Unlocked(c), m, q);
      && (w == v <==> Spared(c.rom, m, v.mem))
      && (w != v ==> w.res.Broken?)
  {
    WalkHalts(c, m, q);
    hide Walk;
  }

  lemma WalkHalts(c: Cfg, m: Mem, q: Ask)
    ensures Halts(c.rom, m, Walk(c, m, q), Walk(Unlocked(c), m, q))
  {
    hide FromPointer; hide RootEntry; hide PointerEntry; hide Halts; hide PointerPath;
    var a := RootEntry(c, q);
    SameEntry(c, q, Word(0, 0, false, false, false, 0));
    if a in m && m[a].ty >= 2 {
      var m1, b := m[a := m[a].(u := true)], PointerEntry(q, m[a]);
      var w, v := FromPointer(c, m1, q, b, m[a].wp), FromPointer(Unlocked(c), m1, q, b, m[a].wp);
      if !m[a].u && a in c.rom {
        FromPointerSets(Unlocked(c), m1, q, b, m[a].wp);
        HaltsHere(c.rom, m, a, v);
      } else {
        FromPointerHalts(c, m1, q, b, m[a].wp);
        HaltsAfter(c.rom, m, a, w, v);
      }
    } else {
      HaltsStill(c.rom, Walk(c, m, q));
    }
  }
}
