/** Pages and what a fresh search says about them: the reference every cached translation
    is compared with. */
module Fresh030 {
  import opened Words
  import opened Walk030
  import opened WalkLaws030
  import opened Stable030
  import opened Settle030

  // ---------------------------------------------------------------- page arithmetic

  function PageNo(x: Tables, a: u32): (r: nat)
  {
    DivNat(a, Pow2(x.ps));
    a / Pow2(x.ps)
  }

  /** Address within the page: `addr & page.mask`. */
  function Off(x: Tables, a: u32): (r: u32)
    ensures r <= a
  {
    DivNat(a, Pow2(x.ps));
    a % Pow2(x.ps)
  }

  /** Address of the page: `addr & page.imask`. */
  function Base(x: Tables, a: u32): (r: u32) { a - Off(x, a) }

  /** Page-cache key: `((addr & imask) >> (ps - 3)) | fc`. */
  function Key(x: Tables, a: u32, fc: fcode): (r: nat) { PageNo(x, a) * 8 + fc }

  /** Key of the instruction page cache: `(addr & imask) | fc`. */
  function InsKey(x: Tables, a: u32, fc: fcode): (r: nat) { Base(x, a) + fc }

  const NOKEY: nat := 0xffff_ffff

  lemma {:induction false} Multiple256(b: nat, k: nat)
    requires k >= 8 && b % Pow2(k) == 0
    ensures b % 256 == 0 && Pow2(k) >= 256
    decreases k
  {
    if k == 8 {
      assert Pow2(8) == 256 by { assert Pow2(4) == 16; }
    } else {
      var p := Pow2(k - 1);
      var c := b / (2 * p);
      assert b == p * (2 * c);
      DivModUnique(b, p, 2 * c, 0);
      Multiple256(b, k - 1);
    }
  }

  lemma DivBelow(a: u32, p: nat)
    requires p >= 256
    ensures a / p < 0x100_0000
  {
    DivNat(a, p);
    assert 256 * (a / p) <= p * (a / p);
  }

  lemma PageFacts(x: Tables, a: u32)
    ensures Base(x, a) == PageNo(x, a) * Pow2(x.ps)
    ensures PageNo(x, Base(x, a)) == PageNo(x, a)
    ensures Off(x, Base(x, a)) == 0 && Base(x, Base(x, a)) == Base(x, a)
    ensures PageNo(x, a) < 0x100_0000 && Off(x, a) < Pow2(x.ps)
    ensures Base(x, a) % 256 == 0 && Base(x, a) <= 0xffff_ff00
  {
    hide Pow2;
    var p := Pow2(x.ps);
    DivNat(a, p);
    Multiple256(a - a % p, x.ps);
    DivBelow(a, p);
  }

  lemma Doubled(a: nat, b: nat)
    ensures a * (2 * b) == 2 * (a * b)
  {
  }

  lemma {:induction false} Pow2Add(j: nat, k: nat)
    ensures Pow2(j + k) == Pow2(j) * Pow2(k)
  {
    if k > 0 {
      Pow2Add(j, k - 1);
      assert Pow2(j + k) == 2 * Pow2(j + k - 1) && Pow2(k) == 2 * Pow2(k - 1);
      hide Pow2;
      Doubled(Pow2(j), Pow2(k - 1));
    }
  }

  lemma TwoDigits(p: nat, c: nat, t: nat, u: nat, r: nat)
    requires u < c && r < p
    ensures 0 <= p * u + r < p * c
    ensures p * (c * t + u) + r == (p * c) * t + (p * u + r)
  {
    assert p * u >= 0;
    assert p * (u + 1) <= p * c;
    assert p * (u + 1) == p * u + p;
    assert p * (c * t + u) == p * (c * t) + p * u;
    assert p * (c * t) == (p * c) * t;
  }

  /** Dividing by a multiple of `p` does not see the remainder modulo `p`. */
  lemma DivDiv(a: nat, p: nat, c: nat)
    requires p > 0 && c > 0 && p * c > 0
    ensures a % p <= a && a / (p * c) == (a - a % p) / (p * c)
  {
    DivNat(a, p);
    DivNat(a / p, c);
    var t, u := a / p / c, a / p % c;
    TwoDigits(p, c, t, u, a % p);
    TwoDigits(p, c, t, u, 0);
    DivModUnique(a, p * c, t, p * u + a % p);
    DivModUnique(a - a % p, p * c, t, p * u);
  }

  lemma Pow2At24()
    ensures Pow2(24) == 0x100_0000
  {
    assert Pow2(4) == 16;
    assert Pow2(8) == 256;
    assert Pow2(12) == 4096;
    assert Pow2(16) == 65536;
    assert Pow2(20) == 0x10_0000;
  }

  /** A page never crosses a 16 MB boundary. */
  lemma TopByte(x: Tables, a: u32)
    ensures a / 0x100_0000 == Base(x, a) / 0x100_0000
  {
    hide Pow2;
    Pow2Add(x.ps, 24 - x.ps);
    Pow2At24();
    DivDiv(a, Pow2(x.ps), Pow2(24 - x.ps));
  }

  lemma SamePage(x: Tables, a: u32, b: u32)
    ensures PageNo(x, a) == PageNo(x, b) <==> Base(x, a) == Base(x, b)
  {
    PageFacts(x, a);
    PageFacts(x, b);
  }

  /** Keys name one page and function code each, and never the empty-slot value. */
  lemma KeyFacts(x: Tables, a: u32, fc: fcode, b: u32, fd: fcode)
    ensures Key(x, a, fc) == Key(x, b, fd) <==> Base(x, a) == Base(x, b) && fc == fd
    ensures InsKey(x, a, fc) == InsKey(x, b, fd) <==> Base(x, a) == Base(x, b) && fc == fd
    ensures Key(x, a, fc) - Key(x, a, fc) % 8 + 7 == Key(x, b, 7) <==> Base(x, a) == Base(x, b)
    ensures Key(x, a, fc) < NOKEY - 8 && InsKey(x, a, fc) < NOKEY
  {
    SamePage(x, a, b);
    PageFacts(x, a);
    PageFacts(x, b);
    InsKeyFacts(Base(x, a), fc, Base(x, b), fd);
  }

  lemma InsKeyFacts(p: nat, fc: fcode, q: nat, fd: fcode)
    requires p % 256 == 0 && q % 256 == 0
    ensures p + fc == q + fd <==> p == q && fc == fd
  {
  }

  // ---------------------------------------------------------------- searches see pages, not addresses

  ghost predicate SameIndices(x: Tables, a: u32, b: u32)
  {
    forall t :: 0 <= t < 4 ==> And(a, x.mask[t]) == And(b, x.mask[t])
  }

  lemma PageIndices(x: Tables, a: u32)
    ensures SameIndices(x, a, Base(x, a))
  {
    forall t | 0 <= t < 4
      ensures And(a, x.mask[t]) == And(Base(x, a), x.mask[t])
    {
      AndIgnoresLow(a, x.mask[t], x.ps);
    }
  }

  lemma {:induction false} UnusedLocal(x: Tables, a: u32, b: u32, t: nat)
    requires t <= x.last && SameIndices(x, a, b)
    ensures Unused(x, a, t) == Unused(x, b, t)
    decreases 4 - t
  {
    if t < x.last { UnusedLocal(x, a, b, t + 1); }
  }

  lemma PageLocal(e: Env, m: Mem, q: Query, b: u32, hops: seq<Hop>, d: Desc, t: nat, early: bool)
    requires early ==> t <= e.x.last
    requires SameIndices(e.x, q.addr, b)
    ensures Page(e, m, q, hops, d, t, early) == Page(e, m, q.(addr := b), hops, d, t, early)
  {
    if early { UnusedLocal(e.x, q.addr, b, t); }
  }

  lemma {:induction false} TableLocal(e: Env, m: Mem, q: Query, b: u32, hops: seq<Hop>, d: Desc, t: nat)
    requires t <= e.x.last && SameIndices(e.x, q.addr, b)
    ensures Table(e, m, q, hops, d, t) == Table(e, m, q.(addr := b), hops, d, t)
    decreases 4 - t
  {
    var m1 := MarkUsed(m, q, hops, d);
    var i := Index(e.x, q.addr, t);
    assert i == Index(e.x, b, t);
    assert m1 == MarkUsed(m, q.(addr := b), hops, d);
    hide MarkUsed;
    hide Index;
    hide OverLimit;
    hide Entry;
    hide Page;
    if MustMark(q, hops, d) && hops[|hops| - 1].at in e.rom { return; }
    if (|hops| > 0 && q.level == |hops|) || OverLimit(d, i) { return; }
    var a := Entry(d, i);
    match Fetch(m1, a, Wide(d))
    case None =>
    case Some(n) =>
      if n.w0.ty == 1 {
        PageLocal(e, m1, q, b, hops + [Hop(a, n, true)], n, t + 1, t + 1 <= e.x.last);
      } else if n.w0.ty >= 2 && t + 1 <= e.x.last {
        TableLocal(e, m1, q, b, hops + [Hop(a, n, true)], n, t + 1);
      } else if n.w0.ty >= 2 {
        IndirectLocal(e, m1, q, b, hops + [Hop(a, n, false)], n);
      }
  }

  lemma IndirectLocal(e: Env, m: Mem, q: Query, b: u32, hops: seq<Hop>, d: Desc)
    ensures Indirect(e, m, q, hops, d) == Indirect(e, m, q.(addr := b), hops, d)
  {
  }

  /** A search depends on the page of its address only. */
  lemma WalkLocal(e: Env, m: Mem, q: Query)
    ensures Walk(e, m, q) == Walk(e, m, q.(addr := Base(e.x, q.addr)))
  {
    hide Table; hide Page; hide SameIndices;
    var b := Base(e.x, q.addr);
    PageIndices(e.x, q.addr);
    var d := RootOf(e, q.fc);
    if d.w0.ty == 1 {
      PageLocal(e, m, q, b, [], d, 0, true);
    } else if d.w0.ty >= 2 && e.fcl {
      var a := Entry(d, q.fc);
      match Fetch(m, a, Wide(d))
      case None =>
      case Some(n) =>
        if n.w0.ty == 1 {
          PageLocal(e, m, q, b, [Hop(a, n, true)], n, 0, true);
        } else if n.w0.ty >= 2 {
          TableLocal(e, m, q, b, [Hop(a, n, true)], n, 0);
        }
    } else if d.w0.ty >= 2 {
      TableLocal(e, m, q, b, [], d, 0);
    }
  }

  // ---------------------------------------------------------------- fresh searches

  function Search(e: Env, m: Mem, a: u32, fc: fcode, write: bool): Walked { Walk(e, m, Query(a, fc, write, 0)) }

  /** What a read search of the page finds now. */
  function Fresh(e: Env, m: Mem, a: u32, fc: fcode): Walked { Search(e, m, a, fc, false) }

  /** Searches of every page obey the layout. */
  ghost predicate AllLaid(e: Env, L: Layout, m: Mem)
  {
    Apart(L) && forall a: u32, fc: fcode :: Laid(e, L, m, a, fc)
  }

  lemma AllLaidAlike(e: Env, L: Layout, m: Mem, n: Mem)
    requires AllLaid(e, L, m) && Alike(L, m, n)
    ensures AllLaid(e, L, n)
  {
    forall a: u32, fc: fcode
      ensures Laid(e, L, n, a, fc)
    {
      WalkAlike(e, L, m, n, Query(a, fc, false, 0), Query(a, fc, false, 0));
    }
  }

  /** A bus error or limit violation, an invalid descriptor, or a supervisor-only page. */
  predicate Faults(w: Walked, fc: fcode) { !w.end.Leaf? || Denied(w.hops, fc) }

  lemma SameFaults(L: Layout, w: Walked, v: Walked, fc: fcode)
    requires SameWalk(L, w, v)
    ensures Faults(w, fc) == Faults(v, fc) && Protected(w.hops) == Protected(v.hops)
    ensures w.end.Leaf? ==> v.end.Leaf? && w.end.page == v.end.page
  {
    SameVerdict(w.hops, v.hops, fc);
  }

  lemma SearchGrows(e: Env, L: Layout, m: Mem, a: u32, fc: fcode, write: bool)
    requires Apart(L) && Laid(e, L, m, a, fc)
    ensures Grows(L, m, Search(e, m, a, fc, write).mem)
  {
    hide Walk; hide Laid;
    var q := Query(a, fc, write, 0);
    WalkEffect(e, m, q);
    WalkHeads(e, L, m, q);
  }

  /** A search would set nothing. */
  ghost predicate Settled(e: Env, m: Mem, a: u32, fc: fcode)
  {
    Fresh(e, m, a, fc).mem == m
  }

  /** If the live descriptors on the path of a page are marked in memory, a read search
      leaves memory alone; and so does a write search if the page is marked modified. */
  lemma MarkedIsQuiet(e: Env, m: Mem, a: u32, fc: fcode, write: bool)
    requires var w := Search(e, m, a, fc, write);
      AllUsed(m, w.hops) &&
      (write && |w.hops| > 0 ==> w.hops[|w.hops| - 1].at in m && m[w.hops[|w.hops| - 1].at].m)
    ensures Search(e, m, a, fc, write).mem == m
  {
    var q := Query(a, fc, write, 0);
    var w := Walk(e, m, q);
    WalkReads(e, m, q);
    assert Complete(q, w) by { hide Walk; }
    WalkQuiet(e, m, q);
  }

  /** After a search the page is settled, and a fresh search finds what it found. */
  lemma AfterSearch(e: Env, L: Layout, m: Mem, a: u32, fc: fcode, write: bool)
    requires Apart(L) && Laid(e, L, m, a, fc)
    ensures var w := Search(e, m, a, fc, write);
      && SameWalk(L, w, Fresh(e, w.mem, a, fc))
      && (!Faults(w, fc) ==> Settled(e, w.mem, a, fc) && Fresh(e, w.mem, a, fc).end.m == w.end.m)
  {
    var q, p := Query(a, fc, write, 0), Query(a, fc, false, 0);
    var w := Walk(e, m, q);
    var v := Walk(e, w.mem, p);
    SearchGrows(e, L, m, a, fc, write);
    WalkAlike(e, L, m, w.mem, q, p);
    if !Faults(w, fc) {
      WalkSettles(e, m, q);
      assert AllUsed(w.mem, v.hops) by { hide Walk; }
      MarkedIsQuiet(e, w.mem, a, fc, false);
      SameVerdict(w.hops, v.hops, fc);
      WalkSettles(e, w.mem, p);
      RootLeaf(e, m, q);
      RootLeaf(e, w.mem, p);
      hide Walk;
    }
  }

  /** A page reached through a page-type root pointer is never reported modified; any other
      page that may be written is, after a write search. */
  lemma RootLeaf(e: Env, m: Mem, q: Query)
    requires q.level == 0
    ensures var w := Walk(e, m, q);
      && !w.end.Stopped?
      && (w.end.Leaf? ==>
        && (w.hops == [] <==> RootOf(e, q.fc).w0.ty == 1)
        && (w.hops == [] ==> !w.end.m)
        && (w.hops != [] ==> w.hops[|w.hops| - 1].live)
        && (w.hops != [] && q.write && !Denied(w.hops, q.fc) && !Protected(w.hops) ==> w.end.m))
  {
    hide Walk;
    WalkEndsLive(e, m, q);
  }

  /** Marks seen on one path are there on the same path later. */
  lemma AllUsedGrows(L: Layout, m: Mem, n: Mem, h: seq<Hop>, k: seq<Hop>)
    requires AllUsed(m, h) && LiveAtHeads(L, h) && Grows(L, m, n) && SameHops(h, k)
    ensures AllUsed(n, k)
  {
    forall i | 0 <= i < |k| && k[i].live ensures k[i].at in n && n[k[i].at].u {
      assert h[i].live && h[i].at == k[i].at;
      assert h[i].at in m && h[i].at in L.heads;
    }
  }

  /** What a search found about a page stays true while memory only gains U and M bits. */
  lemma Later(e: Env, L: Layout, m: Mem, n: Mem, a: u32, fc: fcode)
    requires Apart(L) && Laid(e, L, m, a, fc) && Grows(L, m, n)
    ensures SameWalk(L, Fresh(e, m, a, fc), Fresh(e, n, a, fc))
    ensures !Faults(Fresh(e, m, a, fc), fc) && Settled(e, m, a, fc) ==>
      Settled(e, n, a, fc) && (Fresh(e, m, a, fc).end.m ==> Fresh(e, n, a, fc).end.m)
  {
    hide Walk; hide Laid;
    var p := Query(a, fc, false, 0);
    var w, v := Walk(e, m, p), Walk(e, n, p);
    WalkAlike(e, L, m, n, p, p);
    if !Faults(w, fc) && Settled(e, m, a, fc) {
      WalkSettles(e, m, p);
      WalkHeads(e, L, m, p);
      AllUsedGrows(L, m, n, w.hops, v.hops);
      MarkedIsQuiet(e, n, a, fc, false);
      SameVerdict(w.hops, v.hops, fc);
      WalkSettles(e, n, p);
      RootLeaf(e, m, p);
    }
  }

  /** A settled page that is marked modified stays as it is under a write search too. */
  lemma WriteIsQuiet(e: Env, L: Layout, m: Mem, a: u32, fc: fcode)
    requires Apart(L) && Laid(e, L, m, a, fc)
    requires Settled(e, m, a, fc) && !Faults(Fresh(e, m, a, fc), fc) && Fresh(e, m, a, fc).end.m
    ensures Search(e, m, a, fc, true).mem == m
  {
    hide Walk; hide Laid;
    var q, p := Query(a, fc, true, 0), Query(a, fc, false, 0);
    AlikeItself(L, m);
    WalkAlike(e, L, m, m, p, q);
    WalkSettles(e, m, p);
    RootLeaf(e, m, p);
    assert AllUsed(m, Walk(e, m, q).hops);
    MarkedIsQuiet(e, m, a, fc, true);
  }
}
