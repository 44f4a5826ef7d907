/** Searches over well laid out descriptor memory: the verdict on a page never depends on
    U and M bits, so no search can change what a later search finds. */
module Stable030 {
  import opened Words
  import opened Walk030

  // ---------------------------------------------------------------- layout

  ghost predicate LaidFetch(L: Layout, a: u32, long: bool)
  {
    Known(L, a) && (long ==> Plus(a, 4) in L.tails)
  }

  /** Every descriptor a search of `addr` meets from here on sits where `L` says: table and
      page descriptors at heads, second longwords and indirect descriptors at tails. */
  ghost predicate LaidTable(e: Env, L: Layout, m: Mem, addr: u32, d: Desc, t: nat)
    requires t <= e.x.last
    decreases 4 - t
  {
    OverLimit(d, Index(e.x, addr, t)) ||
    var a := Entry(d, Index(e.x, addr, t));
    LaidFetch(L, a, Wide(d)) &&
    match Fetch(m, a, Wide(d))
    case None => true
    case Some(n) =>
      if n.w0.ty == 0 then true
      else if n.w0.ty == 1 then a in L.heads
      else if t + 1 <= e.x.last then a in L.heads && LaidTable(e, L, m, addr, n, t + 1)
      else a in L.tails && LaidIndirect(L, m, n)
  }

  ghost predicate LaidIndirect(L: Layout, m: Mem, d: Desc)
  {
    var a := Above2(Pointer(d));
    LaidFetch(L, a, Wide(d)) &&
    match Fetch(m, a, Wide(d))
    case None => true
    case Some(n) => n.w0.ty == 1 ==> a in L.heads
  }

  /** Besides, every descriptor that searches mark can be written. */
  ghost predicate Laid(e: Env, L: Layout, m: Mem, addr: u32, fc: fcode)
  {
    Free(L, e.rom) &&
    var d := RootOf(e, fc);
    if d.w0.ty <= 1 then true
    else if e.fcl then
      var a := Entry(d, fc);
      LaidFetch(L, a, Wide(d)) &&
      match Fetch(m, a, Wide(d))
      case None => true
      case Some(n) =>
        if n.w0.ty == 0 then true
        else a in L.heads && (n.w0.ty == 1 || LaidTable(e, L, m, addr, n, 0))
    else LaidTable(e, L, m, addr, d, 0)
  }

  // ---------------------------------------------------------------- indistinguishable searches

  predicate SameDesc(d: Desc, n: Desc)
  {
    d.long == n.long && SameWord(d.w0, n.w0) && d.w1 == n.w1
  }

  ghost predicate SameHops(h: seq<Hop>, k: seq<Hop>)
  {
    && |h| == |k|
    && forall i :: 0 <= i < |h| ==> h[i].at == k[i].at && h[i].live == k[i].live && SameDesc(h[i].d, k[i].d)
  }

  predicate SameEnd(x: End, y: End)
  {
    match x
    case Leaf(p, _) => y.Leaf? && y.page == p
    case LeafLimit(_) => y.LeafLimit?
    case _ => x == y
  }

  /** Two searches that took the same path, ended the same way and left memories alike. */
  ghost predicate SameWalk(L: Layout, w: Walked, v: Walked)
  {
    SameHops(w.hops, v.hops) && SameEnd(w.end, v.end) && Alike(L, w.mem, v.mem)
  }

  lemma SameVerdict(h: seq<Hop>, k: seq<Hop>, fc: fcode)
    requires SameHops(h, k)
    ensures Protected(h) == Protected(k) && Denied(h, fc) == Denied(k, fc)
  {
  }

  /** The last descriptor passed is a head, if any was passed. */
  ghost predicate AtHead(L: Layout, m: Mem, hops: seq<Hop>, d: Desc)
  {
    |hops| > 0 ==> hops[|hops| - 1].at in L.heads && hops[|hops| - 1].at in m && SameWord(m[hops[|hops| - 1].at], d.w0)
  }

  lemma PutAlike(L: Layout, m: Mem, n: Mem, a: u32, v: Word)
    requires Apart(L) && Alike(L, m, n) && a in L.heads && a in m && SameWord(m[a], v)
    ensures Alike(L, m[a := v], n)
    ensures Alike(L, m, n[a := v])
  {
  }

  lemma FetchAlike(L: Layout, m: Mem, n: Mem, a: u32, long: bool)
    requires Alike(L, m, n) && LaidFetch(L, a, long)
    ensures Fetch(m, a, long).None? == Fetch(n, a, long).None?
    ensures Fetch(m, a, long).Some? ==> SameDesc(Fetch(m, a, long).value, Fetch(n, a, long).value)
    ensures Fetch(m, a, long).Some? && a in L.tails ==> Fetch(m, a, long) == Fetch(n, a, long)
  {
  }

  lemma MarkAlike(L: Layout, m: Mem, n: Mem, q: Query, p: Query, h: seq<Hop>, k: seq<Hop>, d: Desc, c: Desc)
    requires Apart(L) && Alike(L, m, n) && SameHops(h, k) && SameDesc(d, c)
    requires AtHead(L, m, h, d)
    ensures Alike(L, MarkUsed(m, q, h, d), MarkUsed(n, p, k, c))
    ensures Alike(L, m, MarkUsed(m, q, h, d))
  {
    if |h| > 0 {
      var a := h[|h| - 1].at;
      AlikeItself(L, m);
      PutAlike(L, m, n, a, c.w0.(u := true));
      PutAlike(L, m, m, a, d.w0.(u := true));
      PutAlike(L, m, n, a, d.w0.(u := true));
      PutAlike(L, m, n[a := c.w0.(u := true)], a, d.w0.(u := true));
    }
  }

  lemma AlikeItself(L: Layout, m: Mem)
    ensures Alike(L, m, m)
  {
  }

  /** Memory after a page descriptor was marked, or left as it is. */
  function MarkedMem(m: Mem, q: Query, h: seq<Hop>, d: Desc): Mem
  {
    var w := Used(q, h, d);
    if w != d.w0 && |h| > 0 then m[h[|h| - 1].at := w] else m
  }

  lemma MarksAlike(L: Layout, m: Mem, n: Mem, q: Query, p: Query, h: seq<Hop>, k: seq<Hop>, d: Desc, c: Desc)
    requires Apart(L) && Alike(L, m, n) && SameHops(h, k) && SameDesc(d, c) && d.w0.ty == 1
    requires AtHead(L, m, h, d) && q.fc == p.fc
    ensures Alike(L, MarkedMem(m, q, h, d), MarkedMem(n, p, k, c))
  {
    hide Denied; hide Protected; hide Alike;
    if |h| > 0 {
      var a := h[|h| - 1].at;
      var v, w := Used(q, h, d), Used(p, k, c);
      PutAlike(L, m, n, a, v);
      PutAlike(L, m, n, a, w);
      PutAlike(L, m, n[a := w], a, v);
    }
  }

  lemma PageAlike(e: Env, L: Layout, m: Mem, n: Mem, q: Query, p: Query, h: seq<Hop>, k: seq<Hop>, d: Desc, c: Desc,
                  t: nat, early: bool)
    requires early ==> t <= e.x.last
    requires Apart(L) && Free(L, e.rom) && Alike(L, m, n) && SameHops(h, k) && SameDesc(d, c) && d.w0.ty == 1
    requires AtHead(L, m, h, d)
    requires q.addr == p.addr && q.fc == p.fc
    ensures SameWalk(L, Page(e, m, q, h, d, t, early), Page(e, n, p, k, c, t, early))
  {
    hide Index; hide Unused; hide Plus; hide Denied; hide Protected; hide Alike;
    SameVerdict(h, k, q.fc);
    MarksAlike(L, m, n, q, p, h, k, d, c);
  }

  lemma IndirectAlike(e: Env, L: Layout, m: Mem, n: Mem, q: Query, p: Query, h: seq<Hop>, k: seq<Hop>, d: Desc)
    requires Apart(L) && Free(L, e.rom) && Alike(L, m, n) && SameHops(h, k) && 0 < |h|
    requires LaidIndirect(L, m, d)
    requires q.addr == p.addr && q.fc == p.fc && q.level == 0 && p.level == 0
    ensures SameWalk(L, Indirect(e, m, q, h, d), Indirect(e, n, p, k, d))
  {
    var a := Above2(Pointer(d));
    FetchAlike(L, m, n, a, Wide(d));
    match Fetch(m, a, Wide(d))
    case None =>
    case Some(c) =>
      var b := Fetch(n, a, Wide(d)).value;
      if c.w0.ty == 1 {
        PageAlike(e, L, m, n, q, p, h + [Hop(a, c, true)], k + [Hop(a, b, true)], c, b, 4, false);
      }
  }

  lemma AppendHop(h: seq<Hop>, k: seq<Hop>, a: u32, x: Desc, y: Desc, live: bool)
    requires SameHops(h, k) && SameDesc(x, y)
    ensures SameHops(h + [Hop(a, x, live)], k + [Hop(a, y, live)])
  {
  }

  lemma EntryAlike(d: Desc, c: Desc, index: nat)
    requires SameDesc(d, c)
    ensures Wide(d) == Wide(c) && OverLimit(d, index) == OverLimit(c, index)
    ensures d.w0.ty != 1 ==> Entry(d, index) == Entry(c, index)
  {
  }

  lemma {:induction false} LaidTableAlike(e: Env, L: Layout, m: Mem, n: Mem, addr: u32, d: Desc, c: Desc, t: nat)
    requires t <= e.x.last
    requires Apart(L) && Alike(L, m, n) && SameDesc(d, c) && d.w0.ty >= 2
    requires LaidTable(e, L, m, addr, d, t)
    ensures LaidTable(e, L, n, addr, c, t)
    decreases 4 - t
  {
    hide Index; hide OverLimit; hide Entry; hide Alike;
    var i := Index(e.x, addr, t);
    EntryAlike(d, c, i);
    if OverLimit(d, i) { return; }
    var a := Entry(d, i);
    FetchAlike(L, m, n, a, Wide(d));
    match Fetch(m, a, Wide(d))
    case None =>
    case Some(x) =>
      var y := Fetch(n, a, Wide(d)).value;
      if x.w0.ty >= 2 && t + 1 <= e.x.last {
        LaidTableAlike(e, L, m, n, addr, x, y, t + 1);
      } else if x.w0.ty >= 2 {
        LaidIndirectAlike(L, m, n, x);
      }
  }

  lemma LaidIndirectAlike(L: Layout, m: Mem, n: Mem, d: Desc)
    requires Apart(L) && Alike(L, m, n) && LaidIndirect(L, m, d)
    ensures LaidIndirect(L, n, d)
  {
    FetchAlike(L, m, n, Above2(Pointer(d)), Wide(d));
  }

  lemma {:induction false} TableAlike(e: Env, L: Layout, m: Mem, n: Mem, q: Query, p: Query, h: seq<Hop>, k: seq<Hop>,
                                      d: Desc, c: Desc, t: nat)
    requires t <= e.x.last
    requires Apart(L) && Free(L, e.rom) && Alike(L, m, n) && SameHops(h, k) && SameDesc(d, c) && d.w0.ty >= 2
    requires AtHead(L, m, h, d) && LaidTable(e, L, m, q.addr, d, t)
    requires q.addr == p.addr && q.fc == p.fc && q.level == 0 && p.level == 0
    ensures SameWalk(L, Table(e, m, q, h, d, t), Table(e, n, p, k, c, t))
    decreases 4 - t
  {
    hide Index; hide OverLimit; hide Entry; hide MarkUsed; hide Alike; hide Page; hide Indirect;
    var i := Index(e.x, q.addr, t);
    EntryAlike(d, c, i);
    var m1, n1 := MarkUsed(m, q, h, d), MarkUsed(n, p, k, c);
    MarkAlike(L, m, n, q, p, h, k, d, c);
    LaidTableAlike(e, L, m, m1, q.addr, d, d, t);
    if OverLimit(d, i) { return; }
    var a := Entry(d, i);
    FetchAlike(L, m1, n1, a, Wide(d));
    match Fetch(m1, a, Wide(d))
    case None =>
    case Some(x) =>
      var y := Fetch(n1, a, Wide(d)).value;
      var h1, k1 := h + [Hop(a, x, true)], k + [Hop(a, y, true)];
      AppendHop(h, k, a, x, y, true);
      AppendHop(h, k, a, x, y, false);
      hide SameHops;
      if x.w0.ty == 1 {
        PageAlike(e, L, m1, n1, q, p, h1, k1, x, y, t + 1, t + 1 <= e.x.last);
      } else if x.w0.ty >= 2 && t + 1 <= e.x.last {
        TableAlike(e, L, m1, n1, q, p, h1, k1, x, y, t + 1);
      } else if x.w0.ty >= 2 {
        IndirectAlike(e, L, m1, n1, q, p, h + [Hop(a, x, false)], k + [Hop(a, y, false)], x);
      }
  }

  /** Searches of the same page, from memories that differ only in U and M bits, agree,
      whether or not they are for writing; and each leaves memory as it found it but for
      those bits. */
  lemma WalkAlike(e: Env, L: Layout, m: Mem, n: Mem, q: Query, p: Query)
    requires Apart(L) && Alike(L, m, n) && Laid(e, L, m, q.addr, q.fc)
    requires q.addr == p.addr && q.fc == p.fc && q.level == 0 && p.level == 0
    ensures SameWalk(L, Walk(e, m, q), Walk(e, n, p))
    ensures Laid(e, L, n, q.addr, q.fc)
  {
    hide Alike; hide Page;
    var d := RootOf(e, q.fc);
    if d.w0.ty == 1 {
      PageAlike(e, L, m, n, q, p, [], [], d, d, 0, true);
    } else if d.w0.ty >= 2 && e.fcl {
      var a := Entry(d, q.fc);
      FetchAlike(L, m, n, a, Wide(d));
      match Fetch(m, a, Wide(d))
      case None =>
      case Some(x) =>
        var y := Fetch(n, a, Wide(d)).value;
        var h, k := [Hop(a, x, true)], [Hop(a, y, true)];
        if x.w0.ty == 1 {
          PageAlike(e, L, m, n, q, p, h, k, x, y, 0, true);
        } else if x.w0.ty >= 2 {
          TableAlike(e, L, m, n, q, p, h, k, x, y, 0);
          LaidTableAlike(e, L, m, n, q.addr, x, y, 0);
        }
    } else if d.w0.ty >= 2 {
      TableAlike(e, L, m, n, q, p, [], [], d, d, 0);
      LaidTableAlike(e, L, m, n, q.addr, d, d, 0);
    }
  }
}
