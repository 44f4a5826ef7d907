/** What every 68030 table search does to descriptor memory, and why its verdict does not
    depend on the U and M bits that searches set. */
module WalkLaws030 {
  import opened Words
  import opened Walk030

  // ---------------------------------------------------------------- effect on memory

  /** The descriptor being processed is the last one fetched and is still in memory. */
  ghost predicate Current(m: Mem, hops: seq<Hop>, d: Desc)
  {
    |hops| > 0 ==>
      var h := hops[|hops| - 1];
      h.d == d && h.live && h.at in m && m[h.at] == d.w0
  }

  /** Where and when bits may have been set. */
  ghost predicate Justified(m: Mem, q: Query, w: Walked)
  {
    && Ors(m, w.mem)
    && (q.level != 0 ==> w.mem == m)
    && (forall a :: a in m && w.mem[a] != m[a] ==> exists i :: 0 <= i < |w.hops| && w.hops[i].at == a && w.hops[i].live)
    && (forall a :: a in m && w.mem[a].m != m[a].m ==>
         && (w.end.Leaf? || w.end.LeafLimit?) && |w.hops| > 0 && a == w.hops[|w.hops| - 1].at && m[a].ty == 1
         && q.write && !Protected(w.hops) && !Denied(w.hops, q.fc))
  }

  ghost predicate Bounded(q: Query, w: Walked, room: nat)
  {
    |w.hops| <= room && (q.level != 0 ==> |w.hops| <= q.level)
  }

  lemma PageEffect(e: Env, m: Mem, q: Query, hops: seq<Hop>, d: Desc, t: nat, early: bool)
    requires early ==> t <= e.x.last
    requires Current(m, hops, d) && d.w0.ty == 1
    ensures Justified(m, q, Page(e, m, q, hops, d, t, early))
    ensures Page(e, m, q, hops, d, t, early).hops == hops
  {
  }

  lemma IndirectEffect(e: Env, m: Mem, q: Query, hops: seq<Hop>, d: Desc)
    requires 0 < |hops| && (q.level != 0 ==> |hops| <= q.level)
    ensures var w := Indirect(e, m, q, hops, d);
      Justified(m, q, w) && Bounded(q, w, |hops| + 1) && hops <= w.hops
  {
    if q.level != |hops| {
      var a := Above2(Pointer(d));
      match Fetch(m, a, Wide(d))
      case None =>
      case Some(n) =>
        if n.w0.ty == 1 {
          PageEffect(e, m, q, hops + [Hop(a, n, true)], n, 4, false);
        }
    }
  }

  /** The effect of setting one U bit, in the last descriptor passed. */
  ghost predicate Marked(m: Mem, m1: Mem, q: Query, hops: seq<Hop>)
  {
    && Ors(m, m1) && (q.level != 0 ==> m1 == m)
    && (forall a :: a in m && m1[a] != m[a] ==> |hops| > 0 && a == hops[|hops| - 1].at && hops[|hops| - 1].live)
    && (forall a :: a in m ==> m1[a].m == m[a].m)
  }

  lemma MarkEffect(m: Mem, q: Query, hops: seq<Hop>, d: Desc)
    requires Current(m, hops, d)
    ensures Marked(m, MarkUsed(m, q, hops, d), q, hops)
  {
  }

  lemma StillJustified(m: Mem, q: Query, w: Walked)
    requires w.mem == m
    ensures Justified(m, q, w)
  {
  }

  lemma MarkThen(m: Mem, m1: Mem, q: Query, hops: seq<Hop>, w: Walked)
    requires Marked(m, m1, q, hops) && Justified(m1, q, w) && hops <= w.hops
    ensures Justified(m, q, w)
  {
    forall a | a in m && w.mem[a] != m[a]
      ensures exists i :: 0 <= i < |w.hops| && w.hops[i].at == a && w.hops[i].live
    {
      if m1[a] != m[a] {
        assert w.hops[|hops| - 1] == hops[|hops| - 1];
      }
    }
  }

  lemma {:induction false} TableEffect(e: Env, m: Mem, q: Query, hops: seq<Hop>, d: Desc, t: nat)
    requires t <= e.x.last && Current(m, hops, d)
    requires q.level != 0 ==> |hops| <= q.level
    ensures var w := Table(e, m, q, hops, d, t);
      Justified(m, q, w) && Bounded(q, w, |hops| + 5 - t) && hops <= w.hops
    decreases 4 - t
  {
    hide Marked; hide MarkUsed; hide Index; hide OverLimit; hide Entry; hide Page; hide Indirect; hide Justified;
    var m1 := MarkUsed(m, q, hops, d);
    MarkEffect(m, q, hops, d);
    var w := Table(e, m, q, hops, d, t);
    if MustMark(q, hops, d) && hops[|hops| - 1].at in e.rom {
      StillJustified(m, q, w);
      return;
    }
    if (|hops| > 0 && q.level == |hops|) || OverLimit(d, Index(e.x, q.addr, t)) {
      StillJustified(m1, q, w);
      MarkThen(m, m1, q, hops, w);
      return;
    }
    var a := Entry(d, Index(e.x, q.addr, t));
    match Fetch(m1, a, Wide(d))
    case None =>
      StillJustified(m1, q, w);
      MarkThen(m, m1, q, hops, w);
    case Some(n) =>
      if n.w0.ty == 0 {
        StillJustified(m1, q, w);
      } else if n.w0.ty == 1 {
        PageEffect(e, m1, q, hops + [Hop(a, n, true)], n, t + 1, t + 1 <= e.x.last);
      } else if t + 1 <= e.x.last {
        TableEffect(e, m1, q, hops + [Hop(a, n, true)], n, t + 1);
      } else {
        IndirectEffect(e, m1, q, hops + [Hop(a, n, false)], n);
      }
      MarkThen(m, m1, q, hops, w);
  }

  /** A search only ever sets U and M bits, only in descriptors on its path, and M only in
      the final page descriptor of a permitted write; PTEST changes nothing and reports at
      most as many levels as asked; no search fetches more than six descriptors. */
  lemma WalkEffect(e: Env, m: Mem, q: Query)
    ensures var w := Walk(e, m, q); Justified(m, q, w) && Bounded(q, w, 6)
  {
    var d := RootOf(e, q.fc);
    if d.w0.ty == 1 {
      PageEffect(e, m, q, [], d, 0, true);
    } else if d.w0.ty != 0 && e.fcl {
      var a := Entry(d, q.fc);
      match Fetch(m, a, Wide(d))
      case None =>
      case Some(n) =>
        if n.w0.ty == 1 {
          PageEffect(e, m, q, [Hop(a, n, true)], n, 0, true);
        } else if n.w0.ty != 0 {
          TableEffect(e, m, q, [Hop(a, n, true)], n, 0);
        }
    } else if d.w0.ty != 0 {
      TableEffect(e, m, q, [], d, 0);
    }
  }

  /** A search that ends at a page descriptor fetched that descriptor last, and marks it
      modified if it may be written; an ATC search is not stopped by a level. */
  ghost predicate EndsLive(q: Query, w: Walked)
  {
    && (w.end.Leaf? || w.end.LeafLimit? ==> |w.hops| > 0 && w.hops[|w.hops| - 1].live)
    && (w.end.Leaf? && q.level == 0 && q.write && !Denied(w.hops, q.fc) && !Protected(w.hops) ==> w.end.m)
    && (q.level == 0 ==> !w.end.Stopped?)
  }

  lemma PageEndsLive(e: Env, m: Mem, q: Query, hops: seq<Hop>, h: Hop, t: nat, early: bool)
    requires h.live && (early ==> t <= e.x.last)
    ensures EndsLive(q, Page(e, m, q, hops + [h], h.d, t, early))
  {
  }

  lemma IndirectEndsLive(e: Env, m: Mem, q: Query, hops: seq<Hop>, d: Desc)
    requires 0 < |hops|
    ensures EndsLive(q, Indirect(e, m, q, hops, d))
  {
    hide Denied;
    hide Protected;
    hide Page;
    var a := Above2(Pointer(d));
    if q.level != |hops| && Fetch(m, a, Wide(d)).Some? && Fetch(m, a, Wide(d)).value.w0.ty == 1 {
      PageEndsLive(e, m, q, hops, Hop(a, Fetch(m, a, Wide(d)).value, true), 4, false);
    }
  }

  lemma {:induction false} TableEndsLive(e: Env, m: Mem, q: Query, hops: seq<Hop>, d: Desc, t: nat)
    requires t <= e.x.last
    ensures EndsLive(q, Table(e, m, q, hops, d, t))
    decreases 4 - t
  {
    hide MarkUsed; hide Index; hide OverLimit; hide Entry; hide Page; hide Indirect; hide Denied; hide Protected;
    var m1 := MarkUsed(m, q, hops, d);
    var i := Index(e.x, q.addr, t);
    if MustMark(q, hops, d) && hops[|hops| - 1].at in e.rom { return; }
    if (|hops| > 0 && q.level == |hops|) || OverLimit(d, i) { return; }
    var a := Entry(d, i);
    match Fetch(m1, a, Wide(d))
    case None =>
    case Some(n) =>
      if n.w0.ty == 1 {
        PageEndsLive(e, m1, q, hops, Hop(a, n, true), t + 1, t + 1 <= e.x.last);
      } else if n.w0.ty >= 2 && t + 1 <= e.x.last {
        TableEndsLive(e, m1, q, hops + [Hop(a, n, true)], n, t + 1);
      } else if n.w0.ty >= 2 {
        IndirectEndsLive(e, m1, q, hops + [Hop(a, n, false)], n);
      }
  }

  lemma WalkEndsLive(e: Env, m: Mem, q: Query)
    ensures RootOf(e, q.fc).w0.ty != 1 ==> EndsLive(q, Walk(e, m, q))
    ensures RootOf(e, q.fc).w0.ty == 1 ==>
      var w := Walk(e, m, q);
      w.hops == [] && !w.end.Stopped? && (w.end.Leaf? ==> !w.end.m)
  {
    hide Table; hide Page; hide Denied; hide Protected;
    var d := RootOf(e, q.fc);
    if d.w0.ty >= 2 && e.fcl {
      var a := Entry(d, q.fc);
      match Fetch(m, a, Wide(d))
      case None =>
      case Some(n) =>
        if n.w0.ty == 1 {
          PageEndsLive(e, m, q, [], Hop(a, n, true), 0, true);
          assert [] + [Hop(a, n, true)] == [Hop(a, n, true)];
        } else if n.w0.ty >= 2 {
          TableEndsLive(e, m, q, [Hop(a, n, true)], n, 0);
        }
    } else if d.w0.ty >= 2 {
      TableEndsLive(e, m, q, [], d, 0);
    } else if d.w0.ty == 1 {
      RootPageHops(e, m, q, d);
    }
  }

  lemma RootPageHops(e: Env, m: Mem, q: Query, d: Desc)
    ensures var w := Page(e, m, q, [], d, 0, true);
      w.hops == [] && !w.end.Stopped? && (w.end.Leaf? ==> !w.end.m)
  {
  }
}
