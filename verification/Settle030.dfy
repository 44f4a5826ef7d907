/** A page once searched stays settled: repeating the search sets no further bits. */
module Settle030 {
  import opened Words
  import opened Walk030
  import opened WalkLaws030
  import opened Stable030

  // ---------------------------------------------------------------- a search marks its path

  ghost predicate AllUsed(m: Mem, hops: seq<Hop>)
  {
    forall i :: 0 <= i < |hops| && hops[i].live ==> hops[i].at in m && m[hops[i].at].u
  }

  /** The M bit a search reports is the one it leaves in memory. */
  ghost predicate LeafStored(w: Walked)
  {
    |w.hops| > 0 && (w.end.Leaf? || w.end.LeafLimit?) ==>
      w.hops[|w.hops| - 1].at in w.mem && w.mem[w.hops[|w.hops| - 1].at].m == w.end.m
  }

  ghost predicate Settles(q: Query, w: Walked)
  {
    !Denied(w.hops, q.fc) && !w.end.Jammed? ==> AllUsed(w.mem, w.hops) && LeafStored(w)
  }

  lemma AllUsedLater(m: Mem, n: Mem, hops: seq<Hop>)
    requires AllUsed(m, hops) && Ors(m, n)
    ensures AllUsed(n, hops)
  {
  }

  lemma DeniedGrows(hops: seq<Hop>, more: seq<Hop>, fc: fcode)
    requires hops <= more && Denied(hops, fc)
    ensures Denied(more, fc)
  {
    var i :| 0 <= i < |hops| && hops[i].live && SuperOnly(hops[i].d);
    assert more[i] == hops[i];
  }

  /** All descriptors passed so far, but for the current one, are marked. */
  ghost predicate MarkedBefore(m: Mem, q: Query, hops: seq<Hop>)
  {
    !Denied(hops, q.fc) && |hops| > 0 ==> AllUsed(m, hops[..|hops| - 1])
  }

  lemma PageSettles(e: Env, m: Mem, q: Query, hops: seq<Hop>, d: Desc, t: nat, early: bool)
    requires early ==> t <= e.x.last
    requires d.w0.ty == 1 && Current(m, hops, d) && q.level == 0 && MarkedBefore(m, q, hops)
    ensures Settles(q, Page(e, m, q, hops, d, t, early))
  {
    var w := Page(e, m, q, hops, d, t, early);
    if !Denied(hops, q.fc) && |hops| > 0 && !w.end.Jammed? {
      PageEffect(e, m, q, hops, d, t, early);
      AllUsedLater(m, w.mem, hops[..|hops| - 1]);
      forall i | 0 <= i < |hops| && hops[i].live
        ensures hops[i].at in w.mem && w.mem[hops[i].at].u
      {
        if i < |hops| - 1 { assert hops[..|hops| - 1][i] == hops[i]; }
      }
    }
  }

  lemma MarkSettles(m: Mem, q: Query, hops: seq<Hop>, d: Desc)
    requires Current(m, hops, d) && q.level == 0 && MarkedBefore(m, q, hops)
    ensures !Denied(hops, q.fc) ==> AllUsed(MarkUsed(m, q, hops, d), hops)
  {
    if !Denied(hops, q.fc) && |hops| > 0 {
      var m1 := MarkUsed(m, q, hops, d);
      MarkEffect(m, q, hops, d);
      AllUsedLater(m, m1, hops[..|hops| - 1]);
      forall i | 0 <= i < |hops| && hops[i].live
        ensures hops[i].at in m1 && m1[hops[i].at].u
      {
        if i < |hops| - 1 { assert hops[..|hops| - 1][i] == hops[i]; }
      }
    }
  }

  lemma MarkedBeforeNext(m: Mem, q: Query, hops: seq<Hop>, h: Hop)
    requires !Denied(hops, q.fc) ==> AllUsed(m, hops)
    ensures MarkedBefore(m, q, hops + [h])
  {
    if !Denied(hops + [h], q.fc) {
      if Denied(hops, q.fc) { DeniedGrows(hops, hops + [h], q.fc); }
      assert (hops + [h])[..|hops|] == hops;
    }
  }

  lemma Ended(m: Mem, q: Query, hops: seq<Hop>, h: Hop, end: End)
    requires !Denied(hops, q.fc) ==> AllUsed(m, hops)
    requires !h.live && !end.Leaf? && !end.LeafLimit?
    ensures Settles(q, Walked(m, hops, end))
    ensures Settles(q, Walked(m, hops + [h], end))
  {
    if Denied(hops, q.fc) { DeniedGrows(hops, hops + [h], q.fc); }
  }

  lemma IndirectSettles(e: Env, m: Mem, q: Query, hops: seq<Hop>, d: Desc)
    requires 0 < |hops| && q.level == 0
    requires !Denied(hops, q.fc) ==> AllUsed(m, hops)
    ensures Settles(q, Indirect(e, m, q, hops, d))
  {
    var a := Above2(Pointer(d));
    match Fetch(m, a, Wide(d))
    case None =>
    case Some(n) =>
      if n.w0.ty == 1 {
        MarkedBeforeNext(m, q, hops, Hop(a, n, true));
        PageSettles(e, m, q, hops + [Hop(a, n, true)], n, 4, false);
      } else {
        Ended(m, q, hops, Hop(a, n, false), Invalid);
      }
  }

  lemma {:induction false} TableSettles(e: Env, m: Mem, q: Query, hops: seq<Hop>, d: Desc, t: nat)
    requires t <= e.x.last && q.level == 0
    requires Current(m, hops, d) && MarkedBefore(m, q, hops)
    ensures Settles(q, Table(e, m, q, hops, d, t))
    decreases 4 - t
  {
    hide MarkUsed; hide Index; hide OverLimit; hide Entry; hide Page; hide Indirect; hide AllUsed; hide Denied;
    var m1 := MarkUsed(m, q, hops, d);
    MarkSettles(m, q, hops, d);
    var i := Index(e.x, q.addr, t);
    if MustMark(q, hops, d) && hops[|hops| - 1].at in e.rom { return; }
    if OverLimit(d, i) { return; }
    var a := Entry(d, i);
    match Fetch(m1, a, Wide(d))
    case None =>
    case Some(n) =>
      MarkedBeforeNext(m1, q, hops, Hop(a, n, true));
      if n.w0.ty == 0 {
        Ended(m1, q, hops, Hop(a, n, false), Invalid);
      } else if n.w0.ty == 1 {
        PageSettles(e, m1, q, hops + [Hop(a, n, true)], n, t + 1, t + 1 <= e.x.last);
      } else if t + 1 <= e.x.last {
        TableSettles(e, m1, q, hops + [Hop(a, n, true)], n, t + 1);
      } else {
        DeadHop(m1, q, hops, Hop(a, n, false));
        IndirectSettles(e, m1, q, hops + [Hop(a, n, false)], n);
      }
  }

  lemma DeadHop(m: Mem, q: Query, hops: seq<Hop>, h: Hop)
    requires !h.live && (!Denied(hops, q.fc) ==> AllUsed(m, hops))
    ensures !Denied(hops + [h], q.fc) ==> AllUsed(m, hops + [h])
  {
    if Denied(hops, q.fc) { DeniedGrows(hops, hops + [h], q.fc); }
  }

  lemma WalkSettles(e: Env, m: Mem, q: Query)
    requires q.level == 0
    ensures Settles(q, Walk(e, m, q))
  {
    hide Table; hide Page;
    var d := RootOf(e, q.fc);
    if d.w0.ty == 1 {
      PageSettles(e, m, q, [], d, 0, true);
    } else if d.w0.ty >= 2 && e.fcl {
      var a := Entry(d, q.fc);
      match Fetch(m, a, Wide(d))
      case None =>
      case Some(n) =>
        if n.w0.ty == 1 {
          PageSettles(e, m, q, [Hop(a, n, true)], n, 0, true);
        } else if n.w0.ty >= 2 {
          TableSettles(e, m, q, [Hop(a, n, true)], n, 0);
        }
    } else if d.w0.ty >= 2 {
      TableSettles(e, m, q, [], d, 0);
    }
  }

  // ---------------------------------------------------------------- a search reads what is there

  /** Every descriptor read has at least the U and M bits memory had to begin with. */
  ghost predicate ReadFrom(m: Mem, hops: seq<Hop>)
  {
    forall i :: 0 <= i < |hops| ==> hops[i].at in m && Keeps(m[hops[i].at], hops[i].d.w0)
  }

  lemma FetchReads(m0: Mem, m: Mem, hops: seq<Hop>, a: u32, long: bool, live: bool)
    requires Ors(m0, m) && ReadFrom(m0, hops) && Fetch(m, a, long).Some?
    ensures ReadFrom(m0, hops + [Hop(a, Fetch(m, a, long).value, live)])
  {
  }

  lemma OrsThen(m0: Mem, m: Mem, n: Mem)
    requires Ors(m0, m) && Ors(m, n)
    ensures Ors(m0, n)
  {
  }

  lemma IndirectReads(e: Env, m0: Mem, m: Mem, q: Query, hops: seq<Hop>, d: Desc)
    requires Ors(m0, m) && ReadFrom(m0, hops) && 0 < |hops|
    ensures ReadFrom(m0, Indirect(e, m, q, hops, d).hops)
  {
    var a := Above2(Pointer(d));
    if q.level != |hops| && Fetch(m, a, Wide(d)).Some? {
      FetchReads(m0, m, hops, a, Wide(d), true);
      FetchReads(m0, m, hops, a, Wide(d), false);
    }
  }

  lemma {:induction false} TableReads(e: Env, m0: Mem, m: Mem, q: Query, hops: seq<Hop>, d: Desc, t: nat)
    requires t <= e.x.last
    requires Ors(m0, m) && Current(m, hops, d) && ReadFrom(m0, hops)
    ensures ReadFrom(m0, Table(e, m, q, hops, d, t).hops)
    decreases 4 - t
  {
    hide MarkUsed; hide Index; hide OverLimit; hide Entry; hide Indirect;
    var m1 := MarkUsed(m, q, hops, d);
    MarkEffect(m, q, hops, d);
    OrsThen(m0, m, m1);
    var i := Index(e.x, q.addr, t);
    if MustMark(q, hops, d) && hops[|hops| - 1].at in e.rom { return; }
    if |hops| > 0 && q.level == |hops| { return; }
    if OverLimit(d, i) { return; }
    var a := Entry(d, i);
    match Fetch(m1, a, Wide(d))
    case None =>
    case Some(n) =>
      FetchReads(m0, m1, hops, a, Wide(d), true);
      FetchReads(m0, m1, hops, a, Wide(d), false);
      hide ReadFrom;
      if n.w0.ty >= 2 && t + 1 <= e.x.last {
        TableReads(e, m0, m1, q, hops + [Hop(a, n, true)], n, t + 1);
      } else if n.w0.ty >= 2 {
        IndirectReads(e, m0, m1, q, hops + [Hop(a, n, false)], n);
      }
  }

  lemma WalkReads(e: Env, m: Mem, q: Query)
    ensures ReadFrom(m, Walk(e, m, q).hops)
  {
    hide Table;
    var d := RootOf(e, q.fc);
    if d.w0.ty >= 2 && e.fcl {
      var a := Entry(d, q.fc);
      match Fetch(m, a, Wide(d))
      case None =>
      case Some(n) =>
        FetchReads(m, m, [], a, Wide(d), true);
        FetchReads(m, m, [], a, Wide(d), false);
        assert [] + [Hop(a, n, true)] == [Hop(a, n, true)];
        if n.w0.ty >= 2 {
          TableReads(e, m, m, q, [Hop(a, n, true)], n, 0);
        }
    } else if d.w0.ty >= 2 {
      TableReads(e, m, m, q, [], d, 0);
    }
  }

  // ---------------------------------------------------------------- a marked path stays as it is

  ghost predicate ReadUsed(hops: seq<Hop>)
  {
    forall i :: 0 <= i < |hops| && hops[i].live ==> hops[i].d.w0.u
  }

  /** Nothing on the path is left to set. */
  ghost predicate Complete(q: Query, w: Walked)
  {
    && ReadUsed(w.hops)
    && (q.write && |w.hops| > 0 && (w.end.Leaf? || w.end.LeafLimit?) ==>
         w.hops[|w.hops| - 1].d.w0.m || Protected(w.hops))
  }

  lemma PageQuiet(e: Env, m: Mem, q: Query, hops: seq<Hop>, d: Desc, t: nat, early: bool)
    requires early ==> t <= e.x.last
    requires Current(m, hops, d) && Complete(q, Page(e, m, q, hops, d, t, early))
    ensures Page(e, m, q, hops, d, t, early).mem == m
  {
  }

  /** A marked descriptor is not marked again. */
  lemma MarkQuiet(m: Mem, q: Query, hops: seq<Hop>, d: Desc, w: Walked)
    requires Current(m, hops, d) && Complete(q, w) && hops <= w.hops
    ensures MarkUsed(m, q, hops, d) == m
  {
    hide Protected; hide Denied;
    if |hops| > 0 { assert w.hops[|hops| - 1] == hops[|hops| - 1]; }
  }

  lemma {:induction false} TableQuiet(e: Env, m: Mem, q: Query, hops: seq<Hop>, d: Desc, t: nat)
    requires t <= e.x.last && q.level == 0
    requires Current(m, hops, d) && Complete(q, Table(e, m, q, hops, d, t))
    ensures Table(e, m, q, hops, d, t).mem == m
    decreases 4 - t
  {
    hide Justified; hide MarkUsed; hide Index; hide OverLimit; hide Entry;
    TableEffect(e, m, q, hops, d, t);
    MarkQuiet(m, q, hops, d, Table(e, m, q, hops, d, t));
    var i := Index(e.x, q.addr, t);
    if OverLimit(d, i) { return; }
    var a := Entry(d, i);
    match Fetch(m, a, Wide(d))
    case None =>
    case Some(n) =>
      hide Complete;
      if n.w0.ty == 1 {
        PageQuiet(e, m, q, hops + [Hop(a, n, true)], n, t + 1, t + 1 <= e.x.last);
      } else if n.w0.ty >= 2 && t + 1 <= e.x.last {
        TableQuiet(e, m, q, hops + [Hop(a, n, true)], n, t + 1);
      } else if n.w0.ty >= 2 {
        var b := Above2(Pointer(n));
        if Fetch(m, b, Wide(n)).Some? && Fetch(m, b, Wide(n)).value.w0.ty == 1 {
          var c := Fetch(m, b, Wide(n)).value;
          PageQuiet(e, m, q, hops + [Hop(a, n, false)] + [Hop(b, c, true)], c, 4, false);
        }
      }
  }

  lemma WalkQuiet(e: Env, m: Mem, q: Query)
    requires q.level == 0 && Complete(q, Walk(e, m, q))
    ensures Walk(e, m, q).mem == m
  {
    hide Table; hide Page; hide Complete;
    var d := RootOf(e, q.fc);
    if d.w0.ty == 1 {
      PageQuiet(e, m, q, [], d, 0, true);
    } else if d.w0.ty >= 2 && e.fcl {
      var a := Entry(d, q.fc);
      match Fetch(m, a, Wide(d))
      case None =>
      case Some(n) =>
        if n.w0.ty == 1 {
          PageQuiet(e, m, q, [Hop(a, n, true)], n, 0, true);
        } else if n.w0.ty >= 2 {
          TableQuiet(e, m, q, [Hop(a, n, true)], n, 0);
        }
    } else if d.w0.ty >= 2 {
      TableQuiet(e, m, q, [], d, 0);
    }
  }

  // ---------------------------------------------------------------- live descriptors are heads

  ghost predicate LiveAtHeads(L: Layout, hops: seq<Hop>)
  {
    forall i :: 0 <= i < |hops| && hops[i].live ==> hops[i].at in L.heads
  }

  lemma IndirectHeads(e: Env, L: Layout, m: Mem, q: Query, hops: seq<Hop>, d: Desc)
    requires LaidIndirect(L, m, d) && LiveAtHeads(L, hops)
    ensures LiveAtHeads(L, Indirect(e, m, q, hops, d).hops)
  {
  }

  lemma {:induction false} TableHeads(e: Env, L: Layout, m: Mem, q: Query, hops: seq<Hop>, d: Desc, t: nat)
    requires t <= e.x.last && Apart(L) && d.w0.ty >= 2
    requires LaidTable(e, L, m, q.addr, d, t) && LiveAtHeads(L, hops) && AtHead(L, m, hops, d)
    ensures LiveAtHeads(L, Table(e, m, q, hops, d, t).hops)
    decreases 4 - t
  {
    hide MarkUsed; hide Alike; hide Index; hide OverLimit; hide Entry; hide Indirect;
    var m1 := MarkUsed(m, q, hops, d);
    AlikeItself(L, m);
    SameHopsItself(hops);
    MarkAlike(L, m, m, q, q, hops, hops, d, d);
    LaidTableAlike(e, L, m, m1, q.addr, d, d, t);
    var i := Index(e.x, q.addr, t);
    if MustMark(q, hops, d) && hops[|hops| - 1].at in e.rom { return; }
    if (|hops| > 0 && q.level == |hops|) || OverLimit(d, i) { return; }
    var a := Entry(d, i);
    match Fetch(m1, a, Wide(d))
    case None =>
    case Some(n) =>
      if n.w0.ty >= 2 && t + 1 <= e.x.last {
        TableHeads(e, L, m1, q, hops + [Hop(a, n, true)], n, t + 1);
      } else if n.w0.ty >= 2 {
        IndirectHeads(e, L, m1, q, hops + [Hop(a, n, false)], n);
      }
  }

  lemma SameHopsItself(hops: seq<Hop>)
    ensures SameHops(hops, hops)
  {
  }

  lemma WalkHeads(e: Env, L: Layout, m: Mem, q: Query)
    requires Apart(L) && Laid(e, L, m, q.addr, q.fc)
    ensures LiveAtHeads(L, Walk(e, m, q).hops)
  {
    hide Table;
    var d := RootOf(e, q.fc);
    if d.w0.ty >= 2 && e.fcl {
      var a := Entry(d, q.fc);
      match Fetch(m, a, Wide(d))
      case None =>
      case Some(n) =>
        if n.w0.ty >= 2 {
          TableHeads(e, L, m, q, [Hop(a, n, true)], n, 0);
        }
    } else if d.w0.ty >= 2 {
      TableHeads(e, L, m, q, [], d, 0);
    }
  }
}
