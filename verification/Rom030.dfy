/** 68030 table searches over descriptors that cannot be written. */
module Rom030 {
  import opened Words
  import opened Walk030
  import opened WalkLaws030
  import opened Stable030
  import opened Settle030

  /** The same machine with all memory writable. */
  function Unlocked(e: Env): Env { e.(rom := {}) }

  /** `w` is the search from `m`, `v` the search from `m` with all memory writable: `w` fails at a
      descriptor in `rom` that `v` changes, or else the two are the same and `v` changes nothing
      in `rom`. */
  ghost predicate JamsAlone(rom: set<u32>, m: Mem, w: Walked, v: Walked)
  {
    if w.end.Jammed? then
      |w.hops| > 0 && w.hops[|w.hops| - 1].live &&
      var a := w.hops[|w.hops| - 1].at;
      a in rom && a in m && a in v.mem && v.mem[a] != m[a]
    else
      w == v && forall a :: a in rom && a in m && a in v.mem ==> v.mem[a] == m[a]
  }

  /** Marks that come first do not undo this. */
  lemma JamsAfter(rom: set<u32>, m: Mem, m1: Mem, w: Walked, v: Walked)
    requires Ors(m, m1) && Ors(m1, v.mem) && JamsAlone(rom, m1, w, v)
    requires forall a :: a in rom && a in m ==> m1[a] == m[a]
    ensures JamsAlone(rom, m, w, v)
  {
  }

  lemma PageJams(e: Env, m: Mem, q: Query, hops: seq<Hop>, d: Desc, t: nat, early: bool)
    requires early ==> t <= e.x.last
    requires Current(m, hops, d)
    ensures JamsAlone(e.rom, m, Page(e, m, q, hops, d, t, early), Page(Unlocked(e), m, q, hops, d, t, early))
  {
    hide Index; hide Unused; hide OverLimit; hide Denied; hide Protected;
  }

  lemma IndirectJams(e: Env, m: Mem, q: Query, hops: seq<Hop>, d: Desc)
    ensures JamsAlone(e.rom, m, Indirect(e, m, q, hops, d), Indirect(Unlocked(e), m, q, hops, d))
  {
    hide Page;
    var a := Above2(Pointer(d));
    if Fetch(m, a, Wide(d)).Some? {
      var n := Fetch(m, a, Wide(d)).value;
      PageJams(e, m, q, hops + [Hop(a, n, true)], n, 4, false);
    }
  }

  /** With all memory writable, a search keeps the mark it sets first. */
  lemma MarkStays(e: Env, m: Mem, q: Query, hops: seq<Hop>, d: Desc, t: nat)
    requires t <= e.x.last && Current(m, hops, d) && e.rom == {}
    requires q.level != 0 ==> |hops| <= q.level
    ensures Ors(MarkUsed(m, q, hops, d), Table(e, m, q, hops, d, t).mem)
  {
    hide MustMark; hide MarkUsed; hide Index; hide OverLimit; hide Entry; hide Page; hide Indirect;
    var m1 := MarkUsed(m, q, hops, d);
    if (|hops| > 0 && q.level == |hops|) || OverLimit(d, Index(e.x, q.addr, t)) { return; }
    var a := Entry(d, Index(e.x, q.addr, t));
    match Fetch(m1, a, Wide(d))
    case None =>
    case Some(n) =>
      if n.w0.ty == 1 {
        PageEffect(e, m1, q, hops + [Hop(a, n, true)], n, t + 1, t + 1 <= e.x.last);
      } else if n.w0.ty >= 2 && t + 1 <= e.x.last {
        TableEffect(e, m1, q, hops + [Hop(a, n, true)], n, t + 1);
      } else if n.w0.ty >= 2 {
        IndirectEffect(e, m1, q, hops + [Hop(a, n, false)], n);
      }
  }

  lemma MarkInRom(m: Mem, q: Query, hops: seq<Hop>, d: Desc)
    requires Current(m, hops, d)
    ensures Ors(m, MarkUsed(m, q, hops, d))
    ensures MustMark(q, hops, d) ==>
      var a := hops[|hops| - 1].at; hops[|hops| - 1].live && a in m && !m[a].u && MarkUsed(m, q, hops, d)[a].u
    ensures forall a :: a in m && MarkUsed(m, q, hops, d)[a] != m[a] ==>
      MustMark(q, hops, d) && a == hops[|hops| - 1].at
  {
    hide Denied;
  }

  lemma {:induction false} TableJams(e: Env, m: Mem, q: Query, hops: seq<Hop>, d: Desc, t: nat)
    requires t <= e.x.last && Current(m, hops, d)
    requires q.level != 0 ==> |hops| <= q.level
    ensures JamsAlone(e.rom, m, Table(e, m, q, hops, d, t), Table(Unlocked(e), m, q, hops, d, t))
    decreases 4 - t
  {
    hide Denied; hide MarkUsed; hide Index; hide OverLimit; hide Entry; hide Page; hide Indirect;
    var w, v := Table(e, m, q, hops, d, t), Table(Unlocked(e), m, q, hops, d, t);
    var m1 := MarkUsed(m, q, hops, d);
    MarkStays(Unlocked(e), m, q, hops, d, t);
    MarkInRom(m, q, hops, d);
    if MustMark(q, hops, d) && hops[|hops| - 1].at in e.rom { return; }
    if (|hops| > 0 && q.level == |hops|) || OverLimit(d, Index(e.x, q.addr, t)) {
      JamsAfter(e.rom, m, m1, w, v);
      return;
    }
    var a := Entry(d, Index(e.x, q.addr, t));
    match Fetch(m1, a, Wide(d))
    case None =>
      JamsAfter(e.rom, m, m1, w, v);
    case Some(n) =>
      if n.w0.ty == 1 {
        PageJams(e, m1, q, hops + [Hop(a, n, true)], n, t + 1, t + 1 <= e.x.last);
      } else if n.w0.ty >= 2 && t + 1 <= e.x.last {
        TableJams(e, m1, q, hops + [Hop(a, n, true)], n, t + 1);
      } else if n.w0.ty >= 2 {
        IndirectJams(e, m1, q, hops + [Hop(a, n, false)], n);
      }
      JamsAfter(e.rom, m, m1, w, v);
  }

  lemma WalkJams(e: Env, m: Mem, q: Query)
    ensures JamsAlone(e.rom, m, Walk(e, m, q), Walk(Unlocked(e), m, q))
  {
    hide Table; hide Page;
    var d := RootOf(e, q.fc);
    assert d == RootOf(Unlocked(e), q.fc);
    if d.w0.ty == 1 {
      PageJams(e, m, q, [], d, 0, true);
    } else if d.w0.ty >= 2 && e.fcl {
      var a := Entry(d, q.fc);
      match Fetch(m, a, Wide(d))
      case None =>
      case Some(n) =>
        if n.w0.ty == 1 {
          PageJams(e, m, q, [Hop(a, n, true)], n, 0, true);
        } else if n.w0.ty >= 2 {
          TableJams(e, m, q, [Hop(a, n, true)], n, 0);
        }
    } else if d.w0.ty >= 2 {
      TableJams(e, m, q, [], d, 0);
    }
  }

  /** A search ends in a bus error on a descriptor write exactly when, with all memory writable, it
      would change a descriptor that cannot be written; any other search does not notice. */
  lemma JammedExactly(e: Env, m: Mem, q: Query)
    ensures var w, v := Walk(e, m, q), Walk(Unlocked(e), m, q);
      && (w.end.Jammed? <==> exists a :: a in e.rom && a in m && a in v.mem && v.mem[a] != m[a])
      && (!w.end.Jammed? ==> w == v)
  {
    hide Walk;
    WalkJams(e, m, q);
  }

  /** Searches over a layout that can be written never end that way. */
  lemma LaidNeverJams(e: Env, L: Layout, m: Mem, q: Query)
    requires Apart(L) && Laid(e, L, m, q.addr, q.fc)
    ensures !Walk(e, m, q).end.Jammed?
  {
    hide Walk;
    WalkJams(e, m, q);
    WalkHeads(e, L, m, q);
  }
}
