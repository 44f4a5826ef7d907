/** The path of a 68030 table search on raw longwords and address bits: which addresses it reads,
    why it goes on, and why it stops. Nothing here uses the functions the search is made of. */
module Path030 {
  import opened Words
  import opened Walk030

  // ---------------------------------------------------------------- descriptors as longwords

  /** Bits 1-0 of the first longword. */
  function Ty(d: Desc): nat { Raw(d.w0) % 4 }

  /** The longword that holds the address: the second of a long descriptor. */
  function Ptr(d: Desc): nat { Raw(if d.long then d.w1 else d.w0) }

  /** The limit of a long descriptor, bits 30-16 of its first longword: an upper one, or a lower one
      if bit 31 is set. */
  predicate Over(d: Desc, index: nat)
  {
    d.long &&
    var r := Raw(d.w0);
    if r < 0x8000_0000 then index > r / 0x1_0000 % 0x8000 else index < r / 0x1_0000 % 0x8000
  }

  /** Entry `index` of the table a descriptor points to: entries of 8 bytes if its type is 3, of 4
      if it is 2, from the address with its low 4 bits clear. */
  function Slot(d: Desc, index: nat): u32
  {
    (Ptr(d) - Ptr(d) % 16 + index * (if Ty(d) == 3 then 8 else 4)) % 0x1_0000_0000
  }

  /** The address bits of table level `t`. */
  function Bits(x: Tables, addr: u32, t: nat): nat
    requires t < 4
  {
    And(addr, x.mask[t]) / Pow2(x.shift[t])
  }

  /** Descriptor number 0 of a path is the root pointer in use, number `k` the `k`-th fetched. */
  function Top(e: Env, fc: fcode): Desc
  {
    var r := if e.sre && fc >= 4 then e.srp else e.crp;
    Desc(true, r.hi, r.lo)
  }

  function Num(e: Env, fc: fcode, hops: seq<Hop>, k: nat): Desc
    requires k <= |hops|
  {
    if k == 0 then Top(e, fc) else hops[k - 1].d
  }

  /** The level of the table that descriptor number `k` points to, if it is a table descriptor:
      -1 is the function code table. */
  function Level(e: Env, k: nat): int { if e.fcl then k - 1 else k }

  // ---------------------------------------------------------------- paths

  /** Where the search reads next from descriptor `p`, number `k`. */
  ghost predicate Leads(e: Env, q: Query, p: Desc, k: nat, a: u32)
  {
    var t := Level(e, k);
    && Ty(p) >= 2
    && if t == -1 then a == Slot(p, q.fc)
       else if t <= e.x.last then !Over(p, Bits(e.x, q.addr, t)) && a == Slot(p, Bits(e.x, q.addr, t))
       else t == e.x.last + 1 && a == Ptr(p) - Ptr(p) % 4
  }

  /** `h` was read from memory `m`, where searches may have set U bits. */
  ghost predicate ReadAs(m: Mem, h: Hop)
  {
    && h.at in m && h.d.w0 == m[h.at].(u := h.d.w0.u) && (m[h.at].u ==> h.d.w0.u)
    && (h.d.long ==>
          var b := (h.at + 4) % 0x1_0000_0000;
          b in m && h.d.w1 == m[b].(u := h.d.w1.u) && (m[b].u ==> h.d.w1.u))
  }

  /** One step of the path: address, size and contents of the descriptor, and whether its
      protection counts, which it does for tables and pages. */
  ghost predicate Hopped(e: Env, m: Mem, q: Query, p: Desc, k: nat, h: Hop)
  {
    && Leads(e, q, p, k, h.at) && h.d.long == (Ty(p) == 3) && ReadAs(m, h)
    && h.live == (Ty(h.d) == 1 || (Ty(h.d) >= 2 && Level(e, k) < e.x.last))
    && (k > 0 ==> q.level != k)
  }

  ghost predicate Chain(e: Env, m: Mem, q: Query, hops: seq<Hop>)
  {
    forall k :: 0 <= k < |hops| ==> Hopped(e, m, q, Num(e, q.fc, hops, k), k, hops[k])
  }

  /** A page descriptor met at level `t` violates its limit. */
  predicate PageOver(e: Env, q: Query, p: Desc, n: nat, t: nat)
  {
    t <= e.x.last && (n > 0 || !e.fcl) && Over(p, Bits(e.x, q.addr, t))
  }

  /** Why a search stops at its last descriptor. */
  ghost predicate Stops(e: Env, m: Mem, q: Query, hops: seq<Hop>, end: End)
  {
    var n := |hops|; var p := Num(e, q.fc, hops, n); var l := Level(e, n);
    var t: nat := if l < 0 then 0 else l;
    match end
    case Leaf(page, _) =>
      && Ty(p) == 1 && !PageOver(e, q, p, n, t)
      && page == (Ptr(p) - Ptr(p) % 0x100 + if t <= e.x.last then Unused(e.x, q.addr, t) else 0) % 0x1_0000_0000
    case LeafLimit(_) => Ty(p) == 1 && PageOver(e, q, p, n, t)
    case Limit => Ty(p) >= 2 && 0 <= l <= e.x.last && Over(p, Bits(e.x, q.addr, l)) && !(n > 0 && q.level == n)
    case Invalid => Ty(p) == 0 || (Ty(p) != 1 && l == e.x.last + 2)
    case Broken =>
      && !(n > 0 && q.level == n)
      && exists a: u32 :: Leads(e, q, p, n, a) && (a !in m || (Ty(p) == 3 && (a + 4) % 0x1_0000_0000 !in m))
    case Stopped => n > 0 && q.level == n && Ty(p) >= 2 && l <= e.x.last + 1
    case Jammed => n > 0 && q.level == 0 && hops[n - 1].live && hops[n - 1].at in e.rom
  }

  ghost predicate Path(e: Env, m: Mem, q: Query, w: Walked) { Chain(e, m, q, w.hops) && Stops(e, m, q, w.hops, w.end) }

  // ---------------------------------------------------------------- the search follows it

  /** Descriptors that look alike to a search. */
  ghost predicate Looks(d: Desc, p: Desc)
  {
    d.long == p.long && Ty(d) == Ty(p) && Ptr(d) == Ptr(p) && forall i :: Over(d, i) == Over(p, i)
  }

  lemma WordMeans(d: Desc)
    ensures d.w0.ty == Ty(d) && Above8(Pointer(d)) == Ptr(d) - Ptr(d) % 0x100
    ensures Above4(Pointer(d)) == Ptr(d) - Ptr(d) % 16 && Above2(Pointer(d)) == Ptr(d) - Ptr(d) % 4
  {
    hide Raw; hide Above8; hide Above4; hide Above2;
    RawFields(d.w0);
    RawFields(Pointer(d));
  }

  lemma LimitField(w: Word)
    ensures (w.hi / 0x100) % 0x8000 == Raw(w) / 0x1_0000 % 0x8000
    ensures w.hi / 0x80_0000 == 1 <==> Raw(w) >= 0x8000_0000
  {
    hide Raw;
    RawFields(w);
    DivNat(Raw(w), 0x100);
    DivNat(w.hi, 0x100);
    DivModUnique(Raw(w), 0x1_0000, w.hi / 0x100, w.hi % 0x100 * 0x100 + Raw(w) % 0x100);
  }

  /** The limit test of the search is the limit of the longword. */
  lemma LimitMeans(d: Desc, index: nat)
    ensures OverLimit(d, index) <==> Over(d, index)
  {
    hide Raw;
    LimitField(d.w0);
  }

  lemma EntryMeans(d: Desc, index: nat)
    ensures Entry(d, index) == Slot(d, index)
  {
    hide Raw; hide Above4; hide Above8; hide Above2; hide Ptr; hide Ty;
    WordMeans(d);
  }

  lemma RootMeans(e: Env, fc: fcode)
    ensures Looks(RootOf(e, fc), Top(e, fc))
  {
    hide Raw;
    var d, p := RootOf(e, fc), Top(e, fc);
    WordMeans(d);
    WordMeans(p);
    LimitField(d.w0);
    LimitField(p.w0);
    DivNat(p.w0.hi, 0x100);
    DivModUnique(d.w0.hi, 0x100, p.w0.hi / 0x100, 0);
    TopBit(p.w0.hi);
  }

  lemma TopBit(hi: u24)
    ensures (hi - hi % 0x100) / 0x80_0000 == hi / 0x80_0000
  {
  }

  /** Memory in which only U bits have been set. */
  ghost predicate UsedOnly(m0: Mem, m: Mem)
  {
    m.Keys == m0.Keys && forall a :: a in m0 ==> m[a] == m0[a].(u := m[a].u) && (m0[a].u ==> m[a].u)
  }

  /** The search stands at descriptor `d`, the last of `hops` (or the root), with table level `t`
      next. */
  ghost predicate At(e: Env, m0: Mem, m: Mem, q: Query, hops: seq<Hop>, d: Desc)
  {
    && Chain(e, m0, q, hops) && UsedOnly(m0, m) && Looks(d, Num(e, q.fc, hops, |hops|))
    && (|hops| > 0 ==> hops[|hops| - 1].d == d && hops[|hops| - 1].at in m && m[hops[|hops| - 1].at] == d.w0)
  }

  lemma FetchReads(m0: Mem, m: Mem, a: u32, long: bool, live: bool)
    requires UsedOnly(m0, m)
    ensures var f := Fetch(m, a, long);
      && (f.None? <==> a !in m0 || (long && (a + 4) % 0x1_0000_0000 !in m0))
      && (f.Some? ==> ReadAs(m0, Hop(a, f.value, live)) && f.value.long == long && m[a] == f.value.w0)
  {
  }

  lemma MarkUsedOnly(m0: Mem, m: Mem, q: Query, hops: seq<Hop>, d: Desc)
    requires UsedOnly(m0, m)
    requires |hops| > 0 ==> hops[|hops| - 1].at in m && m[hops[|hops| - 1].at] == d.w0
    ensures UsedOnly(m0, MarkUsed(m, q, hops, d))
  {
    hide Denied;
  }

  lemma ChainOn(e: Env, m: Mem, q: Query, hops: seq<Hop>, h: Hop)
    requires Chain(e, m, q, hops) && Hopped(e, m, q, Num(e, q.fc, hops, |hops|), |hops|, h)
    ensures Chain(e, m, q, hops + [h])
  {
    hide Hopped;
    var more := hops + [h];
    forall k | 0 <= k < |more| ensures Hopped(e, m, q, Num(e, q.fc, more, k), k, more[k]) {
      assert Num(e, q.fc, more, k) == Num(e, q.fc, hops, k);
    }
  }

  /** One descriptor further. */
  lemma HopOn(e: Env, m0: Mem, m: Mem, q: Query, hops: seq<Hop>, d: Desc, a: u32, n: Desc, live: bool)
    requires Chain(e, m0, q, hops) && UsedOnly(m0, m) && Looks(d, Num(e, q.fc, hops, |hops|))
    requires Leads(e, q, d, |hops|, a) && Fetch(m, a, Ty(d) == 3) == Some(n) && !(|hops| > 0 && q.level == |hops|)
    requires live == (Ty(n) == 1 || (Ty(n) >= 2 && Level(e, |hops|) < e.x.last))
    ensures At(e, m0, m, q, hops + [Hop(a, n, live)], n)
  {
    hide Over; hide Bits; hide Slot; hide Raw; hide Ptr; hide Ty;
    FetchReads(m0, m, a, Ty(d) == 3, live);
    LeadsSame(e, q, d, Num(e, q.fc, hops, |hops|), |hops|, a);
    ChainOn(e, m0, q, hops, Hop(a, n, live));
  }

  lemma LeadsSame(e: Env, q: Query, d: Desc, p: Desc, k: nat, a: u32)
    requires Looks(d, p) && Leads(e, q, d, k, a)
    ensures Leads(e, q, p, k, a) && Ty(d) == Ty(p)
  {
    hide Raw; hide Ptr; hide Ty; hide Over; hide Bits;
  }

  lemma PagePath(e: Env, m0: Mem, m: Mem, q: Query, hops: seq<Hop>, d: Desc, t: nat, early: bool)
    requires early == (t <= e.x.last) && At(e, m0, m, q, hops, d) && Ty(d) == 1
    requires |hops| > 0 ==> hops[|hops| - 1].live
    requires if Level(e, |hops|) < 0 then t == 0 else t == Level(e, |hops|) || (t == 4 && Level(e, |hops|) > e.x.last)
    ensures Path(e, m0, q, Page(e, m, q, hops, d, t, early))
  {
    hide Raw; hide Ptr; hide Ty; hide Over; hide Chain; hide OverLimit; hide Unused; hide Denied; hide Protected;
    WordMeans(d);
    if early { LimitMeans(d, Index(e.x, q.addr, t)); }
  }

  /** A bus error on reading the next descriptor. */
  lemma BrokenPath(e: Env, m0: Mem, m: Mem, q: Query, hops: seq<Hop>, d: Desc, a: u32)
    requires Chain(e, m0, q, hops) && UsedOnly(m0, m) && Looks(d, Num(e, q.fc, hops, |hops|))
    requires Leads(e, q, d, |hops|, a) && Fetch(m, a, Ty(d) == 3).None? && !(|hops| > 0 && q.level == |hops|)
    ensures Path(e, m0, q, Walked(m, hops, Broken))
  {
    hide Raw; hide Ptr; hide Ty; hide Over; hide Chain; hide Leads; hide Looks; hide Fetch;
    FetchReads(m0, m, a, Ty(d) == 3, true);
    LeadsSame(e, q, d, Num(e, q.fc, hops, |hops|), |hops|, a);
  }

  lemma IndirectPath(e: Env, m0: Mem, m: Mem, q: Query, hops: seq<Hop>, d: Desc)
    requires At(e, m0, m, q, hops, d) && |hops| > 0 && Level(e, |hops|) == e.x.last + 1 && Ty(d) >= 2
    ensures Path(e, m0, q, Indirect(e, m, q, hops, d))
  {
    hide Raw; hide Ptr; hide Ty; hide Over; hide Page; hide Chain; hide Fetch; hide Looks;
    WordMeans(d);
    var a := Above2(Pointer(d));
    LookAlike(d, Num(e, q.fc, hops, |hops|));
    if q.level == |hops| { return; }
    match Fetch(m, a, Wide(d))
    case None => BrokenPath(e, m0, m, q, hops, d, a);
    case Some(n) =>
      WordMeans(n);
      HopOn(e, m0, m, q, hops, d, a, n, n.w0.ty == 1);
      if n.w0.ty == 1 { PagePath(e, m0, m, q, hops + [Hop(a, n, true)], n, 4, false); }
  }

  lemma LookAlike(d: Desc, p: Desc)
    requires Looks(d, p)
    ensures Ty(d) == Ty(p) && Ptr(d) == Ptr(p) && forall i :: Over(d, i) == Over(p, i)
  {
    hide Ty; hide Ptr; hide Over;
  }

  /** The ends of a round before anything is fetched. */
  lemma EarlyPath(e: Env, m0: Mem, n: Mem, q: Query, hops: seq<Hop>, d: Desc, t: nat)
    requires t <= e.x.last && Chain(e, m0, q, hops) && Looks(d, Num(e, q.fc, hops, |hops|))
    requires Level(e, |hops|) == t && Ty(d) >= 2 && (|hops| > 0 ==> hops[|hops| - 1].live)
    ensures MustMark(q, hops, d) && hops[|hops| - 1].at in e.rom ==> Path(e, m0, q, Walked(n, hops, Jammed))
    ensures |hops| > 0 && q.level == |hops| ==> Path(e, m0, q, Walked(n, hops, Stopped))
    ensures Over(d, Bits(e.x, q.addr, t)) && !(|hops| > 0 && q.level == |hops|) ==>
      Path(e, m0, q, Walked(n, hops, Limit))
  {
    hide Raw; hide Ptr; hide Ty; hide Over; hide Chain; hide Denied; hide Bits; hide Looks;
    LookAlike(d, Num(e, q.fc, hops, |hops|));
  }

  lemma {:induction false} TablePath(e: Env, m0: Mem, m: Mem, q: Query, hops: seq<Hop>, d: Desc, t: nat)
    requires t <= e.x.last && At(e, m0, m, q, hops, d) && Level(e, |hops|) == t && Ty(d) >= 2
    requires |hops| > 0 ==> hops[|hops| - 1].live
    ensures Path(e, m0, q, Table(e, m, q, hops, d, t))
    decreases 4 - t
  {
    hide Raw; hide Ptr; hide Ty; hide Over; hide Page; hide Indirect; hide Chain; hide Fetch; hide Looks; hide Denied;
    hide MarkUsed; hide OverLimit; hide Entry; hide Slot; hide Path; hide UsedOnly;
    var m1, i := MarkUsed(m, q, hops, d), Index(e.x, q.addr, t);
    MarkUsedOnly(m0, m, q, hops, d);
    EarlyPath(e, m0, m1, q, hops, d, t);
    EarlyPath(e, m0, m, q, hops, d, t);
    WordMeans(d);
    LimitMeans(d, i);
    EntryMeans(d, i);
    if MustMark(q, hops, d) && hops[|hops| - 1].at in e.rom { return; }
    if (|hops| > 0 && q.level == |hops|) || OverLimit(d, i) { return; }
    var a := Entry(d, i);
    match Fetch(m1, a, Wide(d))
    case None => BrokenPath(e, m0, m1, q, hops, d, a);
    case Some(n) =>
      WordMeans(n);
      var live := n.w0.ty == 1 || (n.w0.ty >= 2 && t + 1 <= e.x.last);
      HopOn(e, m0, m1, q, hops, d, a, n, live);
      if n.w0.ty == 1 {
        PagePath(e, m0, m1, q, hops + [Hop(a, n, true)], n, t + 1, t + 1 <= e.x.last);
      } else if n.w0.ty >= 2 && t + 1 <= e.x.last {
        TablePath(e, m0, m1, q, hops + [Hop(a, n, true)], n, t + 1);
      } else if n.w0.ty >= 2 {
        IndirectPath(e, m0, m1, q, hops + [Hop(a, n, false)], n);
      } else {
        InvalidPath(e, m0, m1, q, hops + [Hop(a, n, false)], n);
      }
  }

  lemma InvalidPath(e: Env, m0: Mem, m: Mem, q: Query, hops: seq<Hop>, d: Desc)
    requires At(e, m0, m, q, hops, d) && Ty(d) == 0
    ensures Path(e, m0, q, Walked(m, hops, Invalid))
  {
    hide Raw; hide Ptr; hide Ty; hide Over; hide Chain; hide Looks;
    LookAlike(d, Num(e, q.fc, hops, |hops|));
  }

  /** Every search follows the path of the longwords it reads: each descriptor lies at the pointer of
      the one before with its low bits clear, plus 4 or 8 times the function code or the address
      bits of the level; the search goes on over tables whose limit allows it, and stops at the
      first page, violated limit, invalid descriptor or bus error. */
  lemma WalkPath(e: Env, m: Mem, q: Query)
    ensures Path(e, m, q, Walk(e, m, q))
  {
    hide Raw; hide Ptr; hide Ty; hide Over; hide Page; hide Table; hide Fetch; hide Looks; hide Top; hide RootOf;
    hide Entry; hide Slot; hide Chain;
    var d := RootOf(e, q.fc);
    RootMeans(e, q.fc);
    LookAlike(d, Top(e, q.fc));
    WordMeans(d);
    NoHops(e, m, q);
    if d.w0.ty == 1 {
      PagePath(e, m, m, q, [], d, 0, true);
    } else if d.w0.ty >= 2 && e.fcl {
      var a := Entry(d, q.fc);
      EntryMeans(d, q.fc);
      match Fetch(m, a, Wide(d))
      case None => BrokenPath(e, m, m, q, [], d, a);
      case Some(n) =>
        WordMeans(n);
        HopOn(e, m, m, q, [], d, a, n, n.w0.ty != 0);
        assert [] + [Hop(a, n, n.w0.ty != 0)] == [Hop(a, n, n.w0.ty != 0)];
        if n.w0.ty == 1 {
          PagePath(e, m, m, q, [Hop(a, n, true)], n, 0, true);
        } else if n.w0.ty >= 2 {
          TablePath(e, m, m, q, [Hop(a, n, true)], n, 0);
        }
    } else if d.w0.ty >= 2 {
      TablePath(e, m, m, q, [], d, 0);
    }
  }

  lemma NoHops(e: Env, m: Mem, q: Query)
    ensures Chain(e, m, q, []) && UsedOnly(m, m)
  {
  }

  /** A search for the ATC stops on a limit exactly when the limit of its last descriptor is violated:
      that of a table descriptor by the next index, that of a page descriptor by the first index it
      leaves over. */
  lemma LimitExactly(e: Env, m: Mem, q: Query)
    requires q.level == 0 && !Walk(e, m, q).end.Jammed?
    ensures var w := Walk(e, m, q); var n := |w.hops|; var p, l := Num(e, q.fc, w.hops, n), Level(e, n);
      && (w.end.Limit? <==> Ty(p) >= 2 && 0 <= l <= e.x.last && Over(p, Bits(e.x, q.addr, l)))
      && (w.end.LeafLimit? <==> Ty(p) == 1 && PageOver(e, q, p, n, if l < 0 then 0 else l))
  {
    hide Walk; hide Chain; hide Over; hide Ty; hide Ptr; hide Slot;
    WalkPath(e, m, q);
  }

  /** Write protection is bit 2 of any table or page descriptor on the path, supervisor protection
      bit 8 of a long one. */
  lemma ProtectionMeans(hops: seq<Hop>, fc: fcode)
    ensures Protected(hops) <==> exists i :: 0 <= i < |hops| && hops[i].live && Raw(hops[i].d.w0) / 4 % 2 == 1
    ensures Denied(hops, fc) <==>
      fc < 4 && exists i :: 0 <= i < |hops| && hops[i].live && hops[i].d.long && Raw(hops[i].d.w0) / 0x100 % 2 == 1
  {
    hide Raw;
    forall w: Word ensures w.wp == (Raw(w) / 4 % 2 == 1) && w.hi == Raw(w) / 0x100 { RawFields(w); }
  }
}
