/** The 68040/68060 MMU with its ATC and shortcut caches against plain table searches. */
module Run040 {
  import opened Words
  import opened Walk040
  import opened Settle040
  import opened State040

  function Fresh(c: Cfg, m: Mem, a: u32, super: bool): Res { Walk(c, m, Ask(a, super, false)).res }

  ghost predicate AllLaid4(c: Cfg, L: Layout, m: Mem)
  {
    Apart(L) && forall a: u32, s: bool :: Laid4(c, L, m, Ask(a, s, false))
  }

  // ---------------------------------------------------------------- what cached entries promise

  /** A line agrees with a fresh search of a page. */
  ghost predicate Fits(c: Cfg, m: Mem, l: Line, a: u32, s: bool)
  {
    var r := Fresh(c, m, a, s);
    && l.resident == r.Page?
    && (l.resident ==>
      && UsedPath(c, m, Ask(a, s, false))
      && l.phys == Base(c, Above8(r.d)) && l.super == SuperOnly(r.d) && l.wp == r.wp
      && (l.modified ==> r.d.m))
  }

  ghost predicate LineOk(c: Cfg, m: Mem, l: Line, index: nat)
  {
    l.valid ==> forall a: u32, s: bool :: l.tag == Tag(c, a, s) && SetIndex(c, a) == index ==> Fits(c, m, l, a, s)
  }

  ghost predicate LinesOk(c: Cfg, m: Mem, atc: seq<Line>)
  {
    forall i :: 0 <= i < |atc| ==> LineOk(c, m, atc[i], i / 4 % 16)
  }

  /** In each set a tag is carried by at most one valid line. */
  ghost predicate Unique(atc: seq<Line>)
  {
    forall i, j :: 0 <= i < j < |atc| && i / 4 == j / 4 && atc[i].valid && atc[j].valid ==> atc[i].tag != atc[j].tag
  }

  /** The page is there, may be accessed, and searching it again sets nothing. */
  ghost predicate Good(c: Cfg, m: Mem, a: u32, s: bool, page: u32)
  {
    var r := Fresh(c, m, a, s);
    r.Page? && !(SuperOnly(r.d) && !s) && UsedPath(c, m, Ask(a, s, false)) && page == Base(c, Above8(r.d))
  }

  ghost predicate Writable(c: Cfg, m: Mem, a: u32, s: bool)
  {
    var r := Fresh(c, m, a, s);
    r.Page? && !r.wp && r.d.m
  }

  ghost predicate ReadSlotOk(c: Cfg, m: Mem, f: Fast)
  {
    forall a: u32, s: bool :: f.log == Key(c, a, s) ==> Good(c, m, a, s, f.phys)
  }

  ghost predicate WriteSlotOk(c: Cfg, m: Mem, f: Fast)
  {
    forall a: u32, s: bool :: f.log == Key(c, a, s) ==> Good(c, m, a, s, f.phys) && Writable(c, m, a, s)
  }

  ghost predicate FetchSlotOk(c: Cfg, m: Mem, ilog: nat, iphys: u32)
  {
    forall a: u32, s: bool :: ilog == InsKey(c, a, s) ==> Good(c, m, a, s, iphys)
  }

  ghost predicate ReadsOk(c: Cfg, m: Mem, rd: seq<Fast>) { forall i :: 0 <= i < |rd| ==> ReadSlotOk(c, m, rd[i]) }

  ghost predicate WritesOk(c: Cfg, m: Mem, wr: seq<Fast>) { forall i :: 0 <= i < |wr| ==> WriteSlotOk(c, m, wr[i]) }

  ghost predicate Inv(s: State, L: Layout)
  {
    && Unique(s.atc)
    && AllLaid4(s.c, L, s.mem)
    && LinesOk(s.c, s.mem, s.atc) && ReadsOk(s.c, s.mem, s.rd) && WritesOk(s.c, s.mem, s.wr)
    && FetchSlotOk(s.c, s.mem, s.ilog, s.iphys)
  }

  // ---------------------------------------------------------------- entries are about pages

  lemma SameUpper(a: nat, b: nat, n: nat, k: nat)
    requires n > 0 && k > 0 && a / n == b / n
    ensures n * k > 0 && a / (n * k) == b / (n * k)
  {
    Quotients(a, n, k);
    Quotients(b, n, k);
  }

  lemma Quotients(a: nat, n: nat, k: nat)
    requires n > 0 && k > 0
    ensures n * k > 0 && a / (n * k) == a / n / k
  {
    var q, t := a / n / k, a / n % k;
    assert a / n == k * q + t;
    assert a == n * (k * q + t) + a % n;
    assert n * (k * q) == (n * k) * q;
    assert n * (t + 1) <= n * k;
    DivModUnique(a, n * k, q, n * t + a % n);
  }

  /** The entries of a search depend on the page of its address only. */
  lemma EntriesLocal(c: Cfg, q: Ask, b: u32)
    requires PageNo(c, q.addr) == PageNo(c, b)
    ensures RootEntry(c, q) == RootEntry(c, q.(addr := b))
    ensures forall d :: PointerEntry(q, d) == PointerEntry(q.(addr := b), d)
    ensures forall d :: PageEntry(c, q, d) == PageEntry(c, q.(addr := b), d)
  {
    hide Plus; hide Align; hide PointerTable; hide PageTable;
    var a := q.addr;
    if c.big {
      SameUpper(a, b, 0x2000, 32);
      SameUpper(a, b, 0x2000, 4096);
    } else {
      SameUpper(a, b, 0x1000, 64);
      SameUpper(a, b, 0x1000, 8192);
    }
  }

  lemma WalkLocal4(c: Cfg, m: Mem, q: Ask, b: u32)
    requires PageNo(c, q.addr) == PageNo(c, b)
    ensures Walk(c, m, q) == Walk(c, m, q.(addr := b))
    ensures UsedPath(c, m, q) == UsedPath(c, m, q.(addr := b))
  {
    hide RootEntry; hide PointerEntry; hide PageEntry; hide PageNo;
    EntriesLocal(c, q, b);
  }

  lemma GoodLocal(c: Cfg, m: Mem, a: u32, b: u32, s: bool, page: u32)
    requires PageNo(c, a) == PageNo(c, b) && Good(c, m, a, s, page)
    ensures Good(c, m, b, s, page) && (Writable(c, m, a, s) ==> Writable(c, m, b, s))
  {
    hide Walk; hide UsedPath;
    WalkLocal4(c, m, Ask(a, s, false), b);
  }

  lemma FitsLocal(c: Cfg, m: Mem, l: Line, a: u32, b: u32, s: bool)
    requires PageNo(c, a) == PageNo(c, b) && Fits(c, m, l, a, s)
    ensures Fits(c, m, l, b, s)
  {
    hide Walk; hide UsedPath;
    WalkLocal4(c, m, Ask(a, s, false), b);
  }

  // ---------------------------------------------------------------- entries survive searches

  lemma FreshLater(c: Cfg, L: Layout, m: Mem, n: Mem, a: u32, s: bool)
    requires AllLaid4(c, L, m) && Grows4(L, m, n)
    ensures SameRes(Fresh(c, m, a, s), Fresh(c, n, a, s))
    ensures Fresh(c, m, a, s).Page? && UsedPath(c, m, Ask(a, s, false)) ==>
      UsedPath(c, n, Ask(a, s, false)) && (Fresh(c, m, a, s).d.m ==> Fresh(c, n, a, s).d.m)
  {
    hide Walk; hide Laid4; hide UsedPath; hide LeafOf;
    var q := Ask(a, s, false);
    assert Laid4(c, L, m, q);
    WalkAlike4(c, L, m, n, q, q);
    if UsedPath(c, m, q) {
      UsedLater(c, L, m, n, q);
      UsedIsQuiet(c, m, q);
      UsedIsQuiet(c, n, q);
    }
  }

  lemma GoodLater(c: Cfg, L: Layout, m: Mem, n: Mem, a: u32, s: bool, page: u32)
    requires AllLaid4(c, L, m) && Grows4(L, m, n) && Good(c, m, a, s, page)
    ensures Good(c, n, a, s, page) && (Writable(c, m, a, s) ==> Writable(c, n, a, s))
  {
    hide Walk; hide UsedPath;
    FreshLater(c, L, m, n, a, s);
  }

  lemma FitsLater(c: Cfg, L: Layout, m: Mem, n: Mem, l: Line, a: u32, s: bool)
    requires AllLaid4(c, L, m) && Grows4(L, m, n) && Fits(c, m, l, a, s)
    ensures Fits(c, n, l, a, s)
  {
    hide Walk; hide UsedPath;
    FreshLater(c, L, m, n, a, s);
  }

  lemma SlotsLater(L: Layout, s: State, n: Mem)
    requires Inv(s, L) && Grows4(L, s.mem, n)
    ensures AllLaid4(s.c, L, n)
    ensures LinesOk(s.c, n, s.atc) && ReadsOk(s.c, n, s.rd) && WritesOk(s.c, n, s.wr) &&
            FetchSlotOk(s.c, n, s.ilog, s.iphys)
  {
    var c, m := s.c, s.mem;
    hide Fits;
    hide Good;
    hide Writable;
    hide Tag;
    hide SetIndex;
    hide Key;
    hide InsKey;
    forall a: u32, u: bool ensures Laid4(c, L, n, Ask(a, u, false)) {
      var q := Ask(a, u, false);
      assert Laid4(c, L, m, q);
      WalkAlike4(c, L, m, n, q, q);
    }
    hide Grows4;
    hide Laid4;
    hide AllLaid4;
    forall i, a: u32, u: bool | 0 <= i < |s.atc| && s.atc[i].valid && s.atc[i].tag == Tag(c, a, u) &&
      SetIndex(c, a) == i / 4 % 16
      ensures Fits(c, n, s.atc[i], a, u)
    {
      assert LineOk(c, m, s.atc[i], i / 4 % 16);
      FitsLater(c, L, m, n, s.atc[i], a, u);
    }
    forall i, a: u32, u: bool | 0 <= i < |s.rd| && s.rd[i].log == Key(c, a, u)
      ensures Good(c, n, a, u, s.rd[i].phys)
    {
      assert ReadSlotOk(c, m, s.rd[i]);
      GoodLater(c, L, m, n, a, u, s.rd[i].phys);
    }
    forall i, a: u32, u: bool | 0 <= i < |s.wr| && s.wr[i].log == Key(c, a, u)
      ensures Good(c, n, a, u, s.wr[i].phys) && Writable(c, n, a, u)
    {
      assert WriteSlotOk(c, m, s.wr[i]);
      GoodLater(c, L, m, n, a, u, s.wr[i].phys);
    }
    forall a: u32, u: bool | s.ilog == InsKey(c, a, u)
      ensures Good(c, n, a, u, s.iphys)
    {
      GoodLater(c, L, m, n, a, u, s.iphys);
    }
  }
}
