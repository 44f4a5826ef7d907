/** The cached 68040/68060 MMU refines an MMU that searches the tables on every access. */
module Refine040 {
  import opened Words
  import opened Walk040
  import opened Settle040
  import opened State040
  import opened Run040

  /** The reference: one access that searches the tables. */
  function PlainAccess(c: Cfg, m: Mem, addr: u32, super: bool, write: bool): (Mem, Outcome)
  {
    var w := Walk(c, m, Ask(addr, super, write));
    if Refused(w.res, Ask(addr, super, write)) then (w.mem, PageFault)
    else (w.mem, Phys(Physical(c, Base(c, Above8(w.res.d)), addr)))
  }

  ghost predicate Agrees(s: State, L: Layout, addr: u32, super: bool, write: bool, r: (State, Outcome))
  {
    var p := PlainAccess(s.c, s.mem, addr, super, write);
    && Inv(r.0, L) && r.0.c == s.c && Grows4(L, s.mem, r.0.mem)
    && r.1 == p.1
    && (r.1.Phys? ==> r.0.mem == p.0)
  }

  // ---------------------------------------------------------------- flushing and filling

  lemma FlushKeepsReads(c: Cfg, m: Mem, fast: seq<Fast>, addr: u32, super: bool)
    requires ReadsOk(c, m, fast)
    ensures ReadsOk(c, m, FlushFast(fast, c, addr, super)) && ReadsOk(c, m, EmptyFast())
  {
    hide Good;
    forall i | 0 <= i < |fast| ensures ReadSlotOk(c, m, FlushFast(fast, c, addr, super)[i]) {
      assert ReadSlotOk(c, m, fast[i]);
      NoKeyIsFree(c);
    }
    NoKeyIsFree(c);
  }

  lemma FlushKeepsWrites(c: Cfg, m: Mem, fast: seq<Fast>, addr: u32, super: bool)
    requires WritesOk(c, m, fast)
    ensures WritesOk(c, m, FlushFast(fast, c, addr, super)) && WritesOk(c, m, EmptyFast())
  {
    hide Good;
    hide Writable;
    forall i | 0 <= i < |fast| ensures WriteSlotOk(c, m, FlushFast(fast, c, addr, super)[i]) {
      assert WriteSlotOk(c, m, fast[i]);
      NoKeyIsFree(c);
    }
    NoKeyIsFree(c);
  }

  lemma NoKeyIsFree(c: Cfg)
    ensures forall a: u32, s: bool :: Key(c, a, s) != NOKEY
    ensures forall a: u32, s: bool :: InsKey(c, a, s) != NoIns(c)
  {
    forall a: u32, s: bool ensures Key(c, a, s) != NOKEY && InsKey(c, a, s) != NoIns(c) { KeyFacts4(c, a, s, a, s); }
  }

  lemma FlushKeeps(s: State, L: Layout, addr: u32, super: bool)
    requires Inv(s, L)
    ensures Inv(FlushShortcuts(s, addr, super), L)
  {
    hide AllLaid4; hide LinesOk; hide ReadsOk; hide WritesOk; hide Good; hide FlushFast; hide Unique; hide Key;
    hide InsKey;
    FlushKeepsReads(s.c, s.mem, s.rd, addr, super);
    FlushKeepsWrites(s.c, s.mem, s.wr, addr, super);
    NoKeyIsFree(s.c);
  }

  /** A line made from a search agrees with a fresh one. */
  lemma NewLineOk(c: Cfg, L: Layout, m: Mem, addr: u32, super: bool, write: bool, index: nat)
    requires AllLaid4(c, L, m) && index == SetIndex(c, addr)
    ensures var w := Walk(c, m, Ask(addr, super, write)); LineOk(c, w.mem, LineOf(c, Tag(c, addr, super), w.res), index)
  {
    var q, p := Ask(addr, super, write), Ask(addr, super, false);
    var w := Walk(c, m, q);
    var l := LineOf(c, Tag(c, addr, super), w.res);
    assert Laid4(c, L, m, p);
    SearchFits(c, L, m, addr, super, write);
    forall a: u32, u: bool | l.tag == Tag(c, a, u) && SetIndex(c, a) == index
      ensures Fits(c, w.mem, l, a, u)
    {
      KeyFacts4(c, addr, super, a, u);
      FitsLocal(c, w.mem, l, addr, a, super);
    }
    hide Walk;
    hide Fits;
    hide AllLaid4;
    hide LineOf;
    hide Tag;
    hide SetIndex;
  }

  lemma LaidEither(c: Cfg, L: Layout, m: Mem, addr: u32, super: bool, write: bool)
    requires AllLaid4(c, L, m)
    ensures Apart(L) && Laid4(c, L, m, Ask(addr, super, write))
  {
    assert Laid4(c, L, m, Ask(addr, super, false));
  }

  lemma SearchFits(c: Cfg, L: Layout, m: Mem, addr: u32, super: bool, write: bool)
    requires AllLaid4(c, L, m)
    ensures var w := Walk(c, m, Ask(addr, super, write));
      Fits(c, w.mem, LineOf(c, Tag(c, addr, super), w.res), addr, super)
  {
    hide Walk; hide Laid4; hide UsedPath; hide LeafOf;
    var q, p := Ask(addr, super, write), Ask(addr, super, false);
    var w := Walk(c, m, q);
    LaidEither(c, L, m, addr, super, write);
    WalkSettles4(c, L, m, q);
    WalkAlike4(c, L, m, w.mem, q, p);
    if w.res.Page? {
      SamePath(c, w.mem, q, p);
      UsedIsQuiet(c, w.mem, p);
    }
  }

  /** Paths do not depend on whether the search is for writing. */
  lemma SamePath(c: Cfg, m: Mem, q: Ask, p: Ask)
    requires q.addr == p.addr && q.super == p.super
    ensures UsedPath(c, m, q) == UsedPath(c, m, p)
    ensures UsedPath(c, m, q) ==> LeafOf(c, m, q) == LeafOf(c, m, p)
  {
  }

  /** A set after one of its lines is replaced by the only line of that tag. */
  lemma ReplaceUnique(atc: seq<Line>, base: nat, way: nat, l: Line)
    requires |atc| == LINES && base % 4 == 0 && base + WAYS <= LINES && way < WAYS && Unique(atc)
    requires forall w :: base <= w < base + WAYS && w != base + way ==> !Tagged(atc[w], l.tag)
    ensures Unique(atc[base + way := l])
  {
  }

  lemma LineOfTag(c: Cfg, tag: nat, r: Res)
    ensures LineOf(c, tag, r).tag == tag && LineOf(c, tag, r).valid
  {
  }

  /** The random way counter plays no part in the invariant. */
  lemma InvRandom(s: State, L: Layout, r: nat)
    requires Inv(s, L)
    ensures Inv(s.(random := r), L)
  {
    hide Unique; hide AllLaid4; hide LinesOk; hide ReadsOk; hide WritesOk; hide FetchSlotOk;
  }

  lemma LineFits(s: State, L: Layout, addr: u32, super: bool, data: bool, way: nat)
    requires Inv(s, L) && way < WAYS
    requires Tagged(s.atc[SetAt(data, SetIndex(s.c, addr)) + way], Tag(s.c, addr, super))
    ensures Fits(s.c, s.mem, s.atc[SetAt(data, SetIndex(s.c, addr)) + way], addr, super)
  {
    hide Fits; hide Unique; hide AllLaid4; hide ReadsOk; hide WritesOk; hide FetchSlotOk; hide Tag;
    var k := SetAt(data, SetIndex(s.c, addr)) + way;
    SetOf(data, SetIndex(s.c, addr), way);
    assert LineOk(s.c, s.mem, s.atc[k], k / 4 % 16);
  }

  lemma FillKeeps(s: State, L: Layout, addr: u32, super: bool, data: bool, write: bool, way: nat)
    requires Inv(s, L) && way < WAYS
    requires var base := SetAt(data, SetIndex(s.c, addr));
      forall k :: base <= k < base + WAYS && k != base + way ==> !Tagged(s.atc[k], Tag(s.c, addr, super))
    ensures var base := SetAt(data, SetIndex(s.c, addr)); var t := Fill(s, addr, super, write, base + way);
      var w := Walk(s.c, s.mem, Ask(addr, super, write));
      && Inv(t, L) && t.c == s.c && t.mem == w.mem && Grows4(L, s.mem, t.mem) && t.random == s.random &&
        t.ways == s.ways
      && (w.res.Page? || !s.c.is60 ==> t.atc[base + way] == LineOf(s.c, Tag(s.c, addr, super), w.res))
  {
    hide Walk;
    hide Unique;
    hide AllLaid4;
    hide LinesOk;
    hide ReadsOk;
    hide WritesOk;
    hide FetchSlotOk;
    hide LineOf;
    hide FlushFast;
    hide Laid4;
    hide LineOk;
    hide SetIndex;
    hide Tag;
    hide UsedPath;
    var base := SetAt(data, SetIndex(s.c, addr));
    var w := Walk(s.c, s.mem, Ask(addr, super, write));
    var l := LineOf(s.c, Tag(s.c, addr, super), w.res);
    LaidEither(s.c, L, s.mem, addr, super, write);
    WalkSettles4(s.c, L, s.mem, Ask(addr, super, write));
    SlotsLater(L, s, w.mem);
    NewLineOk(s.c, L, s.mem, addr, super, write, SetIndex(s.c, addr));
    LineOfTag(s.c, Tag(s.c, addr, super), w.res);
    ReplaceUnique(s.atc, base, way, l);
    var a := if s.c.is60 && !w.res.Page? then s.atc else s.atc[base + way := l];
    SetOf(data, SetIndex(s.c, addr), way);
    ReplaceOk(s.c, w.mem, s.atc, base + way, l);
    FlushKeeps(s.(mem := w.mem, atc := a), L, addr, super);
  }

  lemma ReplaceOk(c: Cfg, m: Mem, atc: seq<Line>, k: nat, l: Line)
    requires LinesOk(c, m, atc) && k < |atc| && LineOk(c, m, l, k / 4 % 16)
    ensures LinesOk(c, m, atc[k := l])
  {
    hide LineOk;
  }

  lemma SetOf(data: bool, index: nat, way: nat)
    requires index < 16 && way < WAYS
    ensures (SetAt(data, index) + way) / 4 % 16 == index && SetAt(data, index) % 4 == 0
  {
  }

  // ---------------------------------------------------------------- using a line

  lemma UseWayKeeps(s: State, L: Layout, addr: u32, super: bool, data: bool, write: bool, way: nat)
    requires Inv(s, L) && way < WAYS
    requires var l := s.atc[SetAt(data, SetIndex(s.c, addr)) + way];
      Tagged(l, Tag(s.c, addr, super)) && !LineRefuses(l, super, write) && (write ==> l.modified)
    ensures var r := UseWay(s, addr, super, data, write, way); var f := Fresh(s.c, s.mem, addr, super);
      && Inv(r.0, L) && r.0.c == s.c && r.0.mem == s.mem
      && f.Page? && r.1 == Phys(Physical(s.c, Base(s.c, Above8(f.d)), addr))
      && UsedPath(s.c, s.mem, Ask(addr, super, false))
      && !(SuperOnly(f.d) && !super) && (write ==> !f.wp && f.d.m)
  {
    var k := SetAt(data, SetIndex(s.c, addr)) + way;
    var l := s.atc[k];
    SetOf(data, SetIndex(s.c, addr), way);
    assert LineOk(s.c, s.mem, l, k / 4 % 16);
    assert Fits(s.c, s.mem, l, addr, super);
    AddKeeps(s.c, s.mem, s.rd, s.wr, addr, super, l.phys);
    hide Walk;
    hide Unique;
    hide AllLaid4;
    hide LinesOk;
    hide ReadsOk;
    hide WritesOk;
    hide FetchSlotOk;
    hide AddFast;
    hide LineOk;
    hide SetIndex;
    hide Tag;
    hide UsedPath;
  }

  lemma AddKeeps(c: Cfg, m: Mem, rd: seq<Fast>, wr: seq<Fast>, addr: u32, super: bool, page: u32)
    requires |rd| == |wr| == FASTS && ReadsOk(c, m, rd) && WritesOk(c, m, wr)
    ensures Good(c, m, addr, super, page) ==> ReadsOk(c, m, AddFast(rd, c, addr, super, page)) &&
                                              FetchSlotOk(c, m, InsKey(c, addr, super), page)
    ensures Good(c, m, addr, super, page) && Writable(c, m, addr, super) ==>
            WritesOk(c, m, AddFast(wr, c, addr, super, page))
  {
    hide Key;
    hide InsKey;
    if Good(c, m, addr, super, page) {
      forall a: u32, u: bool | Key(c, a, u) == Key(c, addr, super) || InsKey(c, a, u) == InsKey(c, addr, super)
        ensures Good(c, m, a, u, page) && (Writable(c, m, addr, super) ==> Writable(c, m, a, u))
      {
        KeyFacts4(c, addr, super, a, u);
        GoodLocal(c, m, addr, a, super, page);
      }
      hide Good;
      hide Writable;
      forall i | 0 <= i < FASTS ensures ReadSlotOk(c, m, AddFast(rd, c, addr, super, page)[i]) {
        assert ReadSlotOk(c, m, rd[i]);
      }
      if Writable(c, m, addr, super) {
        forall i | 0 <= i < FASTS ensures WriteSlotOk(c, m, AddFast(wr, c, addr, super, page)[i]) {
          assert WriteSlotOk(c, m, wr[i]);
        }
      }
    }
  }

  // ---------------------------------------------------------------- translation

  /** Searching for reading or for writing finds the same page. */
  lemma SearchAgrees(c: Cfg, L: Layout, m: Mem, addr: u32, super: bool, write: bool)
    requires AllLaid4(c, L, m)
    ensures SameRes(Fresh(c, m, addr, super), Walk(c, m, Ask(addr, super, write)).res)
    ensures var f := Fresh(c, m, addr, super);
      f.Page? && UsedPath(c, m, Ask(addr, super, false)) && (write ==> f.d.m) ==>
        Walk(c, m, Ask(addr, super, write)).mem == m
  {
    hide Walk; hide Laid4; hide UsedPath; hide LeafOf;
    var q, p := Ask(addr, super, write), Ask(addr, super, false);
    AlikeSelf4(L, m);
    LaidEither(c, L, m, addr, super, false);
    WalkAlike4(c, L, m, m, p, q);
    SamePath(c, m, q, p);
    if UsedPath(c, m, p) {
      UsedIsQuiet(c, m, p);
      if write ==> Fresh(c, m, addr, super).d.m { UsedIsQuiet(c, m, q); }
    }
  }

  /** After a permitted write search the page descriptor is marked modified. */
  lemma WriteMarks(c: Cfg, m: Mem, q: Ask)
    requires q.write && !Refused(Walk(c, m, q).res, q)
    ensures Walk(c, m, q).res.d.m
  {
    hide RootEntry;
    hide PointerEntry;
    hide PageEntry;
  }

  lemma RefillAgrees(s: State, L: Layout, addr: u32, super: bool, data: bool, write: bool, way: nat)
    requires Inv(s, L) && way < WAYS
    requires var base := SetAt(data, SetIndex(s.c, addr));
      forall k :: base <= k < base + WAYS && k != base + way ==> !Tagged(s.atc[k], Tag(s.c, addr, super))
    ensures Agrees(s, L, addr, super, write, Refill(s, addr, super, data, write, way))
  {
    hide Walk;
    hide Inv;
    hide Fill;
    hide AddCache;
    hide SetIndex;
    hide Tag;
    hide UsedPath;
    hide Grows4;
    var q := Ask(addr, super, write);
    var w := Walk(s.c, s.mem, q);
    var slot := SetAt(data, SetIndex(s.c, addr)) + way;
    var s1 := s.(random := s.random % WAYS);
    var t := Fill(s1, addr, super, write, slot);
    InvRandom(s, L, s.random % WAYS);
    FillKeeps(s1, L, addr, super, data, write, way);
    var u := t.(random := t.random + 1);
    InvRandom(t, L, t.random + 1);
    if !Refused(w.res, q) {
      if write { WriteMarks(s.c, s.mem, q); }
      LineOfTag(s.c, Tag(s.c, addr, super), w.res);
      UseWayKeeps(u, L, addr, super, data, write, way);
    }
  }

  /** `mmu_translate` gives the outcome of a plain search. */
  lemma TranslateAgrees(s: State, L: Layout, addr: u32, super: bool, data: bool, write: bool)
    requires Inv(s, L)
    ensures Agrees(s, L, addr, super, write, Translate(s, addr, super, data, write))
  {
    hide Walk;
    hide AllLaid4;
    hide LinesOk;
    hide Unique;
    hide ReadsOk;
    hide WritesOk;
    hide FetchSlotOk;
    hide Refill;
    hide UseWay;
    hide SetIndex;
    hide Tag;
    hide UsedPath;
    hide Grows4;
    hide LineOk;
    hide Victim;
    var base := SetAt(data, SetIndex(s.c, addr));
    var tag := Tag(s.c, addr, super);
    var t := s.(random := s.random + 1);
    var way := FindWay(s.atc, base, tag);
    AlikeSelf4(L, s.mem);
    SearchAgrees(s.c, L, s.mem, addr, super, write);
    SetOf(data, SetIndex(s.c, addr), if way == -1 then 0 else way);
    if way == -1 {
      RefillAgrees(t, L, addr, super, data, write, Victim(s.atc, base, s.ways[Type(data)], t.random));
    } else {
      var l := s.atc[base + way];
      LineFits(s, L, addr, super, data, way);
      OnlyTagged(s.atc, base, way, tag);
      if LineRefuses(l, super, write) {
      } else if write && !l.modified {
        RefillAgrees(t, L, addr, super, data, write, way);
      } else {
        UseWayKeeps(t, L, addr, super, data, write, way);
      }
    }
  }

  lemma OnlyTagged(atc: seq<Line>, base: nat, way: nat, tag: nat)
    requires |atc| == LINES && base % 4 == 0 && base + WAYS <= LINES && way < WAYS && Unique(atc) &&
             Tagged(atc[base + way], tag)
    ensures forall k :: base <= k < base + WAYS && k != base + way ==> !Tagged(atc[k], tag)
  {
  }

  /** A shortcut-cache hit is a fresh translation. */
  lemma HitAgrees(s: State, L: Layout, addr: u32, super: bool, write: bool, page: u32)
    requires Inv(s, L) && Good(s.c, s.mem, addr, super, page) && (write ==> Writable(s.c, s.mem, addr, super))
    ensures Agrees(s, L, addr, super, write, (s, Phys(Physical(s.c, page, addr))))
  {
    hide Walk; hide AllLaid4; hide LinesOk; hide UsedPath; hide Grows4;
    AlikeSelf4(L, s.mem);
    SearchAgrees(s.c, L, s.mem, addr, super, write);
  }

  lemma FetchAgrees(s: State, L: Layout, addr: u32, super: bool)
    requires Inv(s, L)
    ensures Agrees(s, L, addr, super, false, Fetch(s, addr, super))
  {
    hide Good; hide Translate; hide Walk; hide AllLaid4; hide LinesOk; hide Grows4; hide InsKey; hide Agrees;
    if InsKey(s.c, addr, super) == s.ilog {
      HitAgrees(s, L, addr, super, false, s.iphys);
    } else {
      TranslateAgrees(s, L, addr, super, false, false);
    }
  }

  lemma WriteAgrees(s: State, L: Layout, addr: u32, super: bool, data: bool)
    requires Inv(s, L)
    ensures Agrees(s, L, addr, super, true, Write(s, addr, super, data))
  {
    hide Good; hide Translate; hide Walk; hide AllLaid4; hide LinesOk; hide Grows4; hide Key; hide Agrees;
    var slot := Key(s.c, addr, super) % FASTS;
    if FastHit(s.wr, s.c, addr, super) {
      assert WriteSlotOk(s.c, s.mem, s.wr[slot]);
      HitAgrees(s, L, addr, super, true, s.wr[slot].phys);
    } else {
      TranslateAgrees(s, L, addr, super, data, true);
    }
  }

  /** A read agrees with a plain read. A locked read does not ask the tables for write
      permission when the page is in the read cache: then it agrees with a plain read, else
      with a plain write probe. */
  lemma ReadAgrees(s: State, L: Layout, addr: u32, super: bool, data: bool, write: bool)
    requires Inv(s, L)
    ensures Agrees(s, L, addr, super, write && !FastHit(s.rd, s.c, addr, super), Read(s, addr, super, data, write))
  {
    hide Good; hide Translate; hide Walk; hide AllLaid4; hide LinesOk; hide Grows4; hide Key; hide Agrees;
    var slot := Key(s.c, addr, super) % FASTS;
    if FastHit(s.rd, s.c, addr, super) {
      assert ReadSlotOk(s.c, s.mem, s.rd[slot]);
      HitAgrees(s, L, addr, super, false, s.rd[slot].phys);
    } else {
      TranslateAgrees(s, L, addr, super, data, write);
    }
  }
  /** A locked read is let through although the tables refuse a write: the page is in the read
      cache and write protected. */
  ghost predicate LooseRead(s: State, addr: u32, super: bool)
  {
    var f := Fresh(s.c, s.mem, addr, super);
    FastHit(s.rd, s.c, addr, super) && f.Page? && f.wp
  }

  /** A read that asks for write permission has the outcome of a plain write search, except
      exactly in that case. */
  lemma LockedReadExact(s: State, L: Layout, addr: u32, super: bool, data: bool)
    requires Inv(s, L)
    ensures Read(s, addr, super, data, true).1 == PlainAccess(s.c, s.mem, addr, super, true).1 <==>
            !LooseRead(s, addr, super)
    ensures LooseRead(s, addr, super) ==>
      Read(s, addr, super, data, true).1.Phys? && PlainAccess(s.c, s.mem, addr, super, true).1.PageFault?
  {
    hide Translate; hide Walk; hide AllLaid4; hide LinesOk; hide Grows4; hide Key; hide UsedPath; hide Base;
    ReadAgrees(s, L, addr, super, data, true);
    SearchAgrees(s.c, L, s.mem, addr, super, true);
    if FastHit(s.rd, s.c, addr, super) {
      assert ReadSlotOk(s.c, s.mem, s.rd[Key(s.c, addr, super) % FASTS]);
    }
  }
}
