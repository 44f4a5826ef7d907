/** The 68030 MMU with its three layers of caches against the same MMU without any: in every
    run every access has the same outcome. */
module Run030 {
  import opened Words
  import opened Walk030
  import opened Stable030
  import opened Fresh030
  import opened Atc030
  import opened State030
  import opened Rom030

  // ---------------------------------------------------------------- what cached entries promise

  /** A fresh read search of the page succeeds, sets nothing, and finds page address `page`. */
  ghost predicate Good(e: Env, m: Mem, addr: u32, fc: fcode, page: u32)
  {
    var w := Fresh(e, m, addr, fc);
    !Faults(w, fc) && Settled(e, m, addr, fc) && page == Base(e.x, w.end.page)
  }

  /** The page may be written and is marked modified. */
  ghost predicate Writable(e: Env, m: Mem, addr: u32, fc: fcode)
  {
    var w := Fresh(e, m, addr, fc);
    !Faults(w, fc) && !Protected(w.hops) && w.end.m
  }

  /** A valid line says what a fresh search says. */
  ghost predicate LineOk(e: Env, m: Mem, l: Line)
  {
    l.valid ==>
      var w := Fresh(e, m, l.laddr, l.fc);
      && Base(e.x, l.laddr) == l.laddr
      && l.be == Faults(w, l.fc) && l.wp == Protected(w.hops)
      && (!l.be ==> Good(e, m, l.laddr, l.fc, l.paddr) && (l.modified ==> w.end.m))
  }

  ghost predicate LinesOk(e: Env, m: Mem, atc: seq<Line>)
  {
    forall i :: 0 <= i < |atc| ==> LineOk(e, m, atc[i])
  }

  /** A slot's key, if it is the key of some page at all, stands for a good page. */
  ghost predicate ReadSlotOk(e: Env, m: Mem, f: Fast)
  {
    forall addr: u32, fc: fcode :: f.log == Key(e.x, addr, fc) ==> Good(e, m, addr, fc, f.phys)
  }

  ghost predicate WriteSlotOk(e: Env, m: Mem, f: Fast)
  {
    forall addr: u32, fc: fcode :: f.log == Key(e.x, addr, fc) ==> Good(e, m, addr, fc, f.phys) &&
                                                                   Writable(e, m, addr, fc)
  }

  ghost predicate FetchSlotOk(c: Config, m: Mem, ilog: nat, iphys: u32)
  {
    forall addr: u32, fc: fcode :: ilog == InsKey(c.env.x, addr, fc) ==>
      !Untranslated(c, Fetch, addr, fc) && Good(c.env, m, addr, fc, iphys)
  }

  ghost predicate ReadsOk(e: Env, m: Mem, rd: seq<Fast>) { forall i :: 0 <= i < |rd| ==> ReadSlotOk(e, m, rd[i]) }

  ghost predicate WritesOk(e: Env, m: Mem, wr: seq<Fast>) { forall i :: 0 <= i < |wr| ==> WriteSlotOk(e, m, wr[i]) }

  ghost predicate Coherent(s: State, L: Layout)
  {
    var e := s.cfg.env;
    && AllLaid(e, L, s.mem)
    && LinesOk(e, s.mem, s.atc) && ReadsOk(e, s.mem, s.rd) && WritesOk(e, s.mem, s.wr)
    && FetchSlotOk(s.cfg, s.mem, s.ilog, s.iphys)
  }

  ghost predicate Inv(s: State, L: Layout)
  {
    && Unique(s.atc) && !AllRecent(s.atc)
    && (if s.cfg.enabled then Coherent(s, L) else s.ilog == NOKEY)
  }

  lemma InvLaid(s: State, L: Layout)
    requires Inv(s, L) && s.cfg.enabled
    ensures AllLaid(s.cfg.env, L, s.mem)
  {
  }

  lemma InvLine(s: State, L: Layout, i: nat)
    requires Inv(s, L) && s.cfg.enabled && i < SLOTS
    ensures LineOk(s.cfg.env, s.mem, s.atc[i])
  {
    hide LineOk;
  }

  // ---------------------------------------------------------------- entries are about pages

  lemma FreshLocal(e: Env, m: Mem, a: u32, b: u32, fc: fcode)
    requires Base(e.x, a) == Base(e.x, b)
    ensures Fresh(e, m, a, fc) == Fresh(e, m, b, fc)
    ensures Search(e, m, a, fc, true) == Search(e, m, b, fc, true)
  {
    hide Walk; hide Base;
    WalkLocal(e, m, Query(a, fc, false, 0));
    WalkLocal(e, m, Query(b, fc, false, 0));
    WalkLocal(e, m, Query(a, fc, true, 0));
    WalkLocal(e, m, Query(b, fc, true, 0));
  }

  lemma GoodLocal(e: Env, m: Mem, a: u32, b: u32, fc: fcode, page: u32)
    requires Base(e.x, a) == Base(e.x, b) && Good(e, m, a, fc, page)
    ensures Good(e, m, b, fc, page)
    ensures Writable(e, m, a, fc) ==> Writable(e, m, b, fc)
  {
    FreshLocal(e, m, a, b, fc);
  }

  // ---------------------------------------------------------------- entries survive searches

  lemma GoodLater(e: Env, L: Layout, m: Mem, n: Mem, a: u32, fc: fcode, page: u32)
    requires AllLaid(e, L, m) && Grows(L, m, n) && Good(e, m, a, fc, page)
    ensures Good(e, n, a, fc, page)
    ensures Writable(e, m, a, fc) ==> Writable(e, n, a, fc)
  {
    hide Laid; hide Fresh; hide SameWalk;
    assert Laid(e, L, m, a, fc);
    Later(e, L, m, n, a, fc);
    SameFaults(L, Fresh(e, m, a, fc), Fresh(e, n, a, fc), fc);
  }

  lemma LineLater(e: Env, L: Layout, m: Mem, n: Mem, l: Line)
    requires AllLaid(e, L, m) && Grows(L, m, n) && LineOk(e, m, l)
    ensures LineOk(e, n, l)
  {
    if l.valid {
      assert Laid(e, L, m, l.laddr, l.fc);
      Later(e, L, m, n, l.laddr, l.fc);
      SameFaults(L, Fresh(e, m, l.laddr, l.fc), Fresh(e, n, l.laddr, l.fc), l.fc);
      if !l.be { GoodLater(e, L, m, n, l.laddr, l.fc, l.paddr); }
      hide Laid;
      hide Fresh;
      hide SameWalk;
      hide Good;
    }
  }

  lemma SlotsLater(e: Env, L: Layout, m: Mem, n: Mem, s: State)
    requires AllLaid(e, L, m) && Grows(L, m, n)
    requires LinesOk(e, m, s.atc) && ReadsOk(e, m, s.rd) && WritesOk(e, m, s.wr)
    ensures LinesOk(e, n, s.atc) && ReadsOk(e, n, s.rd) && WritesOk(e, n, s.wr)
  {
    hide AllLaid;
    hide Grows;
    hide LineOk;
    hide Good;
    hide Writable;
    forall i | 0 <= i < |s.atc| ensures LineOk(e, n, s.atc[i]) { LineLater(e, L, m, n, s.atc[i]); }
    forall i, a: u32, fc: fcode | 0 <= i < |s.rd| && s.rd[i].log == Key(e.x, a, fc)
      ensures Good(e, n, a, fc, s.rd[i].phys)
    {
      assert ReadSlotOk(e, m, s.rd[i]);
      GoodLater(e, L, m, n, a, fc, s.rd[i].phys);
    }
    forall i, a: u32, fc: fcode | 0 <= i < |s.wr| && s.wr[i].log == Key(e.x, a, fc)
      ensures Good(e, n, a, fc, s.wr[i].phys) && Writable(e, n, a, fc)
    {
      assert WriteSlotOk(e, m, s.wr[i]);
      GoodLater(e, L, m, n, a, fc, s.wr[i].phys);
    }
  }

  // ---------------------------------------------------------------- lookups

  lemma LookupKeeps(s: State, L: Layout, addr: u32, fc: fcode, write: bool)
    requires Inv(s, L)
    ensures var r := Lookup(s, addr, fc, write);
      && Inv(r.0, L)
      && r.0 == s.(atc := r.0.atc, hint := r.0.hint)
      && (r.1 >= 0 ==> Matches(r.0.atc[r.1], Base(s.cfg.env.x, addr), fc) && Answers(r.0.atc[r.1], write))
      && (r.1 == -1 ==> NoMatch(r.0.atc, Base(s.cfg.env.x, addr), fc))
  {
    hide Base; hide Good; hide Fresh; hide Faults; hide Protected; hide AllLaid; hide Find; hide Unique; hide AllRecent;
    hide Touch;
    var e := s.cfg.env;
    var page := Base(e.x, addr);
    var i := Find(s.atc, page, fc);
    var r := Lookup(s, addr, fc, write);
    if i != -1 && Answers(s.atc[i], write) {
      TouchStaysValid(s.atc, i);
    } else if i != -1 {
      FewerStaysValid(s.atc, r.0.atc);
      DropLeavesNone(s.atc, page, fc, i);
    }
    if s.cfg.enabled {
      forall j | 0 <= j < SLOTS ensures LineOk(e, s.mem, r.0.atc[j]) {
        assert LineOk(e, s.mem, s.atc[j]);
      }
    }
  }

  lemma FlushKeepsReads(e: Env, m: Mem, fast: seq<Fast>, page: u32)
    requires ReadsOk(e, m, fast)
    ensures ReadsOk(e, m, FlushFast(fast, e.x, page))
  {
    hide Good;
    var r := FlushFast(fast, e.x, page);
    forall i, a: u32, fc: fcode | 0 <= i < |r| && r[i].log == Key(e.x, a, fc)
      ensures Good(e, m, a, fc, r[i].phys)
    {
      KeyFacts(e.x, a, fc, a, fc);
      assert ReadSlotOk(e, m, fast[i]);
    }
  }

  lemma FlushKeepsWrites(e: Env, m: Mem, fast: seq<Fast>, page: u32)
    requires WritesOk(e, m, fast)
    ensures WritesOk(e, m, FlushFast(fast, e.x, page))
  {
    hide Good;
    hide Writable;
    var r := FlushFast(fast, e.x, page);
    forall i, a: u32, fc: fcode | 0 <= i < |r| && r[i].log == Key(e.x, a, fc)
      ensures Good(e, m, a, fc, r[i].phys) && Writable(e, m, a, fc)
    {
      KeyFacts(e.x, a, fc, a, fc);
      assert WriteSlotOk(e, m, fast[i]);
    }
  }

  lemma NoFetchSlot(c: Config, m: Mem, iphys: u32)
    ensures FetchSlotOk(c, m, NOKEY, iphys)
  {
    hide Good;
    forall a: u32, fc: fcode ensures InsKey(c.env.x, a, fc) != NOKEY { KeyFacts(c.env.x, a, fc, a, fc); }
  }

  // ---------------------------------------------------------------- a search fills a line

  /** The line made from a search is right. */
  lemma NewLineOk(e: Env, L: Layout, m: Mem, addr: u32, fc: fcode, write: bool)
    requires AllLaid(e, L, m)
    ensures var w := Search(e, m, addr, fc, write); LineOk(e, w.mem, LineOf(e, addr, fc, w))
  {
    hide Laid; hide Walk; hide Fresh; hide SameWalk; hide Denied; hide Protected;
    var w := Search(e, m, addr, fc, write);
    var l := LineOf(e, addr, fc, w);
    assert Laid(e, L, m, addr, fc);
    AfterSearch(e, L, m, addr, fc, write);
    PageFacts(e.x, addr);
    FreshLocal(e, w.mem, addr, l.laddr, fc);
    SameFaults(L, w, Fresh(e, w.mem, addr, fc), fc);
    RootLeaf(e, m, Query(addr, fc, write, 0));
    LaidNeverJams(e, L, m, Query(addr, fc, write, 0));
  }

  lemma LineOkTouched(e: Env, m: Mem, l: Line, b: bool)
    requires LineOk(e, m, l)
    ensures LineOk(e, m, l.(mru := b))
  {
    hide Good; hide Fresh; hide Faults; hide Protected; hide Base;
  }

  lemma InstallKeeps(s: State, L: Layout, addr: u32, fc: fcode, write: bool)
    requires Inv(s, L) && NoMatch(s.atc, Base(s.cfg.env.x, addr), fc)
    ensures var e := s.cfg.env; var r := Install(s, addr, fc, write);
      && Inv(r, L)
      && r == s.(mem := r.mem, atc := r.atc, rd := r.rd, wr := r.wr, ilog := r.ilog)
      && r.mem == Search(e, s.mem, addr, fc, write).mem
      && (s.cfg.enabled ==> Grows(L, s.mem, r.mem))
      && var i := Find(r.atc, Base(e.x, addr), fc);
         i >= 0 && r.atc[i] == LineOf(e, addr, fc, Search(e, s.mem, addr, fc, write))
  {
    hide Walk; hide Base; hide Key; hide Good; hide Fresh; hide Search; hide Faults; hide Protected; hide AllLaid;
    hide StatusOf; hide FlushFast; hide Unique; hide AllRecent; hide Touch; hide Victim; hide Find;
    var e := s.cfg.env;
    var w := Search(e, s.mem, addr, fc, write);
    var r := Install(s, addr, fc, write);
    var v := Victim(s.atc);
    var l := LineOf(e, addr, fc, w);
    VictimIn(s.atc);
    PageFacts(e.x, addr);
    NewStaysValid(s.atc, v, l);
    FindUnique(r.atc, Base(e.x, addr), fc, v);
    if s.cfg.enabled {
      SearchKeeps(s, L, addr, fc, write);
      forall j | 0 <= j < SLOTS ensures LineOk(e, w.mem, r.atc[j]) {
        if j == v {
          NewLineOk(e, L, s.mem, addr, fc, write);
        } else {
          assert LineOk(e, w.mem, s.atc[j]);
          LineOkTouched(e, w.mem, s.atc[j], r.atc[j].mru);
        }
      }
      FlushKeepsReads(e, w.mem, s.rd, Base(e.x, addr));
      FlushKeepsWrites(e, w.mem, s.wr, Base(e.x, addr));
      NoFetchSlot(s.cfg, w.mem, s.iphys);
    }
  }

  /** All entries stay right over the bits a search sets. */
  lemma SearchKeeps(s: State, L: Layout, addr: u32, fc: fcode, write: bool)
    requires Inv(s, L) && s.cfg.enabled
    ensures var e := s.cfg.env; var n := Search(e, s.mem, addr, fc, write).mem;
      && Grows(L, s.mem, n) && AllLaid(e, L, n)
      && LinesOk(e, n, s.atc) && ReadsOk(e, n, s.rd) && WritesOk(e, n, s.wr)
  {
    var e := s.cfg.env;
    var n := Search(e, s.mem, addr, fc, write).mem;
    assert Laid(e, L, s.mem, addr, fc);
    SearchGrows(e, L, s.mem, addr, fc, write);
    AllLaidAlike(e, L, s.mem, n);
    SlotsLater(e, L, s.mem, n, s);
  }

  // ---------------------------------------------------------------- look up, search, look up

  /** The line that answers an access to a page, and when there is none: only for a write
      through a page-type root pointer. */
  lemma ResolveKeeps(s: State, L: Layout, addr: u32, fc: fcode, write: bool)
    requires Inv(s, L) && s.cfg.enabled
    ensures var e := s.cfg.env; var r := Resolve(s, addr, fc, write);
      && Inv(r.0, L) && r.0.cfg == s.cfg
      && Grows(L, s.mem, r.0.mem)
      && (r.1 >= 0 ==> Matches(r.0.atc[r.1], Base(e.x, addr), fc) && Answers(r.0.atc[r.1], write))
      && (r.0.mem == s.mem || r.0.mem == Search(e, s.mem, addr, fc, write).mem)
      && (r.1 == -1 ==>
           var w := Search(e, s.mem, addr, fc, write);
           write && !Faults(w, fc) && !Protected(w.hops) && !w.end.m)
  {
    hide Inv; hide Lookup; hide Install; hide Walk; hide Grows; hide Denied; hide Protected; hide Base;
    var e := s.cfg.env;
    var first := Lookup(s, addr, fc, write);
    LookupKeeps(s, L, addr, fc, write);
    GrowsItself(L, s.mem);
    if first.1 == -1 {
      var t := Install(first.0, addr, fc, write);
      InstallKeeps(first.0, L, addr, fc, write);
      LookupKeeps(t, L, addr, fc, write);
      RootLeaf(e, s.mem, Query(addr, fc, write, 0));
      LookupMiss(t, addr, fc, write);
    }
  }

  lemma GrowsItself(L: Layout, m: Mem)
    ensures Grows(L, m, m)
  {
  }

  lemma LookupMiss(t: State, addr: u32, fc: fcode, write: bool)
    ensures var i := Find(t.atc, Base(t.cfg.env.x, addr), fc);
      i >= 0 && Lookup(t, addr, fc, write).1 == -1 ==> !Answers(t.atc[i], write)
  {
  }

  // ---------------------------------------------------------------- page caches are filled from lines

  lemma AddKeepsReads(e: Env, m: Mem, fast: seq<Fast>, addr: u32, page: u32, fc: fcode)
    requires |fast| == FASTS && ReadsOk(e, m, fast) && Good(e, m, addr, fc, page)
    ensures ReadsOk(e, m, AddFast(fast, e.x, addr, page, fc))
  {
    hide Good;
    var r := AddFast(fast, e.x, addr, page, fc);
    forall i | 0 <= i < |r| ensures ReadSlotOk(e, m, r[i]) {
      if r[i] == fast[i] {
        assert ReadSlotOk(e, m, fast[i]);
      } else {
        forall a: u32, fd: fcode | r[i].log == Key(e.x, a, fd)
          ensures Good(e, m, a, fd, page)
        {
          KeyFacts(e.x, addr, fc, a, fd);
          GoodLocal(e, m, addr, a, fc, page);
        }
      }
    }
  }

  lemma AddKeepsWrites(e: Env, m: Mem, fast: seq<Fast>, addr: u32, page: u32, fc: fcode)
    requires |fast| == FASTS && WritesOk(e, m, fast) && Good(e, m, addr, fc, page) && Writable(e, m, addr, fc)
    ensures WritesOk(e, m, AddFast(fast, e.x, addr, page, fc))
  {
    hide Good; hide Writable;
    var r := AddFast(fast, e.x, addr, page, fc);
    forall i | 0 <= i < |r| ensures WriteSlotOk(e, m, r[i]) {
      if r[i] == fast[i] {
        assert WriteSlotOk(e, m, fast[i]);
      } else {
        forall a: u32, fd: fcode | r[i].log == Key(e.x, a, fd)
          ensures Good(e, m, a, fd, page) && Writable(e, m, a, fd)
        {
          KeyFacts(e.x, addr, fc, a, fd);
          GoodLocal(e, m, addr, a, fc, page);
        }
      }
    }
  }

  /** Transparent regions are 16 MB: all of a page is translated the same way. */
  lemma UntranslatedLocal(c: Config, k: Kind, a: u32, b: u32, fc: fcode)
    requires Base(c.env.x, a) == Base(c.env.x, b)
    ensures Untranslated(c, k, a, fc) == Untranslated(c, k, b, fc)
  {
    hide And;
    TopByte(c.env.x, a);
    TopByte(c.env.x, b);
  }

  lemma UseLineKeeps(s: State, L: Layout, k: Kind, addr: u32, fc: fcode, i: nat)
    requires Inv(s, L) && s.cfg.enabled && i < SLOTS
    requires Matches(s.atc[i], Base(s.cfg.env.x, addr), fc) && Answers(s.atc[i], Writes(k))
    requires k.Fetch? ==> !Untranslated(s.cfg, k, addr, fc)
    ensures var e := s.cfg.env; var r := UseLine(s, k, addr, fc, i); var w := Fresh(e, s.mem, addr, fc);
      && Inv(r.0, L) && r.0.cfg == s.cfg && r.0.mem == s.mem
      && r.1 ==
        (if Faults(w, fc) || (Writes(k) && Protected(w.hops)) then PageFault(k in {Read, GenRead, LockRead, Fetch})
         else Phys(Physical(e.x, Base(e.x, w.end.page), addr)))
      && (r.1.Phys? ==> Settled(e, s.mem, addr, fc) && (Writes(k) ==> w.end.m))
  {
    var e := s.cfg.env;
    var l := s.atc[i];
    var w := Fresh(e, s.mem, addr, fc);
    assert LineOk(e, s.mem, l);
    PageFacts(e.x, addr);
    FreshLocal(e, s.mem, addr, l.laddr, fc);
    if !l.be {
      PageFacts(e.x, w.end.page);
      GoodLocal(e, s.mem, l.laddr, addr, fc, l.paddr);
      if !(Writes(k) && l.wp) {
        AddKeepsReads(e, s.mem, s.rd, addr, l.paddr, fc);
        if Writes(k) { AddKeepsWrites(e, s.mem, s.wr, addr, l.paddr, fc); }
        if k.Fetch? { FillFetchSlot(s.cfg, s.mem, addr, fc, l.paddr); }
      }
    }
    hide Good;
    hide Fresh;
    hide Base;
    hide AddFast;
    hide AllLaid;
    hide LinesOk;
    hide ReadsOk;
    hide WritesOk;
    hide FetchSlotOk;
    hide Denied;
    hide Protected;
  }

  lemma FillFetchSlot(c: Config, m: Mem, addr: u32, fc: fcode, page: u32)
    requires Good(c.env, m, addr, fc, page) && !Untranslated(c, Fetch, addr, fc)
    ensures FetchSlotOk(c, m, InsKey(c.env.x, addr, fc), page)
  {
    hide Good; hide Untranslated;
    forall a: u32, fd: fcode | InsKey(c.env.x, addr, fc) == InsKey(c.env.x, a, fd)
      ensures !Untranslated(c, Fetch, a, fd) && Good(c.env, m, a, fd, page)
    {
      KeyFacts(c.env.x, addr, fc, a, fd);
      GoodLocal(c.env, m, addr, a, fc, page);
      UntranslatedLocal(c, Fetch, addr, a, fc);
    }
  }
}
