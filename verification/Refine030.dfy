/** The cached 68030 MMU refines an MMU that searches the tables on every access. */
module Refine030 {
  import opened Words
  import opened Walk030
  import opened Stable030
  import opened Fresh030
  import opened Atc030
  import opened State030
  import opened Run030

  /** The reference: one access of an MMU without ATC and page caches. It leaves open what becomes
      of a write to a page that cannot be marked modified. */
  function PlainAccess(c: Config, m: Mem, k: Kind, addr: u32, fc: fcode): (Mem, Outcome)
  {
    if Untranslated(c, k, addr, fc) then (m, Phys(addr))
    else
      var w := Search(c.env, m, addr, fc, Writes(k));
      if Faults(w, fc) || (Writes(k) && Protected(w.hops))
      then (w.mem, PageFault(k in {Read, GenRead, LockRead, Fetch}))
      else if Writes(k) && !w.end.m then (w.mem, Wild)
      else (w.mem, Phys(Physical(c.env.x, Base(c.env.x, w.end.page), addr)))
  }

  /** What one access must get right, unless the reference leaves it open: outcome, memory after a
      completed access, invariant. */
  ghost predicate Agrees(s: State, L: Layout, k: Kind, addr: u32, fc: fcode, r: (State, Outcome))
  {
    var p := PlainAccess(s.cfg, s.mem, k, addr, fc);
    && !r.1.Wild?
    && (!p.1.Wild? ==>
          && Inv(r.0, L) && r.0.cfg == s.cfg && Grows(L, s.mem, r.0.mem)
          && r.1 == p.1 && (r.1.Phys? ==> r.0.mem == p.0))
  }

  /** A settled page: its search gives the outcome that its fresh read search tells. */
  lemma SearchAgrees(e: Env, L: Layout, m: Mem, n: Mem, addr: u32, fc: fcode, write: bool)
    requires AllLaid(e, L, m) && Grows(L, m, n)
    ensures var w, v := Search(e, m, addr, fc, write), Fresh(e, n, addr, fc);
      && Faults(w, fc) == Faults(v, fc) && Protected(w.hops) == Protected(v.hops)
      && (!Faults(w, fc) ==> w.end.page == v.end.page)
      && (write && !Faults(w, fc) && !Protected(w.hops) && v.end.m ==> w.end.m)
  {
    hide Walk; hide Laid; hide Denied; hide Protected;
    var q, p := Query(addr, fc, write, 0), Query(addr, fc, false, 0);
    assert Laid(e, L, m, addr, fc);
    WalkAlike(e, L, m, n, q, p);
    SameFaults(L, Walk(e, m, q), Walk(e, n, p), fc);
    RootLeaf(e, m, q);
    RootLeaf(e, n, p);
  }

  lemma TranslateAgrees(s: State, L: Layout, k: Kind, addr: u32, fc: fcode)
    requires Inv(s, L) && !Untranslated(s.cfg, k, addr, fc)
    ensures Agrees(s, L, k, addr, fc, Translate(s, k, addr, fc))
  {
    hide Inv; hide Walk; hide Resolve; hide UseLine; hide Grows; hide Laid; hide AllLaid; hide Denied; hide Protected;
    hide Base; hide Untranslated;
    var e := s.cfg.env;
    var r := Resolve(s, addr, fc, Writes(k));
    OnIsEnabled(s.cfg, k, addr, fc);
    InvLaid(s, L);
    LaidAt(e, L, s.mem, addr, fc);
    ResolveKeeps(s, L, addr, fc, Writes(k));
    SearchAgrees(e, L, s.mem, r.0.mem, addr, fc, Writes(k));
    UseNeverWild(r.0, k, addr, fc, r.1);
    if r.1 >= 0 {
      UseLineKeeps(r.0, L, k, addr, fc, r.1);
      if r.0.mem == s.mem && UseLine(r.0, k, addr, fc, r.1).1.Phys? && Writes(k) {
        WriteIsQuiet(e, L, s.mem, addr, fc);
      }
    }
  }

  /** Translation is on for what is translated. */
  lemma OnIsEnabled(c: Config, k: Kind, addr: u32, fc: fcode)
    ensures !Untranslated(c, k, addr, fc) ==> c.enabled
  {
  }

  lemma LaidAt(e: Env, L: Layout, m: Mem, addr: u32, fc: fcode)
    requires AllLaid(e, L, m)
    ensures Apart(L) && Laid(e, L, m, addr, fc)
  {
    hide Laid; hide Apart;
  }

  lemma UseNeverWild(s: State, k: Kind, addr: u32, fc: fcode, i: int)
    requires i == -1 || 0 <= i < SLOTS
    ensures !UseLine(s, k, addr, fc, i).1.Wild?
  {
    hide Base; hide AddFast; hide InsKey;
  }

  /** A page-cache hit is a fresh translation. */
  lemma HitAgrees(s: State, L: Layout, k: Kind, addr: u32, fc: fcode, page: u32)
    requires Inv(s, L) && !Untranslated(s.cfg, k, addr, fc)
    requires Good(s.cfg.env, s.mem, addr, fc, page) && (Writes(k) ==> Writable(s.cfg.env, s.mem, addr, fc))
    ensures Agrees(s, L, k, addr, fc, (s, Phys(Physical(s.cfg.env.x, page, addr))))
  {
    var e := s.cfg.env;
    GrowsItself(L, s.mem);
    SearchAgrees(e, L, s.mem, s.mem, addr, fc, Writes(k));
    assert Laid(e, L, s.mem, addr, fc);
    if Writes(k) { WriteIsQuiet(e, L, s.mem, addr, fc); }
    hide Walk;
    hide Fresh;
    hide Laid;
    hide AllLaid;
    hide Denied;
    hide Protected;
    hide Base;
  }

  lemma DropFetchSlot(s: State, L: Layout)
    requires Inv(s, L)
    ensures Inv(s.(ilog := NOKEY), L)
  {
    NoFetchSlot(s.cfg, s.mem, s.iphys);
  }

  /** Every access agrees with the reference as long as that has an outcome to offer; and when it
      completes, it leaves the descriptors as the reference leaves them. */
  lemma AccessAgrees(s: State, L: Layout, k: Kind, addr: u32, fc: fcode)
    requires Inv(s, L)
    ensures Agrees(s, L, k, addr, fc, Access(s, k, addr, fc))
  {
    hide Walk; hide Good; hide Writable; hide Translate; hide AllLaid; hide LinesOk; hide Grows; hide Base;
    var e := s.cfg.env;
    GrowsItself(L, s.mem);
    if k.Fetch? {
      if InsKey(e.x, addr, fc) == s.ilog {
        KeyFacts(e.x, addr, fc, addr, fc);
        HitAgrees(s, L, k, addr, fc, s.iphys);
      } else {
        var t := s.(ilog := NOKEY);
        DropFetchSlot(s, L);
        if !Untranslated(s.cfg, k, addr, fc) { TranslateAgrees(t, L, k, addr, fc); }
      }
    } else if !Untranslated(s.cfg, k, addr, fc) {
      var slot := Key(e.x, addr, fc) % FASTS;
      if k.Read? && FastHit(s.rd, e.x, addr, fc) {
        assert ReadSlotOk(e, s.mem, s.rd[slot]);
        HitAgrees(s, L, k, addr, fc, s.rd[slot].phys);
      } else if k.Write? && FastHit(s.wr, e.x, addr, fc) {
        assert WriteSlotOk(e, s.mem, s.wr[slot]);
        HitAgrees(s, L, k, addr, fc, s.wr[slot].phys);
      } else {
        TranslateAgrees(s, L, k, addr, fc);
      }
    }
  }

  // ---------------------------------------------------------------- flushes and configuration

  lemma FewerLines(s: State, L: Layout, gone: Line -> bool)
    requires Inv(s, L)
    ensures Inv(s.(atc := FlushLines(s.atc, gone)), L)
  {
    hide Good; hide Fresh; hide Base; hide Protected; hide Faults;
    var a := FlushLines(s.atc, gone);
    assert forall i :: 0 <= i < SLOTS ==> a[i].mru == s.atc[i].mru;
    if s.cfg.enabled {
      forall i | 0 <= i < SLOTS ensures LineOk(s.cfg.env, s.mem, a[i]) {
        assert LineOk(s.cfg.env, s.mem, s.atc[i]);
      }
    }
  }

  lemma EmptySlotsOk(e: Env, m: Mem)
    ensures ReadsOk(e, m, EmptyFast()) && WritesOk(e, m, EmptyFast())
  {
    hide Good;
    hide Writable;
    forall a: u32, fc: fcode ensures Key(e.x, a, fc) != NOKEY { KeyFacts(e.x, a, fc, a, fc); }
  }

  lemma NoFastKeeps(s: State, L: Layout)
    requires Inv(s, L)
    ensures Inv(NoFast(s), L)
  {
    hide LinesOk; hide AllLaid;
    EmptySlotsOk(s.cfg.env, s.mem);
    NoFetchSlot(s.cfg, s.mem, s.iphys);
  }

  lemma NoFastPageKeeps(s: State, L: Layout, page: u32)
    requires Inv(s, L)
    ensures Inv(NoFastPage(s, page), L)
  {
    hide LinesOk; hide AllLaid; hide ReadsOk; hide WritesOk;
    if s.cfg.enabled {
      FlushKeepsReads(s.cfg.env, s.mem, s.rd, page);
      FlushKeepsWrites(s.cfg.env, s.mem, s.wr, page);
    }
    NoFetchSlot(s.cfg, s.mem, s.iphys);
  }

  lemma FlushesKeep(s: State, L: Layout, addr: u32, base: nat, mask: nat)
    requires Inv(s, L)
    ensures Inv(FlushAll(s), L) && Inv(FlushFc(s, base, mask), L)
    ensures Inv(FlushPageFc(s, addr, base, mask), L) && Inv(FlushPage(s, addr), L)
  {
    hide Inv;
    var page := Base(s.cfg.env.x, addr);
    var all, byFc: Line -> bool := (l: Line) => true, (l: Line) => FcCovered(l.fc, base, mask);
    var byPage: Line -> bool := (l: Line) => l.laddr == page;
    var byBoth: Line -> bool := (l: Line) => FcCovered(l.fc, base, mask) && l.laddr == page;
    FewerLines(s, L, all);
    FewerLines(s, L, byFc);
    FewerLines(s, L, byPage);
    FewerLines(s, L, byBoth);
    NoFastKeeps(s.(atc := FlushLines(s.atc, all)), L);
    NoFastKeeps(s.(atc := FlushLines(s.atc, byFc)), L);
    NoFastPageKeeps(s.(atc := FlushLines(s.atc, byPage)), L, page);
    NoFastPageKeeps(s.(atc := FlushLines(s.atc, byBoth)), L, page);
  }
}
