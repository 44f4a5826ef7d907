/** Corners of the 68030 MMU: what a flush leaves behind, when the ATC is read at index -1,
    and the probe whose answer depends on the ATC. */
module Exits030 {
  import opened Words
  import opened Walk030
  import opened Fresh030
  import opened Atc030
  import opened State030
  import opened Run030
  import opened Refine030

  // ---------------------------------------------------------------- flushes are complete

  /** Nothing is left that could answer for the page and function code without a search. */
  predicate Forgotten(s: State, addr: u32, fc: fcode)
  {
    var x := s.cfg.env.x;
    && NoMatch(s.atc, Base(x, addr), fc)
    && !FastHit(s.rd, x, addr, fc) && !FastHit(s.wr, x, addr, fc) && s.ilog != InsKey(x, addr, fc)
  }

  /** PFLUSHA and PMOVE. */
  lemma FlushAllForgets(s: State, addr: u32, fc: fcode)
    ensures Forgotten(FlushAll(s), addr, fc)
  {
    hide Key; hide InsKey;
    KeyFacts(s.cfg.env.x, addr, fc, addr, fc);
  }

  /** PFLUSH by function code: every covered key of every page is forgotten, and every line
      of another function code stays. */
  lemma FlushFcForgets(s: State, base: nat, mask: nat, addr: u32, fc: fcode)
    ensures FcCovered(fc, base, mask) ==> Forgotten(FlushFc(s, base, mask), addr, fc)
    ensures forall i ::
      0 <= i < SLOTS && !FcCovered(s.atc[i].fc, base, mask) ==> FlushFc(s, base, mask).atc[i] == s.atc[i]
  {
    hide Key; hide InsKey; hide FcCovered;
    KeyFacts(s.cfg.env.x, addr, fc, addr, fc);
  }

  lemma PageSlotsForgotten(s: State, page: u32, addr: u32, fc: fcode)
    requires Base(s.cfg.env.x, page) == Base(s.cfg.env.x, addr)
    ensures var x := s.cfg.env.x; var r := NoFastPage(s, page);
      !FastHit(r.rd, x, addr, fc) && !FastHit(r.wr, x, addr, fc) && r.ilog != InsKey(x, addr, fc)
  {
    hide Key; hide InsKey; hide Base;
    KeyFacts(s.cfg.env.x, addr, fc, page, fc);
  }

  /** PFLUSH by function code and page: the covered keys of the page are forgotten in every
      cache; lines of other pages or function codes stay. */
  lemma FlushPageFcForgets(s: State, at: u32, base: nat, mask: nat, addr: u32, fc: fcode)
    requires Base(s.cfg.env.x, at) == Base(s.cfg.env.x, addr)
    ensures FcCovered(fc, base, mask) ==> Forgotten(FlushPageFc(s, at, base, mask), addr, fc)
    ensures forall i ::
      0 <= i < SLOTS && (!FcCovered(s.atc[i].fc, base, mask) || s.atc[i].laddr != Base(s.cfg.env.x, at)) ==>
      FlushPageFc(s, at, base, mask).atc[i] == s.atc[i]
  {
    hide Key; hide InsKey; hide Base; hide FcCovered;
    var page := Base(s.cfg.env.x, at);
    PageFacts(s.cfg.env.x, at);
    PageSlotsForgotten(s.(atc := FlushPageFc(s, at, base, mask).atc), page, addr, fc);
  }

  /** The flush in front of a PLOAD: the page is forgotten for every function code. */
  lemma FlushPageForgets(s: State, at: u32, addr: u32, fc: fcode)
    requires Base(s.cfg.env.x, at) == Base(s.cfg.env.x, addr)
    ensures Forgotten(FlushPage(s, at), addr, fc)
  {
    hide Key; hide InsKey; hide Base;
    var page := Base(s.cfg.env.x, at);
    PageFacts(s.cfg.env.x, at);
    PageSlotsForgotten(s.(atc := FlushPage(s, at).atc), page, addr, fc);
  }

  // ---------------------------------------------------------------- the missing line

  /** After a miss and a search the lookup succeeds, with one exception: a write to a valid
      page reached through a page-type root pointer, for which the program reads line -1. */
  lemma LookupAfterSearch(s: State, L: Layout, addr: u32, fc: fcode, write: bool)
    requires Inv(s, L) && s.cfg.enabled
    ensures Resolve(s, addr, fc, write).1 == -1 <==>
      write && RootOf(s.cfg.env, fc).w0.ty == 1 && !Faults(Search(s.cfg.env, s.mem, addr, fc, write), fc)
  {
    hide Inv; hide Walk; hide Good; hide Base; hide Denied; hide Install;
    var e := s.cfg.env;
    var w := Search(e, s.mem, addr, fc, write);
    ResolveKeeps(s, L, addr, fc, write);
    RootLeaf(e, s.mem, Query(addr, fc, write, 0));
    RootLeaf(e, s.mem, Query(addr, fc, false, 0));
    GrowsItself(L, s.mem);
    InvLaid(s, L);
    SearchAgrees(e, L, s.mem, s.mem, addr, fc, write);
    if write && RootOf(e, fc).w0.ty == 1 && !Faults(w, fc) {
      assert w.hops == [];
      var first := Lookup(s, addr, fc, write);
      LookupKeeps(s, L, addr, fc, write);
      if first.1 >= 0 {
        var l := first.0.atc[first.1];
        InvLine(first.0, L, first.1);
        PageFacts(e.x, addr);
        FreshLocal(e, s.mem, addr, l.laddr, fc);
      } else {
        InstallKeeps(first.0, L, addr, fc, write);
      }
    }
  }

  /** So the reference leaves a write open exactly when it is translated, goes through a page-type
      root pointer, and finds a page. */
  lemma WildExact(c: Config, m: Mem, k: Kind, addr: u32, fc: fcode)
    ensures PlainAccess(c, m, k, addr, fc).1.Wild? <==>
      && Writes(k) && !Untranslated(c, k, addr, fc) && RootOf(c.env, fc).w0.ty == 1
      && !Faults(Search(c.env, m, addr, fc, true), fc)
  {
    hide Walk; hide Denied; hide Untranslated; hide Base;
    RootLeaf(c.env, m, Query(addr, fc, Writes(k), 0));
  }

  // ---------------------------------------------------------------- the access probe

  /** The reference for the probe: the verdict of the access it stands for. */
  function PlainProbe(c: Config, m: Mem, addr: u32, fc: fcode, write: bool): (Mem, Outcome)
  {
    var r := PlainAccess(c, m, if write then GenWrite else GenRead, addr, fc);
    (r.0, if r.1.PageFault? then PageFault(true) else r.1)
  }

  /** A probe for writing of a write-protected page that is not in the ATC. */
  ghost predicate LooseProbe(s: State, addr: u32, fc: fcode, write: bool)
  {
    var w := Search(s.cfg.env, s.mem, addr, fc, write);
    && write && !Untranslated(s.cfg, Probed(write), addr, fc) && !Faults(w, fc) && Protected(w.hops)
    && NoMatch(s.atc, Base(s.cfg.env.x, addr), fc)
  }

  /** The probe agrees with the access it stands for, except when the page is write protected and
      not in the ATC: then it reports no fault. Either way it keeps the invariant. */
  lemma CheckFcExact(s: State, L: Layout, addr: u32, fc: fcode, write: bool)
    requires Inv(s, L)
    ensures var r, p := CheckFc(s, addr, fc, write), PlainProbe(s.cfg, s.mem, addr, fc, write);
      && !r.1.Wild?
      && (LooseProbe(s, addr, fc, write) ==> p.1.PageFault? && r.1.Phys?)
      && (!p.1.Wild? ==>
            && (r.1 == p.1 <==> !LooseProbe(s, addr, fc, write))
            && Inv(r.0, L) && r.0.cfg == s.cfg && Grows(L, s.mem, r.0.mem))
  {
    hide Inv; hide Walk; hide Good; hide Base; hide Denied; hide Protected; hide Lookup; hide Resolve; hide Grows;
    hide AddFast; hide Untranslated;
    GrowsItself(L, s.mem);
    if !Untranslated(s.cfg, Probed(write), addr, fc) {
      var e := s.cfg.env;
      var r := Resolve(s, addr, fc, write);
      OnIsEnabled(s.cfg, Probed(write), addr, fc);
      ResolveKeeps(s, L, addr, fc, write);
      InvLaid(s, L);
      SearchAgrees(e, L, s.mem, r.0.mem, addr, fc, write);
      ProbeLine(s, L, addr, fc, write);
      if r.1 >= 0 {
        var l := r.0.atc[r.1];
        InvLine(r.0, L, r.1);
        PageFacts(e.x, addr);
        FreshLocal(e, r.0.mem, addr, l.laddr, fc);
        if !l.be { ProbeKeeps(r.0, L, addr, fc, r.1); }
      }
    }
  }

  /** The page a line stands for may go into the read cache. */
  lemma ProbeKeeps(s: State, L: Layout, addr: u32, fc: fcode, i: nat)
    requires Inv(s, L) && s.cfg.enabled && i < SLOTS && !s.atc[i].be
    requires Matches(s.atc[i], Base(s.cfg.env.x, addr), fc)
    ensures var x, w := s.cfg.env.x, Fresh(s.cfg.env, s.mem, addr, fc); var page := Base(x, s.atc[i].paddr);
      && w.end.Leaf? && page == Base(x, w.end.page)
      && Inv(s.(rd := AddFast(s.rd, x, addr, page, fc)), L)
  {
    hide Walk; hide Base; hide Denied; hide Protected; hide AddFast; hide LinesOk; hide ReadsOk; hide WritesOk;
    hide FetchSlotOk; hide AllLaid; hide Unique; hide AllRecent;
    var e, l := s.cfg.env, s.atc[i];
    InvLine(s, L, i);
    PageFacts(e.x, addr);
    FreshLocal(e, s.mem, addr, l.laddr, fc);
    PageFacts(e.x, Fresh(e, s.mem, addr, fc).end.page);
    GoodLocal(e, s.mem, l.laddr, addr, fc, l.paddr);
    AddKeepsReads(e, s.mem, s.rd, addr, l.paddr, fc);
  }

  /** The first lookup of a write-protected page fails exactly when no line is there. */
  lemma ProbeLine(s: State, L: Layout, addr: u32, fc: fcode, write: bool)
    requires Inv(s, L) && s.cfg.enabled
    ensures var w := Search(s.cfg.env, s.mem, addr, fc, write);
      !Faults(w, fc) && Protected(w.hops) ==>
        (Lookup(s, addr, fc, write).1 >= 0 <==> !NoMatch(s.atc, Base(s.cfg.env.x, addr), fc))
  {
    hide Inv; hide Walk; hide Good; hide Base; hide Denied; hide Protected;
    var e := s.cfg.env;
    var page := Base(e.x, addr);
    var i := Find(s.atc, page, fc);
    if i >= 0 {
      var l := s.atc[i];
      InvLine(s, L, i);
      InvLaid(s, L);
      PageFacts(e.x, addr);
      FreshLocal(e, s.mem, addr, l.laddr, fc);
      GrowsItself(L, s.mem);
      SearchAgrees(e, L, s.mem, s.mem, addr, fc, write);
    }
  }

  // ---------------------------------------------------------------- failed searches

  /** The line that a failed search for writing leaves refuses reads of the page as well, whatever
      a search for reading would say. */
  lemma FaultStays(s: State, addr: u32, fc: fcode)
    requires Unique(s.atc) && !AllRecent(s.atc) && NoMatch(s.atc, Base(s.cfg.env.x, addr), fc)
    requires !Untranslated(s.cfg, GenWrite, addr, fc) && !Untranslated(s.cfg, GenRead, addr, fc)
    requires var w := Search(s.cfg.env, s.mem, addr, fc, true); !w.end.Leaf? && !w.end.Stopped?
    ensures var t := Access(s, GenWrite, addr, fc).0;
      && t.cfg == s.cfg && t.mem == Search(s.cfg.env, s.mem, addr, fc, true).mem
      && Access(t, GenRead, addr, fc).1 == PageFault(true)
  {
    hide Walk; hide Base; hide Untranslated; hide FlushFast; hide Unique; hide AllRecent; hide Touch; hide Victim;
    hide Find; hide Protected; hide Denied;
    var e := s.cfg.env;
    var page := Base(e.x, addr);
    var l := LineOf(e, addr, fc, Search(e, s.mem, addr, fc, true));
    var v := Victim(s.atc);
    VictimIn(s.atc);
    NewStaysValid(s.atc, v, l);
    NoneFound(s.atc, page, fc);
    var a := Install(s, addr, fc, true).atc;
    FindUnique(a, page, fc, v);
    TouchUnique(a, v);
    FindUnique(Touch(a, v), page, fc, v);
  }

  lemma NoneFound(atc: seq<Line>, page: u32, fc: fcode)
    requires NoMatch(atc, page, fc)
    ensures Find(atc, page, fc) == -1
  {
  }

  // ---------------------------------------------------------------- mmu030_translate

  /** `mmu030_translate` searches as a read even for a write. */
  function TranslateLine(s: State, addr: u32, fc: fcode, write: bool): int
  {
    var first := Lookup(s, addr, fc, write);
    if first.1 >= 0 then first.1 else Lookup(Install(first.0, addr, fc, false), addr, fc, write).1
  }

  /** So a translation for a write misses twice, and line -1 is read, exactly when the page
      is in order but not yet marked modified. */
  lemma TranslateMisses(s: State, L: Layout, addr: u32, fc: fcode, write: bool)
    requires Inv(s, L) && s.cfg.enabled
    ensures var v := Fresh(s.cfg.env, s.mem, addr, fc);
      TranslateLine(s, addr, fc, write) == -1 <==>
        write && !Faults(v, fc) && !Protected(v.hops) && !v.end.m
  {
    hide Inv; hide Walk; hide Good; hide Base; hide Denied; hide Protected; hide Install;
    var e := s.cfg.env;
    var first := Lookup(s, addr, fc, write);
    LookupKeeps(s, L, addr, fc, write);
    PageFacts(e.x, addr);
    if first.1 >= 0 {
      var l := first.0.atc[first.1];
      InvLine(first.0, L, first.1);
      FreshLocal(e, s.mem, addr, l.laddr, fc);
    } else {
      var t := Install(first.0, addr, fc, false);
      InstallKeeps(first.0, L, addr, fc, false);
      RootLeaf(e, s.mem, Query(addr, fc, false, 0));
    }
  }
}
