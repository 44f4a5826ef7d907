/** What holds in every state a run of the 68030 MMU can reach. */
module Reach030 {
  import opened Words
  import opened Walk030
  import opened Stable030
  import opened Fresh030
  import opened Atc030
  import opened State030
  import opened Run030
  import opened Trace030

  function Final(s: State, ops: seq<Op>): State
    decreases |ops|
  {
    if ops == [] then s else Final(Step(s, ops[0]).0, ops[1..])
  }

  function PlainFinal(p: Plain, ops: seq<Op>): Plain
    decreases |ops|
  {
    if ops == [] then p else PlainFinal(PlainStep(p, ops[0]).0, ops[1..])
  }

  ghost function FinalLayout(L: Layout, ops: seq<Op>, chosen: seq<Layout>): Layout
    requires |ops| == |chosen|
    decreases |ops|
  {
    if ops == [] then L else FinalLayout(After(ops[0], L, chosen[0]), ops[1..], chosen[1..])
  }

  /** A run in which the reference leaves no write open leaves both machines matched: the invariant
      holds, and descriptor memories differ in U and M bits only. */
  lemma {:induction false} RunsKeep(s: State, L: Layout, p: Plain, ops: seq<Op>, chosen: seq<Layout>)
    requires |ops| == |chosen|
    requires Matched(s, L, p) && AllPermitted(s, L, ops, chosen) && Tame(p, ops, |ops|)
    ensures Matched(Final(s, ops), FinalLayout(L, ops, chosen), PlainFinal(p, ops))
    decreases |ops|
  {
    hide Step; hide PlainStep; hide Matched; hide Permitted;
    if ops != [] {
      StepMatched(s, L, p, ops[0], chosen[0]);
      RunsKeep(Step(s, ops[0]).0, After(ops[0], L, chosen[0]), PlainStep(p, ops[0]).0, ops[1..], chosen[1..]);
    }
  }

  /** The physical address a fresh search of the tables gives. */
  function FreshPhys(s: State, addr: u32, fc: fcode): u32
    requires Fresh(s.cfg.env, s.mem, addr, fc).end.Leaf?
  {
    var e := s.cfg.env;
    Physical(e.x, Base(e.x, Fresh(e, s.mem, addr, fc).end.page), addr)
  }

  /** The page is found, may be accessed, and lies where the caller says. */
  ghost predicate IsFresh(s: State, addr: u32, fc: fcode, phys: u32)
  {
    var w := Fresh(s.cfg.env, s.mem, addr, fc);
    !Faults(w, fc) && w.end.Leaf? && phys == FreshPhys(s, addr, fc)
  }

  /** In every state reachable from reset without a write that the reference leaves open: at most
      one ATC line answers for a page and function code, a line can always be replaced, and with
      translation on every page-cache hit is the address of a fresh search; what the write cache
      holds is writable and marked modified. */
  lemma ReachableCaches(s: State, L: Layout, ops: seq<Op>, chosen: seq<Layout>, addr: u32, fc: fcode)
    requires |ops| == |chosen|
    requires AfterReset(s) && AllPermitted(s, L, ops, chosen) && Tame(Plain(s.cfg, s.mem), ops, |ops|)
    ensures var t := Final(s, ops); var x := t.cfg.env.x;
      && Unique(t.atc) && !AllRecent(t.atc) && Victim(t.atc) < SLOTS
      && (t.cfg.enabled ==>
            && (FastHit(t.rd, x, addr, fc) ==> IsFresh(t, addr, fc, FastPhys(t.rd, x, addr, fc)))
            && (FastHit(t.wr, x, addr, fc) ==> IsFresh(t, addr, fc, FastPhys(t.wr, x, addr, fc)) &&
                                               Writable(t.cfg.env, t.mem, addr, fc))
            && (t.ilog == InsKey(x, addr, fc) ==> IsFresh(t, addr, fc, Physical(x, t.iphys, addr))))
  {
    hide Step; hide PlainStep; hide AllPermitted; hide Coherent; hide Final; hide IsFresh; hide Tame;
    AlikeItself(L, s.mem);
    RunsKeep(s, L, Plain(s.cfg, s.mem), ops, chosen);
    var t := Final(s, ops);
    if t.cfg.enabled { CoherentHits(t, FinalLayout(L, ops, chosen), addr, fc); }
  }

  lemma CoherentHits(t: State, L: Layout, addr: u32, fc: fcode)
    requires Coherent(t, L)
    ensures var x := t.cfg.env.x;
      && (FastHit(t.rd, x, addr, fc) ==> IsFresh(t, addr, fc, FastPhys(t.rd, x, addr, fc)))
      && (FastHit(t.wr, x, addr, fc) ==> IsFresh(t, addr, fc, FastPhys(t.wr, x, addr, fc)) &&
                                         Writable(t.cfg.env, t.mem, addr, fc))
      && (t.ilog == InsKey(x, addr, fc) ==> IsFresh(t, addr, fc, Physical(x, t.iphys, addr)))
  {
    hide AllLaid; hide LinesOk; hide Key; hide InsKey; hide Walk; hide Base; hide Writable; hide Settled;
    hide Untranslated;
    var i := Key(t.cfg.env.x, addr, fc) % FASTS;
    assert ReadSlotOk(t.cfg.env, t.mem, t.rd[i]) && WriteSlotOk(t.cfg.env, t.mem, t.wr[i]);
  }

  /** A lookup succeeds exactly when the page has a line that can serve the access. */
  lemma LookupExact(s: State, addr: u32, fc: fcode, write: bool)
    requires Unique(s.atc)
    ensures Lookup(s, addr, fc, write).1 >= 0 <==>
      exists i :: 0 <= i < SLOTS && Matches(s.atc[i], Base(s.cfg.env.x, addr), fc) && Answers(s.atc[i], write)
  {
    hide Base; hide Touch;
    var page := Base(s.cfg.env.x, addr);
    forall i | 0 <= i < SLOTS && Matches(s.atc[i], page, fc) ensures Find(s.atc, page, fc) == i {
      FindUnique(s.atc, page, fc, i);
    }
  }
}
