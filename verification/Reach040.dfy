/** What holds in every state a run of the 68040/68060 MMU can reach. */
module Reach040 {
  import opened Words
  import opened Walk040
  import opened Settle040
  import opened Gate040
  import opened State040
  import opened Run040
  import opened Trace040

  function Final(s: State, ops: seq<Op>): State
    decreases |ops|
  {
    if ops == [] then s else Final(Step(s, ops[0]).0, ops[1..])
  }

  ghost function FinalLayout(L: Layout, ops: seq<Op>, next: seq<Layout>): Layout
    requires |ops| == |next|
    decreases |ops|
  {
    if ops == [] then L else FinalLayout(After(ops[0], L, next[0]), ops[1..], next[1..])
  }

  /** Every run keeps the invariant. */
  lemma {:induction false} RunsKeep(s: State, L: Layout, ops: seq<Op>, next: seq<Layout>)
    requires |ops| == |next|
    requires Live(s, L) && AllPermitted(s, L, ops, next)
    ensures Live(Final(s, ops), FinalLayout(L, ops, next))
    decreases |ops|
  {
    hide Step; hide PlainStep; hide Permitted; hide Live;
    if ops != [] {
      AlikeSelf4(L, s.mem);
      StepMatched(s, L, Plain(s.c, s.gate, s.mem), ops[0], next[0]);
      RunsKeep(Step(s, ops[0]).0, After(ops[0], L, next[0]), ops[1..], next[1..]);
    }
  }

  /** The page is found, may be accessed, and lies where the caller says. */
  ghost predicate IsFresh(s: State, addr: u32, super: bool, phys: u32)
  {
    var r := Fresh(s.c, s.mem, addr, super);
    r.Page? && !(SuperOnly(r.d) && !super) && phys == Physical(s.c, Base(s.c, Above8(r.d)), addr)
  }

  /** In every state reachable after TC is loaded: at most one way of a set carries a tag, and
      with translation on every shortcut hit is the address of a fresh search, and what the write
      shortcuts hold is writable and marked modified. */
  lemma ReachableCaches(s: State, L: Layout, m: Mem, c: Cfg, g: Gate, ops: seq<Op>, next: seq<Layout>, addr: u32,
                        super: bool)
    requires |ops| == |next| && Unique(s.atc) && (g.enabled ==> AllLaid4(c, L, m))
    requires AllPermitted(Configure(s.(mem := m), c, g), L, ops, next)
    ensures var t := Final(Configure(s.(mem := m), c, g), ops);
      Unique(t.atc) && (t.gate.enabled ==> HitsFresh(t, addr, super))
  {
    hide Step; hide AllPermitted; hide Inv; hide AllLaid4; hide Configure; hide HitsFresh; hide Final; hide FinalLayout;
    ConfigureKeeps(s.(mem := m), L, c, g);
    RunsKeep(Configure(s.(mem := m), c, g), L, ops, next);
    var t := Final(Configure(s.(mem := m), c, g), ops);
    if t.gate.enabled { CoherentHits(t, FinalLayout(L, ops, next), addr, super); }
  }

  ghost predicate HitsFresh(t: State, addr: u32, super: bool)
  {
    && (FastHit(t.rd, t.c, addr, super) ==> IsFresh(t, addr, super, FastPhys(t.rd, t.c, addr, super)))
    && (FastHit(t.wr, t.c, addr, super) ==>
          IsFresh(t, addr, super, FastPhys(t.wr, t.c, addr, super)) && Writable(t.c, t.mem, addr, super))
    && (t.ilog == InsKey(t.c, addr, super) ==> IsFresh(t, addr, super, Physical(t.c, t.iphys, addr)))
  }

  lemma CoherentHits(t: State, L: Layout, addr: u32, super: bool)
    requires Inv(t, L)
    ensures HitsFresh(t, addr, super)
  {
    hide AllLaid4; hide LinesOk; hide Key; hide InsKey; hide Walk; hide Base; hide Writable; hide UsedPath; hide Unique;
    hide Fresh;
    var i := Key(t.c, addr, super) % FASTS;
    assert ReadSlotOk(t.c, t.mem, t.rd[i]) && WriteSlotOk(t.c, t.mem, t.wr[i]);
  }

  lemma UseWayMem(s: State, addr: u32, super: bool, data: bool, write: bool, way: nat)
    requires way < WAYS
    ensures var r := UseWay(s, addr, super, data, write, way); r.0.mem == s.mem && r.1.Phys?
  {
    hide AddFast; hide SetIndex; hide InsKey;
  }

  lemma FillMem(s: State, addr: u32, super: bool, write: bool, slot: nat)
    requires slot < LINES
    ensures Fill(s, addr, super, write, slot).mem == Walk(s.c, s.mem, Ask(addr, super, write)).mem
  {
    hide Walk; hide FlushFast; hide Tag; hide LineOf; hide Refused;
  }

  lemma RefillMem(s: State, addr: u32, super: bool, data: bool, write: bool, way: nat)
    requires way < WAYS
    ensures var r := Refill(s, addr, super, data, write, way);
      r.0.mem == Walk(s.c, s.mem, Ask(addr, super, write)).mem && (r.1.Phys? || r.1.PageFault?)
  {
    hide Walk; hide Fill; hide Tag; hide SetIndex; hide Refused; hide UseWay; hide LineRefuses;
    var slot := SetAt(data, SetIndex(s.c, addr)) + way;
    var t := Fill(s.(random := s.random % WAYS), addr, super, write, slot);
    FillMem(s.(random := s.random % WAYS), addr, super, write, slot);
    UseWayMem(t.(random := t.random + 1), addr, super, data, write, way);
  }

  /** `mmu_translate` leaves descriptor memory as no search or one search leaves it, and ends in an
      address or a fault. */
  lemma OneSearch(s: State, addr: u32, super: bool, data: bool, write: bool)
    ensures var r := Translate(s, addr, super, data, write);
      && (r.0.mem == s.mem || r.0.mem == Walk(s.c, s.mem, Ask(addr, super, write)).mem)
      && (r.1.Phys? || r.1.PageFault?)
  {
    hide Walk; hide Tag; hide SetIndex; hide FindWay; hide Victim; hide Refill; hide UseWay; hide LineRefuses;
    var base, t := SetAt(data, SetIndex(s.c, addr)), s.(random := s.random + 1);
    var way := FindWay(s.atc, base, Tag(s.c, addr, super));
    if way == -1 {
      RefillMem(t, addr, super, data, write, Victim(s.atc, base, s.ways[Type(data)], t.random));
    } else {
      RefillMem(t, addr, super, data, write, way);
      UseWayMem(t, addr, super, data, write, way);
    }
  }
}
