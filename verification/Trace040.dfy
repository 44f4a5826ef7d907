/** Whole runs of the 68040/68060 MMU, and what its flushes leave behind. */
module Trace040 {
  import opened Words
  import opened Walk040
  import opened Settle040
  import opened Gate040
  import opened State040
  import opened Run040
  import opened Refine040

  // ---------------------------------------------------------------- flushes

  /** No line of either ATC and no shortcut answers for the page without a search. */
  ghost predicate Forgotten(s: State, addr: u32, super: bool)
  {
    && (forall i :: 0 <= i < LINES && i / 4 % 16 == SetIndex(s.c, addr) ==> !Tagged(s.atc[i], Tag(s.c, addr, super)))
    && NoShortcut(s, addr, super)
  }

  predicate NoShortcut(s: State, addr: u32, super: bool)
  {
    && !FastHit(s.rd, s.c, addr, super) && !FastHit(s.wr, s.c, addr, super) && s.ilog != InsKey(s.c, addr, super)
  }

  lemma ShortcutsGone(s: State, at: u32, addr: u32, super: bool)
    requires at == 0xffff_ffff || PageNo(s.c, at) == PageNo(s.c, addr)
    ensures NoShortcut(FlushShortcuts(s, at, super), addr, super)
  {
    hide Key; hide InsKey;
    NoKeyIsFree(s.c);
    KeyFacts4(s.c, at, super, addr, super);
  }

  /** PFLUSH of a page: the global form forgets it; the other form keeps exactly its global
      lines. Lines of other pages stay, and no shortcut of the page is left either way. */
  lemma FlushPageForgets(s: State, at: u32, addr: u32, super: bool, global: bool)
    requires PageNo(s.c, at) == PageNo(s.c, addr)
    ensures var t := FlushPage(s, at, super, global);
      && NoShortcut(t, addr, super)
      && (global ==> Forgotten(t, addr, super))
      && (forall i :: 0 <= i < LINES ==>
           var covered := i / 4 % 16 == SetIndex(s.c, addr) && s.atc[i].tag == Tag(s.c, addr, super);
           t.atc[i] == if covered && (global || !s.atc[i].global) then s.atc[i].(valid := false) else s.atc[i])
  {
    hide Key; hide InsKey; hide Tag; hide SetIndex; hide PageNo;
    var t := FlushPage(s, at, super, global);
    ShortcutsGone(s.(atc := t.atc), at, addr, super);
    KeyFacts4(s.c, at, super, addr, super);
  }

  /** PFLUSHA: everything goes but, in the non-global form, the global lines. */
  lemma FlushAllForgets(s: State, addr: u32, super: bool, global: bool)
    ensures var t := FlushAll(s, global);
      && NoShortcut(t, addr, super)
      && (global ==> Forgotten(t, addr, super))
      && (forall i :: 0 <= i < LINES ==>
           t.atc[i] == if global || !s.atc[i].global then s.atc[i].(valid := false) else s.atc[i])
  {
    hide Key; hide InsKey; hide Tag; hide SetIndex; hide FlushFast;
    ShortcutsGone(s.(atc := FlushAll(s, global).atc), 0xffff_ffff, addr, super);
  }

  lemma DroppedKeeps(s: State, L: Layout, gone: (nat, Line) -> bool)
    requires Inv(s, L)
    ensures Inv(s.(atc := Dropped(s.atc, gone)), L)
  {
    hide Fits; hide AllLaid4; hide ReadsOk; hide WritesOk; hide FetchSlotOk;
    var a := Dropped(s.atc, gone);
    forall i | 0 <= i < LINES ensures LineOk(s.c, s.mem, a[i], i / 4 % 16) {
      assert LineOk(s.c, s.mem, s.atc[i], i / 4 % 16);
    }
  }

  lemma FlushesKeep(s: State, L: Layout, addr: u32, super: bool, global: bool)
    requires Inv(s, L)
    ensures Inv(FlushPage(s, addr, super, global), L) && Inv(FlushAll(s, global), L)
  {
    hide Inv;
    hide FlushShortcuts;
    var tag, index := Tag(s.c, addr, super), SetIndex(s.c, addr);
    var one, all := OfPage(tag, index, global), OfAll(global);
    DroppedKeeps(s, L, one);
    DroppedKeeps(s, L, all);
    FlushKeeps(s.(atc := Dropped(s.atc, one)), L, addr, super);
    FlushKeeps(s.(atc := Dropped(s.atc, all)), L, 0xffff_ffff, false);
  }

  /** PTEST keeps the invariant; a transparent match makes it a page flush. */
  lemma PTestKeeps(s: State, L: Layout, addr: u32, super: bool, data: bool, write: bool)
    requires Inv(s, L)
    ensures var t := PTest(s, addr, super, data, write);
      && Inv(t, L) && t.c == s.c && t.gate == s.gate && Grows4(L, s.mem, t.mem)
      && t.mem ==
        if MatchTtr(s.gate, addr, super, data).NoMatch? then Walk(s.c, s.mem, Ask(addr, super, write)).mem else s.mem
  {
    hide Inv; hide Walk; hide Fill; hide Tag; hide SetIndex; hide Grows4; hide MatchTtr; hide FlushPage;
    var t := FlushPage(s, addr, super, true);
    var base := SetAt(data, SetIndex(s.c, addr));
    AlikeSelf4(L, s.mem);
    FlushesKeep(s, L, addr, super, true);
    FlushPageForgets(s, addr, addr, super, true);
    FlushedBasics(s, addr, super);
    forall k | base <= k < base + WAYS ensures !Tagged(t.atc[k], Tag(s.c, addr, super)) {
      SetOf(data, SetIndex(s.c, addr), k - base);
    }
    FillKeeps(t, L, addr, super, data, write, FirstInvalid(t.atc, base, t.random));
    FillGate(t, addr, super, write, base + FirstInvalid(t.atc, base, t.random));
  }

  lemma FillGate(s: State, addr: u32, super: bool, write: bool, slot: nat)
    requires slot < LINES
    ensures Fill(s, addr, super, write, slot).gate == s.gate
  {
    hide Walk; hide FlushFast; hide LineOf; hide Tag;
  }

  lemma FlushedBasics(s: State, addr: u32, super: bool)
    ensures var t := FlushPage(s, addr, super, true); t.c == s.c && t.mem == s.mem && t.gate == s.gate
  {
  }

  /** `mmu_set_tc`, with root pointers and tables as found: nothing cached is left. */
  lemma ConfigureKeeps(s: State, L: Layout, c: Cfg, g: Gate)
    requires Unique(s.atc) && (g.enabled ==> AllLaid4(c, L, s.mem))
    ensures Live(Configure(s, c, g), L)
  {
    hide Fits; hide Good; hide AllLaid4;
    var t := Configure(s, c, g);
    NoKeyIsFree(c);
    forall i | 0 <= i < LINES ensures !t.atc[i].valid {}
  }

  // ---------------------------------------------------------------- runs

  /** What a program does. `Probe` is the read of a locked read-modify-write cycle, `Plpa` the
      instruction of that name, whose outcome is what it leaves in its register. `Setup` loads
      TC (and root pointers with it), `MoveTtr` one transparent translation register, and
      `Rewrite` rebuilds descriptor memory and loads TC. */
  datatype Op =
    | Ins(addr: u32, super: bool)
    | Get(addr: u32, super: bool, data: bool)
    | Probe(addr: u32, super: bool)
    | Put(addr: u32, super: bool, data: bool)
    | Plpa(addr: u32, super: bool, data: bool, write: bool)
    | PFlush(addr: u32, super: bool, global: bool)
    | PFlushA(global: bool)
    | Test(addr: u32, super: bool, data: bool, write: bool)
    | MoveTtr(i: nat, t: Ttr)
    | Setup(c: Cfg, g: Gate)
    | Store(a: u32, v: Word)
    | Rewrite(m: Mem, c: Cfg, g: Gate)

  function Step(s: State, op: Op): (State, Outcome)
  {
    match op
    case Ins(addr, super) => FetchAt(s, addr, super)
    case Get(addr, super, data) => ReadAt(s, addr, super, data, false)
    case Probe(addr, super) => ReadAt(s, addr, super, true, true)
    case Put(addr, super, data) => WriteAt(s, addr, super, data)
    case Plpa(addr, super, data, write) => LoadPhysical(s, addr, super, data, write)
    case PFlush(addr, super, global) => (FlushPage(s, addr, super, global), Done)
    case PFlushA(global) => (FlushAll(s, global), Done)
    case Test(addr, super, data, write) => (PTest(s, addr, super, data, write), Done)
    case MoveTtr(i, t) => (s.(gate := WithTtr(s.gate, i, t)), Done)
    case Setup(c, g) => (Configure(s, c, g), Done)
    case Store(a, v) => (s.(mem := s.mem[a := v]), Done)
    case Rewrite(m, c, g) => (Configure(s.(mem := m), c, g), Done)
  }

  /** The MMU without caches. */
  datatype Plain = Plain(c: Cfg, gate: Gate, mem: Mem)

  /** An access that passes the gate and, if it is to be translated, searches the tables. */
  function Searched(p: Plain, way: Way, addr: u32, super: bool, write: bool): (Plain, Outcome)
  {
    match way
    case Bypass => (p, Phys(addr))
    case Blocked => (p, PageFault)
    case Through =>
      var r := PlainAccess(p.c, p.mem, addr, super, write);
      (p.(mem := r.0), r.1)
  }

  /** The read of a locked cycle asks for write permission. */
  function PlainStep(p: Plain, op: Op): (Plain, Outcome)
  {
    match op
    case Ins(addr, super) => Searched(p, ScreenIns(p.gate, addr, super), addr, super, false)
    case Get(addr, super, data) => Searched(p, Screen(p.gate, addr, super, data, false), addr, super, false)
    case Probe(addr, super) => Searched(p, Screen(p.gate, addr, super, true, true), addr, super, true)
    case Put(addr, super, data) => Searched(p, Screen(p.gate, addr, super, data, true), addr, super, true)
    case Plpa(addr, super, data, write) =>
      Searched(p, ScreenPlpa(p.gate, addr, super, data, write), addr, super, write)
    case PFlush(_, _, _) => (p, Done)
    case PFlushA(_) => (p, Done)
    case Test(addr, super, data, write) =>
      if MatchTtr(p.gate, addr, super, data).NoMatch? then
        (p.(mem := Walk(p.c, p.mem, Ask(addr, super, write)).mem), Done)
      else (p, Done)
    case MoveTtr(i, t) => (p.(gate := WithTtr(p.gate, i, t)), Done)
    case Setup(c, g) => (p.(c := c, gate := g), Done)
    case Store(a, v) => (p.(mem := p.mem[a := v]), Done)
    case Rewrite(m, c, g) => (Plain(c, g, m), Done)
  }

  /** The one place where the caches show: a locked read of a write-protected page that is in
      the read cache. */
  ghost predicate Loose(s: State, op: Op)
  {
    op.Probe? && Screen(s.gate, op.addr, op.super, true, true).Through? && LooseRead(s, op.addr, op.super)
  }

  /** With translation on, guest stores stay outside the tables; the tables in use are laid out
      when translation is turned on; PTEST and PLPA are used with translation on. */
  ghost predicate Permitted(s: State, L: Layout, op: Op, next: Layout)
  {
    match op
    case Test(_, _, _, _) => s.gate.enabled
    case Plpa(_, _, _, _) => s.gate.enabled
    case Setup(c, g) => g.enabled ==> AllLaid4(c, L, s.mem)
    case Store(a, _) => s.gate.enabled ==> !Known(L, a)
    case Rewrite(m, c, g) => g.enabled ==> AllLaid4(c, next, m)
    case _ => true
  }

  ghost function After(op: Op, L: Layout, next: Layout): Layout { if op.Rewrite? then next else L }

  /** The invariant, whether translation is on or off. */
  ghost predicate Live(s: State, L: Layout) { Unique(s.atc) && (s.gate.enabled ==> Inv(s, L)) }

  ghost predicate Matched(s: State, L: Layout, p: Plain)
  {
    Live(s, L) && p.c == s.c && p.gate == s.gate && Alike4(L, s.mem, p.mem)
  }

  lemma AlikeThen(L: Layout, m: Mem, n: Mem, o: Mem)
    requires Alike4(L, m, n) && Alike4(L, n, o)
    ensures Alike4(L, m, o)
  {
  }

  lemma PlainAlike(c: Cfg, L: Layout, m: Mem, n: Mem, addr: u32, super: bool, write: bool)
    requires AllLaid4(c, L, m) && Alike4(L, m, n)
    ensures var p, q := PlainAccess(c, m, addr, super, write), PlainAccess(c, n, addr, super, write);
      p.1 == q.1 && Alike4(L, m, q.0)
  {
    hide Walk; hide Laid4; hide Alike4; hide AllLaid4;
    var q := Ask(addr, super, write);
    LaidEither(c, L, m, addr, super, write);
    WalkAlike4(c, L, m, n, q, q);
    WalkSettles4(c, L, m, q);
    AlikeThen(L, m, Walk(c, m, q).mem, Walk(c, n, q).mem);
  }

  lemma AccessMatched(s: State, L: Layout, p: Plain, addr: u32, super: bool, write: bool, r: (State, Outcome))
    requires Matched(s, L, p) && s.gate.enabled && Agrees(s, L, addr, super, write, r) && r.0.gate == s.gate
    ensures var q := Searched(p, Through, addr, super, write); r.1 == q.1 && Matched(r.0, L, q.0)
  {
    hide PlainAccess; hide AllLaid4; hide LinesOk;
    PlainAlike(s.c, L, s.mem, p.mem, addr, super, write);
    var q := Searched(p, Through, addr, super, write);
    AlikeBack(L, s.mem, r.0.mem);
    AlikeThen(L, r.0.mem, s.mem, q.0.mem);
  }

  /** A locked read against a plain write search: same outcome unless it is loose, and matched
      either way. */
  lemma ProbeMatched(s: State, L: Layout, p: Plain, addr: u32, super: bool)
    requires Matched(s, L, p) && s.gate.enabled
    ensures var r, q := Read(s, addr, super, true, true), Searched(p, Through, addr, super, true);
      (r.1 == q.1 <==> !LooseRead(s, addr, super)) && Matched(r.0, L, q.0)
  {
    hide Inv; hide Agrees; hide Read; hide PlainAccess; hide LooseRead; hide Alike4;
    var r := Read(s, addr, super, true, true);
    ReadAgrees(s, L, addr, super, true, true);
    ReadGate(s, addr, super, true, true);
    LockedReadExact(s, L, addr, super, true);
    InvLaid(s, L);
    PlainAlike(s.c, L, s.mem, p.mem, addr, super, true);
    AgreesMeans(s, L, addr, super, true && !FastHit(s.rd, s.c, addr, super), r);
    AlikeBack(L, s.mem, r.0.mem);
    AlikeThen(L, r.0.mem, s.mem, Searched(p, Through, addr, super, true).0.mem);
  }

  lemma InvLaid(s: State, L: Layout)
    requires Inv(s, L)
    ensures AllLaid4(s.c, L, s.mem) && Unique(s.atc)
  {
  }

  lemma AgreesMeans(s: State, L: Layout, addr: u32, super: bool, write: bool, r: (State, Outcome))
    requires Agrees(s, L, addr, super, write, r)
    ensures Inv(r.0, L) && r.0.c == s.c && Alike4(L, s.mem, r.0.mem) && Unique(r.0.atc)
  {
  }

  lemma UseWayGate(s: State, addr: u32, super: bool, data: bool, write: bool, way: nat)
    requires way < WAYS
    ensures UseWay(s, addr, super, data, write, way).0.gate == s.gate
  {
    hide AddFast; hide SetIndex; hide InsKey;
  }

  lemma RefillGate(s: State, addr: u32, super: bool, data: bool, write: bool, way: nat)
    requires way < WAYS
    ensures Refill(s, addr, super, data, write, way).0.gate == s.gate
  {
    hide Walk; hide Fill; hide SetIndex; hide Refused; hide UseWay; hide LineRefuses;
    var slot := SetAt(data, SetIndex(s.c, addr)) + way;
    var t := Fill(s.(random := s.random % WAYS), addr, super, write, slot);
    FillGate(s.(random := s.random % WAYS), addr, super, write, slot);
    UseWayGate(t.(random := t.random + 1), addr, super, data, write, way);
  }

  lemma TranslateGate(s: State, addr: u32, super: bool, data: bool, write: bool)
    ensures Translate(s, addr, super, data, write).0.gate == s.gate
  {
    hide Tag; hide SetIndex; hide FindWay; hide Victim; hide Refill; hide UseWay; hide LineRefuses;
    var base, t := SetAt(data, SetIndex(s.c, addr)), s.(random := s.random + 1);
    var way := FindWay(s.atc, base, Tag(s.c, addr, super));
    if way == -1 {
      RefillGate(t, addr, super, data, write, Victim(s.atc, base, s.ways[Type(data)], t.random));
    } else {
      RefillGate(t, addr, super, data, write, way);
      UseWayGate(t, addr, super, data, write, way);
    }
  }

  /** Accesses leave the gate alone. */
  lemma ReadGate(s: State, addr: u32, super: bool, data: bool, write: bool)
    ensures Read(s, addr, super, data, write).0.gate == s.gate && Fetch(s, addr, super).0.gate == s.gate
    ensures Write(s, addr, super, data).0.gate == s.gate
  {
    hide Translate; hide Key; hide InsKey;
    TranslateGate(s, addr, super, data, write);
    TranslateGate(s, addr, super, data, true);
    TranslateGate(s, addr, super, false, false);
  }

  /** Only with translation on does an access go through. */
  lemma ThroughIsOn(g: Gate, addr: u32, super: bool, data: bool, write: bool)
    ensures ScreenIns(g, addr, super).Through? ==> g.enabled
    ensures Screen(g, addr, super, data, write).Through? ==> g.enabled
    ensures !ScreenIns(g, addr, super).Blocked?
  {
    hide MatchPair; hide MatchTtr;
  }

  lemma DropUnique(atc: seq<Line>, gone: (nat, Line) -> bool)
    requires Unique(atc)
    ensures Unique(Dropped(atc, gone))
  {
  }

  /** Flushes whether translation is on or off. */
  lemma FlushesLive(s: State, L: Layout, addr: u32, super: bool, global: bool)
    requires Live(s, L)
    ensures Live(FlushPage(s, addr, super, global), L) && Live(FlushAll(s, global), L)
  {
    hide Inv; hide Unique; hide Tag; hide SetIndex; hide FlushFast;
    DropUnique(s.atc, OfPage(Tag(s.c, addr, super), SetIndex(s.c, addr), global));
    DropUnique(s.atc, OfAll(global));
    if s.gate.enabled { FlushesKeep(s, L, addr, super, global); }
  }

  lemma StoreKeeps(s: State, L: Layout, a: u32, v: Word)
    requires Inv(s, L) && !Known(L, a)
    ensures Inv(s.(mem := s.mem[a := v]), L)
  {
    hide AllLaid4; hide LinesOk; hide ReadsOk; hide WritesOk; hide FetchSlotOk;
    assert Grows4(L, s.mem, s.mem[a := v]);
    SlotsLater(L, s, s.mem[a := v]);
  }

  lemma PlpaStep(s: State, L: Layout, p: Plain, addr: u32, super: bool, data: bool, write: bool)
    requires Matched(s, L, p) && s.gate.enabled
    ensures var op := Plpa(addr, super, data, write); var r, q := Step(s, op), PlainStep(p, op);
      r.1 == q.1 && Matched(r.0, L, q.0)
  {
    hide Agrees; hide Inv; hide Translate; hide ScreenPlpa; hide PlainAccess; hide Alike4; hide Unique;
    TranslateAgrees(s, L, addr, super, data, write);
    TranslateGate(s, addr, super, data, write);
    AccessMatched(s, L, p, addr, super, write, Translate(s, addr, super, data, write));
  }

  /** One access: same outcome unless it is a loose locked read, and the machines stay matched. */
  lemma AccessStep(s: State, L: Layout, p: Plain, op: Op)
    requires Matched(s, L, p) && (op.Ins? || op.Get? || op.Probe? || op.Put?)
    ensures var r, q := Step(s, op), PlainStep(p, op);
      (r.1 == q.1 <==> !Loose(s, op)) && Matched(r.0, L, q.0)
  {
    hide Agrees; hide Inv; hide Fetch; hide Read; hide Write; hide Screen; hide ScreenIns; hide LooseRead;
    hide PlainAccess;
    hide Alike4; hide Unique;
    match op
    case Ins(addr, super) =>
      ThroughIsOn(s.gate, addr, super, true, true);
      if s.gate.enabled {
        FetchAgrees(s, L, addr, super);
        ReadGate(s, addr, super, true, true);
        AccessMatched(s, L, p, addr, super, false, Fetch(s, addr, super));
      }
    case Get(addr, super, data) =>
      ThroughIsOn(s.gate, addr, super, data, false);
      if s.gate.enabled {
        ReadAgrees(s, L, addr, super, data, false);
        ReadGate(s, addr, super, data, false);
        AccessMatched(s, L, p, addr, super, false, Read(s, addr, super, data, false));
      }
    case Probe(addr, super) =>
      ThroughIsOn(s.gate, addr, super, true, true);
      if s.gate.enabled { ProbeMatched(s, L, p, addr, super); }
    case Put(addr, super, data) =>
      ThroughIsOn(s.gate, addr, super, data, true);
      if s.gate.enabled {
        WriteAgrees(s, L, addr, super, data);
        ReadGate(s, addr, super, data, true);
        AccessMatched(s, L, p, addr, super, true, Write(s, addr, super, data));
      }
  }

  lemma FlushBasics(s: State, addr: u32, super: bool, global: bool)
    ensures var t := FlushPage(s, addr, super, global); t.c == s.c && t.mem == s.mem && t.gate == s.gate
    ensures var t := FlushAll(s, global); t.c == s.c && t.mem == s.mem && t.gate == s.gate
  {
  }

  /** One operation: same outcome unless it is a loose locked read, and the machines stay
      matched in any case. */
  lemma StepMatched(s: State, L: Layout, p: Plain, op: Op, next: Layout)
    requires Matched(s, L, p) && Permitted(s, L, op, next)
    ensures var r, q := Step(s, op), PlainStep(p, op);
      (r.1 == q.1 <==> !Loose(s, op)) && Matched(r.0, After(op, L, next), q.0)
  {
    hide Inv; hide FetchAt; hide ReadAt; hide WriteAt; hide Searched; hide FlushPage; hide FlushAll; hide Unique;
    hide PTest; hide LoadPhysical; hide ScreenPlpa;
    if op.Ins? || op.Get? || op.Probe? || op.Put? {
      AccessStep(s, L, p, op);
      return;
    }
    match op
    case Plpa(addr, super, data, write) =>
      PlpaStep(s, L, p, addr, super, data, write);
    case PFlush(addr, super, global) =>
      FlushesLive(s, L, addr, super, global);
      FlushBasics(s, addr, super, global);
    case PFlushA(global) =>
      FlushesLive(s, L, 0, false, global);
      FlushBasics(s, 0, false, global);
    case Test(addr, super, data, write) =>
      PTestKeeps(s, L, addr, super, data, write);
      InvLaid(PTest(s, addr, super, data, write), L);
      TestMatched(s, L, p, addr, super, data, write);
    case MoveTtr(i, t) => GateLive(s, L, WithTtr(s.gate, i, t));
    case Setup(c, g) =>
      ConfigureKeeps(s, L, c, g);
      FlushBasics(s.(c := c, gate := g), 0, false, true);
    case Store(a, v) =>
      if s.gate.enabled {
        StoreKeeps(s, L, a, v);
        InvLaid(s.(mem := s.mem[a := v]), L);
      }
    case Rewrite(m, c, g) =>
      ConfigureKeeps(s.(mem := m), next, c, g);
      FlushBasics(s.(mem := m, c := c, gate := g), 0, false, true);
      AlikeSelf4(next, m);
  }

  /** Nothing cached depends on the transparent translation registers. */
  lemma GateLive(s: State, L: Layout, g: Gate)
    requires Live(s, L) && g.enabled == s.gate.enabled
    ensures Live(s.(gate := g), L)
  {
    hide AllLaid4; hide LinesOk; hide ReadsOk; hide WritesOk; hide FetchSlotOk; hide Unique;
  }

  lemma TestMatched(s: State, L: Layout, p: Plain, addr: u32, super: bool, data: bool, write: bool)
    requires Matched(s, L, p) && s.gate.enabled
    ensures Alike4(L, Walk(s.c, s.mem, Ask(addr, super, write)).mem, Walk(p.c, p.mem, Ask(addr, super, write)).mem)
  {
    hide Walk; hide Laid4; hide AllLaid4;
    LaidEither(s.c, L, s.mem, addr, super, write);
    WalkAlike4(s.c, L, s.mem, p.mem, Ask(addr, super, write), Ask(addr, super, write));
  }

  function Outcomes(s: State, ops: seq<Op>): seq<Outcome>
    decreases |ops|
  {
    if ops == [] then [] else
      var r := Step(s, ops[0]);
      [r.1] + Outcomes(r.0, ops[1..])
  }

  function PlainOutcomes(p: Plain, ops: seq<Op>): seq<Outcome>
    decreases |ops|
  {
    if ops == [] then [] else
      var r := PlainStep(p, ops[0]);
      [r.1] + PlainOutcomes(r.0, ops[1..])
  }

  /** The state in front of each operation of a run. */
  function Before(s: State, ops: seq<Op>, i: nat): State
    requires i <= |ops|
    decreases |ops|
  {
    if i == 0 then s else Before(Step(s, ops[0]).0, ops[1..], i - 1)
  }

  ghost predicate AllPermitted(s: State, L: Layout, ops: seq<Op>, next: seq<Layout>)
    requires |ops| == |next|
    decreases |ops|
  {
    ops == [] ||
    (&& Permitted(s, L, ops[0], next[0])
     && AllPermitted(Step(s, ops[0]).0, After(ops[0], L, next[0]), ops[1..], next[1..]))
  }

  /** In every run the cached 68040/68060 MMU gives each operation the outcome of an MMU that
      searches the tables every time, except exactly for locked reads of write-protected pages
      that are in the read cache. */
  lemma {:induction false} RunsDiffer(s: State, L: Layout, p: Plain, ops: seq<Op>, next: seq<Layout>, i: nat)
    requires |ops| == |next| && i < |ops|
    requires Matched(s, L, p) && AllPermitted(s, L, ops, next)
    ensures |Outcomes(s, ops)| == |ops| == |PlainOutcomes(p, ops)|
    ensures Outcomes(s, ops)[i] == PlainOutcomes(p, ops)[i] <==> !Loose(Before(s, ops, i), ops[i])
    decreases |ops|
  {
    hide Step; hide PlainStep; hide Matched; hide Permitted; hide Loose;
    StepMatched(s, L, p, ops[0], next[0]);
    var t, q := Step(s, ops[0]).0, PlainStep(p, ops[0]).0;
    if |ops| > 1 {
      RunsDiffer(t, After(ops[0], L, next[0]), q, ops[1..], next[1..], if i == 0 then 0 else i - 1);
    }
  }

  /** A run without such a read has exactly the outcomes of the MMU without caches, and only such
      a run has. */
  lemma RunsAgree(s: State, L: Layout, p: Plain, ops: seq<Op>, next: seq<Layout>)
    requires |ops| == |next|
    requires Matched(s, L, p) && AllPermitted(s, L, ops, next)
    ensures Outcomes(s, ops) == PlainOutcomes(p, ops) <==>
      forall i :: 0 <= i < |ops| ==> !Loose(Before(s, ops, i), ops[i])
  {
    hide Step; hide PlainStep; hide Matched; hide AllPermitted; hide Loose; hide Before; hide Outcomes;
    hide PlainOutcomes;
    if ops == [] {
      NoOutcomes(s, p);
    } else {
      RunsDiffer(s, L, p, ops, next, 0);
      forall i | 0 <= i < |ops|
        ensures Outcomes(s, ops)[i] == PlainOutcomes(p, ops)[i] <==> !Loose(Before(s, ops, i), ops[i])
      {
        RunsDiffer(s, L, p, ops, next, i);
      }
    }
  }

  lemma NoOutcomes(s: State, p: Plain)
    ensures Outcomes(s, []) == [] == PlainOutcomes(p, [])
  {
  }

  /** A run may start from any state of the caches by rebuilding the tables. */
  lemma RunsAfterSetup(s: State, L: Layout, m: Mem, c: Cfg, g: Gate, ops: seq<Op>, next: seq<Layout>)
    requires |ops| == |next| && Unique(s.atc) && (g.enabled ==> AllLaid4(c, L, m))
    requires AllPermitted(Configure(s.(mem := m), c, g), L, ops, next)
    ensures var t := Configure(s.(mem := m), c, g);
      Outcomes(t, ops) == PlainOutcomes(Plain(c, g, m), ops) <==>
      forall i :: 0 <= i < |ops| ==> !Loose(Before(t, ops, i), ops[i])
  {
    hide Live; hide Step; hide PlainStep; hide Alike4; hide FlushAll; hide AllPermitted; hide Loose; hide Before;
    hide AllLaid4;
    ConfigureKeeps(s.(mem := m), L, c, g);
    FlushBasics(s.(mem := m, c := c, gate := g), 0, false, true);
    AlikeSelf4(L, m);
    RunsAgree(Configure(s.(mem := m), c, g), L, Plain(c, g, m), ops, next);
  }
}
