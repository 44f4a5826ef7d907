/** A locked read that the 68040/68060 lets through although the page is write protected. */
module Witness040 {
  import opened Words
  import opened Walk040
  import opened Gate040
  import opened State040
  import opened Run040
  import opened Refine040
  import opened Trace040

  // ---------------------------------------------------------------- reads fill the read cache

  lemma UseWayFills(s: State, addr: u32, super: bool, way: nat)
    requires way < WAYS && Key(s.c, addr, super) % FASTS < FASTS - 1
    ensures var t := UseWay(s, addr, super, true, false, way).0; t.c == s.c && FastHit(t.rd, t.c, addr, super)
  {
    hide Key; hide SetIndex;
  }

  lemma RefillFills(s: State, addr: u32, super: bool, way: nat)
    requires way < WAYS && Key(s.c, addr, super) % FASTS < FASTS - 1
    ensures var r := Refill(s, addr, super, true, false, way); r.1.Phys? ==> FastHit(r.0.rd, r.0.c, addr, super)
  {
    hide Key; hide SetIndex; hide UseWay; hide Fill; hide Walk; hide Refused; hide LineRefuses; hide FastHit;
    var slot := SetAt(true, SetIndex(s.c, addr)) + way;
    var t := Fill(s.(random := s.random % WAYS), addr, super, false, slot);
    FillCfg(s.(random := s.random % WAYS), addr, super, false, slot);
    UseWayFills(t.(random := t.random + 1), addr, super, way);
  }

  lemma FillCfg(s: State, addr: u32, super: bool, write: bool, slot: nat)
    requires slot < LINES
    ensures Fill(s, addr, super, write, slot).c == s.c
  {
    hide Walk; hide FlushFast; hide LineOf; hide Tag;
  }

  /** After a data read that completes, the page is in the read cache, unless it would go to the
      unused last slot. */
  lemma ReadFills(s: State, addr: u32, super: bool)
    requires Key(s.c, addr, super) % FASTS < FASTS - 1
    ensures var r := Read(s, addr, super, true, false); r.1.Phys? ==> FastHit(r.0.rd, r.0.c, addr, super)
  {
    hide Key; hide Tag; hide SetIndex; hide FindWay; hide Victim; hide Refill; hide UseWay; hide LineRefuses;
    hide FastHit;
    var base, t := SetAt(true, SetIndex(s.c, addr)), s.(random := s.random + 1);
    var way := FindWay(s.atc, base, Tag(s.c, addr, super));
    if way == -1 {
      RefillFills(t, addr, super, Victim(s.atc, base, s.ways[Type(true)], t.random));
    } else {
      UseWayFills(t, addr, super, way);
    }
  }

  // ---------------------------------------------------------------- a small machine

  /** One write-protected page: root table at 0, pointer table at 0x200, page table at 0x400. */
  const CONFIG := Cfg(0, 0, false, false, {})

  const TABLES: Mem :=
    map[0 := Word(2, 0, false, false, false, 2), 0x200 := Word(4, 0, false, false, false, 2),
        0x400 := Word(0, 0, false, false, true, 1)]

  const OPEN := Gate(true, false, NOTTR, NOTTR, NOTTR, NOTTR)

  predicate Any(a: u32) { true }

  /** Every longword may be a descriptor. */
  ghost function Everywhere(): Layout { Layout(iset a: u32 | Any(a), iset{}) }

  lemma SmallPlus(a: u32, n: nat)
    requires a + n < WRAP
    ensures Plus(a, n) == a + n
  {
  }

  lemma AlignZero()
    ensures Align(0, 512) == 0
  {
  }

  lemma RootAt(q: Ask)
    ensures RootEntry(CONFIG, q) < 0x200 && (q.addr == 0 ==> RootEntry(CONFIG, q) == 0)
  {
    hide Plus; hide Align;
    AlignZero();
    SmallPlus(0, (q.addr / 0x200_0000) % 128 * 4);
  }

  lemma PointerAt(q: Ask)
    ensures 0x200 <= PointerEntry(q, TABLES[0]) < 0x400 && (q.addr == 0 ==> PointerEntry(q, TABLES[0]) == 0x200)
  {
    hide Plus;
    assert PointerTable(TABLES[0]) == 0x200;
    hide PointerTable;
    SmallPlus(0x200, (q.addr / 0x4_0000) % 128 * 4);
  }

  lemma PageAt(q: Ask)
    ensures var a := PageEntry(CONFIG, q, TABLES[0x200]); 0x400 <= a < 0x500 && (q.addr == 0 ==> a == 0x400)
  {
    hide Plus;
    assert PageTable(CONFIG, TABLES[0x200]) == 0x400;
    hide PageTable;
    SmallPlus(0x400, (q.addr / 0x1000) % 64 * 4);
  }

  lemma TablesLaid()
    ensures AllLaid4(CONFIG, Everywhere(), TABLES)
  {
    forall a: u32, s: bool ensures Laid4(CONFIG, Everywhere(), TABLES, Ask(a, s, false)) {
      hide RootEntry; hide PointerEntry; hide PageEntry;
      RootAt(Ask(a, s, false)); PointerAt(Ask(a, s, false)); PageAt(Ask(a, s, false));
    }
  }

  /** The page is found, accessible and write protected. */
  lemma PageFound()
    ensures var r := Fresh(CONFIG, TABLES, 0, true); r.Page? && r.wp
  {
    hide RootEntry; hide PointerEntry; hide PageEntry; hide Leaf; hide FromPage; hide FromPointer;
    var q := Ask(0, true, false);
    RootAt(q); PointerAt(q); PageAt(q);
    var m1 := TABLES[0 := TABLES[0].(u := true)];
    assert Walk(CONFIG, TABLES, q) == FromPointer(CONFIG, m1, q, 0x200, false);
    PointerFound(m1, q);
  }

  lemma PointerFound(m: Mem, q: Ask)
    requires q == Ask(0, true, false) && m == TABLES[0 := TABLES[0].(u := true)]
    ensures var r := FromPointer(CONFIG, m, q, 0x200, false).res; r.Page? && r.wp
  {
    hide PageEntry; hide Leaf; hide FromPage;
    PageAt(q);
    var m2 := m[0x200 := m[0x200].(u := true)];
    assert FromPointer(CONFIG, m, q, 0x200, false) == FromPage(CONFIG, m2, q, 0x400, false);
    LeafFound(m2, q);
  }

  lemma LeafFound(m: Mem, q: Ask)
    requires 0x400 in m && m[0x400] == TABLES[0x400] && !q.write
    ensures var r := FromPage(CONFIG, m, q, 0x400, false).res; r.Page? && r.wp
  {
  }

  /** A read of the page by the supervisor puts it into the read cache; the read of a locked cycle
      is then let through, while a search for writing refuses. */
  lemma LockedReadWitness(s0: State)
    requires Unique(s0.atc)
    ensures var s := Read(Configure(s0.(mem := TABLES), CONFIG, OPEN), 0, true, true, false).0;
      && Inv(s, Everywhere()) && LooseRead(s, 0, true)
      && Read(s, 0, true, true, true).1 != PlainAccess(s.c, s.mem, 0, true, true).1
  {
    hide Inv; hide Read; hide LooseRead; hide PlainAccess; hide FlushAll; hide FastHit;
    var s1 := Configure(s0.(mem := TABLES), CONFIG, OPEN);
    TablesLaid();
    ConfigureKeeps(s0.(mem := TABLES), Everywhere(), CONFIG, OPEN);
    FlushBasics(s0.(mem := TABLES, c := CONFIG, gate := OPEN), 0, false, true);
    ReadAgrees(s1, Everywhere(), 0, true, true, false);
    ReadOutcome(s1);
    KeyInUse();
    ReadFills(s1, 0, true);
    var s := Read(s1, 0, true, true, false).0;
    AgreesMeans(s1, Everywhere(), 0, true, false, Read(s1, 0, true, true, false));
    PageStays(s.mem);
    StillLoose(s);
    LockedReadExact(s, Everywhere(), 0, true, true);
  }

  lemma KeyInUse()
    ensures Key(CONFIG, 0, true) % FASTS < FASTS - 1
  {
  }

  /** The plain read of the page completes. */
  lemma ReadOutcome(s: State)
    requires s.c == CONFIG && s.mem == TABLES && Agrees(s, Everywhere(), 0, true, false, Read(s, 0, true, true, false))
    ensures Read(s, 0, true, true, false).1.Phys?
  {
    hide Walk; hide Read; hide Inv; hide Base;
    PageFound();
  }

  lemma PageStays(m: Mem)
    requires Alike4(Everywhere(), TABLES, m)
    ensures var r := Fresh(CONFIG, m, 0, true); r.Page? && r.wp
  {
    TablesLaid();
    PageFound();
    assert Laid4(CONFIG, Everywhere(), TABLES, Ask(0, true, false));
    hide AllLaid4; hide Laid4; hide Walk; hide Alike4;
    WalkAlike4(CONFIG, Everywhere(), TABLES, m, Ask(0, true, false), Ask(0, true, false));
  }

  lemma StillLoose(s: State)
    requires s.c == CONFIG && FastHit(s.rd, s.c, 0, true)
    requires var r := Fresh(CONFIG, s.mem, 0, true); r.Page? && r.wp
    ensures LooseRead(s, 0, true)
  {
  }
}
