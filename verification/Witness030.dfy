/** Inputs on which the 68030 MMU falls short, one for each exact condition of Exits030. */
module Witness030 {
  import opened Words
  import opened Walk030
  import opened Stable030
  import opened Fresh030
  import opened Atc030
  import opened State030
  import opened Run030
  import opened Refine030
  import opened WalkLaws030
  import opened Trace030
  import opened Exits030
  import opened Rom030
  import opened Bits
  import Tc030

  // ---------------------------------------------------------------- a small machine

  /** What TC 0x8189f000 decodes to: initial shift 9, pages of 256 bytes, one table level of 15
      bits. */
  function OneLevel(): (x: Tables)
    ensures x.last == 0 && x.ps == 8
  {
    assert Pow2(8) == 256;
    Xlat([0x7f_ff00, 0, 0, 0], [8, 0, 0, 0], 0, 8)
  }

  const OFF := Ttr(0, 0, false, false, false, 0, 0)

  /** Function code lookup from a root pointer to address 0 of the given descriptor type. */
  function Machine(ty: u2): Config
  {
    var root := Root(Word(0, 0, false, false, false, ty), NOWORD);
    Config(Env(OneLevel(), false, true, root, root, {}), true, OFF, OFF)
  }

  /** The machine with nothing cached, and zeroes in front of the ATC. */
  function Blank(ty: u2, m: Mem): (s: State)
    ensures s.cfg == Machine(ty) && s.mem == m && s.stray == NOLINE && s.ilog == NOKEY
    ensures s.rd == EmptyFast() && s.wr == EmptyFast()
    ensures forall i :: 0 <= i < SLOTS ==> !s.atc[i].valid && !s.atc[i].mru
  {
    Mmu(Machine(ty), seq(SLOTS, i => NOLINE), seq(32, i => 0), EmptyFast(), EmptyFast(), NOKEY, 0, m, NOLINE)
  }

  predicate Any(a: u32) { true }

  /** Every longword may be a descriptor. */
  ghost function Everywhere(): Layout { Layout(iset a: u32 | Any(a), iset{}) }

  lemma BlankInv(ty: u2, m: Mem)
    requires AllLaid(Machine(ty).env, Everywhere(), m)
    ensures Inv(Blank(ty, m), Everywhere())
  {
    hide AllLaid; hide Key; hide InsKey; hide Good; hide Writable; hide Untranslated;
    var s := Blank(ty, m);
    assert !s.atc[0].mru;
    forall addr: u32, fc: fcode ensures Key(s.cfg.env.x, addr, fc) != NOKEY && InsKey(s.cfg.env.x, addr, fc) != NOKEY {
      KeyFacts(s.cfg.env.x, addr, fc, addr, fc);
    }
  }

  const TC: u32 := 0x8189_f000

  lemma TcFields()
    ensures Tc030.PageBits(TC) == 8 && Tc030.InitShift(TC) == 9 && Tc030.Ti(TC, 0) == 15 && Tc030.Ti(TC, 1) == 0
  {
  }

  lemma TcSums()
    ensures Tc030.Used(TC) == 1 && Tc030.Sum(TC, 0) == 9 && Tc030.Sum(TC, 1) == 24
  {
    hide Tc030.Ti; hide Tc030.InitShift; hide Tc030.PageBits;
    TcFields();
    assert Tc030.UsedFrom(TC, 1) == 1;
  }

  lemma TcBand()
    ensures Band(23, 8) == 0x7f_ff00
  {
    assert Pow2(8) == 0x100;
    assert Pow2(16) == 0x1_0000;
    assert Pow2(20) == 0x10_0000;
    assert Pow2(23) == 0x80_0000;
  }

  /** The translation parameters are those of an accepted TC. */
  lemma OneLevelIsDecoded()
    ensures Tc030.Accepts(TC) && Tc030.Decodes(TC, OneLevel())
  {
    hide Tc030.Ti; hide Tc030.InitShift; hide Tc030.PageBits; hide Tc030.Sum; hide Tc030.UsedFrom; hide Tc030.Used;
    hide Pow2; hide Band;
    TcFields(); TcSums(); TcBand();
  }

  /** A page-type root pointer needs no tables. */
  lemma PageRootLaid()
    ensures AllLaid(Machine(1).env, Everywhere(), map[])
  {
  }

  /** One page descriptor, for function code 1. */
  function OnePage(d: Word): Mem { map[4 := d] }

  lemma OnePageLaid(d: Word)
    requires d.ty == 1
    ensures AllLaid(Machine(2).env, Everywhere(), OnePage(d))
  {
    forall addr: u32, fc: fcode ensures Laid(Machine(2).env, Everywhere(), OnePage(d), addr, fc) {
      FcEntry(fc);
    }
  }

  lemma FcEntry(fc: fcode)
    ensures Entry(RootOf(Machine(2).env, fc), fc) == fc * 4 && !Wide(RootOf(Machine(2).env, fc))
  {
    hide RootOf; hide Machine; hide Entry;
    RootAtZero(fc);
    EntryAtZero(Word(0, 0, false, false, false, 2), fc);
  }

  lemma EntryAtZero(w: Word, index: nat)
    requires w.ty == 2 && index < 8
    ensures Entry(Desc(true, w, NOWORD), index) == index * 4
  {
    hide Above4; hide Plus;
    NoWordAddress();
    SmallPlus(index * 4);
  }

  lemma NoWordAddress()
    ensures Above4(NOWORD) == 0
  {
  }

  lemma RootAtZero(fc: fcode)
    ensures RootOf(Machine(2).env, fc) == Desc(true, Word(0, 0, false, false, false, 2), NOWORD)
  {
    hide OneLevel;
  }

  lemma SmallPlus(n: nat)
    requires n < WRAP
    ensures Plus(0, n) == n
  {
  }

  lemma AndZero(m: nat)
    ensures And(0, m) == 0
  {
  }

  /** Searching the one page: found, protected as its descriptor says. */
  lemma OnePageWalk(d: Word, write: bool)
    requires d.ty == 1
    ensures var w := Search(Machine(2).env, OnePage(d), 0, 1, write);
      && !Faults(w, 1) && (Protected(w.hops) <==> d.wp) && w.end.Leaf? && w.end.m == (d.m || (write && !d.wp))
      && 4 in w.mem && w.mem[4] == d.(u := true, m := w.end.m)
  {
    FcEntry(1);
    AndZero(0x7f_ff00);
    var hops := [Hop(4, Desc(false, d, NOWORD), true)];
    assert hops[0].live && hops[0].d.w0 == d && !SuperOnly(hops[0].d);
    assert Protected(hops) <==> d.wp;
    assert Unused(OneLevel(), 0, 0) == 0;
    hide And; hide Entry; hide Unused;
  }

  // ---------------------------------------------------------------- the witnesses

  /** A write through a page-type root pointer: the program uses line -1. */
  lemma LookupWitness()
    ensures var s := Blank(1, map[]);
      Inv(s, Everywhere()) && s.cfg.enabled && Resolve(s, 0, 1, true).1 == -1
  {
    hide Resolve; hide And; hide Inv;
    var s := Blank(1, map[]);
    PageRootLaid();
    BlankInv(1, map[]);
    AndZero(0x7f_ff00);
    LookupAfterSearch(s, Everywhere(), 0, 1, true);
    assert Unused(OneLevel(), 0, 0) == 0;
    assert Search(s.cfg.env, s.mem, 0, 1, true).hops == [];
  }

  lemma SecondPage()
    ensures And(0x100, 0x7f_ff00) == 0x100
  {
    hide And;
    TcBand();
    assert Pow2(8) == 0x100;
    assert Pow2(16) == 0x1_0000;
    assert Pow2(23) == 0x80_0000;
    AndBand(0x100, 23, 8);
  }

  /** The page of a page-type root pointer at zero: every address stands for itself. */
  lemma RootPageWalk(e: Env, m: Mem, addr: u32, fc: fcode, write: bool)
    requires e.fcl && RootOf(e, fc).w0.ty == 1 && Above8(Pointer(RootOf(e, fc))) == 0
    requires Unused(e.x, addr, 0) == addr
    ensures var w := Search(e, m, addr, fc, write);
      !Faults(w, fc) && w.hops == [] && w.end == Leaf(addr, false) && w.mem == m
  {
    hide Walk; hide Page; hide Unused; hide RootOf; hide And; hide Above8; hide Pointer; hide Faults; hide Pow2;
    RootIsPage(e, m, Query(addr, fc, write, 0));
    RootPageEnd(e, m, Query(addr, fc, write, 0), RootOf(e, fc));
  }

  lemma RootPageEnd(e: Env, m: Mem, q: Query, d: Desc)
    requires e.fcl && Above8(Pointer(d)) == 0 && Unused(e.x, q.addr, 0) == q.addr
    ensures var w := Page(e, m, q, [], d, 0, true);
      !Faults(w, q.fc) && w.hops == [] && w.end == Leaf(q.addr, false) && w.mem == m
  {
    hide OverLimit; hide Index; hide Plus; hide Above8; hide Unused; hide And; hide Pow2; hide Denied; hide Protected;
    hide Used; hide Pointer;
    NothingUsed(q, d);
    SmallPlus(q.addr);
  }

  lemma RootIsPage(e: Env, m: Mem, q: Query)
    requires RootOf(e, q.fc).w0.ty == 1
    ensures Walk(e, m, q) == Page(e, m, q, [], RootOf(e, q.fc), 0, true)
  {
    hide Page; hide Table; hide RootOf;
  }

  lemma NothingUsed(q: Query, d: Desc)
    ensures Used(q, [], d) == d.w0 && !Denied([], q.fc)
  {
  }

  lemma RootPage()
    ensures Machine(1).enabled && Machine(1).tt0 == OFF == Machine(1).tt1
    ensures var e := Machine(1).env;
      e.fcl && e.x == OneLevel() && RootOf(e, 1).w0.ty == 1 && Above8(Pointer(RootOf(e, 1))) == 0
  {
    hide OneLevel; hide Pow2;
  }

  lemma UnusedSecond()
    ensures Unused(OneLevel(), 0x100, 0) == 0x100
  {
    hide And; hide Pow2;
    SecondPage();
  }

  lemma Pages256(x: Tables)
    requires Pow2(x.ps) == 0x100
    ensures Base(x, 0) == 0 && Base(x, 0x100) == 0x100 && Off(x, 0x100) == 0 && Key(x, 0x100, 1) == 9
  {
    hide Pow2;
  }

  lemma PageSize()
    ensures Pow2(OneLevel().ps) == 0x100
  {
    hide OneLevel;
    assert Pow2(8) == 0x100;
  }

  /** After such a write the write cache holds what lay in front of the ATC: with zeroes there, the
      next write to the page at 0x100 goes to address 0, where a search says 0x100. */
  lemma WildWitness()
    ensures var s := Blank(1, map[]); var t := Access(s, Write, 0x100, 1).0;
      && Inv(s, Everywhere()) && PlainAccess(s.cfg, s.mem, Write, 0x100, 1).1.Wild?
      && Access(t, Write, 0x100, 1).1 == Phys(0) && PlainAccess(t.cfg, t.mem, Read, 0x100, 1).1 == Phys(0x100)
  {
    hide Resolve; hide Inv; hide Walk; hide Base; hide Off; hide Key; hide And; hide OneLevel; hide Machine;
    hide RootOf; hide Blank; hide Unused; hide EmptyFast; hide Pow2; hide Above8; hide Pointer;
    var s := Blank(1, map[]);
    PageRootLaid();
    BlankInv(1, map[]);
    RootPage();
    UnusedSecond();
    RootPageWalk(s.cfg.env, map[], 0x100, 1, true);
    RootPageWalk(s.cfg.env, map[], 0x100, 1, false);
    PageSize();
    Pages256(s.cfg.env.x);
    WildStep(s);
  }

  /** The same from any state of that kind. */
  lemma WildStep(s: State)
    requires Inv(s, Everywhere()) && s.mem == map[] && s.stray == NOLINE && s.wr == EmptyFast()
    requires s.cfg.enabled && s.cfg.tt0 == OFF == s.cfg.tt1 && RootOf(s.cfg.env, 1).w0.ty == 1
    requires forall write :: var w := Search(s.cfg.env, map[], 0x100, 1, write);
      !Faults(w, 1) && w.hops == [] && w.end == Leaf(0x100, false) && w.mem == map[]
    requires var x := s.cfg.env.x;
      Base(x, 0) == 0 && Base(x, 0x100) == 0x100 && Off(x, 0x100) == 0 && Key(x, 0x100, 1) == 9
    ensures var t := Access(s, Write, 0x100, 1).0;
      && PlainAccess(s.cfg, s.mem, Write, 0x100, 1).1.Wild?
      && Access(t, Write, 0x100, 1).1 == Phys(0) && PlainAccess(t.cfg, t.mem, Read, 0x100, 1).1 == Phys(0x100)
  {
    hide Resolve; hide Inv; hide Walk; hide Base; hide Off; hide Key; hide RootOf; hide Pow2;
    LookupAfterSearch(s, Everywhere(), 0x100, 1, true);
    ResolveKeeps(s, Everywhere(), 0x100, 1, true);
    ResolveStray(s, 0x100, 1, true);
    SmallPlus(0);
  }

  lemma ResolveStray(s: State, addr: u32, fc: fcode, write: bool)
    ensures Resolve(s, addr, fc, write).0.stray == s.stray
  {
    hide Walk; hide Find; hide Victim; hide Touch; hide FlushFast; hide LineOf; hide Base;
  }

  /** A write-protected page that is not in the ATC: the probe reports no fault, the write has one. */
  lemma CheckFcWitness()
    ensures var s := Blank(2, OnePage(Word(0, 0, false, false, true, 1)));
      && Inv(s, Everywhere()) && !CheckFc(s, 0, 1, true).1.PageFault?
      && PlainAccess(s.cfg, s.mem, GenWrite, 0, 1).1.PageFault?
  {
    hide CheckFc; hide Inv; hide Walk; hide Base; hide Faults; hide Protected;
    var d := Word(0, 0, false, false, true, 1);
    var s := Blank(2, OnePage(d));
    OnePageLaid(d);
    BlankInv(2, OnePage(d));
    OnePageWalk(d, true);
    CheckFcExact(s, Everywhere(), 0, 1, true);
  }

  /** A page in order whose M bit is clear: the translator for writes misses twice. */
  lemma TranslateWitness()
    ensures var s := Blank(2, OnePage(Word(0, 0, false, false, false, 1)));
      Inv(s, Everywhere()) && s.cfg.enabled && TranslateLine(s, 0, 1, true) == -1
  {
    hide TranslateLine; hide Inv; hide Walk; hide Faults; hide Protected;
    var d := Word(0, 0, false, false, false, 1);
    var s := Blank(2, OnePage(d));
    OnePageLaid(d);
    BlankInv(2, OnePage(d));
    OnePageWalk(d, false);
    TranslateMisses(s, Everywhere(), 0, 1, true);
  }

  /** The machine with nothing cached whose one page descriptor cannot be written. */
  function Locked(d: Word): State
  {
    var s := Blank(2, OnePage(d));
    s.(cfg := s.cfg.(env := s.cfg.env.(rom := {4})))
  }

  lemma LockedWalks(d: Word)
    requires d.ty == 1 && d.u && !d.m && !d.wp
    ensures var e := Machine(2).env.(rom := {4});
      && Search(e, OnePage(d), 0, 1, true).end.Jammed? && Search(e, OnePage(d), 0, 1, true).mem == OnePage(d)
      && !Faults(Search(e, OnePage(d), 0, 1, false), 1) && Search(e, OnePage(d), 0, 1, false).end.Leaf?
  {
    hide Walk; hide Machine;
    var e := Machine(2).env.(rom := {4});
    NoRom();
    assert Unlocked(e) == Machine(2).env;
    OnePageWalk(d, true);
    OnePageWalk(d, false);
    JammedExactly(e, OnePage(d), Query(0, 1, true, 0));
    WalkEffect(e, OnePage(d), Query(0, 1, true, 0));
    JammedExactly(e, OnePage(d), Query(0, 1, false, 0));
  }

  /** Why the tables must be writable for whole runs: a write to the page fails because M cannot be
      set, and from then on the ATC refuses reads too, while a search finds the page. */
  lemma RomWitness()
    ensures var s := Locked(Word(0, 0, false, true, false, 1)); var t := Access(s, GenWrite, 0, 1).0;
      && AfterReset(s.(cfg := s.cfg.(enabled := false)))
      && Access(t, GenRead, 0, 1).1 == PageFault(true) && PlainAccess(t.cfg, t.mem, GenRead, 0, 1).1.Phys?
  {
    hide Walk; hide Machine; hide Access; hide Base; hide Blank; hide EmptyFast;
    var d := Word(0, 0, false, true, false, 1);
    var s := Locked(d);
    LockedWalks(d);
    TranslatesAll(2);
    assert !s.atc[0].mru;
    FaultStays(s, 0, 1);
  }

  lemma TranslatesAll(ty: u2)
    ensures Machine(ty).enabled && Machine(ty).tt0 == OFF == Machine(ty).tt1
  {
    hide OneLevel;
  }

  lemma NoRom()
    ensures Machine(2).env.rom == {}
  {
    hide OneLevel;
  }
}
