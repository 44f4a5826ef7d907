/** The 68040/68060 MMU as a state: the set-associative ATC, the shortcut page caches and
    descriptor memory. The class in Mmu040 is proved against these functions. */
module State040 {
  import opened Words
  import opened Walk040
  import opened Gate040

  // ---------------------------------------------------------------- pages, tags and keys

  function PageNo(c: Cfg, a: u32): nat { a / PageBits(c) }

  /** `addr & mmu_pagemask`. */
  function Off(c: Cfg, a: u32): nat { a % PageBits(c) }

  /** `addr & mmu_pagemaski`. */
  function Base(c: Cfg, a: u32): u32 { Align(a, PageBits(c)) }

  /** `((super ? 0x80000000 : 0) | (addr >> 1)) & mmu_tagmask`. */
  function Tag(c: Cfg, a: u32, super: bool): nat
  {
    (if super then 0x8000_0000 else 0) + if c.big then a / 0x2_0000 * 0x1_0000 else a / 0x1_0000 * 0x8000
  }

  function SetIndex(c: Cfg, a: u32): (r: nat) ensures r < 16 { PageNo(c, a) % 16 }

  /** `((addr & mmu_pagemaski) >> mmu_pageshift1m) | super`. */
  function Key(c: Cfg, a: u32, super: bool): nat { PageNo(c, a) * 2 + if super then 1 else 0 }

  /** `(addr & mmu_pagemaski) | super`. */
  function InsKey(c: Cfg, a: u32, super: bool): nat { Base(c, a) + if super then 1 else 0 }

  const NOKEY: nat := 0xffff_ffff

  /** The value that empties the instruction page cache: `mmu_pagemask`. */
  function NoIns(c: Cfg): nat { PageBits(c) - 1 }

  /** Tag and set, and each key, name one page and privilege; no empty value is a key. */
  lemma KeyFacts4(c: Cfg, a: u32, s: bool, b: u32, t: bool)
    ensures Tag(c, a, s) == Tag(c, b, t) && SetIndex(c, a) == SetIndex(c, b) <==> PageNo(c, a) == PageNo(c, b) && s == t
    ensures Key(c, a, s) == Key(c, b, t) <==> PageNo(c, a) == PageNo(c, b) && s == t
    ensures InsKey(c, a, s) == InsKey(c, b, t) <==> PageNo(c, a) == PageNo(c, b) && s == t
    ensures Key(c, a, s) != NOKEY && InsKey(c, a, s) != NoIns(c)
  {
    if c.big {
      assert a / 0x2_0000 == PageNo(c, a) / 16 && b / 0x2_0000 == PageNo(c, b) / 16;
    } else {
      assert a / 0x1_0000 == PageNo(c, a) / 16 && b / 0x1_0000 == PageNo(c, b) / 16;
    }
  }

  // ---------------------------------------------------------------- state

  const WAYS: nat := 4
  const LINES: nat := 128
  const FASTS: nat := 256

  datatype Line = Line(valid: bool, tag: nat, resident: bool, super: bool, wp: bool, modified: bool, global: bool,
                       phys: u32)

  datatype Fast = Fast(log: nat, phys: u32)

  /** `atc` holds [type][set][way] in row order; `ways` the way hit last for each type. */
  datatype Mmu = Mmu(c: Cfg, atc: seq<Line>, ways: seq<nat>, random: nat, rd: seq<Fast>, wr: seq<Fast>,
                     ilog: nat, iphys: u32, mem: Mem, gate: Gate)

  ghost predicate Shaped(s: Mmu)
  {
    && |s.atc| == LINES && |s.ways| == 2 && |s.rd| == FASTS && |s.wr| == FASTS
    && s.ways[0] < WAYS && s.ways[1] < WAYS
  }

  const NOLINE := Line(false, 0, false, false, false, false, false, 0)

  type State = s: Mmu | Shaped(s)
    ghost witness Mmu(Cfg(0, 0, false, false, {}), seq(LINES, i => NOLINE), [0, 0], 0,
                      seq(FASTS, i => Fast(0, 0)), seq(FASTS, i => Fast(0, 0)), 0, 0, map[], SHUT)

  function Type(data: bool): nat { if data then 1 else 0 }

  /** First line of a set. */
  function SetAt(data: bool, index: nat): (r: nat)
    requires index < 16
    ensures r + WAYS <= LINES
  {
    Type(data) * 64 + index * WAYS
  }

  // ---------------------------------------------------------------- shortcut caches

  function FlushFast(fast: seq<Fast>, c: Cfg, addr: u32, super: bool): (r: seq<Fast>)
    ensures |r| == |fast|
  {
    seq(|fast|, i requires 0 <= i < |fast| =>
      if fast[i].log == Key(c, addr, super) then fast[i].(log := NOKEY) else fast[i])
  }

  const EMPTY := Fast(NOKEY, 0xffff_ffff)

  function EmptyFast(): (r: seq<Fast>) ensures |r| == FASTS { seq(FASTS, i => EMPTY) }

  /** `flush_shortcut_cache`: an address of all ones means everything. */
  function FlushShortcuts(s: State, addr: u32, super: bool): State
  {
    if addr == 0xffff_ffff then s.(ilog := NoIns(s.c), rd := EmptyFast(), wr := EmptyFast())
    else s.(ilog := NoIns(s.c), rd := FlushFast(s.rd, s.c, addr, super), wr := FlushFast(s.wr, s.c, addr, super))
  }

  function AddFast(fast: seq<Fast>, c: Cfg, addr: u32, super: bool, phys: u32): (r: seq<Fast>)
    requires |fast| == FASTS
    ensures |r| == FASTS
  {
    var key := Key(c, addr, super);
    if key % FASTS < FASTS - 1 then fast[key % FASTS := Fast(key, phys)] else fast
  }

  /** `mmu_add_cache`. */
  function AddCache(s: State, addr: u32, phys: u32, super: bool, data: bool, write: bool): State
  {
    if !data then s.(ilog := InsKey(s.c, addr, super), iphys := phys)
    else if write then s.(wr := AddFast(s.wr, s.c, addr, super, phys))
    else s.(rd := AddFast(s.rd, s.c, addr, super, phys))
  }

  // ---------------------------------------------------------------- translation

  datatype Outcome = Phys(addr: u32) | PageFault | Done

  predicate Tagged(l: Line, tag: nat) { l.valid && l.tag == tag }

  /** The way of a set that carries a tag, or -1. */
  function FindWay(atc: seq<Line>, base: nat, tag: nat): (r: int)
    requires base + WAYS <= |atc|
    ensures r == -1 ==> forall k :: base <= k < base + WAYS ==> !Tagged(atc[k], tag)
    ensures r != -1 ==> 0 <= r < WAYS && Tagged(atc[base + r], tag)
  {
    if Tagged(atc[base], tag) then 0 else if Tagged(atc[base + 1], tag) then 1
    else if Tagged(atc[base + 2], tag) then 2 else if Tagged(atc[base + 3], tag) then 3 else -1
  }

  /** The way given up on a miss: the last valid one in the order of the scan, else random. */
  function Victim(atc: seq<Line>, base: nat, start: nat, random: nat): (r: nat)
    requires base + WAYS <= |atc| && start < WAYS
    ensures r < WAYS
  {
    if atc[base + (start + 3) % WAYS].valid then (start + 3) % WAYS
    else if atc[base + (start + 2) % WAYS].valid then (start + 2) % WAYS
    else if atc[base + (start + 1) % WAYS].valid then (start + 1) % WAYS
    else if atc[base + start].valid then start
    else random % WAYS
  }

  function LineOf(c: Cfg, tag: nat, r: Res): Line
  {
    match r
    case Page(d, wp) => Line(true, tag, true, SuperOnly(d), wp, d.m, Global(d), Base(c, Above8(d)))
    case _ => Line(true, tag, false, false, false, false, false, 0)
  }

  /** `mmu_fill_atc`: the 68060 keeps only lines for descriptors it found. */
  function Fill(s: State, addr: u32, super: bool, write: bool, slot: nat): State
    requires slot < LINES
  {
    var w := Walk(s.c, s.mem, Ask(addr, super, write));
    var a := if s.c.is60 && !w.res.Page? then s.atc else s.atc[slot := LineOf(s.c, Tag(s.c, addr, super), w.res)];
    FlushShortcuts(s.(mem := w.mem, atc := a), addr, super)
  }

  predicate LineRefuses(l: Line, super: bool, write: bool)
  {
    (l.wp && write) || (l.super && !super) || !l.resident
  }

  function Physical(c: Cfg, page: u32, addr: u32): u32 { Plus(page, Off(c, addr)) }

  function UseWay(s: State, addr: u32, super: bool, data: bool, write: bool, way: nat): (State, Outcome)
    requires way < WAYS
  {
    var l := s.atc[SetAt(data, SetIndex(s.c, addr)) + way];
    (AddCache(s.(ways := s.ways[Type(data) := way]), addr, l.phys, super, data, write),
     Phys(Physical(s.c, l.phys, addr)))
  }

  /** Fill one way and look at it again. */
  function Refill(s: State, addr: u32, super: bool, data: bool, write: bool, way: nat): (State, Outcome)
    requires way < WAYS
  {
    var slot := SetAt(data, SetIndex(s.c, addr)) + way;
    var w := Walk(s.c, s.mem, Ask(addr, super, write));
    var t := Fill(s.(random := s.random % WAYS), addr, super, write, slot);
    if s.c.is60 && Refused(w.res, Ask(addr, super, write)) then (t, PageFault)
    else
      var u := t.(random := t.random + 1);
      if LineRefuses(u.atc[slot], super, write) then (u, PageFault)
      else UseWay(u, addr, super, data, write, way)
  }

  /** `mmu_translate`. At most one table search happens. */
  function Translate(s: State, addr: u32, super: bool, data: bool, write: bool): (State, Outcome)
  {
    var base := SetAt(data, SetIndex(s.c, addr));
    var t := s.(random := s.random + 1);
    var way := FindWay(s.atc, base, Tag(s.c, addr, super));
    if way == -1 then Refill(t, addr, super, data, write, Victim(s.atc, base, s.ways[Type(data)], t.random))
    else if LineRefuses(s.atc[base + way], super, write) then (t, PageFault)
    else if write && !s.atc[base + way].modified then Refill(t, addr, super, data, write, way)
    else UseWay(t, addr, super, data, write, way)
  }

  // ---------------------------------------------------------------- accesses

  predicate FastHit(fast: seq<Fast>, c: Cfg, addr: u32, super: bool)
    requires |fast| == FASTS
  {
    fast[Key(c, addr, super) % FASTS].log == Key(c, addr, super)
  }

  function FastPhys(fast: seq<Fast>, c: Cfg, addr: u32, super: bool): u32
    requires |fast| == FASTS
  {
    Physical(c, fast[Key(c, addr, super) % FASTS].phys, addr)
  }

  /** `mmu_get_ilong` and `mmu_get_iword`. */
  function Fetch(s: State, addr: u32, super: bool): (State, Outcome)
  {
    if InsKey(s.c, addr, super) == s.ilog then (s, Phys(Physical(s.c, s.iphys, addr)))
    else Translate(s, addr, super, false, false)
  }

  /** `mmu_get_*` and `mmu_get_user_*`. A locked read asks for write permission (`write`),
      but a hit in the read cache is taken as it is. */
  function Read(s: State, addr: u32, super: bool, data: bool, write: bool): (State, Outcome)
  {
    if FastHit(s.rd, s.c, addr, super) then (s, Phys(FastPhys(s.rd, s.c, addr, super)))
    else Translate(s, addr, super, data, write)
  }

  /** `mmu_put_*`. */
  function Write(s: State, addr: u32, super: bool, data: bool): (State, Outcome)
  {
    if FastHit(s.wr, s.c, addr, super) then (s, Phys(FastPhys(s.wr, s.c, addr, super)))
    else Translate(s, addr, super, data, true)
  }

  function Pass(s: State, way: Way, addr: u32, r: (State, Outcome)): (State, Outcome)
  {
    match way
    case Bypass => (s, Phys(addr))
    case Blocked => (s, PageFault)
    case Through => r
  }

  /** The accesses with the tests in front of translation: instruction fetches, reads (`write`
      for those of a locked cycle) and writes. */
  function FetchAt(s: State, addr: u32, super: bool): (State, Outcome)
  {
    Pass(s, ScreenIns(s.gate, addr, super), addr, Fetch(s, addr, super))
  }

  function ReadAt(s: State, addr: u32, super: bool, data: bool, write: bool): (State, Outcome)
  {
    Pass(s, Screen(s.gate, addr, super, data, write), addr, Read(s, addr, super, data, write))
  }

  function WriteAt(s: State, addr: u32, super: bool, data: bool): (State, Outcome)
  {
    Pass(s, Screen(s.gate, addr, super, data, true), addr, Write(s, addr, super, data))
  }

  /** PLPA: the physical address, through the ATC but past the shortcuts. */
  function LoadPhysical(s: State, addr: u32, super: bool, data: bool, write: bool): (State, Outcome)
  {
    Pass(s, ScreenPlpa(s.gate, addr, super, data, write), addr, Translate(s, addr, super, data, write))
  }

  // ---------------------------------------------------------------- flushes

  function Dropped(atc: seq<Line>, gone: (nat, Line) -> bool): (r: seq<Line>)
    ensures |r| == |atc|
  {
    seq(|atc|, i requires 0 <= i < |atc| => if gone(i, atc[i]) then atc[i].(valid := false) else atc[i])
  }

  function OfPage(tag: nat, index: nat, global: bool): (nat, Line) -> bool
  {
    (i: nat, l: Line) => i / 4 % 16 == index && l.tag == tag && (global || !l.global)
  }

  function OfAll(global: bool): (nat, Line) -> bool { (i: nat, l: Line) => global || !l.global }

  /** `mmu_flush_atc`: one page, in both ATCs; the non-global form spares global lines. */
  function FlushPage(s: State, addr: u32, super: bool, global: bool): State
  {
    var tag, index := Tag(s.c, addr, super), SetIndex(s.c, addr);
    FlushShortcuts(s.(atc := Dropped(s.atc, OfPage(tag, index, global))), addr, super)
  }

  /** `mmu_flush_atc_all`. */
  function FlushAll(s: State, global: bool): State
  {
    FlushShortcuts(s.(atc := Dropped(s.atc, OfAll(global))), 0xffff_ffff, false)
  }

  /** PTEST: the page is flushed and searched; the line goes to the first invalid way. */
  function FirstInvalid(atc: seq<Line>, base: nat, random: nat): (r: nat)
    requires base + WAYS <= |atc|
    ensures r < WAYS
  {
    if !atc[base].valid then 0 else if !atc[base + 1].valid then 1
    else if !atc[base + 2].valid then 2 else if !atc[base + 3].valid then 3 else random % WAYS
  }

  /** The search of PTEST, into the flushed set. */
  function TestFill(t: State, addr: u32, super: bool, data: bool, write: bool): State
  {
    var base := SetAt(data, SetIndex(t.c, addr));
    Fill(t, addr, super, write, base + FirstInvalid(t.atc, base, t.random))
  }

  function PTest(s: State, addr: u32, super: bool, data: bool, write: bool): State
  {
    var t := FlushPage(s, addr, super, true);
    if MatchTtr(s.gate, addr, super, data).NoMatch? then TestFill(t, addr, super, data, write) else t
  }

  /** New root pointers, page size and enable bits, followed by a flush of everything:
      `mmu_set_tc`. */
  function Configure(s: State, c: Cfg, g: Gate): State { FlushAll(s.(c := c, gate := g), true) }

  /** The gate after one transparent translation register is loaded. Nothing is flushed. */
  function WithTtr(g: Gate, i: nat, t: Ttr): Gate
  {
    if i == 0 then g.(itt0 := t) else if i == 1 then g.(itt1 := t) else if i == 2 then g.(dtt0 := t) else g.(dtt1 := t)
  }
}
