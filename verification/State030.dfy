/** The 68030 MMU as a state: ATC, page caches and descriptor memory, and what each
    operation does to it. The class in Mmu030 is proved against these functions. */
module State030 {
  import opened Words
  import opened Walk030
  import opened Fresh030
  import opened Atc030

  /** A transparent translation register by fields. `ignore` and `fcIgnore` are masks of
      address bits 31-24 and function code bits that do not take part in the match. */
  datatype Ttr = Ttr(base: nat, ignore: nat, enable: bool, rw: bool, rwm: bool, fcBase: nat, fcIgnore: nat)

  datatype Config = Config(env: Env, enabled: bool, tt0: Ttr, tt1: Ttr)

  datatype Fast = Fast(log: nat, phys: u32)

  const FASTS: nat := 256

  const NOLINE := Line(false, 0, 0, 0, false, false, false, false)

  /** `stray` is whatever lies in front of the ATC array, read as a line. */
  datatype Mmu = Mmu(cfg: Config, atc: seq<Line>, hint: seq<nat>, rd: seq<Fast>, wr: seq<Fast>,
                     ilog: nat, iphys: u32, mem: Mem, stray: Line)

  ghost predicate Shaped(s: Mmu)
  {
    |s.atc| == SLOTS && |s.hint| == 32 && |s.rd| == FASTS && |s.wr| == FASTS
    && forall i :: 0 <= i < 32 ==> s.hint[i] < SLOTS
  }

  type State = s: Mmu | Shaped(s)
    ghost witness Mmu(Config(Env(Xlat([0, 0, 0, 0], [0, 0, 0, 0], 0, 8), false, false, Root(NOWORD, NOWORD),
                                 Root(NOWORD, NOWORD), {}),
                             false, Ttr(0, 0, false, false, false, 0, 0), Ttr(0, 0, false, false, false, 0, 0)),
                      seq(SLOTS, i => NOLINE), seq(32, i => 0),
                      seq(FASTS, i => Fast(0, 0)), seq(FASTS, i => Fast(0, 0)), NOKEY, 0, map[], NOLINE)

  // ---------------------------------------------------------------- transparent translation

  predicate InRegion(t: Ttr, addr: u32, fc: fcode)
  {
    && And(t.fcBase, 7 - t.fcIgnore % 8) == And(fc, 7 - t.fcIgnore % 8)
    && And(t.base, 255 - t.ignore % 256) == And(addr / 0x100_0000, 255 - t.ignore % 256)
  }

  /** `mmu030_do_match_ttr` returning TT_OK_MATCH. */
  predicate TtHit(t: Ttr, addr: u32, fc: fcode, write: bool)
  {
    t.enable && InRegion(t, addr, fc) && (t.rwm || (if t.rw then !write else write))
  }

  /** `mmu030_do_match_lrmw_ttr`: a locked cycle needs both directions transparent. */
  predicate TtHitLocked(t: Ttr, addr: u32, fc: fcode) { t.enable && t.rwm && InRegion(t, addr, fc) }

  /** How a page is accessed. Locked accesses belong to read-modify-write cycles. */
  datatype Kind = Read | Write | GenRead | GenWrite | LockRead | LockWrite | Fetch

  predicate Writes(k: Kind) { k.Write? || k.GenWrite? || k.LockWrite? || k.LockRead? }

  predicate IsLocked(k: Kind) { k.LockRead? || k.LockWrite? }

  /** The access goes to the bus untranslated. */
  predicate Untranslated(c: Config, k: Kind, addr: u32, fc: fcode)
  {
    || fc == 7 || !c.enabled
    || (if IsLocked(k) then TtHitLocked(c.tt0, addr, fc) || TtHitLocked(c.tt1, addr, fc)
        else TtHit(c.tt0, addr, fc, Writes(k)) || TtHit(c.tt1, addr, fc, Writes(k)))
  }

  // ---------------------------------------------------------------- page caches

  /** `mmu030_flush_cache` for one page: all function codes go. */
  function FlushFast(fast: seq<Fast>, x: Tables, page: u32): (r: seq<Fast>)
    ensures |r| == |fast|
  {
    seq(|fast|, i requires 0 <= i < |fast| =>
      if fast[i].log - fast[i].log % 8 + 7 == Key(x, page, 7) then fast[i].(log := NOKEY) else fast[i])
  }

  const EMPTY := Fast(NOKEY, 0xffff_ffff)

  function EmptyFast(): (r: seq<Fast>) ensures |r| == FASTS { seq(FASTS, i => EMPTY) }

  /** `mmu030_add_data_read_cache` and its twin: the last slot is never used. */
  function AddFast(fast: seq<Fast>, x: Tables, addr: u32, phys: u32, fc: fcode): (r: seq<Fast>)
    requires |fast| == FASTS
    ensures |r| == FASTS
  {
    var key := Key(x, addr, fc);
    if key % FASTS < FASTS - 1 then fast[key % FASTS := Fast(key, phys)] else fast
  }

  // ---------------------------------------------------------------- the ATC

  function HintSlot(x: Tables, addr: u32): nat { PageNo(x, addr) % 32 }

  predicate Answers(l: Line, write: bool) { !write || l.modified || l.wp || l.be }

  /** `mmu030_logical_is_in_atc`: the matching line, or -1. A line that would need its M bit
      set is dropped. */
  function Lookup(s: State, addr: u32, fc: fcode, write: bool): (r: (State, int))
    ensures r.1 == -1 || 0 <= r.1 < SLOTS
  {
    var x := s.cfg.env.x;
    var i := Find(s.atc, Base(x, addr), fc);
    if i == -1 then (s, -1)
    else if Answers(s.atc[i], write) then
      (s.(atc := Touch(s.atc, i), hint := s.hint[HintSlot(x, addr) := i]), i)
    else (s.(atc := s.atc[i := s.atc[i].(valid := false)]), -1)
  }

  /** The line that a search makes. */
  function LineOf(e: Env, addr: u32, fc: fcode, w: Walked): Line
  {
    var st := StatusOf(w, fc);
    Line(true, Base(e.x, addr), fc, Base(e.x, if w.end.Leaf? then w.end.page else 0),
         st.modified, st.wp, st.invalid || st.super, true)
  }

  /** `mmu030_table_search` at level 0. */
  function Install(s: State, addr: u32, fc: fcode, write: bool): State
  {
    var e := s.cfg.env;
    var w := Search(e, s.mem, addr, fc, write);
    var v := if Victim(s.atc) < SLOTS then Victim(s.atc) else 0;
    var a := Touch(s.atc, v)[v := LineOf(e, addr, fc, w)];
    s.(mem := w.mem, atc := a, ilog := NOKEY,
       rd := FlushFast(s.rd, e.x, Base(e.x, addr)), wr := FlushFast(s.wr, e.x, Base(e.x, addr)))
  }

  /** Look up, search on a miss, look up again. */
  function Resolve(s: State, addr: u32, fc: fcode, write: bool): (r: (State, int))
    ensures r.1 == -1 || 0 <= r.1 < SLOTS
  {
    var first := Lookup(s, addr, fc, write);
    if first.1 >= 0 then first else Lookup(Install(first.0, addr, fc, write), addr, fc, write)
  }

  // ---------------------------------------------------------------- accesses

  /** `Wild` is said of a write for which no line can be made: the program goes on with what lies
      in front of the ATC, at index -1. */
  datatype Outcome = Phys(addr: u32) | PageFault(read: bool) | Wild | Done

  function Physical(x: Tables, page: u32, addr: u32): u32 { Plus(page, Off(x, addr)) }

  /** What the program finds at an index of the ATC. */
  function LineAt(s: State, i: int): Line
    requires i == -1 || 0 <= i < SLOTS
  {
    if i == -1 then s.stray else s.atc[i]
  }

  /** Use of a resolved line: `mmu030_get_atc`, `mmu030_put_atc`, `mmu030_get_i_atc` and
      their generic versions. */
  function UseLine(s: State, k: Kind, addr: u32, fc: fcode, i: int): (State, Outcome)
    requires i == -1 || 0 <= i < SLOTS
  {
    var l := LineAt(s, i);
    var x := s.cfg.env.x;
    var page := Base(x, l.paddr);
    if l.be || (Writes(k) && l.wp) then (s, PageFault(!k.Write? && !k.GenWrite? && !k.LockWrite?))
    else
      var out := Phys(Physical(x, page, addr));
      match k
      case Fetch => (s.(ilog := InsKey(x, addr, fc), iphys := page), out)
      case Read | GenRead | LockRead => (s.(rd := AddFast(s.rd, x, addr, page, fc)), out)
      case Write | GenWrite | LockWrite => (s.(wr := AddFast(s.wr, x, addr, page, fc)), out)
  }

  function Translate(s: State, k: Kind, addr: u32, fc: fcode): (State, Outcome)
  {
    var r := Resolve(s, addr, fc, Writes(k));
    UseLine(r.0, k, addr, fc, r.1)
  }

  predicate FastHit(fast: seq<Fast>, x: Tables, addr: u32, fc: fcode)
    requires |fast| == FASTS
  {
    fast[Key(x, addr, fc) % FASTS].log == Key(x, addr, fc)
  }

  function FastPhys(fast: seq<Fast>, x: Tables, addr: u32, fc: fcode): u32
    requires |fast| == FASTS
  {
    Physical(x, fast[Key(x, addr, fc) % FASTS].phys, addr)
  }

  /** One access, through all the caches the program consults for it. */
  function Access(s: State, k: Kind, addr: u32, fc: fcode): (State, Outcome)
  {
    var x := s.cfg.env.x;
    if k.Fetch? then
      // the instruction page cache is consulted before anything else
      if InsKey(x, addr, fc) == s.ilog then (s, Phys(Physical(x, s.iphys, addr)))
      else
        var s1 := s.(ilog := NOKEY);
        if Untranslated(s.cfg, k, addr, fc) then (s1, Phys(addr)) else Translate(s1, k, addr, fc)
    else if Untranslated(s.cfg, k, addr, fc) then (s, Phys(addr))
    else if k.Read? && FastHit(s.rd, x, addr, fc) then (s, Phys(FastPhys(s.rd, x, addr, fc)))
    else if k.Write? && FastHit(s.wr, x, addr, fc) then (s, Phys(FastPhys(s.wr, x, addr, fc)))
    else Translate(s, k, addr, fc)
  }

  // ---------------------------------------------------------------- the access probe

  /** The access that a probe stands for. */
  function Probed(write: bool): Kind { if write then GenWrite else GenRead }

  /** `uae_mmu030_check_fc`: on a hit it checks write protection, after a search it does not. */
  function CheckFc(s: State, addr: u32, fc: fcode, write: bool): (State, Outcome)
  {
    if Untranslated(s.cfg, Probed(write), addr, fc) then (s, Phys(addr))
    else
      var first := Lookup(s, addr, fc, write);
      var r := Resolve(s, addr, fc, write);
      UseProbed(r.0, addr, fc, r.1, write && first.1 >= 0)
  }

  /** `mmu030_get_atc_generic`. */
  function UseProbed(s: State, addr: u32, fc: fcode, i: int, checkwrite: bool): (State, Outcome)
    requires i == -1 || 0 <= i < SLOTS
  {
    var l := LineAt(s, i);
    var x := s.cfg.env.x;
    if l.be || (checkwrite && l.wp) then (s, PageFault(true))
    else (s.(rd := AddFast(s.rd, x, addr, Base(x, l.paddr), fc)), Phys(Physical(x, Base(x, l.paddr), addr)))
  }

  // ---------------------------------------------------------------- flushes

  function FlushLines(atc: seq<Line>, gone: Line -> bool): (r: seq<Line>)
    ensures |r| == |atc|
  {
    seq(|atc|, i requires 0 <= i < |atc| => if gone(atc[i]) then atc[i].(valid := false) else atc[i])
  }

  predicate FcCovered(fc: fcode, base: nat, mask: nat) { And(base, mask) == And(fc, mask) }

  function NoFast(s: State): State { s.(ilog := NOKEY, rd := EmptyFast(), wr := EmptyFast()) }

  function NoFastPage(s: State, page: u32): State
  {
    s.(ilog := NOKEY, rd := FlushFast(s.rd, s.cfg.env.x, page), wr := FlushFast(s.wr, s.cfg.env.x, page))
  }

  /** PFLUSHA, and the flush of a PMOVE. */
  function FlushAll(s: State): State { NoFast(s.(atc := FlushLines(s.atc, l => true))) }

  /** PFLUSH by function code. */
  function FlushFc(s: State, base: nat, mask: nat): State
  {
    NoFast(s.(atc := FlushLines(s.atc, (l: Line) => FcCovered(l.fc, base, mask))))
  }

  /** PFLUSH by function code and page. */
  function FlushPageFc(s: State, addr: u32, base: nat, mask: nat): State
  {
    var page := Base(s.cfg.env.x, addr);
    NoFastPage(s.(atc := FlushLines(s.atc, (l: Line) => FcCovered(l.fc, base, mask) && l.laddr == page)), page)
  }

  /** The flush that starts a PLOAD. */
  function FlushPage(s: State, addr: u32): State
  {
    var page := Base(s.cfg.env.x, addr);
    NoFastPage(s.(atc := FlushLines(s.atc, (l: Line) => l.laddr == page)), page)
  }

  function PLoad(s: State, addr: u32, fc: fcode, write: bool): State
  {
    Install(FlushPage(s, addr), addr, fc, write)
  }

  /** PMOVE to a translation register with FD clear. */
  function Configure(s: State, cfg: Config): State { FlushAll(s.(cfg := cfg)) }
}
