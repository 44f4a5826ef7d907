/** The 68030 MMU as the program runs it: global arrays updated in place by loops. Every
    method is proved against the state functions of State030. */
module Mmu030 {
  import opened Words
  import opened Walk030
  import opened WalkLaws030
  import opened Search030
  import opened Fresh030
  import opened Atc030
  import opened State030
  import opened Tc030

  class Mmu030 {
    var cfg: Config
    var mem: Mem
    const atc: array<Line>
    const stray: Line        // whatever lies in front of that array
    const hint: array<nat>   // atcindextable
    const rd: array<Fast>    // atc_data_cache_read
    const wr: array<Fast>    // atc_data_cache_write
    var ilog: nat            // mmu030_last_logical_address
    var iphys: u32           // mmu030_last_physical_address

    ghost predicate Shape()
      reads this, hint
    {
      && atc.Length == SLOTS && hint.Length == 32 && rd.Length == FASTS && wr.Length == FASTS && rd != wr
      && forall i :: 0 <= i < 32 ==> hint[i] < SLOTS
    }

    ghost function Snapshot(): State
      reads this, atc, hint, rd, wr
      requires Shape()
    {
      assert forall i :: 0 <= i < 32 ==> hint[..][i] == hint[i];
      Mmu(cfg, atc[..], hint[..], rd[..], wr[..], ilog, iphys, mem, stray)
    }

    /** At most one valid line per page and function code, each for a whole page. */
    ghost predicate Valid()
      reads this, atc, hint
    {
      && Shape() && Unique(atc[..]) && !AllRecent(atc[..])
      && forall i :: 0 <= i < SLOTS && atc[i].valid ==> Base(cfg.env.x, atc[i].laddr) == atc[i].laddr
    }

    constructor (c: Config, m: Mem, before: Line)
      requires !c.enabled
      ensures Valid() && Snapshot().cfg == c && Snapshot().mem == m && ilog == NOKEY && stray == before
      ensures forall i :: 0 <= i < SLOTS ==> !atc[i].valid && !atc[i].mru
      ensures fresh(atc) && fresh(hint) && fresh(rd) && fresh(wr)
    {
      cfg, mem, stray := c, m, before;
      atc := new Line[SLOTS](_ => NOLINE);
      hint := new nat[32](_ => 0);
      rd := new Fast[FASTS](_ => Fast(0, 0));
      wr := new Fast[FASTS](_ => Fast(0, 0));
      ilog, iphys := NOKEY, 0;
      new;
      assert !atc[..][0].mru;
    }

    /** `mmu030_atc_handle_history_bit`. */
    method HandleHistoryBit(e: nat)
      requires Shape() && e < SLOTS
      modifies atc
      ensures atc[..] == Touch(old(atc[..]), e)
    {
      atc[e] := atc[e].(mru := true);
      ghost var a := old(atc[..])[e := old(atc[..])[e].(mru := true)];
      assert atc[..] == a;
      var j := 0;
      while j < SLOTS && atc[j].mru
        invariant 0 <= j <= SLOTS
        invariant forall k :: 0 <= k < j ==> atc[k].mru
      {
        j := j + 1;
      }
      if j < SLOTS { assert !a[j].mru; }
      // no line left to replace: forget all other history
      if j == SLOTS {
        assert AllRecent(a);
        j := 0;
        while j < SLOTS
          invariant 0 <= j <= SLOTS
          invariant forall k :: 0 <= k < j ==> atc[k] == a[k].(mru := false)
          invariant forall k :: j <= k < SLOTS ==> atc[k] == a[k]
        {
          atc[j] := atc[j].(mru := false);
          j := j + 1;
        }
        atc[e] := atc[e].(mru := true);
      }
    }

    /** `mmu030_flush_cache` of everything. */
    method FlushCacheAll()
      requires Shape()
      modifies this`ilog, rd, wr
      ensures ilog == NOKEY && rd[..] == EmptyFast() && wr[..] == EmptyFast()
    {
      ilog := NOKEY;
      var i := 0;
      while i < FASTS
        invariant 0 <= i <= FASTS
        invariant ilog == NOKEY
        invariant forall k :: 0 <= k < i ==> rd[k] == EMPTY && wr[k] == EMPTY
      {
        rd[i] := EMPTY;
        wr[i] := EMPTY;
        i := i + 1;
      }
    }

    /** `mmu030_flush_cache` of one page. */
    method FlushCachePage(page: u32)
      requires Shape()
      modifies this`ilog, rd, wr
      ensures ilog == NOKEY
      ensures rd[..] == FlushFast(old(rd[..]), cfg.env.x, page) && wr[..] == FlushFast(old(wr[..]), cfg.env.x, page)
    {
      hide Key;
      ilog := NOKEY;
      var idx := Key(cfg.env.x, page, 7);
      ghost var r, w := FlushFast(rd[..], cfg.env.x, page), FlushFast(wr[..], cfg.env.x, page);
      var i := 0;
      while i < FASTS
        invariant 0 <= i <= FASTS
        invariant ilog == NOKEY
        invariant forall k :: 0 <= k < i ==> rd[k] == r[k] && wr[k] == w[k]
        invariant forall k :: i <= k < FASTS ==> rd[k] == old(rd[k]) && wr[k] == old(wr[k])
      {
        if rd[i].log - rd[i].log % 8 + 7 == idx {
          rd[i] := rd[i].(log := NOKEY);
        }
        if wr[i].log - wr[i].log % 8 + 7 == idx {
          wr[i] := wr[i].(log := NOKEY);
        }
        i := i + 1;
      }
    }

    /** `mmu030_flush_atc_all`. */
    method FlushAtcAll()
      requires Valid()
      modifies this`ilog, atc, rd, wr
      ensures Valid() && Snapshot() == FlushAll(old(Snapshot()))
    {
      ghost var was := atc[..];
      var i := 0;
      while i < SLOTS
        modifies atc
        invariant 0 <= i <= SLOTS
        invariant forall k :: 0 <= k < i ==> atc[k] == was[k].(valid := false)
        invariant forall k :: i <= k < SLOTS ==> atc[k] == was[k]
      {
        atc[i] := atc[i].(valid := false);
        i := i + 1;
      }
      FlushCacheAll();
      assert atc[..] == FlushLines(was, l => true);
      FewerStaysValid(was, atc[..]);
    }

    /** `mmu030_flush_atc_fc`. */
    method FlushAtcFc(base: nat, mask: nat)
      requires Valid()
      modifies this`ilog, atc, rd, wr
      ensures Valid() && Snapshot() == FlushFc(old(Snapshot()), base, mask)
    {
      hide FcCovered;
      ghost var was := atc[..];
      ghost var goal := FlushLines(was, (l: Line) => FcCovered(l.fc, base, mask));
      var i := 0;
      while i < SLOTS
        modifies atc
        invariant 0 <= i <= SLOTS
        invariant forall k :: 0 <= k < i ==> atc[k] == goal[k]
        invariant forall k :: i <= k < SLOTS ==> atc[k] == was[k]
      {
        if FcCovered(atc[i].fc, base, mask) && atc[i].valid {
          atc[i] := atc[i].(valid := false);
        }
        i := i + 1;
      }
      FlushCacheAll();
      assert atc[..] == goal;
      FewerStaysValid(was, atc[..]);
    }

    /** `mmu030_flush_atc_page_fc`. */
    method FlushAtcPageFc(addr: u32, base: nat, mask: nat)
      requires Valid()
      modifies this`ilog, atc, rd, wr
      ensures Valid() && Snapshot() == FlushPageFc(old(Snapshot()), addr, base, mask)
    {
      hide FcCovered; hide Base;
      ghost var was := atc[..];
      var page := Base(cfg.env.x, addr);
      ghost var goal := FlushLines(was, (l: Line) => FcCovered(l.fc, base, mask) && l.laddr == page);
      var i := 0;
      while i < SLOTS
        modifies atc
        invariant 0 <= i <= SLOTS
        invariant forall k :: 0 <= k < i ==> atc[k] == goal[k]
        invariant forall k :: i <= k < SLOTS ==> atc[k] == was[k]
      {
        if FcCovered(atc[i].fc, base, mask) && atc[i].laddr == page && atc[i].valid {
          atc[i] := atc[i].(valid := false);
        }
        i := i + 1;
      }
      FlushCachePage(page);
      assert atc[..] == goal;
      FewerStaysValid(was, atc[..]);
    }

    /** `mmu030_flush_atc_page`. */
    method FlushAtcPage(addr: u32)
      requires Valid()
      modifies this`ilog, atc, rd, wr
      ensures Valid() && Snapshot() == FlushPage(old(Snapshot()), addr)
    {
      ghost var was := atc[..];
      var page := Base(cfg.env.x, addr);
      hide Base;
      ghost var goal := FlushLines(was, (l: Line) => l.laddr == page);
      var i := 0;
      while i < SLOTS
        modifies atc
        invariant 0 <= i <= SLOTS
        invariant forall k :: 0 <= k < i ==> atc[k] == goal[k]
        invariant forall k :: i <= k < SLOTS ==> atc[k] == was[k]
      {
        if atc[i].laddr == page && atc[i].valid {
          atc[i] := atc[i].(valid := false);
        }
        i := i + 1;
      }
      FlushCachePage(page);
      assert atc[..] == goal;
      FewerStaysValid(was, atc[..]);
    }

    /** `mmu030_logical_is_in_atc`: a scan of all lines from the hinted one on, wrapping. */
    method LogicalIsInAtc(addr: u32, fc: fcode, write: bool) returns (r: int)
      requires Valid()
      modifies atc, hint
      ensures Valid()
      ensures (Snapshot(), r) == Lookup(old(Snapshot()), addr, fc, write)
    {
      var maddr := Base(cfg.env.x, addr);
      var offset := HintSlot(cfg.env.x, addr);
      ghost var was := atc[..];
      ghost var found := Find(was, maddr, fc);
      hide Find; hide HintSlot; hide Base; hide Unique; hide AllRecent; hide Touch;
      var start := hint[offset];
      var index := start;
      var i := 0;
      while i < SLOTS
        invariant 0 <= i <= SLOTS
        invariant index == if start + i < SLOTS then start + i else start + i - SLOTS
        invariant hint[..] == old(hint[..])
        invariant found != -1 && Passed(found, start, i) ==>
          !Answers(was[found], write) && atc[..] == was[found := was[found].(valid := false)]
        invariant found == -1 || !Passed(found, start, i) ==> atc[..] == was
      {
        var l := atc[index];
        if maddr == Base(cfg.env.x, l.laddr) && l.fc == fc && l.valid {
          OnlyMatch(was, maddr, fc, index);
          if Answers(l, write) {
            HandleHistoryBit(index);
            hint[offset] := index;
            TouchStaysValid(was, index);
            return index;
          } else {
            atc[index] := l.(valid := false);
          }
        }
        index := index + 1;
        if index >= SLOTS {
          index := 0;
        }
        i := i + 1;
      }
      r := -1;
      if found != -1 {
        FewerStaysValid(was, atc[..]);
      }
    }

    /** The victim for a new entry. */
    method FindVictim() returns (v: nat)
      requires Shape()
      ensures v == if Victim(atc[..]) < SLOTS then Victim(atc[..]) else 0
    {
      var i := 0;
      while i < SLOTS && atc[i].valid
        invariant 0 <= i <= SLOTS
        invariant FirstInvalid(atc[..], i) == FirstInvalid(atc[..], 0)
      {
        i := i + 1;
      }
      if i == SLOTS {
        i := 0;
        while i < SLOTS && atc[i].mru
          invariant 0 <= i <= SLOTS
          invariant FirstOld(atc[..], i) == FirstOld(atc[..], 0)
        {
          i := i + 1;
        }
      }
      if i >= SLOTS {
        i := 0;  // "ATC entry not found": never taken from a valid state
      }
      v := i;
    }

    /** `mmu030_table_search` at level 0. */
    method TableSearch(addr: u32, fc: fcode, write: bool)
      requires Valid() && NoMatch(atc[..], Base(cfg.env.x, addr), fc)
      modifies this`mem, this`ilog, atc, rd, wr
      ensures Valid() && Snapshot() == Install(old(Snapshot()), addr, fc, write)
    {
      hide Walk; hide Base; hide Touch; hide Victim; hide FlushFast; hide AllRecent;
      PageFacts(cfg.env.x, addr);
      ghost var was := atc[..];
      var f := TableWalk(cfg.env, mem, Query(addr, fc, write, 0));
      mem := f.mem;
      var v := FindVictim();
      HandleHistoryBit(v);
      ghost var touched := atc[..];
      var l := Line(true, Base(cfg.env.x, addr), fc, Base(cfg.env.x, f.page),
                    f.st.modified, f.st.wp, f.st.invalid || f.st.super, atc[v].mru);
      atc[v] := l;
      FlushCachePage(l.laddr);
      assert atc[..] == touched[v := l];
      NewStaysValid(was, v, l);
    }

    /** PTEST with a level from 1 to 7: a search that leaves everything as it is. */
    method PTest(addr: u32, fc: fcode, write: bool, level: nat) returns (st: Status, levels: nat, at: u32)
      requires Valid() && 1 <= level <= 7
      ensures var w := Walk(cfg.env, mem, Query(addr, fc, write, level));
        && w.mem == mem
        && st == StatusOf(w, fc) && levels == |w.hops| <= level && levels <= 6 && at == Last(w.hops)
    {
      hide Walk;
      var q := Query(addr, fc, write, level);
      var f := TableWalk(cfg.env, mem, q);
      WalkEffect(cfg.env, mem, q);
      st, levels, at := f.st, f.num, f.at;
    }

    /** `mmu030_add_data_read_cache`. */
    method AddDataReadCache(addr: u32, phys: u32, fc: fcode)
      requires Shape()
      modifies rd
      ensures rd[..] == AddFast(old(rd[..]), cfg.env.x, addr, phys, fc)
    {
      hide Key;
      var idx1 := Key(cfg.env.x, addr, fc);
      var idx2 := idx1 % FASTS;
      if idx2 < FASTS - 1 {
        rd[idx2] := Fast(idx1, phys);
      }
    }

    /** `mmu030_add_data_write_cache`. */
    method AddDataWriteCache(addr: u32, phys: u32, fc: fcode)
      requires Shape()
      modifies wr
      ensures wr[..] == AddFast(old(wr[..]), cfg.env.x, addr, phys, fc)
    {
      hide Key;
      var idx1 := Key(cfg.env.x, addr, fc);
      var idx2 := idx1 % FASTS;
      if idx2 < FASTS - 1 {
        wr[idx2] := Fast(idx1, phys);
      }
    }

    /** Lookup, table search on a miss, lookup again. */
    method FindLine(addr: u32, fc: fcode, write: bool) returns (r: int)
      requires Valid()
      modifies this`mem, this`ilog, atc, hint, rd, wr
      ensures Valid()
      ensures (Snapshot(), r) == Resolve(old(Snapshot()), addr, fc, write)
    {
      hide Install;
      hide Base;
      hide Unique;
      hide AllRecent;
      MissMeansNoMatch(Snapshot(), addr, fc, write);
      r := LogicalIsInAtc(addr, fc, write);
      if r < 0 {
        TableSearch(addr, fc, write);
        r := LogicalIsInAtc(addr, fc, write);
      }
    }

    /** Using the line found for an access: `mmu030_get_atc`, `mmu030_put_atc`,
        `mmu030_get_i_atc` and the generic versions. None of them looks whether the index is -1. */
    method UseAtc(k: Kind, addr: u32, l: int, fc: fcode) returns (o: Outcome)
      requires Valid() && -1 <= l < SLOTS
      modifies this`ilog, this`iphys, rd, wr
      ensures Valid()
      ensures (Snapshot(), o) == UseLine(old(Snapshot()), k, addr, fc, l)
    {
      hide AddFast;
      hide Base;
      var line := if l == -1 then stray else atc[l];
      var page := Base(cfg.env.x, line.paddr);
      if line.be || (Writes(k) && line.wp) {
        return PageFault(!k.Write? && !k.GenWrite? && !k.LockWrite?);
      }
      if k.Fetch? {
        iphys := page;
        ilog := InsKey(cfg.env.x, addr, fc);
      } else if k.Read? || k.GenRead? || k.LockRead? {
        AddDataReadCache(addr, page, fc);
      } else {
        AddDataWriteCache(addr, page, fc);
      }
      o := Phys(Physical(cfg.env.x, page, addr));
    }

    /** `mmu030_get_byte`, `mmu030_get_word` and `mmu030_get_long`, up to the bus access. */
    method Get(addr: u32, fc: fcode) returns (o: Outcome)
      requires Valid()
      modifies this, atc, hint, rd, wr
      ensures Valid() && (Snapshot(), o) == Access(old(Snapshot()), Read, addr, fc)
    {
      hide Key; hide Resolve; hide UseLine; hide Untranslated; hide Unique; hide AllRecent; hide Base;
      if Untranslated(cfg, Read, addr, fc) {
        return Phys(addr);
      }
      var idx1 := Key(cfg.env.x, addr, fc);
      var idx2 := idx1 % FASTS;
      if rd[idx2].log == idx1 {
        return Phys(Physical(cfg.env.x, rd[idx2].phys, addr));
      }
      var l := FindLine(addr, fc, false);
      o := UseAtc(Read, addr, l, fc);
    }

    /** `mmu030_put_byte`, `mmu030_put_word` and `mmu030_put_long`, up to the bus access. */
    method Put(addr: u32, fc: fcode) returns (o: Outcome)
      requires Valid()
      modifies this, atc, hint, rd, wr
      ensures Valid() && (Snapshot(), o) == Access(old(Snapshot()), Write, addr, fc)
    {
      hide Key; hide Resolve; hide UseLine; hide Untranslated; hide Unique; hide AllRecent; hide Base;
      if Untranslated(cfg, Write, addr, fc) {
        return Phys(addr);
      }
      var idx1 := Key(cfg.env.x, addr, fc);
      var idx2 := idx1 % FASTS;
      if wr[idx2].log == idx1 {
        return Phys(Physical(cfg.env.x, wr[idx2].phys, addr));
      }
      var l := FindLine(addr, fc, true);
      o := UseAtc(Write, addr, l, fc);
    }

    /** `mmu030_get_iword` and `mmu030_get_ilong`, up to the bus access. */
    method GetIns(addr: u32, fc: fcode) returns (o: Outcome)
      requires Valid()
      modifies this, atc, hint, rd, wr
      ensures Valid() && (Snapshot(), o) == Access(old(Snapshot()), Fetch, addr, fc)
    {
      hide Resolve; hide UseLine; hide Untranslated; hide Unique; hide AllRecent; hide Base; hide InsKey;
      if InsKey(cfg.env.x, addr, fc) == ilog {
        return Phys(Physical(cfg.env.x, iphys, addr));
      }
      ilog := NOKEY;
      if Untranslated(cfg, Fetch, addr, fc) {
        return Phys(addr);
      }
      var l := FindLine(addr, fc, false);
      o := UseAtc(Fetch, addr, l, fc);
    }

    /** `mmu030_get_generic` and `mmu030_put_generic`, with their locked versions. */
    method Generic(k: Kind, addr: u32, fc: fcode) returns (o: Outcome)
      requires Valid() && k in {GenRead, GenWrite, LockRead, LockWrite}
      modifies this, atc, hint, rd, wr
      ensures Valid() && (Snapshot(), o) == Access(old(Snapshot()), k, addr, fc)
    {
      hide Resolve; hide UseLine; hide Untranslated; hide Unique; hide AllRecent; hide Base;
      if Untranslated(cfg, k, addr, fc) {
        return Phys(addr);
      }
      var l := FindLine(addr, fc, Writes(k));
      o := UseAtc(k, addr, l, fc);
    }

    /** `uae_mmu030_check_fc`, up to the cache state it returns. */
    method CheckAccess(addr: u32, fc: fcode, write: bool) returns (o: Outcome)
      requires Valid()
      modifies this, atc, hint, rd, wr
      ensures Valid() && (Snapshot(), o) == CheckFc(old(Snapshot()), addr, fc, write)
    {
      hide Lookup; hide Install; hide Untranslated; hide Unique; hide AllRecent; hide Base; hide AddFast;
      if Untranslated(cfg, Probed(write), addr, fc) {
        return Phys(addr);
      }
      MissMeansNoMatch(Snapshot(), addr, fc, write);
      var l := LogicalIsInAtc(addr, fc, write);
      var checkwrite := write && l >= 0;
      if l < 0 {
        TableSearch(addr, fc, write);
        l := LogicalIsInAtc(addr, fc, write);
      }
      var line := if l == -1 then stray else atc[l];
      if line.be || (checkwrite && line.wp) {
        return PageFault(true);
      }
      var page := Base(cfg.env.x, line.paddr);
      AddDataReadCache(addr, page, fc);
      o := Phys(Physical(cfg.env.x, page, addr));
    }

    /** PLOAD. */
    method Load(addr: u32, fc: fcode, write: bool)
      requires Valid()
      modifies this, atc, rd, wr
      ensures Valid() && Snapshot() == PLoad(old(Snapshot()), addr, fc, write)
    {
      hide Install; hide Unique; hide AllRecent; hide Base; hide FlushPage; hide NoMatch;
      FlushedHasNoMatch(Snapshot(), addr, fc);
      FlushAtcPage(addr);
      TableSearch(addr, fc, write);
    }

    /** PMOVE to TC with FD clear. Bit 31 enables translation, bit 25 the supervisor root pointer,
        bit 24 function code lookup. A rejected value raises a configuration exception before the
        flush: lines and data page caches stay, translation is on, and the masks and shifts are
        half replaced, which leaves them open here. */
    method MoveTc(tc: u32) returns (ok: bool)
      requires Valid()
      modifies this, atc, rd, wr
      ensures ok <==> tc < 0x8000_0000 || Accepts(tc)
      ensures ok && tc >= 0x8000_0000 ==> Decodes(tc, cfg.env.x)
      ensures ok && tc < 0x8000_0000 ==> cfg.env.x == old(cfg.env.x)
      ensures ok ==> Valid() && Snapshot() == Configure(old(Snapshot()), WithTc(old(cfg), tc, cfg.env.x))
      ensures !ok ==> atc[..] == old(atc[..]) && rd[..] == old(rd[..]) && wr[..] == old(wr[..]) && ilog == NOKEY
      ensures !ok ==> mem == old(mem) && cfg == WithTc(old(cfg), tc, cfg.env.x) && cfg.enabled
    {
      hide Decodes; hide FlushLines; hide Base; hide Accepts;
      ilog := NOKEY;
      if tc < 0x8000_0000 {
        FlushForConfig(WithTc(cfg, tc, cfg.env.x));
        return true;
      }
      var x;
      ok, x := DecodeTc(tc);
      if ok {
        FlushForConfig(WithTc(cfg, tc, x));
      } else {
        var half: Tables := *;
        cfg := WithTc(cfg, tc, half);
      }
    }

    /** PMOVE to SRP, CRP, TT0 or TT1 with FD clear, or to TC with translation disabled. */
    method FlushForConfig(c: Config)
      requires Valid()
      modifies this, atc, rd, wr
      ensures Valid() && Snapshot() == Configure(old(Snapshot()), c)
    {
      ghost var was := atc[..];
      var i := 0;
      while i < SLOTS
        modifies atc
        invariant 0 <= i <= SLOTS
        invariant forall k :: 0 <= k < i ==> atc[k] == was[k].(valid := false)
        invariant forall k :: i <= k < SLOTS ==> atc[k] == was[k]
      {
        atc[i] := atc[i].(valid := false);
        i := i + 1;
      }
      cfg := c;
      FlushCacheAll();
      assert atc[..] == FlushLines(was, l => true);
      FewerStaysValid(was, atc[..]);
    }
  }

  /** The configuration a TC value asks for, given its decoded masks and shifts. */
  function WithTc(c: Config, tc: u32, x: Tables): Config
  {
    c.(enabled := tc >= 0x8000_0000,
       env := c.env.(x := x, sre := tc / 0x200_0000 % 2 == 1, fcl := tc / 0x100_0000 % 2 == 1))
  }

  lemma MissMeansNoMatch(s: State, addr: u32, fc: fcode, write: bool)
    requires Unique(s.atc)
    ensures var r := Lookup(s, addr, fc, write);
      r.1 == -1 ==> NoMatch(r.0.atc, Base(s.cfg.env.x, addr), fc)
  {
    hide Base;
  }

  lemma FlushedHasNoMatch(s: State, addr: u32, fc: fcode)
    ensures NoMatch(FlushPage(s, addr).atc, Base(s.cfg.env.x, addr), fc)
  {
    hide Base;
  }

  /** Position `j` comes up within the first `i` places of a scan that starts at `start`. */
  ghost predicate Passed(j: int, start: int, i: int)
  {
    if j >= start then j - start < i else j - start + SLOTS < i
  }

  lemma OnlyMatch(atc: seq<Line>, page: u32, fc: fcode, i: nat)
    requires |atc| == SLOTS && Unique(atc) && i < SLOTS
    ensures Matches(atc[i], page, fc) ==> Find(atc, page, fc) == i
  {
  }
}
