/** The 68040/68060 MMU as the program runs it: ATC and shortcut arrays updated in place, the
    way search with its jump back after a refill. */
module Mmu040 {
  import opened Words
  import opened Walk040
  import opened Gate040
  import opened State040
  import opened Run040
  import opened Refine040
  import opened Trace040

  /** The page table end of the search, with its three cases of marking. */
  method SearchPage(c: Cfg, m0: Mem, q: Ask, a0: u32, wp0: bool) returns (m: Mem, r: Res)
    ensures Walked(m, r) == FromPage(c, m0, q, a0, wp0)
  {
    m := m0;
    var a := a0;
    if a !in m { return m, Broken; }
    var desc := m[a];
    if desc.ty == 2 {
      a := Above2(desc);
      if a !in m { return m, Broken; }
      desc := m[a];
    }
    if desc.ty % 2 == 0 { return m, Fail; }
    var wp := wp0 || desc.wp;
    ghost var d2 := desc;
    if q.write {
      if wp || (SuperOnly(desc) && !q.super) {
        if !desc.u {
          if a in c.rom { return m, Broken; }
          desc := desc.(u := true);
          m := m[a := desc];
        }
      } else if !desc.u || !desc.m {
        if a in c.rom { return m, Broken; }
        desc := desc.(u := true, m := true);
        m := m[a := desc];
      }
    } else if !desc.u {
      if a in c.rom { return m, Broken; }
      desc := desc.(u := true);
      m := m[a := desc];
    }
    assert desc == Marked(q, d2, wp) && m == m0[a := desc];
    r := Page(desc, wp);
  }

  /** The table search of `mmu_fill_atc`, descriptor by descriptor. */
  method SearchTables(c: Cfg, m0: Mem, q: Ask) returns (m: Mem, r: Res)
    ensures Walked(m, r) == Walk(c, m0, q)
  {
    hide FromPage; hide RootEntry; hide PointerEntry; hide PageEntry;
    m := m0;
    var a := RootEntry(c, q);
    if a !in m { return m, Broken; }
    var desc := m[a];
    if desc.ty < 2 { return m, Fail; }
    var wp := desc.wp;
    if !desc.u {
      if a in c.rom { return m, Broken; }
      m := m[a := desc.(u := true)];
    }
    assert m == m0[a := m0[a].(u := true)];
    ghost var m1 := m;
    a := PointerEntry(q, desc);
    if a !in m { return m, Broken; }
    desc := m[a];
    if desc.ty < 2 { return m, Fail; }
    wp := wp || desc.wp;
    if !desc.u {
      if a in c.rom { return m, Broken; }
      m := m[a := desc.(u := true)];
    }
    assert m == m1[a := m1[a].(u := true)];
    m, r := SearchPage(c, m, q, PageEntry(c, q, desc), wp);
  }

  class Mmu040 {
    var c: Cfg
    var mem: Mem
    const atc: array<Line>   // mmu_atc_array[type][set][way]
    const ways: array<nat>   // mmu_atc_ways
    const rd: array<Fast>
    const wr: array<Fast>
    var random: nat          // way_random
    var ilog: nat            // atc_last_ins_laddr
    var iphys: u32
    var gate: Gate           // TC enable bits and transparent translation registers
    ghost var searches: nat  // table searches done so far

    ghost predicate Valid()
      reads this, atc, ways
    {
      && atc.Length == LINES && ways.Length == 2 && rd.Length == FASTS && wr.Length == FASTS && rd != wr
      && ways[0] < WAYS && ways[1] < WAYS
      && Unique(atc[..])
    }

    ghost function Snapshot(): State
      reads this, atc, ways, rd, wr
      requires Valid()
    {
      Mmu(c, atc[..], ways[..], random, rd[..], wr[..], ilog, iphys, mem, gate)
    }

    constructor (c0: Cfg, m: Mem)
      ensures Valid() && Snapshot().c == c0 && Snapshot().mem == m
      ensures forall i :: 0 <= i < LINES ==> !atc[i].valid
      ensures fresh(atc) && fresh(ways) && fresh(rd) && fresh(wr)
    {
      c, mem := c0, m;
      atc := new Line[LINES](_ => NOLINE);
      ways := new nat[2](_ => 0);
      rd := new Fast[FASTS](_ => Fast(0, 0));
      wr := new Fast[FASTS](_ => Fast(0, 0));
      random, ilog, iphys, gate, searches := 0, 0, 0, SHUT, 0;
    }

    /** `flush_shortcut_cache`. */
    method FlushShortcutCache(addr: u32, super: bool)
      requires Valid()
      modifies this`ilog, rd, wr
      ensures Valid() && Snapshot() == FlushShortcuts(old(Snapshot()), addr, super)
    {
      hide Key;
      hide Unique;
      ilog := NoIns(c);
      ghost var r := if addr == 0xffff_ffff then EmptyFast() else FlushFast(rd[..], c, addr, super);
      ghost var w := if addr == 0xffff_ffff then EmptyFast() else FlushFast(wr[..], c, addr, super);
      var idx := Key(c, addr, super);
      var i := 0;
      while i < FASTS
        modifies rd, wr
        invariant 0 <= i <= FASTS
        invariant forall k :: 0 <= k < i ==> rd[k] == r[k] && wr[k] == w[k]
        invariant forall k :: i <= k < FASTS ==> rd[k] == old(rd[k]) && wr[k] == old(wr[k])
      {
        if addr == 0xffff_ffff {
          rd[i], wr[i] := EMPTY, EMPTY;
        } else {
          if rd[i].log == idx { rd[i] := rd[i].(log := NOKEY); }
          if wr[i].log == idx { wr[i] := wr[i].(log := NOKEY); }
        }
        i := i + 1;
      }
      assert rd[..] == r && wr[..] == w;
    }

    /** `mmu_fill_atc` into one line; `fslw` is the 68060 fault status being non-zero. */
    method FillAtc(addr: u32, super: bool, write: bool, data: bool, way: nat) returns (fslw: bool)
      requires Valid() && way < WAYS
      requires var base := SetAt(data, SetIndex(c, addr));
        forall k :: base <= k < base + WAYS && k != base + way ==> !Tagged(atc[k], Tag(c, addr, super))
      modifies this`mem, this`ilog, this`searches, atc, rd, wr
      ensures searches == old(searches) + 1
      ensures Valid() && Snapshot() == Fill(old(Snapshot()), addr, super, write, SetAt(data, SetIndex(c, addr)) + way)
      ensures fslw == Refused(Walk(c, old(mem), Ask(addr, super, write)).res, Ask(addr, super, write))
    {
      hide Walk; hide FlushFast; hide Tag; hide SetIndex; hide LineOf; hide Refused; hide Unique; hide FlushShortcuts;
      hide Tagged;
      var base := SetAt(data, SetIndex(c, addr));
      var tag := Tag(c, addr, super);
      var m, r := SearchTables(c, mem, Ask(addr, super, write));
      mem, searches := m, searches + 1;
      fslw := Refused(r, Ask(addr, super, write));
      if !c.is60 || r.Page? {
        ghost var was := atc[..];
        atc[base + way] := LineOf(c, tag, r);
        SetOf(data, SetIndex(c, addr), way);
        LineOfTag(c, tag, r);
        ReplaceUnique(was, base, way, LineOf(c, tag, r));
        assert atc[..] == was[base + way := LineOf(c, tag, r)];
      }
      FlushShortcutCache(addr, super);
    }

    /** `mmu_add_cache`. */
    method AddToCache(addr: u32, phys: u32, super: bool, data: bool, write: bool)
      requires Valid()
      modifies this`ilog, this`iphys, rd, wr
      ensures Valid() && Snapshot() == AddCache(old(Snapshot()), addr, phys, super, data, write)
    {
      hide Key;
      hide Unique;
      if !data {
        ilog, iphys := InsKey(c, addr, super), phys;
      } else {
        var idx1 := Key(c, addr, super);
        var idx2 := idx1 % FASTS;
        if idx2 < FASTS - 1 {
          if write { wr[idx2] := Fast(idx1, phys); } else { rd[idx2] := Fast(idx1, phys); }
        }
      }
    }

    /** The way search of `mmu_translate`: the tagged way if there is one, and the last valid
        way passed that carries another tag. */
    method ScanWays(base: nat, tag: nat, start: nat) returns (hit: bool, way: nat, spare: nat)
      requires Valid() && base + WAYS <= LINES && base % 4 == 0 && start < WAYS
      ensures way < WAYS && spare <= WAYS
      ensures hit <==> FindWay(atc[..], base, tag) != -1
      ensures hit ==> way == FindWay(atc[..], base, tag)
      ensures !hit ==> spare == LastValid(atc[..], base, start, WAYS)
    {
      hide Unique;
      hide Tagged;
      ghost var lines := atc[..];
      way, spare, hit := start, WAYS, false;
      var i := 0;
      while i < WAYS
        invariant 0 <= i <= WAYS && way == (start + i) % WAYS
        invariant Clear(lines, base, start, tag, i)
        invariant spare == LastValid(lines, base, start, i)
      {
        var l := atc[base + way];
        assert l == lines[base + way];
        TaggedMeans(l, tag);
        if l.valid {
          if l.tag == tag {
            OnlyTagged(lines, base, way, tag);
            return true, way, spare;
          }
          spare := way;
        }
        NextWay(start, i);
        way := (way + 1) % WAYS;
        i := i + 1;
      }
      ClearAll(lines, base, start, tag);
    }

    /** The program's `mmu_fill_atc` and the counter step after it: what is left to do is one
        more look at the line, which will not ask for another search. */
    method RefillWay(addr: u32, super: bool, data: bool, write: bool, way: nat) returns (failed: bool)
      requires Valid() && way < WAYS
      requires var base := SetAt(data, SetIndex(c, addr));
        forall k :: base <= k < base + WAYS && k != base + way ==> !Tagged(atc[k], Tag(c, addr, super))
      modifies this`mem, this`ilog, this`random, this`searches, atc, rd, wr
      ensures Valid() && searches == old(searches) + 1
      ensures var r := Refill(old(Snapshot()), addr, super, data, write, way);
        && (failed ==> (Snapshot(), PageFault) == r)
        && (!failed ==> forall spare: nat :: Outlook(Snapshot(), addr, super, data, write, true, way, spare) == r)
      ensures !failed ==> Settled(Snapshot(), SetAt(data, SetIndex(c, addr)) + way, super, write)
    {
      hide Walk; hide Fill; hide Tag; hide SetIndex; hide Refill; hide Unique; hide Settled; hide Outlook; hide Refused;
      hide Shaped;
      RefillSteps(Snapshot(), addr, super, data, write, way);
      random := random % WAYS;
      var fslw := FillAtc(addr, super, write, data, way);
      failed := fslw && c.is60;
      if !failed { random := random + 1; }
    }

    /** What `mmu_translate` does with a way that carries the tag: refuse, use, or ask for a refill. */
    method LookAt(addr: u32, super: bool, data: bool, write: bool, way: nat) returns (done: bool, o: Outcome)
      requires Valid() && way < WAYS
      modifies this`ilog, this`iphys, ways, rd, wr
      ensures Valid() && c == old(c)
      ensures var s := old(Snapshot());
        if done then forall spare: nat :: Outlook(s, addr, super, data, write, true, way, spare) == (Snapshot(), o)
        else
          && Snapshot() == s && !Settled(s, SetAt(data, SetIndex(c, addr)) + way, super, write)
          && forall spare: nat ::
               Outlook(s, addr, super, data, write, true, way, spare) == Refill(s, addr, super, data, write, way)
    {
      hide Tag; hide SetIndex; hide AddCache; hide Unique; hide Refill;
      var l := atc[SetAt(data, SetIndex(c, addr)) + way];
      if (l.wp && write) || (l.super && !super) || !l.resident {
        return true, PageFault;
      }
      if !l.modified && write {
        return false, PageFault;
      }
      ways[Type(data)] := way;
      AddToCache(addr, l.phys, super, data, write);
      return true, Phys(Physical(c, l.phys, addr));
    }

    /** `mmu_translate`. After a refill the program jumps back into the search; the line just
        filled then always settles the access, so the tables are searched at most once. */
    method TranslateAddr(addr: u32, super: bool, data: bool, write: bool) returns (o: Outcome)
      requires Valid()
      modifies this, atc, ways, rd, wr
      ensures Valid() && searches <= old(searches) + 1
      ensures (Snapshot(), o) == Translate(old(Snapshot()), addr, super, data, write)
    {
      hide Walk; hide Refill; hide Tag; hide SetIndex; hide UseWay; hide Unique; hide FindWay; hide SetAt; hide Settled;
      hide Tagged; hide Translate; hide Outlook; hide Shaped;
      ghost var s := Snapshot();
      var base: nat := SetAt(data, SetIndex(c, addr));
      var tag := Tag(c, addr, super);
      SetOf(data, SetIndex(c, addr), 0);
      random := random + 1;
      var hit: bool, way: nat, spare: nat := ScanWays(base, tag, ways[Type(data)]);
      ScanTells(s, addr, super, data, write, hit, way, spare);
      ghost var filled := false;
      while true
        invariant Valid() && way < WAYS && s.c == c
        invariant Translate(s, addr, super, data, write) ==
                  Outlook(Snapshot(), addr, super, data, write, hit, way, spare)
        invariant filled ==> hit && Settled(Snapshot(), base + way, super, write)
        invariant searches == old(searches) + if filled then 1 else 0
        invariant !filled && hit ==> Tagged(atc[base + way], tag)
        invariant !filled && !hit ==> NoneTagged(atc[..], base, tag)
        decreases !filled
      {
        if hit {
          var done;
          done, o := LookAt(addr, super, data, write, way);
          if done { return; }
          spare := way;
          OnlyTagged(atc[..], base, way, tag);
        } else {
          OutlookMiss(Snapshot(), addr, super, data, write, way, spare);
        }
        way := if spare < WAYS then spare else random % WAYS;
        var failed := RefillWay(addr, super, data, write, way);
        if failed {
          return PageFault;
        }
        hit, filled := true, true;
      }
    }

    /** `mmu_get_ilong` and `mmu_get_iword`. */
    method GetIns(addr: u32, super: bool) returns (o: Outcome)
      requires Valid()
      modifies this, atc, ways, rd, wr
      ensures Valid() && (Snapshot(), o) == FetchAt(old(Snapshot()), addr, super)
    {
      hide InsKey; hide Translate; hide Unique; hide MatchPair;
      if (InsOn(gate) && !MatchPair(gate.itt0, gate.itt1, addr, super).NoMatch?) || !gate.enabled {
        return Phys(addr);
      }
      if InsKey(c, addr, super) == ilog {
        return Phys(Physical(c, iphys, addr));
      }
      o := TranslateAddr(addr, super, false, false);
    }

    /** `mmu_match_ttr_maybe_write`, for reads that ask for no write permission `mmu_match_ttr`:
        whether the access is refused, and whether it is translated. */
    method TestTtr(addr: u32, super: bool, data: bool, write: bool) returns (refused: bool, translated: bool)
      ensures Screen(gate, addr, super, data, write) ==
              if refused then Blocked else if translated then Through else Bypass
    {
      hide MatchTtr;
      refused, translated := false, gate.enabled;
      if AnyOn(gate) {
        var r := MatchTtr(gate, addr, super, data);
        refused := write && (r.NoWrite? || (r.NoMatch? && !gate.enabled && gate.dwo));
        translated := r.NoMatch? && gate.enabled;
      }
    }

    /** `mmu_get_*`; `write` is set for the read of a locked cycle. */
    method Get(addr: u32, super: bool, data: bool, write: bool) returns (o: Outcome)
      requires Valid()
      modifies this, atc, ways, rd, wr
      ensures Valid() && (Snapshot(), o) == ReadAt(old(Snapshot()), addr, super, data, write)
    {
      hide Key; hide Translate; hide Unique; hide Screen;
      var refused, translated := TestTtr(addr, super, data, write);
      if refused { return PageFault; }
      if !translated { return Phys(addr); }
      var idx1 := Key(c, addr, super);
      var idx2 := idx1 % FASTS;
      if rd[idx2].log == idx1 {
        return Phys(Physical(c, rd[idx2].phys, addr));
      }
      o := TranslateAddr(addr, super, data, write);
    }

    /** `mmu_put_*`. */
    method Put(addr: u32, super: bool, data: bool) returns (o: Outcome)
      requires Valid()
      modifies this, atc, ways, rd, wr
      ensures Valid() && (Snapshot(), o) == WriteAt(old(Snapshot()), addr, super, data)
    {
      hide Key; hide Translate; hide Unique; hide Screen;
      var refused, translated := TestTtr(addr, super, data, true);
      if refused { return PageFault; }
      if !translated { return Phys(addr); }
      var idx1 := Key(c, addr, super);
      var idx2 := idx1 % FASTS;
      if wr[idx2].log == idx1 {
        return Phys(Physical(c, wr[idx2].phys, addr));
      }
      o := TranslateAddr(addr, super, data, true);
    }

    /** PLPA. The register keeps the address where a transparent register answers. */
    method LoadAddress(addr: u32, super: bool, data: bool, write: bool) returns (o: Outcome)
      requires Valid()
      modifies this, atc, ways, rd, wr
      ensures Valid() && (Snapshot(), o) == LoadPhysical(old(Snapshot()), addr, super, data, write)
    {
      hide Translate; hide Unique; hide MatchTtr;
      var ttr := MatchTtr(gate, addr, super, data);
      if write && (ttr.NoWrite? || (ttr.NoMatch? && !gate.enabled && gate.dwo)) { return PageFault; }
      if !ttr.NoMatch? { return Phys(addr); }
      o := TranslateAddr(addr, super, data, write);
    }

    /** `mmu_flush_atc`: both types, the four ways of the set of the address. */
    method FlushAtc(addr: u32, super: bool, global: bool)
      requires Valid()
      modifies this`ilog, atc, rd, wr
      ensures Valid() && Snapshot() == FlushPage(old(Snapshot()), addr, super, global)
    {
      hide Tag; hide SetIndex; hide FlushShortcuts; hide Unique;
      var tag, index := Tag(c, addr, super), SetIndex(c, addr);
      ghost var gone := OfPage(tag, index, global);
      ghost var was := atc[..];
      var n := 0;
      while n < 8
        modifies atc
        invariant 0 <= n <= 8
        invariant forall i :: 0 <= i < LINES ==>
          atc[i] == if Swept(i, index, n) && gone(i, was[i]) then was[i].(valid := false) else was[i]
      {
        var k := n / 4 * 64 + index * 4 + n % 4;
        SweptStep(index, n);
        var l := atc[k];
        if (global || !l.global) && tag == l.tag && l.valid {
          atc[k] := l.(valid := false);
        }
        n := n + 1;
      }
      SweptAll(index);
      assert atc[..] == Dropped(was, gone);
      DropUnique(was, gone);
      assert ways[..] == old(ways[..]);
      assert rd[..] == old(rd[..]) && wr[..] == old(wr[..]);
      assert Snapshot() == old(Snapshot()).(atc := Dropped(was, gone));
      FlushShortcutCache(addr, super);
    }

    /** `mmu_flush_atc_all`. */
    method FlushAtcAll(global: bool)
      requires Valid()
      modifies this`ilog, atc, rd, wr
      ensures Valid() && Snapshot() == FlushAll(old(Snapshot()), global)
    {
      hide FlushShortcuts; hide Unique;
      ghost var gone := OfAll(global);
      ghost var was := atc[..];
      var i := 0;
      while i < LINES
        modifies atc
        invariant 0 <= i <= LINES
        invariant forall j :: 0 <= j < LINES ==>
          atc[j] == if j < i && gone(j, was[j]) then was[j].(valid := false) else was[j]
      {
        if global || !atc[i].global { atc[i] := atc[i].(valid := false); }
        i := i + 1;
      }
      assert atc[..] == Dropped(was, gone);
      DropUnique(was, gone);
      assert ways[..] == old(ways[..]);
      assert rd[..] == old(rd[..]) && wr[..] == old(wr[..]);
      assert Snapshot() == old(Snapshot()).(atc := Dropped(was, gone));
      FlushShortcutCache(0xffff_ffff, false);
    }

    /** PTEST: the page is flushed and, unless a transparent register answers, searched into the
        first invalid way of its set. */
    method PTestSearch(addr: u32, super: bool, data: bool, write: bool)
      requires Valid()
      modifies this, atc, ways, rd, wr
      ensures Valid() && Snapshot() == PTest(old(Snapshot()), addr, super, data, write)
    {
      hide Tag; hide SetIndex; hide FlushShortcuts; hide Walk; hide Fill; hide Unique; hide Shaped; hide MatchTtr;
      hide TestFill; hide FlushPage;
      ghost var s := Snapshot();
      FlushBasics(s, addr, super, true);
      FlushedSet(s, addr, super, data);
      FlushAtc(addr, super, true);
      if MatchTtr(gate, addr, super, data).NoMatch? { TestSearch(addr, super, data, write); }
    }

    method TestSearch(addr: u32, super: bool, data: bool, write: bool)
      requires Valid()
      requires var base := SetAt(data, SetIndex(c, addr));
        forall k :: base <= k < base + WAYS ==> !Tagged(atc[k], Tag(c, addr, super))
      modifies this`mem, this`ilog, this`searches, atc, rd, wr
      ensures Valid() && Snapshot() == TestFill(old(Snapshot()), addr, super, data, write)
    {
      hide Tag; hide SetIndex; hide FlushShortcuts; hide Walk; hide Fill; hide Unique; hide Shaped;
      var base: nat := SetAt(data, SetIndex(c, addr));
      var way: nat := 0;
      while way < WAYS && atc[base + way].valid
        invariant way <= WAYS
        invariant forall k :: base <= k < base + way ==> atc[k].valid
      {
        way := way + 1;
      }
      if way >= WAYS { way := random % WAYS; }
      assert way == FirstInvalid(atc[..], base, random);
      var fslw := FillAtc(addr, super, write, data, way);
    }

    /** New root pointers, page size and gate, followed by the flush of `mmu_set_tc`. */
    method Reconfigure(c0: Cfg, g: Gate)
      requires Valid()
      modifies this, atc, ways, rd, wr
      ensures Valid() && Snapshot() == Configure(old(Snapshot()), c0, g)
    {
      hide FlushAll; hide Unique;
      c, gate := c0, g;
      FlushAtcAll(true);
    }

    /** `mmu_set_tc`: bit 15 enables translation, bit 14 selects 8K pages, bit 5 is the default
        write protection. */
    method SetTc(tc: nat)
      requires Valid() && tc < 0x1_0000
      modifies this, atc, ways, rd, wr
      ensures Valid()
      ensures Snapshot() == Configure(old(Snapshot()), old(c).(big := tc / 0x4000 % 2 == 1),
                                      old(gate).(enabled := tc / 0x8000 % 2 == 1, dwo := tc / 0x20 % 2 == 1))
    {
      hide Configure; hide Unique;
      Reconfigure(c.(big := tc / 0x4000 % 2 == 1), gate.(enabled := tc / 0x8000 % 2 == 1, dwo := tc / 0x20 % 2 == 1));
    }
  }

  /** The lines of a set passed by the first `n` steps of a flush over both types. */
  predicate Swept(i: nat, index: nat, n: nat)
  {
    i / 4 % 16 == index && i / 64 * 4 + i % 4 < n
  }

  lemma SweptStep(index: nat, n: nat)
    requires index < 16 && n < 8
    ensures var k := n / 4 * 64 + index * 4 + n % 4;
      && k < LINES && k / 4 % 16 == index
      && forall i :: 0 <= i < LINES ==> (Swept(i, index, n + 1) <==> i == k || Swept(i, index, n))
  {
    forall i | 0 <= i < LINES
      ensures Swept(i, index, n + 1) <==> i == n / 4 * 64 + index * 4 + n % 4 || Swept(i, index, n)
    {
      SweptAt(i, index, n);
    }
  }

  lemma SweptAt(i: nat, index: nat, n: nat)
    requires i < LINES && index < 16 && n < 8
    ensures Swept(i, index, n + 1) <==> i == n / 4 * 64 + index * 4 + n % 4 || Swept(i, index, n)
  {
    var h := i / 64;
    assert i / 4 / 16 == h;
    var w := i % 4;
    var x := i / 4 % 16;
    assert i == h * 64 + x * 4 + w;
    assert n / 4 < 2;
    if h == n / 4 && w == n % 4 {
      assert h * 4 + w == n;
    }
  }

  lemma SweptAll(index: nat)
    requires index < 16
    ensures forall i :: 0 <= i < LINES ==> (Swept(i, index, 8) <==> i / 4 % 16 == index)
  {
  }

  lemma FlushedSet(s: State, addr: u32, super: bool, data: bool)
    ensures var t, base := FlushPage(s, addr, super, true), SetAt(data, SetIndex(s.c, addr));
      forall k :: base <= k < base + WAYS ==> !Tagged(t.atc[k], Tag(s.c, addr, super))
  {
    hide Tag; hide SetIndex; hide FlushFast;
    var base := SetAt(data, SetIndex(s.c, addr));
    forall k | base <= k < base + WAYS ensures k / 4 % 16 == SetIndex(s.c, addr) {
      SetOf(data, SetIndex(s.c, addr), k - base);
    }
  }

  /** What `mmu_translate` still has to do after a scan: use the way, refuse, or refill. */
  lemma NextWay(start: nat, i: nat)
    ensures ((start + i) % WAYS + 1) % WAYS == (start + i + 1) % WAYS
  {
  }

  ghost function Outlook(s: State, addr: u32, super: bool, data: bool, write: bool, hit: bool, way: nat,
                         spare: nat): (State, Outcome)
    requires way < WAYS
  {
    var l := s.atc[SetAt(data, SetIndex(s.c, addr)) + way];
    if hit && LineRefuses(l, super, write) then (s, PageFault)
    else if hit && (!write || l.modified) then UseWay(s, addr, super, data, write, way)
    else Refill(s, addr, super, data, write, if hit then way else if spare < WAYS then spare else s.random % WAYS)
  }

  lemma OutlookMiss(s: State, addr: u32, super: bool, data: bool, write: bool, way: nat, spare: nat)
    requires way < WAYS
    ensures Outlook(s, addr, super, data, write, false, way, spare) ==
      Refill(s, addr, super, data, write, if spare < WAYS then spare else s.random % WAYS)
  {
    hide Refill; hide UseWay; hide SetAt; hide SetIndex;
  }

  ghost predicate Settled(s: State, slot: nat, super: bool, write: bool)
    requires slot < LINES
  {
    LineRefuses(s.atc[slot], super, write) || !write || s.atc[slot].modified
  }

  ghost predicate NoneTagged(atc: seq<Line>, base: nat, tag: nat)
    requires base + WAYS <= |atc|
  {
    forall k :: base <= k < base + WAYS ==> !Tagged(atc[k], tag)
  }

  lemma ScanTells(s: State, addr: u32, super: bool, data: bool, write: bool, hit: bool, way: nat, spare: nat)
    requires way < WAYS
    requires var base, ty := SetAt(data, SetIndex(s.c, addr)), Type(data);
      && FindWay(s.atc, base, Tag(s.c, addr, super)) == (if hit then way else -1)
      && (!hit ==> spare == LastValid(s.atc, base, s.ways[ty], WAYS))
    ensures Translate(s, addr, super, data, write) ==
            Outlook(s.(random := s.random + 1), addr, super, data, write, hit, way, spare)
    ensures var base, tag := SetAt(data, SetIndex(s.c, addr)), Tag(s.c, addr, super);
      if hit then Tagged(s.atc[base + way], tag) else NoneTagged(s.atc, base, tag)
  {
    hide Refill; hide UseWay; hide SetAt; hide Tag; hide SetIndex; hide Victim; hide LastValid; hide LineRefuses;
    hide FindWay; hide Tagged;
    if !hit { SpareIsVictim(s.atc, SetAt(data, SetIndex(s.c, addr)), s.ways[Type(data)], s.random + 1); }
  }

  /** The last valid way among the first `i` of a scan, or WAYS. */
  function LastValid(atc: seq<Line>, base: nat, start: nat, i: nat): (r: nat)
    requires base + WAYS <= |atc| && start < WAYS && i <= WAYS
    ensures r <= WAYS
  {
    if i == 0 then WAYS
    else if atc[base + (start + i - 1) % WAYS].valid then (start + i - 1) % WAYS
    else LastValid(atc, base, start, i - 1)
  }

  /** None of the first `i` ways of a scan carries the tag. */
  predicate Clear(atc: seq<Line>, base: nat, start: nat, tag: nat, i: nat)
    requires base + WAYS <= |atc| && start < WAYS && i <= WAYS
  {
    i == 0 || (!Tagged(atc[base + (start + i - 1) % WAYS], tag) && Clear(atc, base, start, tag, i - 1))
  }

  lemma TaggedMeans(l: Line, tag: nat)
    ensures Tagged(l, tag) <==> l.valid && l.tag == tag
  {
  }

  lemma ClearAll(atc: seq<Line>, base: nat, start: nat, tag: nat)
    requires base + WAYS <= |atc| && start < WAYS && Clear(atc, base, start, tag, WAYS)
    ensures FindWay(atc, base, tag) == -1
  {
    assert Clear(atc, base, start, tag, 3) && Clear(atc, base, start, tag, 2) && Clear(atc, base, start, tag, 1);
  }

  /** The scan leaves the way the specification gives up. */
  lemma SpareIsVictim(atc: seq<Line>, base: nat, start: nat, random: nat)
    requires base + WAYS <= |atc| && start < WAYS
    ensures var spare := LastValid(atc, base, start, WAYS);
      (if spare < WAYS then spare else random % WAYS) == Victim(atc, base, start, random)
  {
    assert LastValid(atc, base, start, WAYS) ==
      if atc[base + (start + 3) % WAYS].valid then (start + 3) % WAYS else LastValid(atc, base, start, 3);
    assert LastValid(atc, base, start, 3) ==
      if atc[base + (start + 2) % WAYS].valid then (start + 2) % WAYS else LastValid(atc, base, start, 2);
    assert LastValid(atc, base, start, 2) ==
      if atc[base + (start + 1) % WAYS].valid then (start + 1) % WAYS else LastValid(atc, base, start, 1);
    assert LastValid(atc, base, start, 1) == if atc[base + start].valid then start else WAYS;
  }

  /** A search that is not cut short makes a line that refuses the access or allows it for good. */
  lemma LineSettles(c: Cfg, m: Mem, tag: nat, q: Ask)
    ensures var w := Walk(c, m, q); var l := LineOf(c, tag, w.res);
      && (Refused(w.res, q) <==> LineRefuses(l, q.super, q.write))
      && (LineRefuses(l, q.super, q.write) || !q.write || l.modified)
  {
    hide Walk; hide Base;
    var w := Walk(c, m, q);
    if q.write && !Refused(w.res, q) { WriteMarks(c, m, q); }
  }

  lemma FilledLine(s: State, addr: u32, super: bool, write: bool, slot: nat)
    requires slot < LINES
    ensures var w := Walk(s.c, s.mem, Ask(addr, super, write)); var t := Fill(s, addr, super, write, slot);
      && t.c == s.c && (!s.c.is60 || w.res.Page? ==> t.atc[slot] == LineOf(s.c, Tag(s.c, addr, super), w.res))
  {
    hide Walk; hide FlushFast; hide Tag; hide LineOf;
  }

  /** After a refill what is left is one more look at the line. */
  lemma RefillSteps(s: State, addr: u32, super: bool, data: bool, write: bool, way: nat)
    requires way < WAYS
    ensures var slot := SetAt(data, SetIndex(s.c, addr)) + way; var q := Ask(addr, super, write);
      var t := Fill(s.(random := s.random % WAYS), addr, super, write, slot); var u := t.(random := t.random + 1);
      var r := Refill(s, addr, super, data, write, way);
      if s.c.is60 && Refused(Walk(s.c, s.mem, q).res, q) then r == (t, PageFault)
      else
        && Settled(u, slot, super, write)
        && forall spare: nat :: Outlook(u, addr, super, data, write, true, way, spare) == r
  {
    hide Walk; hide Fill; hide Tag; hide SetIndex; hide UseWay; hide LineOf; hide LineRefuses;
    var slot := SetAt(data, SetIndex(s.c, addr)) + way;
    LineSettles(s.c, s.mem, Tag(s.c, addr, super), Ask(addr, super, write));
    FilledLine(s.(random := s.random % WAYS), addr, super, write, slot);
  }
}
