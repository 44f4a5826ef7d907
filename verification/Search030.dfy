/** The 68030 table search as the program performs it: one pass over the tables with status
    variables updated on the way, leaving early by several exits. */
module Search030 {
  import opened Words
  import opened Walk030

  lemma AppendProtected(hops: seq<Hop>, h: Hop)
    ensures Protected(hops + [h]) == (Protected(hops) || (h.live && h.d.w0.wp))
  {
    var more := hops + [h];
    assert more[|hops|] == h;
    if Protected(hops) {
      var i :| 0 <= i < |hops| && hops[i].live && hops[i].d.w0.wp;
      assert more[i] == hops[i];
    }
  }

  lemma AppendDenied(hops: seq<Hop>, h: Hop, fc: fcode)
    ensures Denied(hops + [h], fc) == (Denied(hops, fc) || (!Super(fc) && h.live && SuperOnly(h.d)))
  {
    var more := hops + [h];
    assert more[|hops|] == h;
    if Denied(hops, fc) {
      var i :| 0 <= i < |hops| && hops[i].live && SuperOnly(hops[i].d);
      assert more[i] == hops[i];
    }
  }

  function Last(hops: seq<Hop>): u32 { if hops == [] then 0 else hops[|hops| - 1].at }

  /** What a search reports: memory, status, page address, number of descriptors fetched and
      the address of the last one. */
  datatype Report = Report(mem: Mem, st: Status, page: u32, num: nat, at: u32)

  function ReportOf(w: Walked, fc: fcode): Report
  {
    Report(w.mem, StatusOf(w, fc), if w.end.Leaf? then w.end.page else 0, |w.hops|, Last(w.hops))
  }

  /** The protection bits of the status stand for the descriptors `seen` so far. */
  ghost predicate Tracks(st: Status, seen: seq<Hop>, fc: fcode)
  {
    && st.wp == Protected(seen) && st.super == Denied(seen, fc)
    && !st.busError && !st.limit && !st.invalid && !st.modified
  }

  /** Looking at the protection bits of the current descriptor. */
  function Checked(st: Status, d: Desc, num: nat, fc: fcode): Status
  {
    if num == 0 then st
    else st.(super := st.super || (SuperOnly(d) && !Super(fc)), wp := st.wp || d.w0.wp)
  }

  lemma CheckedTracks(st: Status, hops: seq<Hop>, d: Desc, fc: fcode)
    requires Tracks(st, Earlier(hops), fc)
    requires hops != [] ==> hops[|hops| - 1].d == d && hops[|hops| - 1].live
    ensures Tracks(Checked(st, d, |hops|, fc), hops, fc)
  {
    if hops != [] {
      var h := hops[|hops| - 1];
      assert hops == Earlier(hops) + [h];
      AppendProtected(Earlier(hops), h);
      AppendDenied(Earlier(hops), h, fc);
    }
  }

  /** `mmu030_table_search` from label `handle_page_descriptor` on: protection and the used
      and modified bits. `jammed` is the bus error on writing them. */
  method MarkPage(rom: set<u32>, m0: Mem, q: Query, d: Desc, st0: Status, num: nat, at: u32, ghost hops: seq<Hop>)
      returns (mem: Mem, st: Status, jammed: bool)
    requires Tracks(st0, Earlier(hops), q.fc) && num == |hops| && at == Last(hops)
    requires hops != [] ==> hops[|hops| - 1].d == d && hops[|hops| - 1].live
    ensures var w := Used(q, hops, d);
      && jammed == (w != d.w0 && hops != [] && at in rom)
      && (jammed ==> mem == m0 && st == st0 && !st.super && !Denied(hops, q.fc))
      && (!jammed ==>
            && mem == (if w != d.w0 && hops != [] then m0[at := w] else m0)
            && st == Checked(st0, d, num, q.fc).(modified := num > 0 && w.m))
    ensures !jammed ==> Tracks(st.(modified := false), hops, q.fc)
  {
    hide Protected; hide Denied; hide Earlier;
    CheckedTracks(st0, hops, d, q.fc);
    mem, st, jammed := m0, st0, false;
    var w := d.w0;
    if num > 0 {
      st := st.(super := st.super || (SuperOnly(d) && !Super(q.fc)));
      st := st.(wp := st.wp || w.wp);
      if q.level == 0 && !st.super {
        var changed := false;
        if !w.m && q.write && !st.wp {
          w := w.(m := true);
          changed := true;
        }
        if !w.u {
          w := w.(u := true);
          changed := true;
        }
        if changed {
          if at in rom { return m0, st0, true; }
          mem := mem[at := w];
        }
      }
      st := st.(modified := w.m);
    }
  }

  /** The rest of the page descriptor code: limit check and page address. */
  method HandlePage(e: Env, m0: Mem, q: Query, d: Desc, st0: Status, num: nat, at: u32, t0: nat, early: bool,
                    ghost hops: seq<Hop>)
      returns (r: Report)
    requires early ==> t0 <= e.x.last
    requires Tracks(st0, Earlier(hops), q.fc) && num == |hops| && at == Last(hops)
    requires hops != [] ==> hops[|hops| - 1].d == d && hops[|hops| - 1].live
    ensures r == ReportOf(Page(e, m0, q, hops, d, t0, early), q.fc)
  {
    var mem, st, jammed := MarkPage(e.rom, m0, q, d, st0, num, at, hops);
    hide Protected;
    hide Denied;
    hide Earlier;
    hide Used;
    hide OverLimit;
    hide Index;
    hide And;
    hide Last;
    if jammed {
      return Report(mem, st.(busError := true, invalid := true), 0, num, at);
    }
    if early && (num > 0 || !e.fcl) && OverLimit(d, Index(e.x, q.addr, t0)) {
      return Report(mem, st.(limit := true, invalid := true), 0, num, at);
    }
    var low := 0;
    if early {
      low := UnusedBits(e.x, q.addr, t0);
    }
    r := Report(mem, st, Plus(Above8(Pointer(d)), low), num, at);
  }

  /** The address bits left over by an early termination. */
  method UnusedBits(x: Tables, addr: u32, t0: nat) returns (low: nat)
    requires t0 <= x.last
    ensures low == Unused(x, addr, t0)
  {
    var t := t0 + 1;
    low := And(addr, x.mask[t0]);
    while t <= x.last
      invariant t0 < t <= x.last + 1
      invariant Unused(x, addr, t0) == low + if t <= x.last then Unused(x, addr, t) else 0
    {
      low := low + And(addr, x.mask[t]);
      t := t + 1;
    }
  }

  lemma EarlierFirst()
    ensures Earlier([]) == [] && !Protected([]) && forall fc :: !Denied([], fc)
  {
  }

  lemma AppendFacts(hops: seq<Hop>, h: Hop)
    ensures Earlier(hops + [h]) == hops && Last(hops + [h]) == h.at
    ensures (hops + [h])[|hops|] == h
  {
  }

  lemma DeadHop(hops: seq<Hop>, h: Hop, fc: fcode)
    requires !h.live
    ensures Protected(hops + [h]) == Protected(hops) && Denied(hops + [h], fc) == Denied(hops, fc)
  {
    AppendProtected(hops, h);
    AppendDenied(hops, h, fc);
  }

  /** The indirect descriptor part of the search. */
  method HandleIndirect(e: Env, m0: Mem, q: Query, d: Desc, st0: Status, num: nat, descrAddr: array<u32>,
                        ghost hops: seq<Hop>)
      returns (r: Report)
    requires Tracks(st0, hops, q.fc) && num == |hops| && 0 < num <= 5
    requires descrAddr.Length == 7 && descrAddr[num] == Last(hops)
    modifies descrAddr
    ensures r == ReportOf(Indirect(e, m0, q, hops, d), q.fc)
  {
    hide Protected;
    hide Denied;
    hide Page;
    hide Earlier;
    if q.level != 0 && q.level == num {
      return Report(m0, st0, 0, num, descrAddr[num]);
    }
    var a := Above2(Pointer(d));
    descrAddr[num + 1] := a;
    var f := Fetch(m0, a, d.w0.ty == 3);
    if f.None? {
      return Report(m0, st0.(busError := true, invalid := true), 0, num, descrAddr[num]);
    }
    var n := f.value;
    ghost var h := Hop(a, n, n.w0.ty == 1);
    AppendFacts(hops, h);
    if n.w0.ty != 1 {
      DeadHop(hops, h, q.fc);
      return Report(m0, st0.(invalid := true), 0, num + 1, descrAddr[num + 1]);
    }
    r := HandlePage(e, m0, q, n, st0, num + 1, descrAddr[num + 1], 4, false, hops + [h]);
  }

  /** The top of one round of the upper level loop: protection and the used bit. */
  method VisitTable(rom: set<u32>, m0: Mem, q: Query, d: Desc, st0: Status, num: nat, at: u32, ghost hops: seq<Hop>)
      returns (mem: Mem, st: Status, jammed: bool)
    requires Tracks(st0, Earlier(hops), q.fc) && num == |hops| && at == Last(hops)
    requires hops != [] ==> hops[|hops| - 1].d == d && hops[|hops| - 1].live
    ensures jammed <==> MustMark(q, hops, d) && at in rom
    ensures jammed ==> mem == m0 && st == st0 && !st.super && !Denied(hops, q.fc)
    ensures !jammed ==> mem == MarkUsed(m0, q, hops, d) && Tracks(st, hops, q.fc)
  {
    hide Protected; hide Denied; hide Earlier;
    CheckedTracks(st0, hops, d, q.fc);
    mem, st, jammed := m0, st0, false;
    if num > 0 {
      st := st.(super := st.super || (SuperOnly(d) && !Super(q.fc)));
      st := st.(wp := st.wp || d.w0.wp);
      if q.level == 0 && !d.w0.u && !st.super {
        if at in rom { return m0, st0, true; }
        mem := mem[at := d.w0.(u := true)];
      }
    }
  }

  /** Where a descriptor `n` fetched from table level `t` at address `a` leads. */
  ghost function Onward(e: Env, m: Mem, q: Query, hops: seq<Hop>, a: u32, n: Desc, t: nat): Walked
    requires t <= e.x.last
  {
    if n.w0.ty == 0 then Walked(m, hops + [Hop(a, n, false)], Invalid)
    else if n.w0.ty == 1 then Page(e, m, q, hops + [Hop(a, n, true)], n, t + 1, t + 1 <= e.x.last)
    else if t + 1 <= e.x.last then Table(e, m, q, hops + [Hop(a, n, true)], n, t + 1)
    else Indirect(e, m, q, hops + [Hop(a, n, false)], n)
  }

  /** How a round ends. */
  lemma TableGoes(e: Env, m0: Mem, q: Query, hops: seq<Hop>, d: Desc, t: nat)
    requires t <= e.x.last && !(MustMark(q, hops, d) && Last(hops) in e.rom)
    ensures var w, m, index := Table(e, m0, q, hops, d, t), MarkUsed(m0, q, hops, d), Index(e.x, q.addr, t);
      var a, stop := Entry(d, index), |hops| > 0 && q.level == |hops|; var f := Fetch(m, a, Wide(d));
      && (stop ==> w == Walked(m, hops, Stopped))
      && (!stop && OverLimit(d, index) ==> w == Walked(m, hops, Limit))
      && (!stop && !OverLimit(d, index) ==>
            w == if f.None? then Walked(m, hops, Broken) else Onward(e, m, q, hops, a, f.value, t))
  {
    hide Denied; hide Page; hide Indirect; hide MarkUsed; hide OverLimit; hide Index; hide Entry; hide Fetch;
  }

  /** The type of the descriptor just fetched: the search is over, or `n` is a table descriptor for
      the next round. */
  method Follow(e: Env, mem: Mem, q: Query, n: Desc, st: Status, num: nat, t: nat, descrAddr: array<u32>,
                ghost hops: seq<Hop>)
      returns (over: bool, r: Report)
    requires t <= e.x.last && num == |hops| + 1 <= t + 2 && Tracks(st, hops, q.fc)
    requires descrAddr.Length == 7
    modifies descrAddr
    ensures over ==> r == ReportOf(Onward(e, mem, q, hops, old(descrAddr[num]), n, t), q.fc)
    ensures !over ==> t + 1 <= e.x.last && n.w0.ty >= 2 && descrAddr[..] == old(descrAddr[..])
  {
    hide Protected; hide Denied; hide Page; hide Indirect; hide Earlier; hide Table;
    ghost var h := Hop(descrAddr[num], n, n.w0.ty == 1 || (n.w0.ty >= 2 && t + 1 <= e.x.last));
    AppendFacts(hops, h);
    over, r := true, Report(mem, st.(invalid := true), 0, num, descrAddr[num]);
    if n.w0.ty == 0 {
      DeadHop(hops, h, q.fc);
    } else if n.w0.ty == 1 {
      r := HandlePage(e, mem, q, n, st, num, descrAddr[num], t + 1, t + 1 <= e.x.last, hops + [h]);
    } else if t + 1 > e.x.last {
      DeadHop(hops, h, q.fc);
      r := HandleIndirect(e, mem, q, n, st, num, descrAddr, hops + [h]);
    } else {
      over := false;
    }
  }

  /** The rest of the round: level and limit checks, the next descriptor and where it leads. */
  method Descend(e: Env, mem: Mem, q: Query, d: Desc, st: Status, num: nat, t: nat, descrAddr: array<u32>,
                 ghost hops: seq<Hop>, ghost m0: Mem)
      returns (over: bool, r: Report, n: Desc)
    requires t <= e.x.last && num == |hops| <= t + 1
    requires mem == MarkUsed(m0, q, hops, d) && Tracks(st, hops, q.fc)
    requires !(MustMark(q, hops, d) && Last(hops) in e.rom)
    requires descrAddr.Length == 7 && descrAddr[num] == Last(hops)
    modifies descrAddr
    ensures over ==> r == ReportOf(Table(e, m0, q, hops, d, t), q.fc)
    ensures !over ==>
      && t + 1 <= e.x.last && n.w0.ty >= 2
      && Table(e, mem, q, hops + [Hop(descrAddr[num + 1], n, true)], n, t + 1) == Table(e, m0, q, hops, d, t)
  {
    hide Protected; hide Denied; hide Page; hide Indirect; hide Earlier; hide MarkUsed; hide OverLimit; hide Index;
    hide Entry; hide Fetch; hide Table; hide MustMark;
    TableGoes(e, m0, q, hops, d, t);
    over, n := true, d;
    if num > 0 && q.level != 0 && q.level == num {
      r := Report(mem, st, 0, num, descrAddr[num]);
      return;
    }
    var index := Index(e.x, q.addr, t);
    if OverLimit(d, index) {
      r := Report(mem, st.(limit := true, invalid := true), 0, num, descrAddr[num]);
      return;
    }
    descrAddr[num + 1] := Entry(d, index);
    var f := Fetch(mem, descrAddr[num + 1], d.w0.ty == 3);
    if f.None? {
      r := Report(mem, st.(busError := true, invalid := true), 0, num, descrAddr[num]);
      return;
    }
    n := f.value;
    over, r := Follow(e, mem, q, n, st, num + 1, t, descrAddr, hops);
  }

  lemma JamReport(e: Env, m: Mem, q: Query, hops: seq<Hop>, d: Desc, t: nat, st: Status)
    requires t <= e.x.last && Tracks(st, Earlier(hops), q.fc) && !st.super && !Denied(hops, q.fc)
    requires MustMark(q, hops, d) && Last(hops) in e.rom
    ensures ReportOf(Table(e, m, q, hops, d, t), q.fc) ==
      Report(m, st.(busError := true, invalid := true), 0, |hops|, Last(hops))
  {
    hide Protected; hide Denied; hide MarkUsed; hide OverLimit; hide Index; hide Page; hide Indirect; hide Earlier;
  }

  /** The upper level loop and what follows it. */
  method UpperTables(e: Env, m0: Mem, q: Query, d0: Desc, st0: Status, num0: nat, descrAddr: array<u32>,
                     ghost hops0: seq<Hop>)
      returns (r: Report)
    requires Tracks(st0, Earlier(hops0), q.fc) && num0 == |hops0| <= 1 && d0.w0.ty >= 2
    requires hops0 != [] ==> hops0[|hops0| - 1].d == d0 && hops0[|hops0| - 1].live
    requires descrAddr.Length == 7 && descrAddr[num0] == Last(hops0)
    modifies descrAddr
    ensures r == ReportOf(Table(e, m0, q, hops0, d0, 0), q.fc)
  {
    hide Protected; hide Denied; hide Earlier; hide Table; hide MarkUsed; hide MustMark; hide ReportOf;
    var mem: Mem, st, d, num, t := m0, st0, d0, num0, 0;
    ghost var hops := hops0;
    while true
      invariant 0 <= t <= e.x.last && num == |hops| <= t + 1
      invariant descrAddr[num] == Last(hops) && d.w0.ty >= 2
      invariant hops != [] ==> hops[|hops| - 1].d == d && hops[|hops| - 1].live
      invariant Tracks(st, Earlier(hops), q.fc)
      invariant Table(e, mem, q, hops, d, t) == Table(e, m0, q, hops0, d0, 0)
      decreases 4 - t
    {
      ghost var was := mem;
      var jammed;
      mem, st, jammed := VisitTable(e.rom, mem, q, d, st, num, descrAddr[num], hops);
      if jammed {
        JamReport(e, was, q, hops, d, t, st);
        return Report(mem, st.(busError := true, invalid := true), 0, num, descrAddr[num]);
      }
      var over, n;
      over, r, n := Descend(e, mem, q, d, st, num, t, descrAddr, hops, was);
      if over {
        return;
      }
      ghost var h := Hop(descrAddr[num + 1], n, true);
      AppendFacts(hops, h);
      hops, d, num, t := hops + [h], n, num + 1, t + 1;
    }
  }

  /** `mmu030_table_search` up to its common exit. `descrAddr` has room for the root pointer
      and six fetched descriptors. */
  method TableWalk(e: Env, m0: Mem, q: Query) returns (r: Report)
    ensures r == ReportOf(Walk(e, m0, q), q.fc)
  {
    hide Page;
    hide Table;
    hide Protected;
    hide Denied;
    hide Earlier;
    var st := Status(false, false, false, false, false, false);
    var descrAddr := new u32[7](_ => 0);
    EarlierFirst();
    var d := RootOf(e, q.fc);
    if d.w0.ty == 0 {
      return Report(m0, st.(invalid := true), 0, 0, descrAddr[0]);
    }
    if d.w0.ty == 1 {
      r := HandlePage(e, m0, q, d, st, 0, descrAddr[0], 0, true, []);
      return;
    }
    if e.fcl {
      var a := Entry(d, q.fc);
      descrAddr[1] := a;
      var f := Fetch(m0, a, d.w0.ty == 3);
      if f.None? {
        return Report(m0, st.(busError := true, invalid := true), 0, 0, descrAddr[0]);
      }
      var n := f.value;
      ghost var h := Hop(a, n, n.w0.ty != 0);
      AppendFacts([], h);
      assert [] + [h] == [h];
      if n.w0.ty == 0 {
        DeadHop([], h, q.fc);
        return Report(m0, st.(invalid := true), 0, 1, descrAddr[1]);
      }
      if n.w0.ty == 1 {
        r := HandlePage(e, m0, q, n, st, 1, descrAddr[1], 0, true, [h]);
        return;
      }
      r := UpperTables(e, m0, q, n, st, 1, descrAddr, [h]);
      return;
    }
    r := UpperTables(e, m0, q, d, st, 0, descrAddr, []);
  }
}
