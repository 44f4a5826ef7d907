/** The restart machinery of the 68030 as it runs: logged accesses, indexed addresses with
    their memo, fault frames, RTE and the rerun loop. */
module Core030 {
  import opened Words
  import opened Bus030
  import opened Access030
  import opened Program030
  import opened Ea020
  import opened Restart030

  /** A request has faulted, in the world `w`; `g` are the flags without progress bits. */
  ghost predicate PendingAt(q: Req, w: World, g: Flags, m: Bytes, t: seq<Touch>, f: Flags, buf: u32, flt: Fault)
  {
    match q
    case Read(a, n) => m == w.mem && PendingRead(a, n, g, w.trace, m, t, f, buf, flt)
    case Write(a, n, v) => PendingWrite(a, n, v, g, w.mem, w.trace, m, t, f, buf, flt)
    case Fetch(_) => !flt.df && flt.read && m == w.mem && t == w.trace && SubClear(g) && f == g
    case Peek(_, _) => !flt.df && flt.read && m == w.mem && t == w.trace && SubClear(g) && f == g
    case Note(_) => false
  }

  lemma PendingFlags(q: Req, w: World, g: Flags, m: Bytes, t: seq<Touch>, f: Flags, buf: u32, flt: Fault)
    requires PendingAt(q, w, g, m, t, f, buf, flt)
    ensures Cleared(f) == g && SubClear(g)
  {
  }

  function Nibble(adds: nat, i: nat): nat { if i == 0 then adds % 16 else adds / 16 % 16 }

  function HasMemo(f: Flags, i: nat): bool { if i == 0 then f.disp0 else f.disp1 }

  ghost predicate FlagsOk(f: Flags, adds: nat, used: set<nat>)
  {
    && adds < 256
    && (HasMemo(f, 0) <==> 0 in used) && (HasMemo(f, 1) <==> 1 in used)
    && (0 !in used ==> Nibble(adds, 0) == 0) && (1 !in used ==> Nibble(adds, 1) == 0)
  }

  ghost predicate EntriesOk(disp: seq<u32>, adds: nat, hist: seq<Entry>, used: set<nat>)
    requires |disp| == 2
  {
    forall k :: 0 <= k < |hist| && hist[k].Memo? ==>
      hist[k].i < 2 && hist[k].i in used && disp[hist[k].i] == hist[k].v && Nibble(adds, hist[k].i) == hist[k].adds
  }

  /** The memo holds the indexed addresses of the history, and no others. */
  ghost predicate MemoOk(f: Flags, disp: seq<u32>, adds: nat, hist: seq<Entry>)
    requires |disp| == 2
  {
    FlagsOk(f, adds, UsedMemos(hist)) && EntriesOk(disp, adds, hist, UsedMemos(hist))
  }

  class Core {
    const bus: Bus
    var idx: nat            // mmu030_idx
    var idxDone: nat        // mmu030_idx_done
    const ad: array<u32>    // mmu030_ad
    var disp: seq<u32>      // mmu030_disp_store
    var adds: nat           // mmu030_state[2]: words per memo, four bits each
    var count: nat          // mmu030_state[0]
    var store: seq<u32>     // mmu030_fmovem_store
    var pc: u32
    var ipc: u32            // instruction_pc
    ghost var pos: Pos      // how far the instruction has come
    ghost var pw: World     // the world before a faulted access
    ghost var left: nat     // steps left

    constructor (b: Bus)
      ensures Valid() && bus == b && fresh(ad)
    {
      bus := b;
      ad := new u32[LOG](_ => 0);
      idx, idxDone, disp, adds, count, store, pc, ipc := 0, 0, [0, 0], 0, 0, [0, 0], 0, 0;
      pos, pw, left := Pos([], false, []), World(map[], 0, []), 0;
    }

    ghost predicate Valid()
      reads this
    {
      ad.Length == LOG && |disp| == 2 && |store| == 2
    }

    ghost function Now(): World
      reads this, bus
    {
      World(bus.mem, pc, bus.trace)
    }

    // -------------------------------------------------------------- logged accesses

    /** A request answered from the log: no bus cycle, the same value, the same advance. */
    twostate predicate Replayed(q: Req, ok: bool, v: u32)
      requires old(Valid()) && old(idx) < LOG
      reads this, ad, bus
    {
      && ok && v == old(ad[idx]) && idx == old(idx) + 1 && idxDone == old(idxDone) && ad[..] == old(ad[..])
      && pc == Plus(old(pc), Adv(q)) && unchanged(bus)
    }

    /** A request done on the bus and logged, or faulted. */
    twostate predicate Done(q: Req, ok: bool, v: u32)
      requires old(Valid()) && old(idxDone) < LOG
      reads this, ad, bus
    {
      && Valid()
      && (ok ==>
            && (Now(), v) == Do(q, old(Now())) && idx == old(idx) + 1 && idxDone == old(idxDone) + 1
            && ad[..idxDone] == old(ad[..idxDone]) + [v] && bus.f == old(bus.f) && |bus.fate| <= old(|bus.fate|))
      && (!ok ==>
            && PendingAt(q, old(Now()), old(bus.f), bus.mem, bus.trace, bus.f, bus.buf, bus.flt)
            && idxDone == old(idxDone) && ad[..idxDone] == old(ad[..idxDone]) && |bus.fate| < old(|bus.fate|))
    }

    /** `get_*_mmu030_state`. */
    method GetState(a: u32, n: size) returns (ok: bool, v: u32)
      requires Valid() && idx <= idxDone < LOG && SubClear(bus.f)
      modifies this`idx, this`idxDone, this`pc, ad, bus
      ensures if old(idx < idxDone) then Replayed(Read(a, n), ok, v) else Done(Read(a, n), ok, v)
    {
      hide PendingRead; hide Load; hide Touches;
      idx := idx + 1;
      if idx - 1 < idxDone {
        PlusZero(pc);
        return true, ad[idx - 1];
      }
      ok, v := bus.Get(a, n);
      if ok {
        ad[idxDone] := v;
        idxDone := idxDone + 1;
      }
    }

    /** `put_*_mmu030_state`. */
    method PutState(a: u32, v: u32, n: size) returns (ok: bool)
      requires Valid() && idx <= idxDone < LOG && SubClear(bus.f) && (idx < idxDone ==> ad[idx] == v)
      modifies this`idx, this`idxDone, this`pc, ad, bus
      ensures if old(idx < idxDone) then Replayed(Write(a, n, v), ok, v) else Done(Write(a, n, v), ok, v)
    {
      hide PendingWrite; hide Store; hide Touches;
      idx := idx + 1;
      if idx - 1 < idxDone {
        PlusZero(pc);
        return true;
      }
      bus.buf := v;
      ok := bus.Put(a, v, n);
      if ok {
        ad[idxDone] := bus.buf;
        idxDone := idxDone + 1;
      }
    }

    /** An instruction fetch; a longword off a longword boundary is fetched as two words. */
    method FetchCode(a: u32, m: code) returns (ok: bool, v: u32)
      modifies bus`fate, bus`flt
      ensures ok ==> v == Load(bus.mem, a, m) && |bus.fate| <= old(|bus.fate|)
      ensures !ok ==> |bus.fate| < old(|bus.fate|) && !bus.flt.df && bus.flt.read
    {
      v := 0;
      var halves := if m == 4 && a % 4 != 0 then 2 else 1;
      var i := 0;
      while i < halves
        invariant |bus.fate| <= old(|bus.fate|)
      {
        var at := Plus(a, 2 * i);
        ok := bus.Cycle(true, at, 2);
        if !ok {
          bus.flt := Fault(false, true, at, 2);
          return;
        }
        i := i + 1;
      }
      ok, v := true, Value(bus.mem, a, m);
    }

    /** `next_iword_mmu030_state` and `next_ilong_mmu030_state`. */
    method NextState(m: code) returns (ok: bool, v: u32)
      requires Valid() && idx <= idxDone < LOG && SubClear(bus.f)
      modifies this`idx, this`idxDone, this`pc, ad, bus
      ensures if old(idx < idxDone) then Replayed(Fetch(m), ok, v) else Done(Fetch(m), ok, v)
    {
      hide Load; hide Plus;
      idx := idx + 1;
      if idx - 1 < idxDone {
        v := ad[idx - 1];
        pc := Plus(pc, m);
        return true, v;
      }
      ok, v := FetchCode(pc, m);
      if ok {
        bus.trace := bus.trace + [Ins(pc, m)];
        pc := Plus(pc, m);
        ad[idxDone] := v;
        idxDone := idxDone + 1;
      }
    }

    /** `get_iword_mmu030_state` and `get_ilong_mmu030_state`. */
    method PeekState(o: u32, m: code) returns (ok: bool, v: u32)
      requires Valid() && idx <= idxDone < LOG && SubClear(bus.f)
      modifies this`idx, this`idxDone, this`pc, ad, bus
      ensures if old(idx < idxDone) then Replayed(Peek(o, m), ok, v) else Done(Peek(o, m), ok, v)
    {
      hide Load; hide Plus;
      idx := idx + 1;
      if idx - 1 < idxDone {
        PlusZero(pc);
        return true, ad[idx - 1];
      }
      ok, v := FetchCode(Plus(pc, o), m);
      if ok {
        bus.trace := bus.trace + [Ins(Plus(pc, o), m)];
        ad[idxDone] := v;
        idxDone := idxDone + 1;
      }
    }

    /** `state_store_mmu030`. */
    method StoreState(v0: u32) returns (v: u32)
      requires Valid() && idx <= idxDone < LOG && SubClear(bus.f)
      modifies this`idx, this`idxDone, this`pc, ad, bus
      ensures if old(idx < idxDone) then Replayed(Note(v0), true, v) else Done(Note(v0), true, v)
    {
      idx := idx + 1;
      v := v0;
      if idx - 1 < idxDone {
        PlusZero(pc);
        v := ad[idx - 1];
      } else {
        ad[idxDone] := v;
        idxDone := idxDone + 1;
      }
    }

    /** Any logged request. */
    method Request(q: Req) returns (ok: bool, v: u32)
      requires Valid() && idx <= idxDone < LOG && SubClear(bus.f) && (idx < idxDone && q.Write? ==> ad[idx] == q.v)
      modifies this`idx, this`idxDone, this`pc, ad, bus
      ensures if old(idx < idxDone) then Replayed(q, ok, v) else Done(q, ok, v)
    {
      hide PendingAt; hide Do; hide Plus;
      match q
      case Read(a, n) => ok, v := GetState(a, n);
      case Write(a, n, w) =>
        ok := PutState(a, w, n);
        v := w;
      case Fetch(m) => ok, v := NextState(m);
      case Peek(o, m) => ok, v := PeekState(o, m);
      case Note(w) =>
        v := StoreState(w);
        ok := true;
    }

    // -------------------------------------------------------------- the instruction as a whole

    /** The log and the memo hold exactly what the instruction has done. */
    ghost predicate Inv(p: Prog, goal: Finish)
      reads this, ad, bus
    {
      && Valid() && Sound(p, ipc, pos, pw, left, goal)
      && idxDone == |Logged(pos)| <= 9 && ad[..idxDone] == Logged(pos)
      && MemoOk(Cleared(bus.f), disp, adds, pos.hist) && !bus.f.movem1 && !bus.f.fmovem && !bus.f.last
    }

    /** No access is under way. */
    ghost predicate Calm()
      reads this, bus
    {
      bus.mem == pw.mem && bus.trace == pw.trace && SubClear(bus.f)
    }

    /** The access the instruction stands at has faulted. */
    ghost predicate Stopped(p: Prog)
      reads this, bus
    {
      && Asked(p, pos).Some?
      && PendingAt(Asked(p, pos).value, pw, Cleared(bus.f), bus.mem, bus.trace, bus.f, bus.buf, bus.flt)
    }

    /** A request done on the bus, at the position where the log ends. */
    method Advance(q: Req, ghost p: Prog, ghost goal: Finish) returns (ok: bool, v: u32)
      requires Inv(p, goal) && Calm() && Asked(p, pos) == Some(q) && idx == idxDone && pc == pw.pc
      modifies this`idx, this`idxDone, this`pc, this`pos, this`pw, this`left, ad, bus
      ensures Inv(p, goal)
      ensures ok ==> Calm() && idx == idxDone && pc == pw.pc && pos == Pushed(old(pos), v, Adv(q)) &&
                     |bus.fate| <= old(|bus.fate|)
      ensures ok ==> left == if old(pos).open then old(left) else old(left) - 1
      ensures !ok ==> Stopped(p) && |bus.fate| < old(|bus.fate|)
    {
      hide PendingAt; hide Do; hide Sound; hide Asked; hide MemoOk; hide Logged; hide Pushed; hide Plus; hide Adv;
      SoundStep(p, ipc, pos, pw, left, goal, q);
      ghost var w, f0, n := pw, bus.f, left;
      assert World(bus.mem, pc, bus.trace) == w;
      ok, v := Request(q);
      if ok {
        PushKeepsMemo(Cleared(bus.f), disp, adds, pos, v, Adv(q));
        if !pos.open { left := n - 1; }
        pos := Pushed(pos, v, Adv(q));
        pw := Do(q, w).0;
      } else {
        PendingFlags(q, w, f0, bus.mem, bus.trace, bus.f, bus.buf, bus.flt);
      }
    }

    /** Where an address calculation has come to: `h` are the values it has been given. */
    ghost predicate InEa(p: Prog, regs: Regs, goal: Finish, hist: seq<Entry>, base: u32, h: seq<u32>)
      reads this, ad, bus
    {
      && Inv(p, goal) && Calm() && pos.open && pos.hist == hist && AddressOf(p, hist) == Some((base, regs))
      && |h| <= |pos.inner| && h == pos.inner[..|h|]
      && idx == |LogOf(hist)| + |h| && pc == EaPc(base, regs, PcAfter(ipc, hist), h)
    }

    /** An access of an address calculation that is in the log. */
    method EaReplay(q: Req, ghost p: Prog, ghost regs: Regs, ghost goal: Finish, ghost hist: seq<Entry>,
                    ghost base: u32, ghost h: seq<u32>)
      returns (v: u32)
      requires InEa(p, regs, goal, hist, base, h) && EaNext(base, regs, h) == More(q) && idx < idxDone
      modifies this`idx, this`idxDone, this`pc, ad, bus
      ensures InEa(p, regs, goal, hist, base, h + [v]) && bus.fate == old(bus.fate)
    {
      hide PendingAt; hide Sound; hide MemoOk; hide EaNext; hide Plus; hide EaPc; hide Asked; hide Along; hide Stopped;
      hide LogOf; hide PcAfter; hide AddressOf; hide Do; hide Cleared; hide PendingRead; hide PendingWrite;
      EaStands(p, ipc, pos, pw, left, goal, base, regs);
      ghost var k := |h|;
      EaReplays(base, regs, PcAfter(ipc, hist), pos.inner, k);
      var ok;
      ok, v := Request(q);
      assert v == pos.inner[k];
      assert h + [v] == pos.inner[..k + 1];
    }

    /** An access of an address calculation, from the log or on the bus. */
    method EaAsk(q: Req, ghost p: Prog, ghost regs: Regs, ghost goal: Finish, ghost hist: seq<Entry>, ghost base: u32,
                 ghost h: seq<u32>)
      returns (ok: bool, v: u32)
      requires InEa(p, regs, goal, hist, base, h) && EaNext(base, regs, h) == More(q)
      modifies this`idx, this`idxDone, this`pc, this`pos, this`pw, this`left, ad, bus
      ensures ok ==> InEa(p, regs, goal, hist, base, h + [v]) && left == old(left) && |bus.fate| <= old(|bus.fate|)
      ensures !ok ==> Inv(p, goal) && Stopped(p) && |bus.fate| < old(|bus.fate|)
    {
      hide PendingAt; hide Sound; hide MemoOk; hide EaNext; hide Plus; hide EaPc; hide Asked; hide Along; hide Stopped;
      hide LogOf; hide PcAfter; hide AddressOf; hide Do; hide Cleared; hide PendingRead; hide PendingWrite;
      if idx < idxDone {
        ok := true;
        v := EaReplay(q, p, regs, goal, hist, base, h);
        return;
      }
      EaStands(p, ipc, pos, pw, left, goal, base, regs);
      assert h == pos.inner;
      ok, v := Advance(q, p, goal);
      if ok {
        EaPcNow(p, ipc, pos, pw, left, goal, base, regs);
        assert pos.inner == h + [v];
      }
    }

    /** The displacements of the full extension format. `h` are the values the calculation was
        given; what is left is the indexing and indirection on `base` and `outer`. */
    method EaDisplacements(base0: u32, dp: u32, ghost regd: u32, ghost p: Prog, ghost regs: Regs, ghost goal: Finish,
                           ghost hist: seq<Entry>, ghost org: u32)
      returns (ok: bool, base: u32, outer: u32, pcadd: nat, ghost h: seq<u32>)
      requires InEa(p, regs, goal, hist, org, [dp]) && Full(dp)
      requires base0 == (if dp / 0x80 % 2 == 1 then 0 else org) &&
               regd == (if dp / 0x40 % 2 == 1 then 0 else Index(dp, regs))
      modifies this`idx, this`idxDone, this`pc, this`pos, this`pw, this`left, ad, bus
      ensures ok ==> InEa(p, regs, goal, hist, org, h) && TailOf(org, regs, h, base, outer, regd, dp, pcadd) &&
                     left == old(left) && |bus.fate| <= old(|bus.fate|)
      ensures !ok ==> Inv(p, goal) && Stopped(p) && |bus.fate| < old(|bus.fate|)
    {
      hide InEa; hide Inv; hide Stopped; hide Index; hide SignExt; hide Plus; hide EaNext; hide EaFull; hide TailOf;
      hide Full;
      var x;
      base, outer, h, pcadd := base0, 0, [dp], 1;
      Stages(org, regs, h);
      if dp / 0x10 % 4 == 2 {
        ok, x := EaAsk(Fetch(2), p, regs, goal, hist, org, h);
        if !ok { return; }
        h := h + [x];
        base := Plus(base, SignExt(x, 16));
        pcadd := pcadd + 1;
      }
      if dp / 0x10 % 4 == 3 {
        ok, x := EaAsk(Fetch(4), p, regs, goal, hist, org, h);
        if !ok { return; }
        h := h + [x];
        base := Plus(base, x);
        pcadd := pcadd + 2;
      }
      Stages(org, regs, h);
      if dp % 4 == 2 {
        ok, x := EaAsk(Fetch(2), p, regs, goal, hist, org, h);
        if !ok { return; }
        h := h + [x];
        outer := SignExt(x, 16);
        pcadd := pcadd + 1;
      }
      if dp % 4 == 3 {
        ok, x := EaAsk(Fetch(4), p, regs, goal, hist, org, h);
        if !ok { return; }
        h := h + [x];
        outer := x;
        pcadd := pcadd + 2;
      }
      ok := true;
      TailReached(org, regs, h);
    }

    /** The rest of the full extension format: indirection before or after indexing. */
    method EaIndirect(base0: u32, outer: u32, regd: u32, dp: u32, pcadd: nat, ghost h0: seq<u32>, ghost p: Prog,
                      ghost regs: Regs, ghost goal: Finish, ghost hist: seq<Entry>, ghost org: u32)
      returns (ok: bool, v: u32, ghost h: seq<u32>)
      requires InEa(p, regs, goal, hist, org, h0) && TailOf(org, regs, h0, base0, outer, regd, dp, pcadd)
      modifies this`idx, this`idxDone, this`pc, this`pos, this`pw, this`left, ad, bus
      ensures ok ==> InEa(p, regs, goal, hist, org, h) && EaNext(org, regs, h) == Ret(v, pcadd) && left == old(left) &&
                     |bus.fate| <= old(|bus.fate|)
      ensures !ok ==> Inv(p, goal) && Stopped(p) && |bus.fate| < old(|bus.fate|)
    {
      hide InEa; hide Inv; hide Stopped; hide Plus; hide EaNext;
      var base := base0;
      h, v := h0, 0;
      if dp / 4 % 2 == 0 { base := Plus(base, regd); }
      if dp % 4 != 0 {
        var x;
        ok, x := EaAsk(Read(base, 4), p, regs, goal, hist, org, h);
        if !ok { return; }
        h := h + [x];
        base := x;
      }
      if dp / 4 % 2 == 1 { base := Plus(base, regd); }
      ok, v := true, Plus(base, outer);
    }

    /** The accesses and arithmetic of `get_disp_ea_020_mmu030`. */
    method EaCompute(base: u32, regs: Regs, ghost p: Prog, ghost goal: Finish, ghost hist: seq<Entry>)
      returns (ok: bool, v: u32, pcadd: nat, ghost h: seq<u32>)
      requires InEa(p, regs, goal, hist, base, [])
      modifies this`idx, this`idxDone, this`pc, this`pos, this`pw, this`left, ad, bus
      ensures ok ==> InEa(p, regs, goal, hist, base, h) && EaNext(base, regs, h) == Ret(v, pcadd) &&
                     left == old(left) && |bus.fate| <= old(|bus.fate|)
      ensures !ok ==> Inv(p, goal) && Stopped(p) && |bus.fate| < old(|bus.fate|)
    {
      hide InEa; hide Inv; hide Stopped; hide Plus; hide EaNext; hide Index; hide EaFull;
      v, pcadd, h := 0, 1, [];
      BriefNext(base, regs, h);
      var dp;
      ok, dp := EaAsk(Fetch(2), p, regs, goal, hist, base, h);
      if !ok { return; }
      h := [dp];
      assert [] + [dp] == h;
      BriefNext(base, regs, h);
      var regd := Index(dp, regs);
      if dp / 0x100 % 2 == 1 {
        var org := if dp / 0x80 % 2 == 1 then 0 else base;
        if dp / 0x40 % 2 == 1 { regd := 0; }
        var b, outer;
        ok, b, outer, pcadd, h := EaDisplacements(org, dp, regd, p, regs, goal, hist, base);
        if !ok { return; }
        ok, v, h := EaIndirect(b, outer, regd, dp, pcadd, h, p, regs, goal, hist, base);
      } else {
        v := Plus(Plus(base, SignExt(dp, 8)), regd);
      }
    }

    /** `get_disp_ea_020_mmu030` when the address is not in the memo yet: its accesses leave the
        log as they found it, and the memo holds the address. */
    method EaFresh(base: u32, i: nat, regs: Regs, ghost p: Prog, ghost goal: Finish, ghost hist: seq<Entry>)
      returns (ok: bool, v: u32)
      requires InEa(p, regs, goal, hist, base, []) && p(Values(hist)) == Address(i, base, regs)
      modifies this`idx, this`idxDone, this`pc, this`disp, this`adds, this`pos, this`pw, this`left, ad, bus
      ensures Inv(p, goal)
      ensures ok ==> Calm() && !pos.open && idx == idxDone == old(idx) && pc == pw.pc && left == old(left)
      ensures ok ==> exists k :: pos.hist == hist + [Memo(v, i, k)]
      ensures ok ==> |bus.fate| <= old(|bus.fate|)
      ensures !ok ==> Stopped(p) && |bus.fate| < old(|bus.fate|)
    {
      hide Sound; hide MemoOk; hide PendingAt; hide EaNext; hide EaPc; hide PcAfter; hide LogOf; hide Asked;
      hide UsedMemos; hide Cleared; hide Values;
      var oldidx := idx;
      var pcadd;
      ghost var h;
      ok, v, pcadd, h := EaCompute(base, regs, p, goal, hist);
      if !ok { return; }
      EaClose(v, i, pcadd, oldidx, p, regs, goal, hist, base, h);
    }

    /** A finished address calculation goes into the memo and leaves the log. */
    method EaClose(v: u32, i: nat, pcadd: nat, oldidx: nat, ghost p: Prog, ghost regs: Regs, ghost goal: Finish,
                   ghost hist: seq<Entry>, ghost base: u32, ghost h: seq<u32>)
      requires InEa(p, regs, goal, hist, base, h) && p(Values(hist)) == Address(i, base, regs) &&
               EaNext(base, regs, h) == Ret(v, pcadd) && oldidx == |LogOf(hist)|
      modifies this`idx, this`idxDone, this`disp, this`adds, this`pos, bus`f
      ensures Inv(p, goal) && Calm() && !pos.open && idx == idxDone == oldidx && pc == pw.pc
      ensures pos.hist == hist + [Memo(v, i, pcadd)]
    {
      hide Sound; hide MemoOk; hide EaNext; hide EaPc; hide PcAfter; hide LogOf; hide UsedMemos; hide Values;
      hide Cleared;
      EaDone(p, ipc, pos, pw, left, goal, base, regs, h);
      MemoGrows(bus.f, disp, adds, hist, v, i, pcadd);
      ClearedStays(bus.f);
      bus.f := if i == 0 then bus.f.(disp0 := true) else bus.f.(disp1 := true);
      adds := adds + if i == 0 then pcadd else pcadd * 16;
      disp := disp[i := v];
      idx, idxDone := oldidx, oldidx;
      pos := Pos(hist + [Memo(v, i, pcadd)], false, []);
      assert ad[..idxDone] == LogOf(hist);
      assert LogOf(hist) == Logged(pos);
    }

    /** Where a rerun has come to: `k` steps of the history are behind it. */
    ghost predicate At(p: Prog, goal: Finish, h: seq<u32>, k: nat)
      reads this, ad, bus
    {
      && Inv(p, goal) && Calm() && k <= |pos.hist| && h == Values(pos.hist[..k])
      && idx == |LogOf(pos.hist[..k])| && pc == PcAfter(ipc, pos.hist[..k])
    }

    /** A step of the history run again: the value comes from the log or the memo, no bus cycle
        happens, and the program counter moves as it did. */
    method Repeat(act: Act, ghost p: Prog, ghost goal: Finish, ghost h: seq<u32>, ghost k: nat) returns (v: u32)
      requires At(p, goal, h, k) && k < |pos.hist| && act == p(h)
      modifies this`idx, this`idxDone, this`pc, ad, bus
      ensures At(p, goal, h + [v], k + 1) && bus.fate == old(bus.fate)
    {
      hide Sound; hide EntriesOk; hide FlagsOk; hide LogOf; hide PcAfter; hide Plus; hide UsedMemos; hide Do;
      hide PendingAt; hide Values;
      ReplayStep(pos.hist, k, ipc);
      Repeats(p, ipc, pos, pw, left, goal, k);
      if pos.hist[k].Memo? { MemoEntry(bus.f, disp, adds, pos.hist, k); }
      if act.Ask? {
        assert ad[..idxDone][idx] == ad[idx];
        var ok;
        ok, v := Request(act.q);
      } else {
        // the memo branch of get_disp_ea_020_mmu030
        v := disp[act.i];
        pc := Plus(pc, 2 * Nibble(adds, act.i));
      }
    }

    /** What is left of the history to repeat and of the program to run. */
    ghost function Ahead(k: nat): int
      reads this
    {
      left + |pos.hist| - k + if pos.open then 1 else 0
    }

    /** A logged access of the instruction, whether repeated or new. */
    method StepAccess(q: Req, ghost p: Prog, ghost goal: Finish, ghost h: seq<u32>, ghost k: nat)
      returns (ok: bool, v: u32)
      requires At(p, goal, h, k) && p(h) == Ask(q)
      modifies this`idx, this`idxDone, this`pc, this`pos, this`pw, this`left, ad, bus
      ensures ok ==> At(p, goal, h + [v], k + 1) && Ahead(k + 1) < old(Ahead(k)) && |bus.fate| <= old(|bus.fate|)
      ensures !ok ==> Inv(p, goal) && Stopped(p) && |bus.fate| < old(|bus.fate|)
    {
      hide Sound; hide MemoOk; hide LogOf; hide PcAfter; hide Plus; hide Do; hide PendingAt; hide Asked; hide Values;
      hide Stopped;
      if k < |pos.hist| {
        ReplayStep(pos.hist, k, ipc);
        Repeats(p, ipc, pos, pw, left, goal, k);
      } else {
        assert pos.hist[..k] == pos.hist;
        AtEnd(p, ipc, pos, pw, left, goal);
      }
      if idx < idxDone {
        ok := true;
        v := Repeat(Ask(q), p, goal, h, k);
        return;
      }
      ghost var hist := pos.hist;
      ok, v := Advance(q, p, goal);
      if ok {
        Grown(hist, Got(v, Adv(q)), ipc);
        assert pos.hist == hist + [Got(v, Adv(q))];
        assert pos.hist[..k + 1] == pos.hist;
        SoundPc(p, ipc, pos, pw, left, goal);
      }
    }

    /** `get_disp_ea_020_mmu030`. */
    method GetDispEa(base: u32, i: nat, regs: Regs, ghost p: Prog, ghost goal: Finish, ghost h: seq<u32>, ghost k: nat)
      returns (ok: bool, v: u32)
      requires At(p, goal, h, k) && p(h) == Address(i, base, regs)
      modifies this`idx, this`idxDone, this`pc, this`disp, this`adds, this`pos, this`pw, this`left, ad, bus
      ensures ok ==> At(p, goal, h + [v], k + 1) && Ahead(k + 1) < old(Ahead(k)) && |bus.fate| <= old(|bus.fate|)
      ensures !ok ==> Inv(p, goal) && Stopped(p) && |bus.fate| < old(|bus.fate|)
    {
      hide Sound; hide MemoOk; hide LogOf; hide PcAfter; hide Plus; hide Do; hide PendingAt; hide Asked; hide Values;
      hide Stopped; hide EaPc; hide UsedMemos;
      if k < |pos.hist| {
        Repeats(p, ipc, pos, pw, left, goal, k);
        MemoEntry(bus.f, disp, adds, pos.hist, k);
      } else {
        assert pos.hist[..k] == pos.hist;
        AtEnd(p, ipc, pos, pw, left, goal);
        NotYet(bus.f, disp, adds, pos.hist, i);
      }
      if HasMemo(bus.f, i) {
        ok := true;
        v := Repeat(Address(i, base, regs), p, goal, h, k);
        return;
      }
      ghost var hist := pos.hist;
      if !pos.open {
        SoundOpen(p, ipc, pos, pw, left, goal);
        SoundPc(p, ipc, pos, pw, left, goal);
        pos, left := pos.(open := true), left - 1;
      }
      EaPcStart(base, regs, PcAfter(ipc, hist));
      ok, v := EaFresh(base, i, regs, p, goal, hist);
      if ok {
        ghost var words :| pos.hist == hist + [Memo(v, i, words)];
        Grown(hist, Memo(v, i, words), ipc);
        assert pos.hist[..k + 1] == pos.hist;
        SoundPc(p, ipc, pos, pw, left, goal);
      }
    }

    /** The instruction run once from its start: to its end, to the next fault, or to a fault of
        its last write (`last`). */
    method RunOnce(p: Prog, ghost goal: Finish) returns (ok: bool, last: bool, out: seq<u32>, ghost q: Req)
      requires Inv(p, goal) && Calm()
      modifies this`idx, this`idxDone, this`pc, this`ipc, this`disp, this`adds, this`pos, this`pw, this`left, ad, bus
      ensures ok ==> Finish(Now(), out) == goal && SubClear(bus.f) && |bus.fate| <= old(|bus.fate|)
      ensures !ok ==> |bus.fate| < old(|bus.fate|)
      ensures !ok && !last ==> Inv(p, goal) && Stopped(p)
      ensures !ok && last ==> Lasting(q, out, goal)
    {
      hide Sound; hide MemoOk; hide LogOf; hide PcAfter; hide PendingAt; hide Asked; hide Stopped; hide Values;
      hide Lasting;
      idx, pc := 0, ipc;
      var h: seq<u32> := [];
      ghost var k: nat := 0;
      Nothing(ipc, pos.hist);
      out, last, q := [], false, Note(0);
      while p(h).Ask? || p(h).Address?
        invariant At(p, goal, h, k) && |bus.fate| <= old(|bus.fate|)
        decreases Ahead(k)
      {
        var act, v := p(h), 0;
        if act.Ask? {
          ok, v := StepAccess(act.q, p, goal, h, k);
        } else {
          ok, v := GetDispEa(act.base, act.i, act.regs, p, goal, h, k);
        }
        if !ok { return; }
        h, k := h + [v], k + 1;
      }
      if k < |pos.hist| {
        Repeats(p, ipc, pos, pw, left, goal, k);
      }
      assert pos.hist[..k] == pos.hist;
      AtEnd(p, ipc, pos, pw, left, goal);
      out := p(h).out;
      if p(h).End? {
        ok := true;
        return;
      }
      last, q := true, Write(p(h).a, p(h).n, p(h).v);
      ok := LastWrite(p(h).a, p(h).n, p(h).v, out, goal);
    }

    /** The last write of an instruction is under way and has faulted: all that is left to do is
        that write. */
    ghost predicate Lasting(q: Req, out: seq<u32>, goal: Finish)
      reads this, bus
    {
      && Valid() && q.Write? && bus.f.last && ipc == pw.pc && goal == Finish(Do(q, pw).0, out)
      && PendingAt(q, pw, Cleared(bus.f), bus.mem, bus.trace, bus.f, bus.buf, bus.flt)
    }

    /** The last write: the instruction counts as done, its program counter is the next one's. */
    method LastWrite(a: u32, n: size, v: u32, ghost out: seq<u32>, ghost goal: Finish) returns (ok: bool)
      requires Valid() && Calm() && idx == idxDone <= 8 && pc == pw.pc && goal == Finish(Do(Write(a, n, v), pw).0, out)
      modifies this`idx, this`idxDone, this`pc, this`ipc, ad, bus
      ensures ok ==> Finish(Now(), out) == goal && SubClear(bus.f) && |bus.fate| <= old(|bus.fate|)
      ensures !ok ==> Lasting(Write(a, n, v), out, goal) && |bus.fate| < old(|bus.fate|)
    {
      hide PendingAt; hide Do; hide Cleared;
      bus.f, ipc := bus.f.(last := true), pc;
      ghost var w, f := Now(), bus.f;
      assert w == pw;
      ok := PutState(a, v, n);
      if !ok { PendingFlags(Write(a, n, v), w, f, bus.mem, bus.trace, bus.f, bus.buf, bus.flt); ClearedMovem(bus.f); }
    }

    // -------------------------------------------------------------- faults and the return from them

    /** The long bus-fault frame: the log goes into nine longwords, the last two of which hold
        the half-read FMOVEM register; both log indices share a byte. */
    method BuildFrame() returns (fr: Frame)
      requires Valid() && idxDone <= 8
      modifies ad
      ensures ad[..idxDone] == old(ad[..idxDone])
      ensures fr == Frame(ipc, bus.flt, bus.buf, disp, count, bus.f, adds, idx % 16 + idxDone % 16 * 16, fr.slots)
      ensures |fr.slots| == 9 && fr.slots[..idxDone] == ad[..idxDone]
      ensures !bus.flt.read ==> fr.slots[idxDone] == bus.buf
      ensures bus.f.fmovem && idxDone < 7 ==> fr.slots[7] == store[0] && fr.slots[8] == store[1]
    {
      if !bus.flt.read { ad[idxDone] := bus.buf; }
      var slots: seq<u32> := [];
      while |slots| < 9
        invariant |slots| <= 9
        invariant forall i :: 0 <= i < |slots| ==> slots[i] == Slot(i, idxDone, ad[..], bus.f.fmovem, store)
      {
        slots := slots + [Slot(|slots|, idxDone, ad[..], bus.f.fmovem, store)];
      }
      fr := Frame(ipc, bus.flt, bus.buf, disp, count, bus.f, adds, idx % 16 + idxDone % 16 * 16, slots);
    }

    /** The handler runs code of its own: nothing of the CPU state survives but the frame. */
    method Handler()
      requires Valid()
      modifies this`idx, this`idxDone, this`disp, this`adds, this`count, this`store, this`pc, this`ipc, ad, bus`f,
               bus`buf, bus`flt
      ensures Valid()
    {
      idx := *;
      idxDone := *;
      adds := *;
      count := *;
      pc := *;
      ipc := *;
      bus.f := *;
      bus.buf := *;
      bus.flt := *;
      var x: u32, y: u32 := *, *;
      disp := [x, y];
      x, y := *, *;
      store := [x, y];
      for i := 0 to ad.Length
        modifies ad
      {
        x := *;
        ad[i] := x;
      }
    }

    /** The part of `m68k_do_rte_mmu030` that restores the state from a long frame. */
    method Restore(fr: Frame)
      requires Valid() && |fr.slots| == 9 && |fr.disp| == 2 && fr.index / 16 % 16 <= 8
      modifies this`idx, this`idxDone, this`disp, this`adds, this`count, this`store, this`pc, this`ipc, ad, bus`f,
               bus`buf, bus`flt
      ensures Valid() && ipc == fr.pc && idxDone == fr.index / 16 % 16
      ensures forall i :: 0 <= i <= idxDone ==> ad[i] == fr.slots[i]
      ensures disp == fr.disp && adds == fr.adds && count == fr.count && bus.f == fr.f && bus.buf == fr.buf &&
              bus.flt == fr.flt
      ensures store == if fr.f.fmovem then [fr.slots[7], fr.slots[8]] else [0, 0]
    {
      bus.f, bus.buf, bus.flt := fr.f, fr.buf, fr.flt;
      disp, adds, count := fr.disp, fr.adds, fr.count;
      store := if fr.f.fmovem then [fr.slots[7], fr.slots[8]] else [0, 0];
      idx, idxDone := fr.index % 16, fr.index / 16 % 16;
      var done := idxDone;
      for i := 0 to done + 1
        modifies ad
        invariant forall k :: 0 <= k < i ==> ad[k] == fr.slots[k]
      {
        ad[i] := fr.slots[i];
      }
      pc, ipc := fr.pc, fr.pc;
    }

    /** A retried access that completed: logged, or marked for MOVEM. */
    method Finished(v: u32, ghost g: Flags)
      requires Valid() && idxDone <= 8 && bus.f == g
      modifies this`idxDone, ad, bus`f
      ensures idxDone == old(idxDone) + if g.movem1 then 0 else 1
      ensures bus.f == (if g.movem1 then g.(movem2 := true) else g)
      ensures ad[..idxDone] == if g.movem1 then old(ad[..idxDone]) else old(ad[..idxDone]) + [v]
    {
      if bus.f.movem1 {
        bus.f := bus.f.(movem2 := true);
      } else {
        ad[idxDone] := v;
        idxDone := idxDone + 1;
      }
    }

    /** The retry of a read. */
    method RetryGet(ghost q: Req, ghost w: World, ghost g: Flags) returns (ok: bool)
      requires Valid() && idxDone <= 8 && q.Read? && PendingAt(q, w, g, bus.mem, bus.trace, bus.f, bus.buf, bus.flt)
      modifies this`idxDone, ad, bus
      ensures !ok ==> PendingAt(q, w, g, bus.mem, bus.trace, bus.f, bus.buf, bus.flt) && |bus.fate| < old(|bus.fate|)
      ensures !ok ==> idxDone == old(idxDone) && ad[..] == old(ad[..])
      ensures ok ==> |bus.fate| <= old(|bus.fate|) && idxDone == old(idxDone) + if g.movem1 then 0 else 1
      ensures ok ==>
        && bus.mem == Do(q, w).0.mem && bus.trace == Do(q, w).0.trace && bus.buf == Do(q, w).1
        && bus.f == (if g.movem1 then g.(movem2 := true) else g)
        && ad[..idxDone] == if g.movem1 then old(ad[..idxDone]) else old(ad[..idxDone]) + [Do(q, w).1]
    {
      hide PendingAt; hide PendingRead; hide PendingWrite; hide Load; hide Touches; hide Do;
      PendingData(q, w, g, bus.mem, bus.trace, bus.f, bus.buf, bus.flt);
      DataDone(q, w);
      ok := bus.RetryRead(q.a, q.n, g, w.trace);
      PendingData(q, w, g, bus.mem, bus.trace, bus.f, bus.buf, bus.flt);
      if ok { Finished(bus.buf, g); }
    }

    /** The retry of a write, whose value is in the log already. */
    method RetryPut(ghost q: Req, ghost w: World, ghost g: Flags) returns (ok: bool)
      requires Valid() && idxDone <= 8 && q.Write? && PendingAt(q, w, g, bus.mem, bus.trace, bus.f, bus.buf, bus.flt)
      requires !g.movem1 ==> ad[idxDone] == q.v
      modifies this`idxDone, bus
      ensures !ok ==> PendingAt(q, w, g, bus.mem, bus.trace, bus.f, bus.buf, bus.flt) && |bus.fate| < old(|bus.fate|)
      ensures !ok ==> idxDone == old(idxDone)
      ensures ok ==> |bus.fate| <= old(|bus.fate|) && idxDone == old(idxDone) + if g.movem1 then 0 else 1
      ensures ok ==>
        && bus.mem == Do(q, w).0.mem && bus.trace == Do(q, w).0.trace
        && bus.f == (if g.movem1 then g.(movem2 := true) else g)
        && ad[..idxDone] == if g.movem1 then old(ad[..idxDone]) else old(ad[..idxDone]) + [Do(q, w).1]
    {
      hide PendingAt; hide PendingRead; hide PendingWrite; hide Store; hide Touches; hide Do;
      PendingData(q, w, g, bus.mem, bus.trace, bus.f, bus.buf, bus.flt);
      DataDone(q, w);
      ok := bus.RetryWrite(q.v, q.a, q.n, g, w.mem, w.trace);
      PendingData(q, w, g, bus.mem, bus.trace, bus.f, bus.buf, bus.flt);
      if !ok { return; }
      if bus.f.movem1 {
        bus.f := bus.f.(movem2 := true);
      } else {
        assert ad[..idxDone + 1] == ad[..idxDone] + [q.v];
        idxDone := idxDone + 1;
      }
    }

    /** The part of `m68k_do_rte_mmu030` that retries the faulted access when DF is set. */
    method Retry(ghost q: Req, ghost w: World, ghost g: Flags) returns (ok: bool)
      requires Valid() && idxDone <= 8 && PendingAt(q, w, g, bus.mem, bus.trace, bus.f, bus.buf, bus.flt)
      requires q.Write? && !g.movem1 ==> ad[idxDone] == q.v
      modifies this`idxDone, ad, bus
      ensures !ok ==> PendingAt(q, w, g, bus.mem, bus.trace, bus.f, bus.buf, bus.flt) && |bus.fate| < old(|bus.fate|)
      ensures !ok ==> idxDone == old(idxDone) && ad[..] == old(ad[..])
      ensures ok ==> |bus.fate| <= old(|bus.fate|) &&
                     idxDone == old(idxDone) + if q.Fetch? || q.Peek? || g.movem1 then 0 else 1
      ensures ok && (q.Fetch? || q.Peek?) ==> unchanged(bus) && ad[..] == old(ad[..])
      ensures ok && (q.Read? || q.Write?) ==>
        && bus.mem == Do(q, w).0.mem && bus.trace == Do(q, w).0.trace && (q.Read? ==> bus.buf == Do(q, w).1)
        && bus.f == (if g.movem1 then g.(movem2 := true) else g)
        && ad[..idxDone] == if g.movem1 then old(ad[..idxDone]) else old(ad[..idxDone]) + [Do(q, w).1]
    {
      hide PendingAt; hide Do;
      FaultKind(q, w, g, bus.mem, bus.trace, bus.f, bus.buf, bus.flt);
      ok := true;
      if bus.flt.df {
        if bus.flt.read {
          ok := RetryGet(q, w, g);
        } else {
          ok := RetryPut(q, w, g);
        }
      }
    }

    /** A frame from which the instruction can go on. */
    ghost predicate Saved(fr: Frame, p: Prog, goal: Finish)
      reads this, bus
    {
      && |fr.slots| == 9 && |fr.disp| == 2 && Sound(p, fr.pc, pos, pw, left, goal)
      && fr.index / 16 % 16 == |Logged(pos)| <= 8 && fr.slots[..|Logged(pos)|] == Logged(pos)
      && MemoOk(Cleared(fr.f), fr.disp, fr.adds, pos.hist) && !fr.f.movem1 && !fr.f.fmovem && !fr.f.last
      && var q := Asked(p, pos);
         && q.Some? && (q.value.Write? ==> fr.slots[|Logged(pos)|] == q.value.v)
         && PendingAt(q.value, pw, Cleared(fr.f), bus.mem, bus.trace, fr.f, fr.buf, fr.flt)
    }

    /** The fault is taken: the frame holds what the instruction needs, and the handler runs. */
    method TakeFault(ghost p: Prog, ghost goal: Finish) returns (fr: Frame)
      requires Inv(p, goal) && Stopped(p)
      modifies this`idx, this`idxDone, this`disp, this`adds, this`count, this`store, this`pc, this`ipc, ad, bus`f,
               bus`buf, bus`flt
      ensures Valid() && Saved(fr, p, goal)
    {
      hide Sound; hide MemoOk; hide Asked; hide Logged; hide Cleared; hide PendingAt; hide Do;
      ghost var q := Asked(p, pos).value;
      SoundStep(p, ipc, pos, pw, left, goal, q);
      FaultKind(q, pw, Cleared(bus.f), bus.mem, bus.trace, bus.f, bus.buf, bus.flt);
      if q.Write? { PendingValue(q, pw, Cleared(bus.f), bus.mem, bus.trace, bus.f, bus.buf, bus.flt); }
      fr := BuildFrame();
      DivModUnique(fr.index, 16, idxDone, idx % 16);
      Handler();
    }

    /** The state restored from a frame is that of the fault. */
    method ComeBack(fr: Frame, ghost p: Prog, ghost goal: Finish)
      requires Valid() && Saved(fr, p, goal)
      modifies this`idx, this`idxDone, this`disp, this`adds, this`count, this`store, this`pc, this`ipc, ad, bus`f,
               bus`buf, bus`flt
      ensures Inv(p, goal) && Stopped(p) && idxDone <= 8
      ensures Asked(p, pos).value.Write? ==> ad[idxDone] == Asked(p, pos).value.v
    {
      hide Sound; hide MemoOk; hide Asked; hide PendingAt; hide Logged; hide Cleared;
      Restore(fr);
      assert ad[..idxDone] == fr.slots[..idxDone];
    }

    /** The retry puts the instruction one access further, or leaves it at the same fault. */
    method RetryStep(ghost p: Prog, ghost goal: Finish) returns (ok: bool)
      requires Inv(p, goal) && Stopped(p) && idxDone <= 8
      requires Asked(p, pos).value.Write? ==> ad[idxDone] == Asked(p, pos).value.v
      modifies this`idxDone, this`pos, this`pw, this`left, ad, bus
      ensures Inv(p, goal)
      ensures if ok then Calm() && |bus.fate| <= old(|bus.fate|) else Stopped(p) && |bus.fate| < old(|bus.fate|)
    {
      hide Sound; hide MemoOk; hide Asked; hide PendingAt; hide Do; hide Logged; hide Cleared; hide Pushed; hide Adv;
      ghost var q, w, g := Asked(p, pos).value, pw, Cleared(bus.f);
      PendingFlags(q, w, g, bus.mem, bus.trace, bus.f, bus.buf, bus.flt);
      FaultKind(q, w, g, bus.mem, bus.trace, bus.f, bus.buf, bus.flt);
      if q.Fetch? || q.Peek? { PendingRest(q, w, g, bus.mem, bus.trace, bus.f, bus.buf, bus.flt); }
      ClearedMovem(bus.f);
      SoundStep(p, ipc, pos, pw, left, goal, q);
      PushKeepsMemo(g, disp, adds, pos, Do(q, w).1, Adv(q));
      ClearedTwice(g);
      ok := Retry(q, w, g);
      if !ok {
        PendingFlags(q, w, g, bus.mem, bus.trace, bus.f, bus.buf, bus.flt);
        ClearedMovem(bus.f);
        assert ad[..idxDone] == old(ad[..idxDone]);
      } else if q.Read? || q.Write? {
        if !pos.open { left := left - 1; }
        pos := Pushed(pos, Do(q, w).1, Adv(q));
        pw := Do(q, w).0;
      } else {
        assert ad[..idxDone] == old(ad[..idxDone]);
      }
    }

    /** `m68k_do_rte_mmu030` on a long frame. */
    method Rte(fr: Frame, ghost p: Prog, ghost goal: Finish) returns (ok: bool)
      requires Valid() && Saved(fr, p, goal)
      modifies this`idx, this`idxDone, this`disp, this`adds, this`count, this`store, this`pc, this`ipc, this`pos,
               this`pw, this`left, ad, bus
      ensures Inv(p, goal)
      ensures if ok then Calm() && |bus.fate| <= old(|bus.fate|) else Stopped(p) && |bus.fate| < old(|bus.fate|)
    {
      hide Inv; hide Stopped; hide Calm; hide Saved;
      ComeBack(fr, p, goal);
      ok := RetryStep(p, goal);
    }

    /** The short bus-fault frame. */
    method BuildShort() returns (fr: Short)
      ensures fr == Short(ipc, bus.flt, bus.buf, bus.f)
    {
      fr := Short(ipc, bus.flt, bus.buf, bus.f);
    }

    /** `m68k_do_rte_mmu030` on a short frame: the write is retried and nothing is run again. */
    method RteShort(fr: Short, ghost q: Req, ghost w: World) returns (ok: bool)
      requires Valid() && q.Write? && PendingAt(q, w, Cleared(fr.f), bus.mem, bus.trace, fr.f, fr.buf, fr.flt)
      modifies this`idx, this`idxDone, this`adds, this`count, this`pc, this`ipc, bus
      ensures Valid() && pc == ipc == fr.pc
      ensures ok ==> bus.mem == Do(q, w).0.mem && bus.trace == Do(q, w).0.trace && SubClear(bus.f) &&
                     |bus.fate| <= old(|bus.fate|)
      ensures !ok ==>
        && PendingAt(q, w, Cleared(fr.f), bus.mem, bus.trace, bus.f, bus.buf, bus.flt) && |bus.fate| < old(|bus.fate|)
        && bus.f.last == fr.f.last
    {
      hide PendingWrite; hide Store; hide Touches; hide Cleared;
      ghost var g := Cleared(fr.f);
      PendingFlags(q, w, g, bus.mem, bus.trace, fr.f, fr.buf, fr.flt);
      ClearedMovem(fr.f);
      bus.f, bus.buf, bus.flt := fr.f, fr.buf, fr.flt;
      idx, idxDone, adds, count := 0, 0, 0, 0;
      pc, ipc := fr.pc, fr.pc;
      ok := bus.RetryWrite(q.v, q.a, q.n, g, w.mem, w.trace);
      if !ok {
        PendingFlags(q, w, g, bus.mem, bus.trace, bus.f, bus.buf, bus.flt);
        ClearedMovem(bus.f);
      }
    }

    /** A faulted last write is retried until it is through: written once, never run again. */
    method FinishLast(ghost q: Req, ghost out: seq<u32>, ghost goal: Finish)
      requires Lasting(q, out, goal)
      modifies this`idx, this`idxDone, this`disp, this`adds, this`count, this`store, this`pc, this`ipc, ad, bus
      ensures Finish(Now(), out) == goal && SubClear(bus.f)
    {
      hide PendingAt; hide Do; hide Cleared;
      var ok := false;
      DoPc(q, pw);
      PlusZero(pw.pc);
      while !ok
        invariant pw == old(pw) && Valid() && ipc == pw.pc
        invariant ok ==> pc == pw.pc && bus.mem == Do(q, pw).0.mem && bus.trace == Do(q, pw).0.trace && SubClear(bus.f)
        invariant !ok ==> Lasting(q, out, goal)
        decreases |bus.fate|, !ok
      {
        var fr := BuildShort();
        Handler();
        ghost var g := Cleared(fr.f);
        ok := RteShort(fr, q, pw);
        if !ok { PendingFlags(q, pw, g, bus.mem, bus.trace, bus.f, bus.buf, bus.flt); }
      }
    }

    /** A new instruction: an empty log and no memo. */
    method Begin(p: Prog, ghost n: nat, ghost goal: Finish)
      requires Valid() && bus.f == NOFLAGS
      requires Plain(p, [], World(bus.mem, pc, bus.trace), n) == Some(goal)
      requires Fits(p, [], World(bus.mem, pc, bus.trace), n, 0, {})
      modifies this`idxDone, this`adds, this`count, this`ipc, this`pos, this`pw, this`left
      ensures Inv(p, goal) && Calm()
    {
      hide Plain; hide Fits; hide Sound; hide MemoOk;
      idxDone, adds, count, ipc := 0, 0, 0, pc;
      pos, pw, left := Pos([], false, []), Now(), n;
      SoundStarts(p, pw, n, goal);
      MemoStarts(disp);
      assert ad[..0] == [];
    }

    /** One instruction, whatever bus cycles fault, each fault being handled and returned from:
        it ends with the registers, memory, program counter and bus cycles of a run without
        faults, every cycle done once and in order. */
    method Execute(p: Prog, ghost n: nat, ghost goal: Finish) returns (out: seq<u32>)
      requires Valid() && bus.f == NOFLAGS
      requires Plain(p, [], World(bus.mem, pc, bus.trace), n) == Some(goal)
      requires Fits(p, [], World(bus.mem, pc, bus.trace), n, 0, {})
      modifies this, ad, bus
      ensures Finish(Now(), out) == goal
    {
      hide Inv; hide Stopped; hide Saved; hide Calm; hide Plain; hide Fits; hide Lasting;
      Begin(p, n, goal);
      var ok, last;
      ghost var q;
      ok, last, out, q := RunOnce(p, goal);
      while !ok && !last
        invariant ok ==> Finish(Now(), out) == goal
        invariant !ok && !last ==> Inv(p, goal) && Stopped(p)
        invariant !ok && last ==> Lasting(q, out, goal)
        decreases |bus.fate|, !ok
      {
        var fr := TakeFault(p, goal);
        var back := Rte(fr, p, goal);
        if back {
          ok, last, out, q := RunOnce(p, goal);
        }
      }
      if !ok { FinishLast(q, out, goal); }
    }
  }

  /** A faulted read or write is pending as Access030 says. */
  lemma PendingData(q: Req, w: World, g: Flags, m: Bytes, t: seq<Touch>, f: Flags, buf: u32, flt: Fault)
    ensures q.Read? ==>
      (PendingAt(q, w, g, m, t, f, buf, flt) <==> m == w.mem && PendingRead(q.a, q.n, g, w.trace, m, t, f, buf, flt))
    ensures q.Write? ==>
      (PendingAt(q, w, g, m, t, f, buf, flt) <==> PendingWrite(q.a, q.n, q.v, g, w.mem, w.trace, m, t, f, buf, flt))
  {
    hide PendingRead; hide PendingWrite;
  }

  /** What a read or write does. */
  lemma DataDone(q: Req, w: World)
    ensures q.Read? ==>
      && Do(q, w).1 == Load(w.mem, q.a, q.n) && Do(q, w).0.mem == w.mem
      && Do(q, w).0.trace == w.trace + Touches(false, q.a, q.n, Count(q.a, q.n))
    ensures q.Write? ==>
      && Do(q, w).1 == q.v && Do(q, w).0.mem == Store(w.mem, q.a, q.n, q.v)
      && Do(q, w).0.trace == w.trace + Touches(true, q.a, q.n, Count(q.a, q.n))
  {
    hide Load; hide Store; hide Touches;
  }

  lemma PendingValue(q: Req, w: World, g: Flags, m: Bytes, t: seq<Touch>, f: Flags, buf: u32, flt: Fault)
    requires PendingAt(q, w, g, m, t, f, buf, flt) && q.Write?
    ensures buf == q.v
  {
  }

  /** A fetch that faulted has done nothing. */
  lemma PendingRest(q: Req, w: World, g: Flags, m: Bytes, t: seq<Touch>, f: Flags, buf: u32, flt: Fault)
    requires PendingAt(q, w, g, m, t, f, buf, flt) && (q.Fetch? || q.Peek?)
    ensures m == w.mem && t == w.trace && f == g
  {
  }

  lemma ClearedMovem(f: Flags)
    ensures Cleared(f).movem1 == f.movem1 && Cleared(f).fmovem == f.fmovem && Cleared(f).last == f.last
  {
  }

  lemma ClearedTwice(g: Flags)
    requires SubClear(g)
    ensures Cleared(g) == g
  {
  }

  lemma SoundStarts(p: Prog, w: World, n: nat, goal: Finish)
    requires Plain(p, [], w, n) == Some(goal) && Fits(p, [], w, n, 0, {})
    ensures Sound(p, w.pc, Pos([], false, []), w, n, goal) && Logged(Pos([], false, [])) == []
  {
    hide Plain; hide Fits;
    assert Values([]) == [];
  }

  lemma MemoStarts(disp: seq<u32>)
    requires |disp| == 2
    ensures MemoOk(Cleared(NOFLAGS), disp, 0, [])
  {
  }

  datatype Frame = Frame(pc: u32, flt: Fault, buf: u32, disp: seq<u32>, count: nat, f: Flags, adds: nat, index: nat,
                         slots: seq<u32>)

  /** The short frame: program counter, fault, data buffer and flags. */
  datatype Short = Short(pc: u32, flt: Fault, buf: u32, f: Flags)

  /** One longword of the frame's log area. */
  function Slot(i: nat, done: nat, ad: seq<u32>, fmovem: bool, store: seq<u32>): u32
    requires |ad| == LOG && |store| == 2 && done < LOG
  {
    if i <= done then ad[i] else if fmovem && i == 7 then store[0] else if fmovem && i == 8 then store[1] else 0
  }

  /** A read or write fault has DF set and says which it was; an instruction fetch has not. */
  lemma FaultKind(q: Req, w: World, g: Flags, m: Bytes, t: seq<Touch>, f: Flags, buf: u32, flt: Fault)
    requires PendingAt(q, w, g, m, t, f, buf, flt)
    ensures !q.Note? && (flt.df <==> q.Read? || q.Write?) && (flt.read <==> !q.Write?)
  {
  }

  lemma EaPcStart(base: u32, regs: Regs, pc: u32)
    ensures EaPc(base, regs, pc, []) == pc
  {
  }

  lemma Nothing(pc: u32, hist: seq<Entry>)
    ensures Values(hist[..0]) == [] && LogOf(hist[..0]) == [] && PcAfter(pc, hist[..0]) == pc
  {
  }

  /** Where the history ends, the program stands at a new request or at an address not in the
      memo, or is finished. */
  lemma AtEnd(p: Prog, start: u32, pos: Pos, w: World, n: nat, goal: Finish)
    requires Sound(p, start, pos, w, n, goal)
    ensures match p(Values(pos.hist))
      case Ask(q) => !pos.open && pos.inner == [] && Asked(p, pos) == Some(q) && w.pc == PcAfter(start, pos.hist) &&
        n > 0
      case Address(i, base, _) => i < 2 && i !in UsedMemos(pos.hist)
      case End(out) => !pos.open && pos.inner == [] && goal == Finish(w, out) && w.pc == PcAfter(start, pos.hist)
      case Last(a, k, v, out) =>
        && !pos.open && pos.inner == [] && |LogOf(pos.hist)| <= 8 && w.pc == PcAfter(start, pos.hist)
        && goal == Finish(Do(Write(a, k, v), w).0, out)
  {
    hide Do; hide Plus; hide EaFrom; hide EaFits;
  }

  /** An entry of the history is what the program asks for at that point. */
  lemma Repeats(p: Prog, start: u32, pos: Pos, w: World, n: nat, goal: Finish, k: nat)
    requires Sound(p, start, pos, w, n, goal) && k < |pos.hist|
    ensures match p(Values(pos.hist[..k]))
      case Ask(q) => pos.hist[k].Got? && pos.hist[k].adv == Adv(q) && (q.Write? ==> pos.hist[k].v == q.v)
      case Address(i, base, _) => pos.hist[k].Memo? && pos.hist[k].i == i
      case End(_) => false
      case Last(_, _, _, _) => false
  {
  }

  lemma MemoEntry(f: Flags, disp: seq<u32>, adds: nat, hist: seq<Entry>, k: nat)
    requires |disp| == 2 && MemoOk(Cleared(f), disp, adds, hist) && k < |hist| && hist[k].Memo?
    ensures var e := hist[k]; e.i < 2 && HasMemo(f, e.i) && disp[e.i] == e.v && Nibble(adds, e.i) == e.adds
  {
    hide UsedMemos; hide Nibble;
  }

  lemma ClearedStays(f: Flags)
    ensures SubClear(f) ==> SubClear(f.(disp0 := true)) && SubClear(f.(disp1 := true))
  {
  }

  /** A finished calculation is at the end of its log, and its position can be closed. */
  lemma EaDone(p: Prog, start: u32, pos: Pos, w: World, n: nat, goal: Finish, base: u32, regs: Regs, h: seq<u32>)
    requires Sound(p, start, pos, w, n, goal) && pos.open && AddressOf(p, pos.hist) == Some((base, regs))
    requires |h| <= |pos.inner| && h == pos.inner[..|h|] && EaNext(base, regs, h).Ret?
    ensures h == pos.inner
    ensures var r := EaNext(base, regs, h); var act := p(Values(pos.hist));
    var now := pos.hist + [Memo(r.v, act.i, r.adds)];
      && act.i < 2 && act.i !in UsedMemos(pos.hist) && r.adds <= 5 &&
        w.pc == EaPc(base, regs, PcAfter(start, pos.hist), h)
      && Sound(p, start, Pos(now, false, []), w, n, goal) && LogOf(now) == LogOf(pos.hist) &&
        w.pc == PcAfter(start, now)
  {
    hide EaNext; hide EaPc; hide LogOf; hide UsedMemos; hide Sound; hide PcAfter; hide Plus; hide Follows; hide Plain;
    hide Fits; hide EaFrom; hide EaFits;
    EaStands(p, start, pos, w, n, goal, base, regs);
    AlongEnds(base, regs, pos.inner, |h|);
    SoundClose(p, start, pos, w, n, goal);
    var r, act := EaNext(base, regs, h), p(Values(pos.hist));
    Grown(pos.hist, Memo(r.v, act.i, r.adds), start);
    SoundPc(p, start, Pos(pos.hist + [Memo(r.v, act.i, r.adds)], false, []), w, n, goal);
  }

  /** A calculation that has returned is at the end of its values. */
  lemma AlongEnds(base: u32, regs: Regs, h: seq<u32>, k: nat)
    requires Along(base, regs, h) && k <= |h| && EaNext(base, regs, h[..k]).Ret?
    ensures k == |h| && h[..k] == h
  {
    hide EaNext;
  }

  lemma SoundPc(p: Prog, start: u32, pos: Pos, w: World, n: nat, goal: Finish)
    requires Sound(p, start, pos, w, n, goal) && !pos.open
    ensures w.pc == PcAfter(start, pos.hist) && pos.inner == []
  {
  }

  lemma NotYet(f: Flags, disp: seq<u32>, adds: nat, hist: seq<Entry>, i: nat)
    requires |disp| == 2 && MemoOk(Cleared(f), disp, adds, hist) && i < 2
    ensures HasMemo(f, i) <==> i in UsedMemos(hist)
  {
    hide UsedMemos;
    assert HasMemo(Cleared(f), i) == HasMemo(f, i);
  }

  lemma NibbleSet(adds: nat, i: nat, words: nat)
    requires i < 2 && adds < 256 && Nibble(adds, i) == 0 && words < 16
    ensures var a := adds + if i == 0 then words else words * 16;
      a < 256 && Nibble(a, i) == words && Nibble(a, 1 - i) == Nibble(adds, 1 - i)
  {
    var lo, hi := adds % 16, adds / 16;
    assert adds == hi * 16 + lo && hi < 16;
    if i == 0 {
      DivModUnique(adds + words, 16, hi, words);
    } else {
      DivModUnique(adds + words * 16, 16, words, lo);
    }
  }

  lemma FlagsGrow0(f: Flags, adds: nat, used: set<nat>, words: nat)
    requires FlagsOk(Cleared(f), adds, used) && 0 !in used && words <= 5
    ensures FlagsOk(Cleared(f.(disp0 := true)), adds + words, used + {0})
  {
    hide Nibble;
    NibbleSet(adds, 0, words);
  }

  lemma FlagsGrow1(f: Flags, adds: nat, used: set<nat>, words: nat)
    requires FlagsOk(Cleared(f), adds, used) && 1 !in used && words <= 5
    ensures FlagsOk(Cleared(f.(disp1 := true)), adds + words * 16, used + {1})
  {
    hide Nibble;
    NibbleSet(adds, 1, words);
  }

  lemma EntriesGrow(disp: seq<u32>, adds: nat, hist: seq<Entry>, used: set<nat>, v: u32, i: nat, words: nat)
    requires |disp| == 2 && EntriesOk(disp, adds, hist, used) && i < 2 && i !in used && words <= 5 && adds < 256 &&
             Nibble(adds, i) == 0
    ensures EntriesOk(disp[i := v], adds + (if i == 0 then words else words * 16), hist + [Memo(v, i, words)],
                      used + {i})
  {
    hide Nibble;
    NibbleSet(adds, i, words);
    var now := hist + [Memo(v, i, words)];
    forall k | 0 <= k < |hist| && hist[k].Memo? ensures hist[k].i == 1 - i {}
  }

  /** Adding one address to the memo. */
  lemma MemoGrows(f: Flags, disp: seq<u32>, adds: nat, hist: seq<Entry>, v: u32, i: nat, words: nat)
    requires |disp| == 2 && MemoOk(Cleared(f), disp, adds, hist) && i < 2 && i !in UsedMemos(hist) && words <= 5
    ensures var g := if i == 0 then f.(disp0 := true) else f.(disp1 := true);
      MemoOk(Cleared(g), disp[i := v], adds + (if i == 0 then words else words * 16), hist + [Memo(v, i, words)])
  {
    Grown(hist, Memo(v, i, words), 0);
    assert UsedMemos(hist + [Memo(v, i, words)]) == UsedMemos(hist) + {i};
    if i == 0 { FlagsGrow0(f, adds, UsedMemos(hist), words); } else { FlagsGrow1(f, adds, UsedMemos(hist), words); }
    EntriesGrow(disp, adds, hist, UsedMemos(hist), v, i, words);
    hide FlagsOk; hide EntriesOk; hide UsedMemos; hide Cleared;
  }

  /** The base of the address calculation a program stands at. */
  function AddressOf(p: Prog, hist: seq<Entry>): Option<(u32, Regs)>
  {
    match p(Values(hist))
    case Address(_, base, regs) => Some((base, regs))
    case _ => None
  }

  lemma EaStands(p: Prog, start: u32, pos: Pos, w: World, n: nat, goal: Finish, base: u32, regs: Regs)
    requires Sound(p, start, pos, w, n, goal) && pos.open && AddressOf(p, pos.hist) == Some((base, regs))
    ensures Along(base, regs, pos.inner) && w.pc == EaPc(base, regs, PcAfter(start, pos.hist), pos.inner)
    ensures EaNext(base, regs, pos.inner).More? ==> Asked(p, pos) == Some(EaNext(base, regs, pos.inner).q) &&
                                                    |Logged(pos)| <= 8
  {
    hide EaNext; hide EaPc;
    if EaNext(base, regs, pos.inner).More? { SoundStep(p, start, pos, w, n, goal, EaNext(base, regs, pos.inner).q); }
  }

  lemma EaPcNow(p: Prog, start: u32, pos: Pos, w: World, n: nat, goal: Finish, base: u32, regs: Regs)
    requires Sound(p, start, pos, w, n, goal) && pos.open && AddressOf(p, pos.hist) == Some((base, regs))
    ensures w.pc == EaPc(base, regs, PcAfter(start, pos.hist), pos.inner)
  {
  }

  lemma EaReplays(base: u32, regs: Regs, pc: u32, h: seq<u32>, k: nat)
    requires k < |h| && Along(base, regs, h)
    ensures EaNext(base, regs, h[..k]).More?
    ensures EaPc(base, regs, pc, h[..k + 1]) == Plus(EaPc(base, regs, pc, h[..k]), Adv(EaNext(base, regs, h[..k]).q))
  {
    hide EaNext;
    PcStep(base, regs, pc, h, k);
  }

  lemma EntriesGot(disp: seq<u32>, adds: nat, hist: seq<Entry>, used: set<nat>, v: u32, adv: nat)
    requires |disp| == 2 && EntriesOk(disp, adds, hist, used)
    ensures EntriesOk(disp, adds, hist + [Got(v, adv)], used)
  {
    hide Nibble;
  }

  lemma PushKeepsMemo(f: Flags, disp: seq<u32>, adds: nat, pos: Pos, v: u32, adv: nat)
    requires |disp| == 2 && MemoOk(f, disp, adds, pos.hist)
    ensures MemoOk(f, disp, adds, Pushed(pos, v, adv).hist)
  {
    hide FlagsOk; hide EntriesOk; hide UsedMemos; hide LogOf; hide PcAfter; hide Values;
    Grown(pos.hist, Got(v, adv), 0);
    assert UsedMemos(pos.hist) + {} == UsedMemos(pos.hist);
    EntriesGot(disp, adds, pos.hist, UsedMemos(pos.hist), v, adv);
  }
}
