/** FMOVEM of the floating-point registers under the 68030 MMU: the restartable loops against
    the plain order of transfers. A register is its three longwords. */
module Fmovem030 {
  import opened Words
  import opened Bus030
  import opened Access030
  import opened Program030
  import opened Core030

  datatype Ext = Ext(w0: u32, w1: u32, w2: u32)

  function Part(e: Ext, i: nat): u32 { if i == 0 then e.w0 else if i == 1 then e.w1 else e.w2 }

  /** One longword to move: part `part` of register `reg`, at `a`. */
  datatype Item = Item(reg: nat, part: nat, a: u32)

  /** The register mask after `r` shifts to the left. */
  function Shifted(list: u32, r: nat): u32 { if r == 0 then list else Shifted(list, r - 1) * 2 % WRAP }

  predicate Selected(list: u32, r: nat) { Shifted(list, r) / 0x80 % 2 == 1 }

  function RegOf(r: nat, regdir: int): (k: nat)
    requires r < 8
    ensures k < 8
  {
    if regdir < 0 then 7 - r else r
  }

  function Down(a: u32): u32 { Plus(a, WRAP - 12) }

  /** The address when row `r` of the mask is reached. */
  function AddrAt(ad: u32, list: u32, incr: int, r: nat): u32
  {
    if r == 0 then ad else
      var a := AddrAt(ad, list, incr, r - 1);
      if !Selected(list, r - 1) || incr == 0 then a else if incr < 0 then Down(a) else Plus(a, 12)
  }

  function RowAddr(ad: u32, list: u32, incr: int, r: nat): u32
  {
    if incr < 0 then Down(AddrAt(ad, list, incr, r)) else AddrAt(ad, list, incr, r)
  }

  /** The three transfers of a register. */
  function Row(reg: nat, a: u32): seq<Item>
  {
    [Item(reg, 0, Plus(a, 0)), Item(reg, 1, Plus(a, 4)), Item(reg, 2, Plus(a, 8))]
  }

  /** The transfers of the first `r` rows of the mask, in order. */
  function Items(ad: u32, list: u32, incr: int, regdir: int, r: nat): seq<Item>
    requires r <= 8
  {
    if r == 0 then [] else
      Items(ad, list, incr, regdir, r - 1) +
      if Selected(list, r - 1) then Row(RegOf(r - 1, regdir), RowAddr(ad, list, incr, r - 1)) else []
  }

  lemma {:induction false} ItemsPrefix(ad: u32, list: u32, incr: int, regdir: int, r: nat, n: nat)
    requires r <= n <= 8
    ensures |Items(ad, list, incr, regdir, r)| <= |Items(ad, list, incr, regdir, n)|
    ensures Items(ad, list, incr, regdir, n)[..|Items(ad, list, incr, regdir, r)|] == Items(ad, list, incr, regdir, r)
    decreases n
  {
    hide Row; hide Selected; hide RowAddr;
    if r < n { ItemsPrefix(ad, list, incr, regdir, r, n - 1); }
  }

  /** Part `i` of row `r` in the whole list. */
  lemma ItemAt(ad: u32, list: u32, incr: int, regdir: int, r: nat, i: nat)
    requires r < 8 && i < 3 && Selected(list, r)
    ensures var t := |Items(ad, list, incr, regdir, r)| + i;
      t < |Items(ad, list, incr, regdir, 8)|
      && Items(ad, list, incr, regdir, 8)[t] == Item(RegOf(r, regdir), i, Plus(RowAddr(ad, list, incr, r), 4 * i))
  {
    hide Selected; hide RowAddr; hide RegOf; hide Plus;
    ItemsPrefix(ad, list, incr, regdir, r + 1, 8);
    var all, upto := Items(ad, list, incr, regdir, 8), Items(ad, list, incr, regdir, r + 1);
    var t := |Items(ad, list, incr, regdir, r)| + i;
    assert upto[t] == all[..|upto|][t];
  }

  // ---------------------------------------------------------------- what the transfers do

  function StoreReq(fp: seq<Ext>, x: Item): Req
    requires x.reg < |fp|
  {
    Write(x.a, 4, Part(fp[x.reg], x.part))
  }

  predicate InFile(items: seq<Item>, fp: seq<Ext>) { forall k :: 0 <= k < |items| ==> items[k].reg < |fp| }

  /** The world after storing the items in order. */
  function Stored(w: World, items: seq<Item>, fp: seq<Ext>): World
    requires InFile(items, fp)
  {
    if items == [] then w else
      var k := |items| - 1;
      Do(StoreReq(fp, items[k]), Stored(w, items[..k], fp)).0
  }

  /** The world after loading from the items in order. */
  function Fetched(w: World, items: seq<Item>): World
  {
    if items == [] then w else
      var k := |items| - 1;
      Do(Read(items[k].a, 4), Fetched(w, items[..k])).0
  }

  /** The registers after loading from the items in order: a register is set by its third part. */
  function Loaded(m: Bytes, items: seq<Item>, fp: seq<Ext>): (r: seq<Ext>)
    requires InFile(items, fp)
    ensures |r| == |fp|
  {
    if items == [] then fp else
      var k := |items| - 1;
      var f := Loaded(m, items[..k], fp);
      if items[k].part == 2 && k >= 2 then
        f[items[k].reg := Ext(Value(m, items[k - 2].a, 4), Value(m, items[k - 1].a, 4), Value(m, items[k].a, 4))]
      else f
  }

  lemma {:induction false} ItemsInFile(ad: u32, list: u32, incr: int, regdir: int, r: nat, fp: seq<Ext>)
    requires r <= 8 && |fp| == 8
    ensures InFile(Items(ad, list, incr, regdir, r), fp)
  {
    hide Selected; hide RowAddr;
    if r > 0 { ItemsInFile(ad, list, incr, regdir, r - 1, fp); }
  }

  lemma StoredStep(w: World, items: seq<Item>, fp: seq<Ext>, t: nat)
    requires InFile(items, fp) && t < |items|
    ensures InFile(items[..t], fp) && InFile(items[..t + 1], fp)
    ensures Stored(w, items[..t + 1], fp) == Do(StoreReq(fp, items[t]), Stored(w, items[..t], fp)).0
  {
    hide Do;
    assert items[..t + 1][..t] == items[..t];
  }

  // ---------------------------------------------------------------- registers to memory

  /** Transfers done so far: those counted, and the one RTE has just retried. */
  ghost function Completed(count: nat, f: Flags): nat { count + if f.movem2 then 1 else 0 }

  /** Between faults the first `Completed` transfers are done, and no others. */
  ghost predicate StoreInv(c: Core, w: World, items: seq<Item>, fp: seq<Ext>)
    reads c, c.bus
  {
    && c.Valid() && SubClear(c.bus.f) && InFile(items, fp)
    && var d := Completed(c.count, c.bus.f);
       && d <= |items| && InFile(items[..d], fp)
       && c.bus.mem == Stored(w, items[..d], fp).mem && c.bus.trace == Stored(w, items[..d], fp).trace
  }

  /** The next transfer has faulted. */
  ghost predicate StoreStopped(c: Core, w: World, items: seq<Item>, fp: seq<Ext>, g: Flags)
    reads c, c.bus
  {
    && c.Valid() && g.movem1 && !g.movem2 && InFile(items, fp) && c.count < |items| && InFile(items[..c.count], fp)
    && PendingAt(StoreReq(fp, items[c.count]), Stored(w, items[..c.count], fp), g, c.bus.mem, c.bus.trace, c.bus.f,
                 c.bus.buf, c.bus.flt)
  }

  /** One longword of `fmovem2mem`: skipped if already done, else written. */
  method StorePart(c: Core, x: u32, at: u32, t: nat, ghost w: World, ghost items: seq<Item>, ghost fp: seq<Ext>)
    returns (ok: bool)
    requires StoreInv(c, w, items, fp) && c.bus.f.movem1 && t <= c.count && t < |items| &&
             StoreReq(fp, items[t]) == Write(at, 4, x)
    modifies c`count, c.bus
    ensures ok ==> StoreInv(c, w, items, fp) && t < c.count && |c.bus.fate| <= old(|c.bus.fate|)
    ensures ok ==> c.bus.f == old(c.bus.f) || c.bus.f == old(c.bus.f).(movem2 := false)
    ensures !ok ==> StoreStopped(c, w, items, fp, old(c.bus.f)) && |c.bus.fate| < old(|c.bus.fate|)
  {
    hide Stored; hide Store; hide Touches; hide PendingWrite; hide InFile;
    ok := true;
    if c.count == t {
      StoredStep(w, items, fp, t);
      if c.bus.f.movem2 {
        c.bus.f := c.bus.f.(movem2 := false);
      } else {
        c.bus.buf := x;
        ok := c.bus.Put(at, x, 4);
        if !ok { return; }
      }
      c.count := c.count + 1;
    }
  }

  /** One run of `fmovem2mem` in its 68030 form. */
  method Fmovem2Mem(c: Core, fp: array<Ext>, ad0: u32, list: u32, incr: int, regdir: int, ghost w: World,
                    ghost items: seq<Item>)
    returns (ok: bool, ad: u32)
    requires fp.Length == 8 && items == Items(ad0, list, incr, regdir, 8) && StoreInv(c, w, items, fp[..])
    modifies c`count, c.bus
    ensures ok ==>
      && ad == AddrAt(ad0, list, incr, 8) && |c.bus.fate| <= old(|c.bus.fate|) && SubClear(c.bus.f)
      && c.bus.mem == Stored(w, items, fp[..]).mem && c.bus.trace == Stored(w, items, fp[..]).trace
    ensures !ok ==> StoreStopped(c, w, items, fp[..], Cleared(c.bus.f)) && |c.bus.fate| < old(|c.bus.fate|)
  {
    hide Stored; hide Selected; hide StoreStopped; hide Items; hide Plus; hide InFile;
    var idx, l, r := 0, list, 0;
    ad := ad0;
    c.bus.f := c.bus.f.(movem1 := true);
    NoItems(ad0, list, incr, regdir);
    while r < 8
      modifies c`count, c.bus
      invariant 0 <= r <= 8 && l == Shifted(list, r) && ad == AddrAt(ad0, list, incr, r)
      invariant 3 * idx == |Items(ad0, list, incr, regdir, r)| <= c.count
      invariant StoreInv(c, w, items, fp[..]) && c.bus.f.movem1 && |c.bus.fate| <= old(|c.bus.fate|)
    {
      RowsGrow(ad0, list, incr, regdir, r);
      SelectedIs(list, r);
      var reg := if regdir < 0 then 7 - r else r;
      if l / 0x80 % 2 == 1 {
        if incr < 0 { ad := Down(ad); }
        assert ad == RowAddr(ad0, list, incr, r);
        var i := 0;
        while i < 3
          modifies c`count, c.bus
          invariant 0 <= i <= 3 && 3 * idx + i <= c.count
          invariant StoreInv(c, w, items, fp[..]) && c.bus.f.movem1 && |c.bus.fate| <= old(|c.bus.fate|)
        {
          ItemAt(ad0, list, incr, regdir, r, i);
          ok := StorePart(c, Part(fp[reg], i), Plus(ad, 4 * i), 3 * idx + i, w, items, fp[..]);
          if !ok {
            StoppedFlags(c, w, items, fp[..]);
            return;
          }
          i := i + 1;
        }
        if incr > 0 { ad := Plus(ad, 12); }
        idx := idx + 1;
      }
      l := l * 2 % WRAP;
      r := r + 1;
    }
    ok := true;
    assert items[..|items|] == items;
  }

  lemma NoItems(ad: u32, list: u32, incr: int, regdir: int)
    ensures Items(ad, list, incr, regdir, 0) == []
  {
  }

  lemma RowsGrow(ad: u32, list: u32, incr: int, regdir: int, r: nat)
    requires r < 8
    ensures |Items(ad, list, incr, regdir, r + 1)| ==
            |Items(ad, list, incr, regdir, r)| + if Selected(list, r) then 3 else 0
  {
    hide Selected; hide RowAddr;
  }

  lemma SelectedIs(list: u32, r: nat)
    ensures Selected(list, r) <==> Shifted(list, r) / 0x80 % 2 == 1
  {
  }

  lemma StoppedFlags(c: Core, w: World, items: seq<Item>, fp: seq<Ext>)
    ensures forall g: Flags :: StoreStopped(c, w, items, fp, g) ==> g == Cleared(c.bus.f)
  {
    forall g: Flags | StoreStopped(c, w, items, fp, g) ensures g == Cleared(c.bus.f) {
      PendingFlags(StoreReq(fp, items[c.count]), Stored(w, items[..c.count], fp), g, c.bus.mem, c.bus.trace, c.bus.f,
                   c.bus.buf, c.bus.flt);
    }
  }

  /** A fault taken and returned from, up to the retry: frame, handler, restoring. The log, the
      memo, the counter and the half-read register come back, though two of the frame's log
      longwords are used for the latter. */
  method Interrupted(c: Core)
    requires c.Valid() && c.idxDone <= 6
    modifies c`idx, c`idxDone, c`disp, c`adds, c`count, c`store, c`pc, c`ipc, c.ad, c.bus`f, c.bus`buf, c.bus`flt
    ensures c.Valid() && c.idxDone == old(c.idxDone) && c.ad[..c.idxDone] == old(c.ad[..c.idxDone]) &&
            c.ipc == old(c.ipc)
    ensures c.disp == old(c.disp) && c.adds == old(c.adds) && c.count == old(c.count)
    ensures c.bus.f == old(c.bus.f) && c.bus.buf == old(c.bus.buf) && c.bus.flt == old(c.bus.flt)
    ensures c.bus.f.fmovem ==> c.store == old(c.store)
  {
    var fr := c.BuildFrame();
    ghost var done := c.idxDone;
    ghost var log := fr.slots[..done];
    DivModUnique(fr.index, 16, done, c.idx % 16);
    c.Handler();
    c.Restore(fr);
    assert c.ad[..done] == c.ad[..done + 1][..done] == log;
  }

  /** FMOVEM to memory with any faults: each longword is written once, in order, and memory and
      the final address are those of the plain loop. */
  method ExecuteStore(c: Core, fp: array<Ext>, ad0: u32, list: u32, incr: int, regdir: int) returns (ad: u32)
    requires c.Valid() && c.idxDone <= 6 && fp.Length == 8 && SubClear(c.bus.f) && !c.bus.f.movem2 && c.count == 0
    modifies c, c.ad, c.bus
    ensures InFile(Items(ad0, list, incr, regdir, 8), fp[..])
    ensures var done := Stored(old(c.Now()), Items(ad0, list, incr, regdir, 8), fp[..]);
      c.bus.mem == done.mem && c.bus.trace == done.trace
    ensures ad == AddrAt(ad0, list, incr, 8)
    ensures c.Valid() && c.idxDone == old(c.idxDone) && c.ad[..c.idxDone] == old(c.ad[..c.idxDone])
  {
    hide Stored; hide PendingAt; hide Items; hide InFile; hide AddrAt;
    ghost var w, items, regs := c.Now(), Items(ad0, list, incr, regdir, 8), fp[..];
    ItemsInFile(ad0, list, incr, regdir, 8, regs);
    NothingStored(w, items, regs);
    var ok;
    ok, ad := Fmovem2Mem(c, fp, ad0, list, incr, regdir, w, items);
    while !ok
      invariant c.Valid() && c.idxDone == old(c.idxDone) && c.ad[..c.idxDone] == old(c.ad[..c.idxDone])
      invariant ok ==> ad == AddrAt(ad0, list, incr, 8) && c.bus.mem == Stored(w, items, regs).mem &&
                       c.bus.trace == Stored(w, items, regs).trace
      invariant !ok ==> StoreStopped(c, w, items, regs, Cleared(c.bus.f))
      invariant fp[..] == regs
      decreases |c.bus.fate|, !ok
    {
      Interrupted(c);
      ghost var t, g := c.count, Cleared(c.bus.f);
      InFileAt(items, regs, t);
      ghost var q, v := StoreReq(regs, items[t]), Stored(w, items[..t], regs);
      PendingFlags(q, v, g, c.bus.mem, c.bus.trace, c.bus.f, c.bus.buf, c.bus.flt);
      StoredStep(w, items, regs, t);
      assert q.Write?;
      hide Cleared; hide StoreReq; hide Do;
      var back := c.Retry(q, v, g);
      if back {
        ok, ad := Fmovem2Mem(c, fp, ad0, list, incr, regdir, w, items);
      } else {
        PendingFlags(q, v, g, c.bus.mem, c.bus.trace, c.bus.f, c.bus.buf, c.bus.flt);
      }
    }
  }

  lemma InFileAt(items: seq<Item>, fp: seq<Ext>, t: nat)
    requires InFile(items, fp) && t < |items|
    ensures items[t].reg < |fp|
  {
  }

  lemma NothingStored(w: World, items: seq<Item>, fp: seq<Ext>)
    ensures InFile(items[..0], fp) && Stored(w, items[..0], fp) == w
  {
  }

  // ---------------------------------------------------------------- memory to registers

  lemma {:induction false} FetchedMem(w: World, items: seq<Item>)
    ensures Fetched(w, items).mem == w.mem
    decreases |items|
  {
    if items != [] { FetchedMem(w, items[..|items| - 1]); }
  }

  lemma FetchedStep(w: World, items: seq<Item>, t: nat)
    requires t < |items|
    ensures Fetched(w, items[..t + 1]) == Do(Read(items[t].a, 4), Fetched(w, items[..t])).0
    ensures Fetched(w, items[..t]).mem == w.mem
  {
    hide Do;
    assert items[..t + 1][..t] == items[..t];
    FetchedMem(w, items[..t]);
  }

  lemma LoadedStep(m: Bytes, items: seq<Item>, fp: seq<Ext>, t: nat)
    requires InFile(items, fp) && t < |items|
    ensures InFile(items[..t], fp) && InFile(items[..t + 1], fp)
    ensures items[t].part != 2 ==> Loaded(m, items[..t + 1], fp) == Loaded(m, items[..t], fp)
    ensures items[t].part == 2 && t >= 2 ==>
      Loaded(m, items[..t + 1], fp) ==
        Loaded(m, items[..t], fp)[items[t].reg :=
          Ext(Value(m, items[t - 2].a, 4), Value(m, items[t - 1].a, 4), Value(m, items[t].a, 4))]
  {
    hide Value;
    var k := items[..t + 1];
    assert k[..t] == items[..t];
    assert t >= 2 ==> k[t - 2] == items[t - 2] && k[t - 1] == items[t - 1];
  }

  /** The parts of a half-read register, kept for the rerun. */
  ghost predicate Half(store: seq<u32>, n: nat, m: Bytes, items: seq<Item>)
    requires |store| == 2 && n <= |items|
  {
    && (n % 3 >= 1 ==> store[0] == Value(m, items[n - n % 3].a, 4))
    && (n % 3 == 2 ==> store[1] == Value(m, items[n - 1].a, 4))
  }

  /** Between faults: the transfers counted are in the registers or the half-read parts, and the
      one RTE has retried is in the data buffer. */
  ghost predicate LoadInv(c: Core, fp: array<Ext>, w: World, items: seq<Item>, fp0: seq<Ext>)
    reads c, c.bus, fp
  {
    && c.Valid() && SubClear(c.bus.f) && fp.Length == |fp0| && InFile(items, fp0) && c.count <= |items| &&
      InFile(items[..c.count], fp0)
    && c.bus.mem == w.mem && fp[..] == Loaded(w.mem, items[..c.count], fp0) && Half(c.store, c.count, w.mem, items)
    && var d := Completed(c.count, c.bus.f);
       && d <= |items| && c.bus.trace == Fetched(w, items[..d]).trace
       && (c.bus.f.movem2 ==> c.bus.buf == Value(w.mem, items[c.count].a, 4))
  }

  /** The next transfer has faulted. */
  ghost predicate LoadStopped(c: Core, fp: array<Ext>, w: World, items: seq<Item>, fp0: seq<Ext>, g: Flags)
    reads c, c.bus, fp
  {
    && c.Valid() && g.movem1 && g.fmovem && !g.movem2 && fp.Length == |fp0| && InFile(items, fp0) &&
      c.count < |items| && InFile(items[..c.count], fp0)
    && fp[..] == Loaded(w.mem, items[..c.count], fp0) && Half(c.store, c.count, w.mem, items)
    && PendingAt(Read(items[c.count].a, 4), Fetched(w, items[..c.count]), g, c.bus.mem, c.bus.trace, c.bus.f, c.bus.buf,
                 c.bus.flt)
  }

  /** One longword of `fmovem2fpp`: skipped, taken from the data buffer, or read. */
  method LoadPart(c: Core, fp: array<Ext>, reg: nat, i: nat, at: u32, t: nat, ghost w: World, ghost items: seq<Item>,
                  ghost fp0: seq<Ext>)
    returns (ok: bool)
    requires LoadInv(c, fp, w, items, fp0) && c.bus.f.movem1 && c.bus.f.fmovem && t <= c.count
    requires t < |items| && items[t] == Item(reg, i, at) && i < 3 && t % 3 == i && reg < fp.Length
    modifies c`count, c`store, c.bus, fp
    ensures c.Valid()
    ensures ok ==> LoadInv(c, fp, w, items, fp0) && t < c.count && |c.bus.fate| <= old(|c.bus.fate|)
    ensures ok ==> c.bus.f == old(c.bus.f) || c.bus.f == old(c.bus.f).(movem2 := false)
    ensures !ok ==> LoadStopped(c, fp, w, items, fp0, old(c.bus.f)) && |c.bus.fate| < old(|c.bus.fate|)
  {
    hide Fetched; hide Load; hide Touches; hide PendingRead; hide InFile; hide Loaded;
    ok := true;
    if c.count == t {
      FetchedStep(w, items, t);
      LoadedStep(w.mem, items, fp0, t);
      var x;
      if c.bus.f.movem2 {
        c.bus.f := c.bus.f.(movem2 := false);
        x := c.bus.buf;
      } else {
        ok, x := c.bus.Get(at, 4);
        if !ok { return; }
      }
      assert x == Value(w.mem, at, 4);
      hide Do; hide Value;
      if i == 0 || i == 1 { c.store := c.store[i := x]; }
      c.count := c.count + 1;
      if i == 2 { fp[reg] := Ext(c.store[0], c.store[1], x); }
    }
  }

  /** One run of `fmovem2fpp` in its 68030 form. */
  method Fmovem2Fpp(c: Core, fp: array<Ext>, ad0: u32, list: u32, incr: int, regdir: int, ghost w: World,
                    ghost items: seq<Item>, ghost fp0: seq<Ext>)
    returns (ok: bool, ad: u32)
    requires fp.Length == 8 && items == Items(ad0, list, incr, regdir, 8) && LoadInv(c, fp, w, items, fp0)
    modifies c`count, c`store, c.bus, fp
    ensures InFile(items, fp0) && c.Valid()
    ensures ok ==>
      && ad == AddrAt(ad0, list, incr, 8) && |c.bus.fate| <= old(|c.bus.fate|) && SubClear(c.bus.f)
      && c.bus.mem == w.mem && c.bus.trace == Fetched(w, items).trace && fp[..] == Loaded(w.mem, items, fp0)
    ensures !ok ==> LoadStopped(c, fp, w, items, fp0, Cleared(c.bus.f)) && |c.bus.fate| < old(|c.bus.fate|)
  {
    hide Fetched; hide Loaded; hide Selected; hide LoadStopped; hide Items; hide Plus; hide InFile; hide Half;
    var idx, l, r := 0, list, 0;
    ad := ad0;
    c.bus.f := c.bus.f.(movem1 := true, fmovem := true);
    NoItems(ad0, list, incr, regdir);
    while r < 8
      modifies c`count, c`store, c.bus, fp
      invariant 0 <= r <= 8 && l == Shifted(list, r) && ad == AddrAt(ad0, list, incr, r)
      invariant 3 * idx == |Items(ad0, list, incr, regdir, r)| <= c.count
      invariant LoadInv(c, fp, w, items, fp0) && c.bus.f.movem1 && c.bus.f.fmovem && |c.bus.fate| <= old(|c.bus.fate|)
    {
      RowsGrow(ad0, list, incr, regdir, r);
      SelectedIs(list, r);
      var reg := if regdir < 0 then 7 - r else r;
      if l / 0x80 % 2 == 1 {
        if incr < 0 { ad := Down(ad); }
        assert ad == RowAddr(ad0, list, incr, r);
        var i := 0;
        while i < 3
          modifies c`count, c`store, c.bus, fp
          invariant 0 <= i <= 3 && 3 * idx + i <= c.count
          invariant LoadInv(c, fp, w, items, fp0) && c.bus.f.movem1 && c.bus.f.fmovem &&
                    |c.bus.fate| <= old(|c.bus.fate|)
        {
          ItemAt(ad0, list, incr, regdir, r, i);
          ok := LoadPart(c, fp, reg, i, Plus(ad, 4 * i), 3 * idx + i, w, items, fp0);
          if !ok {
            LoadFlags(c, fp, w, items, fp0);
            return;
          }
          i := i + 1;
        }
        if incr > 0 { ad := Plus(ad, 12); }
        idx := idx + 1;
      }
      l := l * 2 % WRAP;
      r := r + 1;
    }
    ok := true;
    assert items[..|items|] == items;
  }

  lemma LoadFlags(c: Core, fp: array<Ext>, w: World, items: seq<Item>, fp0: seq<Ext>)
    ensures forall g: Flags :: LoadStopped(c, fp, w, items, fp0, g) ==> g == Cleared(c.bus.f)
  {
    forall g: Flags | LoadStopped(c, fp, w, items, fp0, g) ensures g == Cleared(c.bus.f) {
      PendingFlags(Read(items[c.count].a, 4), Fetched(w, items[..c.count]), g, c.bus.mem, c.bus.trace, c.bus.f,
                   c.bus.buf, c.bus.flt);
    }
  }

  /** FMOVEM from memory with any faults: each longword is read once, in order, and the
      registers and the final address are those of the plain loop. */
  method ExecuteLoad(c: Core, fp: array<Ext>, ad0: u32, list: u32, incr: int, regdir: int) returns (ad: u32)
    requires c.Valid() && c.idxDone <= 6 && fp.Length == 8 && SubClear(c.bus.f) && !c.bus.f.movem2 && c.count == 0
    modifies c, c.ad, c.bus, fp
    ensures var items := Items(ad0, list, incr, regdir, 8); var w := old(c.Now());
      && InFile(items, old(fp[..])) && fp[..] == Loaded(w.mem, items, old(fp[..]))
      && c.bus.mem == w.mem && c.bus.trace == Fetched(w, items).trace
    ensures ad == AddrAt(ad0, list, incr, 8)
    ensures c.Valid() && c.idxDone == old(c.idxDone) && c.ad[..c.idxDone] == old(c.ad[..c.idxDone])
  {
    hide Fetched; hide PendingAt; hide Items; hide InFile; hide AddrAt; hide Loaded; hide Half;
    ghost var w, items, fp0 := c.Now(), Items(ad0, list, incr, regdir, 8), fp[..];
    ItemsInFile(ad0, list, incr, regdir, 8, fp0);
    NothingLoaded(w, items, fp0, c.store);
    var ok;
    ok, ad := Fmovem2Fpp(c, fp, ad0, list, incr, regdir, w, items, fp0);
    while !ok
      invariant c.Valid() && c.idxDone == old(c.idxDone) && c.ad[..c.idxDone] == old(c.ad[..c.idxDone])
      invariant ok ==> ad == AddrAt(ad0, list, incr, 8) && c.bus.mem == w.mem &&
                       c.bus.trace == Fetched(w, items).trace && fp[..] == Loaded(w.mem, items, fp0)
      invariant !ok ==> LoadStopped(c, fp, w, items, fp0, Cleared(c.bus.f))
      decreases |c.bus.fate|, !ok
    {
      ClearedMovem(c.bus.f);
      Interrupted(c);
      hide StoreStopped; hide Progress;
      ghost var t, g := c.count, Cleared(c.bus.f);
      ghost var q, v := Read(items[t].a, 4), Fetched(w, items[..t]);
      PendingFlags(q, v, g, c.bus.mem, c.bus.trace, c.bus.f, c.bus.buf, c.bus.flt);
      FetchedStep(w, items, t);
      ReadValue(q, v);
      hide Cleared; hide Do; hide Value;
      var back := c.Retry(q, v, g);
      if back {
        ok, ad := Fmovem2Fpp(c, fp, ad0, list, incr, regdir, w, items, fp0);
      } else {
        PendingFlags(q, v, g, c.bus.mem, c.bus.trace, c.bus.f, c.bus.buf, c.bus.flt);
      }
    }
  }

  lemma ReadValue(q: Req, w: World)
    requires q.Read?
    ensures Do(q, w).1 == Value(w.mem, q.a, q.n) && Do(q, w).0.mem == w.mem
  {
  }

  lemma NothingLoaded(w: World, items: seq<Item>, fp: seq<Ext>, store: seq<u32>)
    requires |store| == 2
    ensures InFile(items[..0], fp) && Loaded(w.mem, items[..0], fp) == fp && Fetched(w, items[..0]) == w &&
            Half(store, 0, w.mem, items)
  {
  }

  // ---------------------------------------------------------------- the plain loops

  /** The order in which the plain loop moves the parts of a register: reversed when the
      direction is beyond one, as only the 68040 asks for. */
  function PlainPart(i: nat, regdir: int): (r: nat)
    requires i < 3
    ensures r < 3
  {
    if -1 <= regdir <= 1 then i else 2 - i
  }

  /** The transfers with the parts in the order of the plain loop. */
  function Turned(items: seq<Item>, regdir: int): (r: seq<Item>)
    ensures |r| == |items|
  {
    seq(|items|, k requires 0 <= k < |items| =>
      if -1 <= regdir <= 1 || items[k].part > 2 then items[k] else items[k].(part := 2 - items[k].part))
  }

  /** For the directions of the 6888x the plain order is that of the restartable form. */
  lemma TurnedSame(items: seq<Item>, regdir: int)
    requires -1 <= regdir <= 1
    ensures Turned(items, regdir) == items
  {
  }

  /** `fmovem2mem` without an MMU, where nothing faults. For the directions of the 6888x it does
      what the restartable form does. */
  method PlainFmovem2Mem(w0: World, fp: seq<Ext>, ad0: u32, list: u32, incr: int, regdir: int)
    returns (w: World, ad: u32)
    requires |fp| == 8
    ensures ad == AddrAt(ad0, list, incr, 8)
    ensures var items := Items(ad0, list, incr, regdir, 8);
      && InFile(Turned(items, regdir), fp) && w == Stored(w0, Turned(items, regdir), fp)
      && (-1 <= regdir <= 1 ==> InFile(items, fp) && w == Stored(w0, items, fp))
  {
    hide Stored; hide Selected; hide Items; hide Plus; hide InFile; hide Do; hide Turned;
    ghost var items := Items(ad0, list, incr, regdir, 8);
    ItemsInFile(ad0, list, incr, regdir, 8, fp);
    ghost var turned := Turned(items, regdir);
    TurnedInFile(items, regdir, fp);
    NothingStored(w0, turned, fp);
    NoItems(ad0, list, incr, regdir);
    ghost var t := 0;
    var l, r := list, 0;
    w, ad := w0, ad0;
    while r < 8
      invariant 0 <= r <= 8 && l == Shifted(list, r) && ad == AddrAt(ad0, list, incr, r)
      invariant t == |Items(ad0, list, incr, regdir, r)| <= |items| && InFile(turned[..t], fp)
      invariant w == Stored(w0, turned[..t], fp)
    {
      RowsGrow(ad0, list, incr, regdir, r);
      SelectedIs(list, r);
      var reg := if regdir < 0 then 7 - r else r;
      if l / 0x80 % 2 == 1 {
        if incr < 0 { ad := Down(ad); }
        assert ad == RowAddr(ad0, list, incr, r);
        var i := 0;
        while i < 3
          invariant 0 <= i <= 3 && t == |Items(ad0, list, incr, regdir, r)| + i <= |items| && InFile(turned[..t], fp)
          invariant w == Stored(w0, turned[..t], fp)
        {
          ItemAt(ad0, list, incr, regdir, r, i);
          TurnedAt(items, regdir, t);
          StoredStep(w0, turned, fp, t);
          w := Do(Write(Plus(ad, 4 * i), 4, Part(fp[reg], PlainPart(i, regdir))), w).0;
          i, t := i + 1, t + 1;
        }
        if incr > 0 { ad := Plus(ad, 12); }
      }
      l := l * 2 % WRAP;
      r := r + 1;
    }
    assert turned[..|turned|] == turned;
    if -1 <= regdir <= 1 { TurnedSame(items, regdir); }
  }

  lemma TurnedInFile(items: seq<Item>, regdir: int, fp: seq<Ext>)
    requires InFile(items, fp)
    ensures InFile(Turned(items, regdir), fp)
  {
  }

  lemma TurnedAt(items: seq<Item>, regdir: int, t: nat)
    requires t < |items| && items[t].part < 3
    ensures Turned(items, regdir)[t] == items[t].(part := PlainPart(items[t].part, regdir))
  {
  }

  /** `fmovem2fpp` without an MMU. */
  method PlainFmovem2Fpp(w0: World, fp0: seq<Ext>, ad0: u32, list: u32, incr: int, regdir: int)
    returns (w: World, fp: seq<Ext>, ad: u32)
    requires |fp0| == 8
    ensures ad == AddrAt(ad0, list, incr, 8)
    ensures var items := Items(ad0, list, incr, regdir, 8);
      InFile(items, fp0) && w == Fetched(w0, items) && fp == Loaded(w0.mem, items, fp0)
  {
    hide Fetched; hide Loaded; hide Selected; hide Items; hide Plus; hide InFile; hide Value;
    ghost var items := Items(ad0, list, incr, regdir, 8);
    ItemsInFile(ad0, list, incr, regdir, 8, fp0);
    NothingLoaded(w0, items, fp0, [0, 0]);
    NoItems(ad0, list, incr, regdir);
    ghost var t := 0;
    var l, r := list, 0;
    w, fp, ad := w0, fp0, ad0;
    while r < 8
      invariant 0 <= r <= 8 && l == Shifted(list, r) && ad == AddrAt(ad0, list, incr, r)
      invariant t == |Items(ad0, list, incr, regdir, r)| <= |items| && InFile(items[..t], fp0)
      invariant w == Fetched(w0, items[..t]) && fp == Loaded(w0.mem, items[..t], fp0)
    {
      RowsGrow(ad0, list, incr, regdir, r);
      SelectedIs(list, r);
      var reg := if regdir < 0 then 7 - r else r;
      if l / 0x80 % 2 == 1 {
        if incr < 0 { ad := Down(ad); }
        assert ad == RowAddr(ad0, list, incr, r);
        var x := [];
        var i := 0;
        while i < 3
          invariant 0 <= i <= 3 && |x| == i && t == |Items(ad0, list, incr, regdir, r)| + i <= |items| &&
                    InFile(items[..t], fp0)
          invariant w == Fetched(w0, items[..t])
          invariant forall k :: 0 <= k < i ==> x[k] == Value(w0.mem, items[t - i + k].a, 4)
          invariant i < 3 ==> fp == Loaded(w0.mem, items[..t], fp0)
          invariant i == 3 ==> fp[reg := Ext(x[0], x[1], x[2])] == Loaded(w0.mem, items[..t], fp0)
        {
          ItemAt(ad0, list, incr, regdir, r, i);
          FetchedStep(w0, items, t);
          LoadedStep(w0.mem, items, fp0, t);
          var d := Do(Read(Plus(ad, 4 * i), 4), w);
          w, x := d.0, x + [d.1];
          i, t := i + 1, t + 1;
        }
        if incr > 0 { ad := Plus(ad, 12); }
        fp := fp[reg := Ext(x[0], x[1], x[2])];
      }
      l := l * 2 % WRAP;
      r := r + 1;
    }
    assert items[..|items|] == items;
  }
}
