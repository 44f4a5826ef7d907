/** FMOVEM on mask bits and addresses: which registers move, where they lie, and that what is saved
    is restored. */
module Rows030 {
  import opened Words
  import opened Bits
  import opened Bus030
  import opened Access030
  import opened Program030
  import opened Core030
  import opened Fmovem030

  // ---------------------------------------------------------------- the mask

  /** How many of the top `r` bits of the low byte of a mask are set. */
  function Above(list: u32, r: nat): (n: nat)
    requires r <= 8
    ensures n <= r
  {
    if r == 0 then 0 else
      BitRange(list, 8 - r);
      Above(list, r - 1) + Bit(list, 8 - r)
  }

  lemma {:induction false} BitRange(x: nat, k: nat)
    ensures 0 <= Bit(x, k) <= 1
  {
    if k > 0 { BitRange(x / 2, k - 1); }
  }

  lemma Doubled(x: u32, k: nat)
    requires k < 31
    ensures Bit(x * 2 % WRAP, k + 1) == Bit(x, k)
  {
    hide Bit; hide Pow2;
    PowersOfTwo();
    BitLow(x * 2, 32, k + 1);
    BitStep(x * 2, k);
  }

  lemma {:induction false} ShiftedBit(list: u32, r: nat, k: nat)
    requires k + r < 32
    ensures Bit(Shifted(list, r), k + r) == Bit(list, k)
  {
    hide Bit;
    if r > 0 {
      ShiftedBit(list, r - 1, k);
      Doubled(Shifted(list, r - 1), k + r - 1);
    }
  }

  /** Row `r` of the mask is bit 7 - r. */
  lemma SelectedMeans(list: u32, r: nat)
    requires r < 8
    ensures Selected(list, r) <==> Bit(list, 7 - r) == 1
  {
    hide Bit; hide Pow2; hide Shifted;
    PowersOfTwo();
    ShiftedBit(list, r, 7 - r);
    BitIs(Shifted(list, r), 7);
  }

  // ---------------------------------------------------------------- addresses

  lemma DownIs(a: int)
    ensures Down(a % WRAP) == (a - 12) % WRAP && Plus(a % WRAP, 12) == (a + 12) % WRAP
  {
    Joined(a, WRAP - 12);
    Joined(a, 12);
    Around(a - 12);
  }

  lemma Joined(x: int, y: int)
    ensures (x % WRAP + y) % WRAP == (x + y) % WRAP
  {
    var q, k := x / WRAP, (x + y) / WRAP;
    DivModUnique(x % WRAP + y, WRAP, k - q, (x + y) % WRAP);
  }

  lemma Around(x: int)
    ensures (x + WRAP) % WRAP == x % WRAP
  {
    DivModUnique(x + WRAP, WRAP, x / WRAP + 1, x % WRAP);
  }

  /** The address moves by 12 bytes for each register, up or down or not at all. */
  lemma {:induction false} AddressMeans(ad: u32, list: u32, incr: int, r: nat)
    requires r <= 8
    ensures var n := Above(list, r);
      AddrAt(ad, list, incr, r) == (ad + (if incr > 0 then 12 * n else if incr < 0 then 0 - 12 * n else 0)) % WRAP
  {
    hide Bit; hide Selected; hide Down; hide Plus;
    if r > 0 {
      AddressMeans(ad, list, incr, r - 1);
      SelectedMeans(list, r - 1);
      BitRange(list, 8 - r);
      var n := Above(list, r - 1);
      DownIs(ad - 12 * n);
      DownIs(ad + 12 * n);
    }
  }

  lemma {:induction false} ItemCount(ad: u32, list: u32, incr: int, regdir: int, r: nat)
    requires r <= 8
    ensures |Items(ad, list, incr, regdir, r)| == 3 * Above(list, r)
  {
    hide Bit; hide Selected; hide RowAddr;
    if r > 0 {
      ItemCount(ad, list, incr, regdir, r - 1);
      RowsGrow(ad, list, incr, regdir, r - 1);
      SelectedMeans(list, r - 1);
      BitRange(list, 8 - r);
    }
  }

  /** Where the first longword of row `r` lies. */
  function RowStart(ad: u32, list: u32, incr: int, r: nat): int
    requires r <= 8
  {
    var n := Above(list, r);
    ad + if incr > 0 then 12 * n else if incr < 0 then 0 - 12 * n - 12 else 0
  }

  lemma RowMeans(ad: u32, list: u32, incr: int, r: nat)
    requires r < 8
    ensures RowAddr(ad, list, incr, r) == RowStart(ad, list, incr, r) % WRAP
  {
    hide AddrAt; hide Down;
    AddressMeans(ad, list, incr, r);
    DownIs(ad - 12 * Above(list, r));
  }

  lemma PlusMod(a: int, n: nat)
    ensures Plus(a % WRAP, n) == (a + n) % WRAP
  {
    Joined(a, n);
  }

  /** All transfers: three for each set bit of the low byte of the mask, from bit 7 down. Bit `b`
      stands for register `b` if the direction is negative and for register 7 - `b` otherwise. Its
      three longwords follow each other in memory, and the registers lie side by side: upwards from
      the address, downwards below it, or all at it. */
  lemma ItemsMean(ad: u32, list: u32, incr: int, regdir: int, b: nat, i: nat)
    requires b < 8 && i < 3
    ensures var items := Items(ad, list, incr, regdir, 8);
      && |items| == 3 * Above(list, 8)
      && (Bit(list, b) == 1 ==>
            var j := Above(list, 7 - b);
            && 3 * j + i < |items|
            && items[3 * j + i].reg == (if regdir < 0 then b else 7 - b) && items[3 * j + i].part == i
            && items[3 * j + i].a ==
                 (ad + (if incr > 0 then 12 * j else if incr < 0 then 0 - 12 * (j + 1) else 0) + 4 * i) % 0x1_0000_0000)
  {
    hide Bit; hide Selected; hide Items; hide Plus; hide RowAddr;
    ItemCount(ad, list, incr, regdir, 8);
    SelectedMeans(list, 7 - b);
    if Bit(list, b) == 1 {
      ItemCount(ad, list, incr, regdir, 7 - b);
      ItemAt(ad, list, incr, regdir, 7 - b, i);
      RowMeans(ad, list, incr, 7 - b);
      PlusMod(RowStart(ad, list, incr, 7 - b), 4 * i);
    }
  }

  /** The address a loop returns: 12 bytes for each set bit of the low byte. */
  lemma FinalAddress(ad: u32, list: u32, incr: int)
    ensures var n := Above(list, 8);
      && (incr > 0 ==> AddrAt(ad, list, incr, 8) == (ad + 12 * n) % 0x1_0000_0000)
      && (incr < 0 ==> AddrAt(ad, list, incr, 8) == (ad - 12 * n) % 0x1_0000_0000)
      && (incr == 0 ==> AddrAt(ad, list, incr, 8) == ad)
  {
    AddressMeans(ad, list, incr, 8);
  }

  // ---------------------------------------------------------------- storing

  /** Two longwords without a common byte. */
  ghost predicate Clear4(a: u32, b: u32) { forall i, j :: 0 <= i < 4 && 0 <= j < 4 ==> Plus(a, i) != Plus(b, j) }

  lemma ClearWhen(x: int, y: int)
    requires 4 <= x - y < 0x100_0000 || 4 <= y - x < 0x100_0000
    ensures Clear4(x % WRAP, y % WRAP)
  {
    forall i, j | 0 <= i < 4 && 0 <= j < 4 ensures Plus(x % WRAP, i) != Plus(y % WRAP, j) {
      PlusMod(x, i);
      PlusMod(y, j);
      ApartMod(x + i, y + j);
    }
  }

  lemma ApartMod(x: int, y: int)
    requires 0 < x - y < WRAP || 0 < y - x < WRAP
    ensures x % WRAP != y % WRAP
  {
  }

  lemma StoreAway(m: Bytes, a: u32, v: u32, b: u32)
    requires Clear4(a, b)
    ensures Value(Store(m, a, 4, v), b, 4) == Value(m, b, 4)
  {
    hide Plus; hide Store;
    forall j | 0 <= j < 4 ensures At(Store(m, a, 4, v), Plus(b, j)) == At(m, Plus(b, j)) {
      StoreOther(m, a, 4, v, Plus(b, j));
    }
    LoadAgrees(Store(m, a, 4, v), m, b, 4);
  }

  lemma StoreBack(m: Bytes, a: u32, v: u32)
    ensures Value(Store(m, a, 4, v), a, 4) == v
  {
    hide Plus; hide Store; hide Load;
    LoadStore(m, a, 4, v);
    Powers();
  }

  ghost predicate AllClear(items: seq<Item>)
  {
    forall t, u :: 0 <= t < u < |items| ==> Clear4(items[t].a, items[u].a)
  }

  lemma StoredMem(w: World, items: seq<Item>, fp: seq<Ext>)
    requires InFile(items, fp) && items != []
    ensures var k := |items| - 1;
      && InFile(items[..k], fp)
      && Stored(w, items, fp).mem ==
           Store(Stored(w, items[..k], fp).mem, items[k].a, 4, Part(fp[items[k].reg], items[k].part))
  {
    hide Store; hide Touches;
  }

  /** Longwords that do not overlap are all there after they were stored. */
  lemma {:induction false} StoredAt(w: World, items: seq<Item>, fp: seq<Ext>, t: nat)
    requires InFile(items, fp) && AllClear(items) && t < |items|
    ensures Value(Stored(w, items, fp).mem, items[t].a, 4) == Part(fp[items[t].reg], items[t].part)
    decreases |items|
  {
    hide Stored; hide Value; hide Clear4; hide Store;
    StoredMem(w, items, fp);
    var k := |items| - 1;
    var m, v := Stored(w, items[..k], fp).mem, Part(fp[items[k].reg], items[k].part);
    if t == k {
      StoreBack(m, items[k].a, v);
    } else {
      StoredAt(w, items[..k], fp, t);
      ClearBack(items[t].a, items[k].a);
      StoreAway(m, items[k].a, v, items[t].a);
    }
  }

  lemma ClearBack(a: u32, b: u32)
    requires Clear4(a, b)
    ensures Clear4(b, a)
  {
  }

  /** The row that the `j`-th set bit stands in. */
  lemma {:induction false} FindRow(list: u32, r: nat, j: nat) returns (q: nat)
    requires r <= 8 && j < Above(list, r)
    ensures q < r && Bit(list, 7 - q) == 1 && Above(list, q) == j
  {
    hide Bit;
    BitRange(list, 8 - r);
    if j < Above(list, r - 1) { q := FindRow(list, r - 1, j); } else { q := r - 1; }
  }

  /** Where transfer `t` of a store below the address goes. */
  lemma PlaceBelow(ad: u32, list: u32, incr: int, regdir: int, t: nat)
    requires incr < 0 && t < |Items(ad, list, incr, regdir, 8)|
    ensures Items(ad, list, incr, regdir, 8)[t].a == (ad - 12 * (t / 3 + 1) + 4 * (t % 3)) % WRAP
  {
    hide Items; hide Bit; hide Above;
    ItemCount(ad, list, incr, regdir, 8);
    var j, i := t / 3, t % 3;
    var q := FindRow(list, 8, j);
    ItemsMean(ad, list, incr, regdir, 7 - q, i);
    assert 3 * j + i == t;
  }

  lemma BelowClear(ad: u32, list: u32, incr: int, regdir: int)
    requires incr < 0
    ensures AllClear(Items(ad, list, incr, regdir, 8))
  {
    hide Items; hide Clear4;
    var items := Items(ad, list, incr, regdir, 8);
    ItemCount(ad, list, incr, regdir, 8);
    forall t, u | 0 <= t < u < |items| ensures Clear4(items[t].a, items[u].a) {
      PlaceBelow(ad, list, incr, regdir, t);
      PlaceBelow(ad, list, incr, regdir, u);
      ClearWhen(ad - 12 * (t / 3 + 1) + 4 * (t % 3), ad - 12 * (u / 3 + 1) + 4 * (u % 3));
    }
  }

  // ---------------------------------------------------------------- loading

  lemma LoadedRow(m: Bytes, items: seq<Item>, reg: nat, a: u32, fp: seq<Ext>)
    requires InFile(items, fp) && reg < |fp|
    ensures InFile(items + Row(reg, a), fp)
    ensures Loaded(m, items + Row(reg, a), fp) ==
      Loaded(m, items, fp)[reg := Ext(Value(m, Plus(a, 0), 4), Value(m, Plus(a, 4), 4), Value(m, Plus(a, 8), 4))]
  {
    hide Loaded; hide Value; hide Plus; hide Row; hide InFile;
    var all, n := items + Row(reg, a), |items|;
    RowItems(items, reg, a, fp);
    LoadedStep(m, all, fp, n);
    LoadedStep(m, all, fp, n + 1);
    LoadedStep(m, all, fp, n + 2);
  }

  lemma RowItems(items: seq<Item>, reg: nat, a: u32, fp: seq<Ext>)
    requires InFile(items, fp) && reg < |fp|
    ensures var all, n := items + Row(reg, a), |items|;
      && |all| == n + 3 && all[..n] == items && all[..n + 3] == all && InFile(all, fp)
      && all[n] == Item(reg, 0, Plus(a, 0)) && all[n + 1] == Item(reg, 1, Plus(a, 4))
      && all[n + 2] == Item(reg, 2, Plus(a, 8))
  {
    hide Plus;
  }

  /** A register after a load: the three longwords of its row if that is selected, or what it was. */
  lemma {:induction false} LoadedMeans(m: Bytes, fp: seq<Ext>, ad: u32, list: u32, incr: int, regdir: int, r: nat,
                                       reg: nat)
    requires r <= 8 && |fp| == 8 && reg < 8
    ensures var items := Items(ad, list, incr, regdir, r); var row := if regdir < 0 then 7 - reg else reg;
      && InFile(items, fp)
      && Loaded(m, items, fp)[reg] ==
           if row < r && Selected(list, row) then
             var a := RowAddr(ad, list, incr, row);
             Ext(Value(m, Plus(a, 0), 4), Value(m, Plus(a, 4), 4), Value(m, Plus(a, 8), 4))
           else fp[reg]
  {
    hide Loaded; hide Value; hide Plus; hide Selected; hide RowAddr; hide Row;
    ItemsInFile(ad, list, incr, regdir, r, fp);
    if r == 0 {
      NothingThere(m, fp);
    } else {
      LoadedMeans(m, fp, ad, list, incr, regdir, r - 1, reg);
      if Selected(list, r - 1) {
        LoadedRow(m, Items(ad, list, incr, regdir, r - 1), RegOf(r - 1, regdir), RowAddr(ad, list, incr, r - 1), fp);
      } else {
        assert Items(ad, list, incr, regdir, r) == Items(ad, list, incr, regdir, r - 1);
      }
    }
  }

  lemma NothingThere(m: Bytes, fp: seq<Ext>)
    ensures InFile([], fp) && Loaded(m, [], fp) == fp
  {
  }

  // ---------------------------------------------------------------- saving and restoring

  /** The mask of a load that undoes a store: a predecrement store numbers the registers from bit 0,
      a postincrement load from bit 7. */
  ghost predicate Mirrors(list: u32, back: u32) { forall k :: 0 <= k < 8 ==> Bit(back, 7 - k) == Bit(list, k) }

  /** The set bits below `k` in one mask and from `k` up in the other are all of them. */
  lemma {:induction false} MirrorCount(list: u32, back: u32, k: nat)
    requires k <= 8 && Mirrors(list, back)
    ensures Above(back, k) + Above(list, 8 - k) == Above(list, 8)
  {
    hide Bit;
    if k > 0 {
      MirrorCount(list, back, k - 1);
      BitRange(list, k - 1);
      assert Bit(back, 7 - (k - 1)) == Bit(list, k - 1);
      AboveStep(back, k);
      AboveStep(list, 9 - k);
    }
  }

  lemma AboveStep(list: u32, r: nat)
    requires 0 < r <= 8
    ensures Above(list, r) == Above(list, r - 1) + Bit(list, 8 - r)
  {
    hide Bit;
  }

  /** A selected register is read back from where it was written. */
  lemma SamePlace(ad: u32, list: u32, back: u32, reg: nat)
    requires reg < 8 && Mirrors(list, back) && Bit(list, reg) == 1
    ensures Selected(back, reg) && Above(list, 7 - reg) < Above(list, 8)
    ensures RowAddr(AddrAt(ad, list, -1, 8), back, 1, reg) == (ad - 12 * (Above(list, 7 - reg) + 1)) % WRAP
  {
    hide Bit; hide RowAddr; hide AddrAt; hide Above; hide Selected;
    var ad1, n := AddrAt(ad, list, -1, 8), Above(list, 8);
    FinalAddress(ad, list, -1);
    assert Bit(back, 7 - reg) == 1;
    SelectedMeans(back, reg);
    RowMeans(ad1, back, 1, reg);
    MirrorCount(list, back, reg);
    AboveStep(list, 8 - reg);
    Joined(ad - 12 * n, 12 * Above(back, reg));
  }

  lemma OnePart(w: World, fp: seq<Ext>, ad: u32, list: u32, reg: nat, i: nat)
    requires |fp| == 8 && reg < 8 && i < 3 && Bit(list, reg) == 1
    ensures InFile(Items(ad, list, -1, -1, 8), fp)
    ensures var a := (ad - 12 * (Above(list, 7 - reg) + 1)) % WRAP;
      Value(Stored(w, Items(ad, list, -1, -1, 8), fp).mem, Plus(a, 4 * i), 4) == Part(fp[reg], i)
  {
    hide Items; hide Stored; hide Value; hide Plus; hide Bit; hide Above; hide AllClear; hide InFile;
    ItemsInFile(ad, list, -1, -1, 8, fp);
    BelowClear(ad, list, -1, -1);
    ItemsMean(ad, list, -1, -1, reg, i);
    var j := Above(list, 7 - reg);
    PlusMod(ad - 12 * (j + 1), 4 * i);
    StoredAt(w, Items(ad, list, -1, -1, 8), fp, 3 * j + i);
  }

  /** What a predecrement store saves, a postincrement load with the mirrored mask restores: every
      selected register and the address, whatever the registers held in between. */
  lemma SaveRestore(w: World, fp: seq<Ext>, other: seq<Ext>, ad: u32, list: u32, back: u32, reg: nat)
    requires |fp| == |other| == 8 && Mirrors(list, back) && reg < 8
    ensures var down := Items(ad, list, -1, -1, 8); var ad1 := AddrAt(ad, list, -1, 8);
      var up := Items(ad1, back, 1, 1, 8);
      && InFile(down, fp) && InFile(up, other) && AddrAt(ad1, back, 1, 8) == ad
      && Loaded(Stored(w, down, fp).mem, up, other)[reg] == if Bit(list, reg) == 1 then fp[reg] else other[reg]
  {
    hide Items; hide Stored; hide Value; hide Plus; hide Bit; hide Above; hide InFile; hide Loaded; hide Selected;
    hide RowAddr; hide AddrAt;
    var ad1, n := AddrAt(ad, list, -1, 8), Above(list, 8);
    ItemsInFile(ad, list, -1, -1, 8, fp);
    var m := Stored(w, Items(ad, list, -1, -1, 8), fp).mem;
    LoadedMeans(m, other, ad1, back, 1, 1, 8, reg);
    SelectedMeans(back, reg);
    FinalAddress(ad, list, -1);
    FinalAddress(ad1, back, 1);
    MirrorCount(list, back, 8);
    NoneAbove(list);
    Joined(ad - 12 * n, 12 * n);
    if Bit(list, reg) == 1 {
      SamePlace(ad, list, back, reg);
      OnePart(w, fp, ad, list, reg, 0);
      OnePart(w, fp, ad, list, reg, 1);
      OnePart(w, fp, ad, list, reg, 2);
    } else {
      assert Bit(back, 7 - reg) == Bit(list, reg);
    }
  }

  lemma NoneAbove(list: u32)
    ensures Above(list, 0) == 0
  {
  }

  /** The two instructions with any faults. In between the registers are set to `between`; the
      second instruction begins with fresh state. */
  method SaveAndRestore(c: Core, fp: array<Ext>, ad0: u32, list: u32, back: u32, between: seq<Ext>) returns (ad: u32)
    requires c.Valid() && c.idxDone <= 6 && fp.Length == 8 && SubClear(c.bus.f) && !c.bus.f.movem2 && c.count == 0
    requires Mirrors(list, back) && |between| == 8
    modifies c, c.ad, c.bus, fp
    ensures ad == ad0
    ensures forall k :: 0 <= k < 8 ==> fp[k] == if Bit(list, k) == 1 then old(fp[k]) else between[k]
  {
    hide Items; hide Stored; hide Loaded; hide AddrAt; hide InFile; hide Bit; hide Mirrors; hide Fetched;
    ghost var w, regs := c.Now(), fp[..];
    var ad1 := ExecuteStore(c, fp, ad0, list, -1, -1);
    ghost var m := c.bus.mem;
    forall k | 0 <= k < 8 { fp[k] := between[k]; }
    assert fp[..] == between;
    c.count, c.bus.f := 0, NOFLAGS;
    ad := ExecuteLoad(c, fp, ad1, back, 1, 1);
    forall k | 0 <= k < 8 ensures fp[k] == if Bit(list, k) == 1 then regs[k] else between[k] {
      SaveRestore(w, regs, between, ad0, list, back, k);
    }
    SaveRestore(w, regs, between, ad0, list, back, 0);
  }
}
