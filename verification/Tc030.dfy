/** The 68030 translation control register: which TC values are accepted, and the table
    masks and shifts they decode to. */
module Tc030 {
  import opened Words
  import opened Bits
  import opened Walk030

  function PageBits(tc: u32): nat { (tc / 0x10_0000) % 16 }
  function InitShift(tc: u32): nat { (tc / 0x1_0000) % 16 }

  /** The table index fields TIA, TIB, TIC and TID. */
  function Ti(tc: u32, i: nat): (r: nat)
    requires i < 4
    ensures r < 16
  {
    if i == 0 then (tc / 0x1000) % 16 else if i == 1 then (tc / 0x100) % 16
    else if i == 2 then (tc / 0x10) % 16 else tc % 16
  }

  /** First zero index field at or after `i`, or 4. */
  function UsedFrom(tc: u32, i: nat): (n: nat)
    requires i <= 4
    ensures i <= n <= 4
    ensures forall k :: i <= k < n ==> Ti(tc, k) != 0
    ensures n < 4 ==> Ti(tc, n) == 0
    decreases 4 - i
  {
    if i < 4 && Ti(tc, i) != 0 then UsedFrom(tc, i + 1) else i
  }

  /** How many table levels there are: the index fields before the first zero one. */
  function Used(tc: u32): nat { UsedFrom(tc, 0) }

  /** The initial shift and the first `k` index fields, summed. */
  function Sum(tc: u32, k: nat): (r: nat)
    requires k <= 4
    ensures r <= 15 + 15 * k
  {
    if k == 0 then InitShift(tc) else Sum(tc, k - 1) + Ti(tc, k - 1)
  }

  /** Section 9.5.2 of the MC68030 User's Manual: all fields in use must sum to 32. */
  predicate Accepts(tc: u32)
  {
    PageBits(tc) >= 8 && Sum(tc, Used(tc)) + PageBits(tc) == 32
  }

  /** Lowest and highest-plus-one address bit of table index `t`. */
  function Lo(tc: u32, t: nat): int requires t < 4 { 32 - Sum(tc, t + 1) }
  function Hi(tc: u32, t: nat): int requires t < 4 { 32 - Sum(tc, t) }

  lemma BandMultiple(hi: nat, lo: nat, k: nat)
    requires k <= lo <= hi
    ensures Band(hi, lo) % Pow2(k) == 0
  {
    var p := Pow2(k);
    Pow2Splits(k, lo);
    Pow2Splits(k, hi);
    Pow2Splits(lo, hi);
    var a, b := Pow2(hi) / p, Pow2(lo) / p;
    assert Band(hi, lo) == p * (a - b) by { assert p * (a - b) == p * a - p * b; }
    DivModUnique(Band(hi, lo), p, a - b, 0);
  }

  /** The mask of one table index, one bit at a time. */
  method BuildMask(shift: nat, bits: nat) returns (mask: nat)
    ensures shift + bits <= 32 ==> mask == Band(shift + bits, shift)
  {
    mask := 0;
    var j := 0;
    while j < bits
      invariant 0 <= j <= bits
      invariant shift + bits <= 32 ==> mask == Band(shift + j, shift)
    {
      // A shift by 32 or more is undefined in C; such a TC is rejected in the end.
      if shift + j < 32 {
        mask := mask + Pow2(shift + j);
      }
      j := j + 1;
    }
  }

  lemma PageBitsRange(tc: u32)
    ensures PageBits(tc) < 16
  {
  }

  lemma {:induction false} SumGrows(tc: u32, j: nat, k: nat)
    requires j <= k <= 4
    ensures Sum(tc, j) <= Sum(tc, k)
  {
    if j < k { SumGrows(tc, j, k - 1); }
  }

  /** What an accepted TC decodes to. */
  ghost predicate Decodes(tc: u32, x: Xlat)
  {
    && |x.mask| == 4 && |x.shift| == 4
    && x.ps == PageBits(tc) && x.last == Used(tc) - 1 && 0 < Used(tc)
    && (forall t :: 0 <= t < Used(tc) ==> x.ps <= Lo(tc, t) < Hi(tc, t) <= 32)
    && (forall t :: 0 <= t < Used(tc) ==> x.shift[t] == Lo(tc, t) && x.mask[t] == Band(Hi(tc, t), Lo(tc, t)))
    && (forall t :: Used(tc) <= t < 4 ==> x.shift[t] == 0 && x.mask[t] == 0)
  }

  lemma AcceptedRanges(tc: u32)
    requires Accepts(tc)
    ensures 0 < Used(tc)
    ensures forall t :: 0 <= t < Used(tc) ==> PageBits(tc) <= Lo(tc, t) < Hi(tc, t) <= 32
  {
    forall t | 0 <= t < Used(tc)
      ensures PageBits(tc) <= Lo(tc, t) < Hi(tc, t) <= 32
    {
      SumGrows(tc, t + 1, Used(tc));
    }
  }

  lemma DecodesIsSound(tc: u32, x: Xlat)
    requires Accepts(tc) && Decodes(tc, x)
    ensures Sound(x)
  {
    forall t | 0 <= t < 4
      ensures x.mask[t] % Pow2(x.ps) == 0
    {
      if t < Used(tc) {
        BandMultiple(Hi(tc, t), Lo(tc, t), x.ps);
      } else {
        DivModUnique(0, Pow2(x.ps), 0, 0);
      }
    }
  }

  /** Table level `t` as decoded, unless the fields up to it overrun the address. */
  ghost predicate Level(tc: u32, t: nat, mask: nat, shift: nat)
    requires t < 4
  {
    Sum(tc, t + 1) <= 32 ==> shift == Lo(tc, t) && mask == Band(Hi(tc, t), Lo(tc, t))
  }

  lemma SumStep(tc: u32, t: nat)
    requires t < 4
    ensures Sum(tc, t + 1) == Sum(tc, t) + Ti(tc, t)
  {
    hide Ti; hide InitShift;
  }

  lemma SmallMod(n: nat)
    requires n <= 32
    ensures (32 - n) % 256 == 32 - n
  {
  }

  lemma LevelDone(tc: u32, t: nat, mask: nat, shift: nat)
    requires t < 4 && shift == (32 - Sum(tc, t + 1)) % 256
    requires shift + Ti(tc, t) <= 32 ==> mask == Band(shift + Ti(tc, t), shift)
    ensures Level(tc, t, mask, shift)
  {
    hide Band; hide Ti; hide Sum;
    SumStep(tc, t);
    if Sum(tc, t + 1) <= 32 { SmallMod(Sum(tc, t + 1)); }
  }

  lemma LevelMeans(tc: u32, t: nat, mask: nat, shift: nat)
    requires Accepts(tc) && t < Used(tc) && Level(tc, t, mask, shift)
    ensures 0 <= Lo(tc, t) <= Hi(tc, t) && shift == Lo(tc, t) && mask == Band(Hi(tc, t), Lo(tc, t))
  {
    AcceptedRanges(tc);
  }

  lemma SumStarts(tc: u32)
    ensures Sum(tc, 0) == InitShift(tc)
  {
  }

  lemma ShiftStep(tc: u32, i: nat, shift: int)
    requires i < 4 && shift == (32 - Sum(tc, i)) % 256
    ensures (shift - Ti(tc, i)) % 256 == (32 - Sum(tc, i + 1)) % 256
  {
    hide Ti; hide Sum;
    SumStep(tc, i);
  }

  // ---------------------------------------------------------------- the register nibble by nibble

  /** Bits 23-20 hold the page size, 19-16 the initial shift, 15-12, 11-8, 7-4 and 3-0 the four
      index fields, of which the first zero one ends the list. All in use sum to 32. */
  predicate FieldsFit(tc: u32)
  {
    var ps, skip := tc / 0x10_0000 % 16, tc / 0x1_0000 % 16;
    var a, b, c, d := tc / 0x1000 % 16, tc / 0x100 % 16, tc / 0x10 % 16, tc % 16;
    && ps >= 8
    && skip + ps + (if a == 0 then 0
                    else if b == 0 then a
                    else if c == 0 then a + b
                    else a + b + c + d) == 32
  }

  /** Table index `t` is the `width` address bits below bit `top`. */
  ghost predicate IndexField(x: Xlat, t: nat, top: int, width: nat)
    requires t < 4 && |x.mask| == 4 && |x.shift| == 4
  {
    && 0 < width <= top <= 32 && x.shift[t] == top - width
    && x.mask[t] == Pow2(top) - Pow2(top - width)
  }

  /** The decoded masks and shifts, field by field. */
  ghost predicate FieldsDecode(tc: u32, x: Xlat)
  {
    var top := 32 - tc / 0x1_0000 % 16;
    var a, b, c, d := tc / 0x1000 % 16, tc / 0x100 % 16, tc / 0x10 % 16, tc % 16;
    && |x.mask| == 4 && |x.shift| == 4 && x.ps == tc / 0x10_0000 % 16
    && x.last == (if b == 0 then 0 else if c == 0 then 1 else if d == 0 then 2 else 3)
    && IndexField(x, 0, top, a)
    && (x.last >= 1 ==> IndexField(x, 1, top - a, b))
    && (x.last >= 2 ==> IndexField(x, 2, top - a - b, c))
    && (x.last >= 3 ==> IndexField(x, 3, top - a - b - c, d))
    && forall t :: x.last < t < 4 ==> x.mask[t] == 0 && x.shift[t] == 0
  }

  lemma UsedFields(tc: u32)
    ensures var a, b, c, d := tc / 0x1000 % 16, tc / 0x100 % 16, tc / 0x10 % 16, tc % 16;
      && Used(tc) == (if a == 0 then 0 else if b == 0 then 1 else if c == 0 then 2 else if d == 0 then 3 else 4)
      && Sum(tc, 0) == tc / 0x1_0000 % 16 && Sum(tc, 1) == Sum(tc, 0) + a && Sum(tc, 2) == Sum(tc, 1) + b
      && Sum(tc, 3) == Sum(tc, 2) + c && Sum(tc, 4) == Sum(tc, 3) + d
  {
    hide Sum; hide UsedFrom;
    SumStarts(tc);
    SumStep(tc, 0); SumStep(tc, 1); SumStep(tc, 2); SumStep(tc, 3);
    NextUsed(tc, 0); NextUsed(tc, 1); NextUsed(tc, 2); NextUsed(tc, 3); NextUsed(tc, 4);
  }

  lemma NextUsed(tc: u32, i: nat)
    requires i <= 4
    ensures UsedFrom(tc, i) == if i < 4 && Ti(tc, i) != 0 then UsedFrom(tc, i + 1) else i
  {
    hide Ti;
  }

  /** Acceptance and decoding say what the nibbles of the register say. */
  lemma AcceptsMeans(tc: u32)
    ensures Accepts(tc) <==> FieldsFit(tc)
  {
    hide Sum; hide UsedFrom; hide Ti;
    UsedFields(tc);
  }

  lemma DecodesMeans(tc: u32, x: Xlat)
    requires Accepts(tc) && Decodes(tc, x)
    ensures FieldsDecode(tc, x)
  {
    hide Sum; hide UsedFrom; hide Ti; hide Pow2;
    UsedFields(tc);
  }

  /** 4K pages and index fields 7, 7 and 6; and a register with a gap, which is rejected. */
  lemma ThreeLevels(x: Xlat)
    requires Decodes(0x80c0_7760, x)
    ensures Accepts(0x80c0_7760) && !Accepts(0x80c0_a0a0)
    ensures x == Xlat([0xfe00_0000, 0x1fc_0000, 0x3_f000, 0], [25, 18, 12, 0], 2, 12)
  {
    hide Pow2; hide Accepts; hide FieldsFit; hide Decodes; hide FieldsDecode;
    AcceptsMeans(0x80c0_7760);
    AcceptsMeans(0x80c0_a0a0);
    ThreeFit();
    DecodesMeans(0x80c0_7760, x);
    ThreeFields(x);
    PowersOfTwo();
  }

  lemma ThreeFit()
    ensures FieldsFit(0x80c0_7760) && !FieldsFit(0x80c0_a0a0)
  {
    var t, g: u32 := 0x80c0_7760, 0x80c0_a0a0;
    assert t / 0x10_0000 % 16 == 12 && t / 0x1_0000 % 16 == 0 && t / 0x1000 % 16 == 7 && t / 0x100 % 16 == 7;
    assert t / 0x10 % 16 == 6 && t % 16 == 0;
    assert g / 0x10_0000 % 16 == 12 && g / 0x1_0000 % 16 == 0 && g / 0x1000 % 16 == 10 && g / 0x100 % 16 == 0;
  }

  lemma ThreeFields(x: Xlat)
    requires FieldsDecode(0x80c0_7760, x)
    ensures |x.mask| == 4 && |x.shift| == 4 && x.ps == 12 && x.last == 2 && x.mask[3] == 0 && x.shift[3] == 0
    ensures IndexField(x, 0, 32, 7) && IndexField(x, 1, 25, 7) && IndexField(x, 2, 18, 6)
  {
    hide IndexField;
  }

  /** `mmu030_decode_tc` with the enable bit set. `shift` is an 8-bit variable: it wraps when
      the index fields overrun the address, and still only a true sum of 32 is accepted. */
  method DecodeTc(tc: u32) returns (ok: bool, x: Xlat)
    ensures ok <==> Accepts(tc)
    ensures ok ==> Decodes(tc, x) && Sound(x)
    ensures ok <==> FieldsFit(tc)
    ensures ok ==> FieldsDecode(tc, x)
  {
    hide Band; hide Pow2; hide Ti; hide InitShift; hide Level; hide PageBits; hide Sum;
    hide FieldsFit; hide FieldsDecode;
    x := Xlat([0, 0, 0, 0], [0, 0, 0, 0], 0, PageBits(tc));
    PageBitsRange(tc);
    AcceptsMeans(tc);
    if x.ps < 8 {
      return false, x;
    }
    var shift := 32 - InitShift(tc);
    var i := 0;
    SumStarts(tc);
    while i < 4 && Ti(tc, i) != 0
      invariant 0 <= i <= 4 && UsedFrom(tc, i) == UsedFrom(tc, 0)
      invariant shift == (32 - Sum(tc, i)) % 256
      invariant |x.mask| == 4 && |x.shift| == 4 && x.ps == PageBits(tc)
      invariant x.last == if i == 0 then 0 else i - 1
      invariant forall t :: 0 <= t < i ==> Level(tc, t, x.mask[t], x.shift[t])
      invariant forall t :: i <= t < 4 ==> x.shift[t] == 0 && x.mask[t] == 0
      decreases 4 - i
    {
      ShiftStep(tc, i, shift);
      shift := (shift - Ti(tc, i)) % 256;
      var mask := BuildMask(shift, Ti(tc, i));
      LevelDone(tc, i, mask, shift);
      x := x.(mask := x.mask[i := mask], shift := x.shift[i := shift], last := i);
      i := i + 1;
    }
    ok := shift == x.ps;
    if ok {
      AcceptedRanges(tc);
      forall t | 0 <= t < Used(tc)
        ensures x.shift[t] == Lo(tc, t) && x.mask[t] == Band(Hi(tc, t), Lo(tc, t))
      {
        LevelMeans(tc, t, x.mask[t], x.shift[t]);
      }
      DecodesIsSound(tc, x);
      DecodesMeans(tc, x);
    }
  }

  // ---------------------------------------------------------------- indices and offset cover the address

  /** The address bits from `lo` to `hi - 1`, shifted down and up again. */
  lemma BandShift(x: nat, hi: nat, lo: nat)
    requires lo <= hi
    ensures And(x, Band(hi, lo)) / Pow2(lo) * Pow2(lo) == And(x, Band(hi, lo))
  {
    AndBand(x, hi, lo);
    BandOfAddress(x, hi, lo);
    DivNat(And(x, Band(hi, lo)), Pow2(lo));
  }

  lemma ModDifference(x: nat, p: nat, c: nat)
    requires p > 0 && c > 0 && p * c > 0
    ensures (x % (p * c) - x % p) % p == 0
  {
    var r := p * c;
    var a, b := x / r, x / p;
    var y := a * c;
    assert r * a == p * y by { assert (p * c) * a == p * (c * a); }
    var d := b - y;
    assert p * d == p * b - p * y;
    assert x == r * a + x % r && x == p * b + x % p;
    DivModUnique(x % r - x % p, p, d, 0);
  }

  lemma BandOfAddress(x: nat, hi: nat, lo: nat)
    requires lo <= hi
    ensures (x % Pow2(hi) - x % Pow2(lo)) % Pow2(lo) == 0
  {
    hide Pow2;
    Pow2Splits(lo, hi);
    DivNat(Pow2(hi), Pow2(lo));
    ModDifference(x, Pow2(lo), Pow2(hi) / Pow2(lo));
  }

  lemma CutOff(x: nat, p: nat, q: nat)
    requires p > 0 && q > 0 && (x % q - x % p) % p == 0
    ensures (x % q - x % p) / p == x % q / p
  {
    var k := (x % q - x % p) / p;
    DivModUnique(x % q, p, k, x % p);
  }

  /** A table index is its address bits: those below bit `top`, shifted down. */
  lemma IndexMeans(x: Tables, addr: u32, t: nat, top: nat, width: nat)
    requires t < 4 && IndexField(x, t, top, width)
    ensures Index(x, addr, t) == addr % Pow2(top) / Pow2(top - width)
  {
    hide Pow2; hide And; hide Band; hide IndexField;
    var lo := FieldLow(x, t, top, width);
    AndBand(addr, top, lo);
    BandOfAddress(addr, top, lo);
    CutOff(addr, Pow2(lo), Pow2(top));
  }

  lemma FieldLow(x: Tables, t: nat, top: nat, width: nat) returns (lo: nat)
    requires t < 4 && IndexField(x, t, top, width)
    ensures lo + width == top && x.mask[t] == Band(top, lo) && x.shift[t] == lo
  {
    hide Pow2;
    lo := top - width;
  }

  /** The address bits left over by an early termination are those of its own and all lower
      tables, in place. */
  lemma {:induction false} UnusedMeans(tc: u32, x: Tables, addr: u32, t: nat)
    requires Accepts(tc) && Decodes(tc, x) && t < Used(tc)
    ensures Unused(x, addr, t) == addr % Pow2(Hi(tc, t)) - addr % Pow2(x.ps)
    decreases 4 - t
  {
    hide Pow2; hide And; hide Band; hide Sum;
    AndBand(addr, Hi(tc, t), Lo(tc, t));
    if t < x.last { UnusedMeans(tc, x, addr, t + 1); }
  }

  /** The table indices of levels `t` and up, put back in place. */
  function Rebuilt(x: Tables, addr: u32, t: nat): nat
    requires t <= x.last
    decreases 4 - t
  {
    Index(x, addr, t) * Pow2(x.shift[t]) + if t < x.last then Rebuilt(x, addr, t + 1) else 0
  }

  lemma IndexInPlace(tc: u32, x: Tables, addr: u32, t: nat)
    requires Accepts(tc) && Decodes(tc, x) && t < Used(tc)
    ensures Index(x, addr, t) * Pow2(x.shift[t]) == addr % Pow2(Hi(tc, t)) - addr % Pow2(Lo(tc, t))
  {
    hide Pow2; hide And; hide Band; hide Sum;
    BandShift(addr, Hi(tc, t), Lo(tc, t));
    AndBand(addr, Hi(tc, t), Lo(tc, t));
  }

  lemma {:induction false} RebuildFrom(tc: u32, x: Tables, addr: u32, t: nat)
    requires Accepts(tc) && Decodes(tc, x) && t < Used(tc)
    ensures Rebuilt(x, addr, t) + addr % Pow2(x.ps) == addr % Pow2(Hi(tc, t))
    decreases 4 - t
  {
    hide Pow2; hide And; hide Band; hide Index; hide Sum;
    IndexInPlace(tc, x, addr, t);
    if t < x.last {
      RebuildFrom(tc, x, addr, t + 1);
    }
  }

  /** The table indices and the page offset together hold every address bit below the
      initial shift, each once. */
  lemma IndicesAndOffsetRebuild(tc: u32, x: Tables, addr: u32)
    requires Accepts(tc) && Decodes(tc, x)
    ensures Rebuilt(x, addr, 0) + addr % Pow2(x.ps) == addr % Pow2(32 - InitShift(tc))
  {
    hide Pow2;
    hide Rebuilt;
    RebuildFrom(tc, x, addr, 0);
  }

  /** No bit of an index belongs to the page offset, whatever the number of levels. */
  lemma OffsetDisjoint(tc: u32, x: Tables, t: nat)
    requires Accepts(tc) && Decodes(tc, x) && t < Used(tc)
    ensures And(x.mask[t], Pow2(x.ps) - 1) == 0
  {
    hide Band; hide And; hide Pow2; hide Sum;
    BandMultiple(Hi(tc, t), Lo(tc, t), x.ps);
    AndAllOnes(x.mask[t], x.ps);
  }

  /** No bit belongs to two tables. */
  lemma MasksDisjoint(tc: u32, x: Tables, s: nat, t: nat)
    requires Accepts(tc) && Decodes(tc, x) && s < t < Used(tc)
    ensures And(x.mask[s], x.mask[t]) == 0
  {
    hide Band; hide And; hide Pow2; hide Sum;
    SumGrows(tc, s + 1, t);
    AndBand(x.mask[s], Hi(tc, t), Lo(tc, t));
    BandMultiple(Hi(tc, s), Lo(tc, s), Hi(tc, t));
    BandMultiple(Hi(tc, s), Lo(tc, s), Lo(tc, t));
  }
}
