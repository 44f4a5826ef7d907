/** Transparent translation on the 68030, bit by bit. */
module Match030 {
  import opened Words
  import opened Bits
  import opened State030

  /** What a register is compared with: each bit of the top address byte and of the function code
      that its masks leave. */
  ghost predicate Covers(t: Ttr, addr: u32, fc: fcode)
  {
    && SameBut(addr / 0x100_0000, t.base, t.ignore % 256, 8)
    && SameBut(fc, t.fcBase, t.fcIgnore % 8, 3)
  }

  lemma InRegionMeans(t: Ttr, addr: u32, fc: fcode)
    ensures InRegion(t, addr, fc) <==> Covers(t, addr, fc)
  {
    hide And; hide Pow2; hide SameBut;
    PowersOfTwo();
    MaskedSame(addr / 0x100_0000, t.base, t.ignore % 256, 8);
    MaskedSame(fc, t.fcBase, t.fcIgnore % 8, 3);
  }

  /** A register answers exactly when it is on, covers the address and function code, and its
      read/write field is off or asks for the direction of the access: reads when RW is set, writes
      when it is clear. Locked cycles need the field to be off. */
  lemma MatchMeans(t: Ttr, addr: u32, fc: fcode)
    ensures TtHit(t, addr, fc, false) <==> t.enable && Covers(t, addr, fc) && (t.rwm || t.rw)
    ensures TtHit(t, addr, fc, true) <==> t.enable && Covers(t, addr, fc) && (t.rwm || !t.rw)
    ensures TtHitLocked(t, addr, fc) <==> t.enable && Covers(t, addr, fc) && t.rwm
  {
    hide InRegion; hide Covers;
    InRegionMeans(t, addr, fc);
  }

  /** Which accesses go to the bus untranslated: all with translation off, those to CPU space, and
      those a register answers. The read of a locked cycle counts as locked. */
  lemma UntranslatedMeans(c: Config, k: Kind, addr: u32, fc: fcode)
    ensures Untranslated(c, k, addr, fc) <==>
      || !c.enabled || fc == 7
      || exists t :: t in {c.tt0, c.tt1} && t.enable && Covers(t, addr, fc) &&
           (t.rwm || (k in {Read, GenRead, Fetch} && t.rw) || (k in {Write, GenWrite} && !t.rw))
  {
    hide TtHit; hide TtHitLocked; hide Covers;
    MatchMeans(c.tt0, addr, fc);
    MatchMeans(c.tt1, addr, fc);
    assert c.tt0 in {c.tt0, c.tt1} && c.tt1 in {c.tt0, c.tt1};
  }

  /** PFLUSH covers the function codes that agree with its base in every bit of its mask. */
  lemma FcCoveredMeans(fc: fcode, base: nat, mask: nat, n: nat)
    requires mask < Pow2(n)
    ensures FcCovered(fc, base, mask) <==> SameUnder(fc, base, mask, n)
  {
    hide And; hide Pow2; hide SameUnder;
    AndSame(fc, base, mask, n);
  }

  // ---------------------------------------------------------------- the register as a longword

  /** `mmu030_decode_tt`: the fields of a TT register. */
  function TtOf(r: u32): Ttr
  {
    Ttr(r / 0x100_0000, r / 0x1_0000 % 0x100, r / 0x8000 % 2 == 1, r / 0x200 % 2 == 1, r / 0x100 % 2 == 1,
        r / 0x10 % 8, r % 8)
  }

  /** Bit `k` of a field that starts at bit `j`. */
  lemma FieldBit(r: u32, j: nat, w: nat, k: nat)
    requires k < w
    ensures Pow2(j) > 0 && r / Pow2(j) >= 0 && r / Pow2(j) % Pow2(w) >= 0
    ensures Bit(r / Pow2(j) % Pow2(w), k) == Bit(r, j + k)
  {
    hide Pow2; hide Bit;
    BitShift(r, j, k);
    BitLow(r / Pow2(j), w, k);
  }

  lemma BaseBit(r: u32, addr: u32, k: nat)
    requires k < 8
    ensures Bit(TtOf(r).ignore % 256, k) == Bit(r, 16 + k) && Bit(TtOf(r).base, k) == Bit(r, 24 + k)
    ensures Bit(addr / 0x100_0000, k) == Bit(addr, 24 + k)
  {
    hide Pow2; hide Bit;
    PowersOfTwo();
    FieldBit(r, 16, 8, k);
    BitShift(r, 24, k);
    BitShift(addr, 24, k);
  }

  lemma BaseBits(r: u32, addr: u32)
    ensures SameBut(addr / 0x100_0000, TtOf(r).base, TtOf(r).ignore % 256, 8) <==> TopCovers(r, addr)
  {
    hide Bit; hide TtOf;
    var t := TtOf(r);
    forall k | 0 <= k < 8
      ensures Bit(t.ignore % 256, k) == Bit(r, 16 + k) && Bit(t.base, k) == Bit(r, 24 + k)
      ensures Bit(addr / 0x100_0000, k) == Bit(addr, 24 + k)
    {
      BaseBit(r, addr, k);
    }
    if SameBut(addr / 0x100_0000, t.base, t.ignore % 256, 8) {
      forall k | 24 <= k < 32 && Bit(r, k - 8) == 0 ensures Bit(addr, k) == Bit(r, k) {
        var j := k - 24;
        assert Bit(t.ignore % 256, j) == Bit(r, 16 + j) && Bit(addr / 0x100_0000, j) == Bit(t.base, j);
      }
    }
    if TopCovers(r, addr) {
      forall k | 0 <= k < 8 && Bit(t.ignore % 256, k) == 0 ensures Bit(addr / 0x100_0000, k) == Bit(t.base, k) {
        var j := 24 + k;
        assert Bit(r, j - 8) == 0 && Bit(addr, j) == Bit(r, j);
      }
    }
  }

  lemma CodeBit(r: u32, k: nat)
    requires k < 3
    ensures Bit(TtOf(r).fcIgnore % 8, k) == Bit(r, k) && Bit(TtOf(r).fcBase, k) == Bit(r, k + 4)
  {
    hide Pow2; hide Bit;
    PowersOfTwo();
    BitLow(r, 3, k);
    FieldBit(r, 4, 3, k);
    assert r % 8 % 8 == r % 8;
  }

  lemma CodeBits(r: u32, fc: fcode)
    ensures SameBut(fc, TtOf(r).fcBase, TtOf(r).fcIgnore % 8, 3) <==>
      forall k :: 0 <= k < 3 && Bit(r, k) == 0 ==> Bit(fc, k) == Bit(r, k + 4)
  {
    hide Bit; hide TtOf;
    CodeBit(r, 0); CodeBit(r, 1); CodeBit(r, 2);
  }

  lemma FlagBits(r: u32)
    ensures TtOf(r).enable == (Bit(r, 15) == 1) && TtOf(r).rw == (Bit(r, 9) == 1) && TtOf(r).rwm == (Bit(r, 8) == 1)
    ensures Bit(r, 9) == 0 || Bit(r, 9) == 1
  {
    hide Pow2; hide Bit;
    PowersOfTwo();
    BitIs(r, 15); BitIs(r, 9); BitIs(r, 8);
  }

  /** The same on the longword: enable bit 15, base bits 31-24, mask bits 23-16, RW bit 9, RWM bit
      8, function code base bits 6-4 and mask bits 2-0. */
  lemma RegisterMeans(r: u32, addr: u32, fc: fcode, write: bool)
    ensures TtHit(TtOf(r), addr, fc, write) <==>
      && Bit(r, 15) == 1
      && TopCovers(r, addr)
      && (forall k :: 0 <= k < 3 && Bit(r, k) == 0 ==> Bit(fc, k) == Bit(r, k + 4))
      && (Bit(r, 8) == 1 || Bit(r, 9) == (if write then 0 else 1))
  {
    hide Bit; hide TtHit; hide SameBut; hide TtOf; hide TopCovers;
    MatchMeans(TtOf(r), addr, fc);
    BaseBits(r, addr);
    CodeBits(r, fc);
    FlagBits(r);
  }
}
