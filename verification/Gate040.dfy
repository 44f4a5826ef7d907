/** What the 68040/68060 tests before translating: transparent translation registers and the
    enable bit. */
module Gate040 {
  import opened Words
  import opened Bits

  type u8 = x: int | 0 <= x < 0x100

  /** A transparent translation register: enable, address base and mask (top byte), whether the
      privilege is ignored, which one is asked for otherwise, and write protection. */
  datatype Ttr = Ttr(on: bool, base: u8, mask: u8, either: bool, super: bool, wp: bool)

  const NOTTR := Ttr(false, 0, 0, false, false, false)

  /** Enable bit and default write protection of TC, and the four registers. */
  datatype Gate = Gate(enabled: bool, dwo: bool, itt0: Ttr, itt1: Ttr, dtt0: Ttr, dtt1: Ttr)

  const SHUT := Gate(false, false, NOTTR, NOTTR, NOTTR, NOTTR)

  function Xor(x: nat, y: nat): nat
  {
    if x == 0 && y == 0 then 0 else (if x % 2 == y % 2 then 0 else 1) + 2 * Xor(x / 2, y / 2)
  }

  datatype Match = NoMatch | NoWrite | OkMatch

  /** `mmu_do_match_ttr`. */
  function MatchOne(t: Ttr, addr: u32, super: bool): Match
  {
    if !t.on then NoMatch
    else if And(Xor(addr / 0x100_0000, t.base), 0xff - t.mask) != 0 then NoMatch
    else if !t.either && t.super != super then NoMatch
    else if t.wp then NoWrite else OkMatch
  }

  function MatchPair(t: Ttr, u: Ttr, addr: u32, super: bool): Match
  {
    var r := MatchOne(t, addr, super);
    if r.NoMatch? then MatchOne(u, addr, super) else r
  }

  /** `mmu_tt_modified`. */
  predicate InsOn(g: Gate) { g.itt0.on || g.itt1.on }
  predicate AnyOn(g: Gate) { InsOn(g) || g.dtt0.on || g.dtt1.on }

  /** `mmu_match_ttr`. */
  function MatchTtr(g: Gate, addr: u32, super: bool, data: bool): Match
  {
    if !AnyOn(g) then NoMatch
    else if data then MatchPair(g.dtt0, g.dtt1, addr, super) else MatchPair(g.itt0, g.itt1, addr, super)
  }

  /** What becomes of an access: untranslated, refused, or translated. */
  datatype Way = Bypass | Blocked | Through

  function Plainly(g: Gate, r: Match): Way { if r.NoMatch? && g.enabled then Through else Bypass }

  /** The test of an instruction fetch. */
  function ScreenIns(g: Gate, addr: u32, super: bool): Way
  {
    Plainly(g, if InsOn(g) then MatchPair(g.itt0, g.itt1, addr, super) else NoMatch)
  }

  /** The test of a data access: `mmu_match_ttr` for reads, `mmu_match_ttr_write` and
      `mmu_match_ttr_maybe_write` for writes and locked reads. Without any register in use the
      default write protection is not looked at. */
  function Screen(g: Gate, addr: u32, super: bool, data: bool, write: bool): Way
  {
    if !AnyOn(g) then Plainly(g, NoMatch)
    else
      var r := MatchTtr(g, addr, super, data);
      if write && (r.NoWrite? || (r.NoMatch? && !g.enabled && g.dwo)) then Blocked else Plainly(g, r)
  }

  /** The test of PLPA, which does not ask whether translation is on. */
  function ScreenPlpa(g: Gate, addr: u32, super: bool, data: bool, write: bool): Way
  {
    var r := MatchTtr(g, addr, super, data);
    if write && (r.NoWrite? || (r.NoMatch? && !g.enabled && g.dwo)) then Blocked
    else if r.NoMatch? then Through else Bypass
  }

  // ---------------------------------------------------------------- what a match is

  lemma {:induction false} XorMasked(x: nat, y: nat, m: nat, n: nat)
    requires m < Pow2(n)
    ensures And(Xor(x, y), m) == 0 <==> SameUnder(x, y, m, n)
    decreases n
  {
    if n > 0 {
      XorMasked(x / 2, y / 2, m / 2, n - 1);
      XorStep(x, y, m);
      SameStep(x, y, m, n - 1);
      hide SameUnder; hide And; hide Xor;
    }
  }

  lemma XorUnfold(x: nat, y: nat)
    ensures Xor(x, y) == (if x % 2 == y % 2 then 0 else 1) + 2 * Xor(x / 2, y / 2)
  {
  }

  lemma XorStep(x: nat, y: nat, m: nat)
    ensures And(Xor(x, y), m) == 0 <==> And(Xor(x / 2, y / 2), m / 2) == 0 && (m % 2 == 1 ==> x % 2 == y % 2)
  {
    hide Xor; hide And;
    XorUnfold(x, y);
    DivModUnique(Xor(x, y), 2, Xor(x / 2, y / 2), if x % 2 == y % 2 then 0 else 1);
    AndStep(Xor(x, y), m);
  }

  /** A register answers exactly when it is on, each top address bit its mask does not hide
      equals its base bit, and it accepts the privilege; it refuses writes exactly when it is
      write protected. */
  lemma MatchMeans(t: Ttr, addr: u32, super: bool)
    ensures !MatchOne(t, addr, super).NoMatch? <==>
      && t.on && (t.either || t.super == super)
      && SameUnder(addr / 0x100_0000, t.base, 0xff - t.mask, 8)
    ensures MatchOne(t, addr, super).NoWrite? ==> t.wp
    ensures MatchOne(t, addr, super).OkMatch? ==> !t.wp
  {
    assert Pow2(8) == 256;
    XorMasked(addr / 0x100_0000, t.base, 0xff - t.mask, 8);
    hide SameUnder; hide And; hide Xor;
  }

  /** An access asks the two registers of its side, data or instruction, and the first that answers
      decides; on either side none does when all four are off. */
  lemma PairMeans(g: Gate, addr: u32, super: bool, data: bool)
    ensures var first, second := if data then g.dtt0 else g.itt0, if data then g.dtt1 else g.itt1;
      MatchTtr(g, addr, super, data) ==
        if !MatchOne(first, addr, super).NoMatch? then MatchOne(first, addr, super) else MatchOne(second, addr, super)
    ensures (if InsOn(g) then MatchPair(g.itt0, g.itt1, addr, super) else NoMatch) == MatchTtr(g, addr, super, false)
  {
    hide And; hide Xor;
  }

  // ---------------------------------------------------------------- the register as a longword

  /** A transparent translation register by fields. */
  function TtrOf(r: u32): Ttr
  {
    Ttr(r / 0x8000 % 2 == 1, r / 0x100_0000, r / 0x1_0000 % 0x100, r / 0x4000 % 2 == 1, r / 0x2000 % 2 == 1,
        r / 4 % 2 == 1)
  }

  lemma FieldBits(r: u32, addr: u32, k: nat)
    requires k < 8
    ensures Bit(0xff - TtrOf(r).mask, k) == 1 - Bit(r, 16 + k) && Bit(TtrOf(r).base, k) == Bit(r, 24 + k)
    ensures Bit(addr / 0x100_0000, k) == Bit(addr, 24 + k)
  {
    hide Pow2; hide Bit;
    PowersOfTwo();
    BitShift(r, 24, k);
    BitShift(addr, 24, k);
    BitShift(r, 16, k);
    BitLow(r / 0x1_0000, 8, k);
    BitNot(TtrOf(r).mask, 8, k);
  }

  lemma TopBits(r: u32, addr: u32)
    ensures SameUnder(addr / 0x100_0000, TtrOf(r).base, 0xff - TtrOf(r).mask, 8) <==> TopCovers(r, addr)
  {
    hide Bit; hide TtrOf;
    var t := TtrOf(r);
    if SameUnder(addr / 0x100_0000, t.base, 0xff - t.mask, 8) {
      forall k | 24 <= k < 32 && Bit(r, k - 8) == 0 ensures Bit(addr, k) == Bit(r, k) {
        var j := k - 24;
        FieldBits(r, addr, j);
        assert Bit(0xff - t.mask, j) == 1 && Bit(addr / 0x100_0000, j) == Bit(t.base, j);
      }
    }
    if TopCovers(r, addr) {
      forall k | 0 <= k < 8 && Bit(0xff - t.mask, k) == 1 ensures Bit(addr / 0x100_0000, k) == Bit(t.base, k) {
        var j := 24 + k;
        FieldBits(r, addr, k);
        assert Bit(r, j - 8) == 0 && Bit(addr, j) == Bit(r, j);
      }
    }
  }

  /** On the longword: enable bit 15, base bits 31-24, mask bits 23-16; bit 14 lets both privileges
      pass, else bit 13 names the one; bit 2 protects from writes. */
  lemma RegisterMeans(r: u32, addr: u32, super: bool)
    ensures var m := MatchOne(TtrOf(r), addr, super);
      && (!m.NoMatch? <==>
            Bit(r, 15) == 1 && TopCovers(r, addr) && (Bit(r, 14) == 1 || Bit(r, 13) == if super then 1 else 0))
      && (m.NoWrite? ==> Bit(r, 2) == 1) && (m.OkMatch? ==> Bit(r, 2) == 0)
  {
    hide Bit; hide MatchOne; hide SameUnder; hide Pow2; hide TopCovers;
    MatchMeans(TtrOf(r), addr, super);
    TopBits(r, addr);
    PowersOfTwo();
    BitIs(r, 15); BitIs(r, 14); BitIs(r, 13); BitIs(r, 2);
  }
}
