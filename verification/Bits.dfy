/** Numbers bit by bit. */
module Bits {
  import opened Words

  /** Bit `k` of a number. */
  function Bit(x: nat, k: nat): nat { if k == 0 then x % 2 else Bit(x / 2, k - 1) }

  lemma BitStep(x: nat, k: nat)
    ensures Bit(x, 0) == x % 2 && Bit(x, k + 1) == Bit(x / 2, k)
  {
  }

  /** Two numbers agree in the low `n` bits that a mask selects. */
  ghost predicate SameUnder(x: nat, y: nat, m: nat, n: nat)
  {
    forall k :: 0 <= k < n && Bit(m, k) == 1 ==> Bit(x, k) == Bit(y, k)
  }

  lemma SameStep(x: nat, y: nat, m: nat, n: nat)
    ensures SameUnder(x, y, m, n + 1) <==> (m % 2 == 1 ==> x % 2 == y % 2) && SameUnder(x / 2, y / 2, m / 2, n)
  {
    hide Bit;
    BitStep(x, 0); BitStep(y, 0); BitStep(m, 0);
    forall k: nat
      ensures Bit(x, k + 1) == Bit(x / 2, k) && Bit(y, k + 1) == Bit(y / 2, k) && Bit(m, k + 1) == Bit(m / 2, k)
    {
      BitStep(x, k); BitStep(y, k); BitStep(m, k);
    }
    if SameUnder(x, y, m, n + 1) {
      forall k | 0 <= k < n && Bit(m / 2, k) == 1 ensures Bit(x / 2, k) == Bit(y / 2, k) {
        assert Bit(m, k + 1) == 1;
      }
    }
    if (m % 2 == 1 ==> x % 2 == y % 2) && SameUnder(x / 2, y / 2, m / 2, n) {
      forall k | 0 <= k < n + 1 && Bit(m, k) == 1 ensures Bit(x, k) == Bit(y, k) {
        if k > 0 { assert Bit(m, (k - 1) + 1) == Bit(m / 2, k - 1); }
      }
    }
  }

  lemma BitProduct(i: int, j: int)
    requires 0 <= i < 2 && 0 <= j < 2
    ensures 0 <= i * j && (i * j == 0 <==> i == 0 || j == 0)
  {
  }

  lemma AndStep(a: nat, m: nat)
    ensures And(a, m) == 0 <==> And(a / 2, m / 2) == 0 && (a % 2 == 0 || m % 2 == 0)
  {
    hide And;
    AndUnfold(a, m);
    AndUnfold(a / 2, m / 2);
    BitProduct(a % 2, m % 2);
  }

  lemma AndParts(x: nat, y: nat, m: nat)
    ensures And(x, m) == And(y, m) <==> And(x / 2, m / 2) == And(y / 2, m / 2) && (m % 2 == 1 ==> x % 2 == y % 2)
  {
    hide And;
    AndHalves(x, m);
    AndHalves(y, m);
  }

  lemma BitTimes(i: int, j: int)
    requires 0 <= j < 2
    ensures i * j == if j == 1 then i else 0
  {
  }

  lemma AndHalves(a: nat, m: nat)
    ensures And(a, m) / 2 == And(a / 2, m / 2) && And(a, m) % 2 == if m % 2 == 1 then a % 2 else 0
  {
    hide And;
    AndUnfold(a, m);
    AndUnfold(a / 2, m / 2);
    var low := if m % 2 == 1 then a % 2 else 0;
    BitTimes(a % 2, m % 2);
    DivModUnique(And(a, m), 2, And(a / 2, m / 2), low);
  }

  /** Numbers agree under a mask exactly when the bits it selects agree. */
  lemma {:induction false} AndSame(x: nat, y: nat, m: nat, n: nat)
    requires m < Pow2(n)
    ensures And(x, m) == And(y, m) <==> SameUnder(x, y, m, n)
    decreases n
  {
    if n > 0 {
      AndSame(x / 2, y / 2, m / 2, n - 1);
      AndParts(x, y, m);
      SameStep(x, y, m, n - 1);
      hide SameUnder; hide And;
    }
  }

  lemma HalfDiv(x: nat, p: nat)
    requires p > 0
    ensures x / (2 * p) == x / 2 / p
  {
    DivNat(x / 2, p);
    var a, r := x / 2 / p, x / 2 % p;
    DivModUnique(x, 2 * p, a, 2 * r + x % 2) by {
      assert x == 2 * (p * a + r) + x % 2;
      assert 2 * (p * a) == (2 * p) * a;
    }
  }

  /** Shifting down renumbers the bits. */
  lemma {:induction false} BitShift(x: nat, j: nat, k: nat)
    ensures x / Pow2(j) >= 0 && Bit(x / Pow2(j), k) == Bit(x, j + k)
    decreases j
  {
    if j > 0 {
      BitShift(x / 2, j - 1, k);
      HalfDiv(x, Pow2(j - 1));
    }
  }

  lemma {:induction false} BitIs(x: nat, k: nat)
    ensures x / Pow2(k) >= 0 && Bit(x, k) == x / Pow2(k) % 2
  {
    BitShift(x, k, 0);
  }

  /** The bits of a complement. */
  lemma {:induction false} BitNot(m: nat, n: nat, k: nat)
    requires m < Pow2(n) && k < n
    ensures Bit(Pow2(n) - 1 - m, k) == 1 - Bit(m, k)
    decreases n
  {
    var c := Pow2(n) - 1 - m;
    assert c / 2 == Pow2(n - 1) - 1 - m / 2 && c % 2 == 1 - m % 2;
    if k > 0 { BitNot(m / 2, n - 1, k - 1); }
  }

  /** The low bits of a number are those of its remainder. */
  lemma {:induction false} BitLow(x: nat, n: nat, k: nat)
    requires k < n
    ensures x % Pow2(n) >= 0 && Bit(x % Pow2(n), k) == Bit(x, k)
    decreases n
  {
    var p := Pow2(n - 1);
    HalfMod(x, p);
    var y := x % Pow2(n);
    assert y == 2 * ((x / 2) % p) + x % 2;
    assert y / 2 == (x / 2) % p && y % 2 == x % 2;
    if k > 0 { BitLow(x / 2, n - 1, k - 1); }
  }

  /** Two numbers agree in the low `n` bits that are clear in `ignore`. */
  ghost predicate SameBut(x: nat, y: nat, ignore: nat, n: nat)
  {
    forall k :: 0 <= k < n && Bit(ignore, k) == 0 ==> Bit(x, k) == Bit(y, k)
  }

  lemma MaskedSame(x: nat, y: nat, ignore: nat, n: nat)
    requires ignore < Pow2(n)
    ensures And(x, Pow2(n) - 1 - ignore) == And(y, Pow2(n) - 1 - ignore) <==> SameBut(x, y, ignore, n)
  {
    hide And; hide Pow2; hide Bit;
    var m := Pow2(n) - 1 - ignore;
    AndSame(x, y, m, n);
    forall k | 0 <= k < n ensures Bit(m, k) == 1 - Bit(ignore, k) { BitNot(ignore, n, k); }
    if SameUnder(x, y, m, n) {
      forall k | 0 <= k < n && Bit(ignore, k) == 0 ensures Bit(x, k) == Bit(y, k) { assert Bit(m, k) == 1; }
    }
    if SameBut(x, y, ignore, n) {
      forall k | 0 <= k < n && Bit(m, k) == 1 ensures Bit(x, k) == Bit(y, k) { assert Bit(ignore, k) == 0; }
    }
  }

  lemma PowDouble(k: nat)
    requires k > 0
    ensures Pow2(k) == 2 * Pow2(k - 1)
  {
  }

  lemma {:induction false} AndAllOnes(x: nat, k: nat)
    ensures And(x, Pow2(k) - 1) == x % Pow2(k)
  {
    hide And;
    if k == 0 {
      assert Pow2(0) == 1;
      AndUnfold(x, 0);
    } else {
      hide Pow2;
      var p := Pow2(k - 1);
      PowDouble(k);
      AndAllOnes(x / 2, k - 1);
      HalfMod(x, p);
      DivModUnique(2 * p - 1, 2, p - 1, 1);
      AndUnfold(x, 2 * p - 1);
    }
  }

  lemma AndEven(x: nat, y: nat)
    requires y % 2 == 0
    ensures And(x, y) == 2 * And(x / 2, y / 2)
  {
    hide And;
    AndUnfold(x, y);
    AndUnfold(x / 2, y / 2);
  }

  /** On the longword: bits 31-24 of the address and of the register agree where bits 23-16 of the
      register are clear. */
  ghost predicate TopCovers(r: u32, addr: u32)
  {
    forall k :: 24 <= k < 32 && Bit(r, k - 8) == 0 ==> Bit(addr, k) == Bit(r, k)
  }

  lemma {:induction false} Pow2Splits(j: nat, k: nat)
    requires j <= k
    ensures Pow2(k) % Pow2(j) == 0 && Pow2(j) <= Pow2(k)
  {
    if j < k {
      Pow2Splits(j, k - 1);
      var c := Pow2(k - 1) / Pow2(j);
      DivModUnique(Pow2(k), Pow2(j), 2 * c, 0);
    } else {
      DivModUnique(Pow2(k), Pow2(j), 1, 0);
    }
  }

  /** The bits `lo` to `hi - 1`. */
  function Band(hi: nat, lo: nat): (r: nat)
    requires lo <= hi
  {
    Pow2Splits(lo, hi);
    Pow2(hi) - Pow2(lo)
  }

  lemma BandHalves(hi: nat, lo: nat)
    requires lo <= hi
    ensures Pow2(0) == 1 && (lo == 0 ==> Band(hi, lo) == Pow2(hi) - 1)
    ensures lo > 0 ==> Band(hi, lo) == 2 * Band(hi - 1, lo - 1)
    ensures lo > 0 ==> Band(hi, lo) % 2 == 0 && Band(hi, lo) / 2 == Band(hi - 1, lo - 1)
    ensures lo > 0 ==> Pow2(hi) == 2 * Pow2(hi - 1) && Pow2(lo) == 2 * Pow2(lo - 1)
  {
  }

  /** Masking with a band of bits. */
  lemma {:induction false} AndBand(x: nat, hi: nat, lo: nat)
    requires lo <= hi
    ensures And(x, Band(hi, lo)) == x % Pow2(hi) - x % Pow2(lo)
  {
    hide And; hide Pow2; hide Band;
    BandHalves(hi, lo);
    if lo == 0 {
      AndAllOnes(x, hi);
    } else {
      AndBand(x / 2, hi - 1, lo - 1);
      HalfMod(x, Pow2(hi - 1));
      HalfMod(x, Pow2(lo - 1));
      AndEven(x, Band(hi, lo));
    }
  }

  lemma PowersOfTwo()
    ensures Pow2(0) == 1 && Pow2(2) == 4 && Pow2(3) == 8 && Pow2(4) == 0x10 && Pow2(7) == 0x80 && Pow2(8) == 0x100
    ensures Pow2(9) == 0x200 && Pow2(12) == 0x1000 && Pow2(13) == 0x2000 && Pow2(14) == 0x4000 && Pow2(15) == 0x8000
    ensures Pow2(16) == 0x1_0000 && Pow2(17) == 0x2_0000 && Pow2(18) == 0x4_0000 && Pow2(24) == 0x100_0000
    ensures Pow2(25) == 0x200_0000 && Pow2(31) == 0x8000_0000 && Pow2(32) == 0x1_0000_0000
  {
    assert Pow2(11) == 0x800;
    assert Pow2(21) == 0x20_0000;
    assert Pow2(28) == 0x1000_0000;
  }
}
