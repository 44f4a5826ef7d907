/** Packed decimal reals of the FPU: the digit loops of encoding and decoding. The conversions
    between binary and decimal floating point are not part of the model. */
module Packed {
  import opened Words

  type u64 = x: int | 0 <= x < 0x1_0000_0000_0000_0000

  // ---------------------------------------------------------------- digits

  type Digits = seq<nat>

  function Zeros(n: nat): (r: Digits) ensures |r| == n { seq(n, i => 0) }

  /** The number written by digits in base ten, and in base sixteen. */
  function Ten(ds: Digits): nat { if ds == [] then 0 else Ten(ds[..|ds| - 1]) * 10 + ds[|ds| - 1] }
  function Hex(ds: Digits): nat { if ds == [] then 0 else Hex(ds[..|ds| - 1]) * 16 + ds[|ds| - 1] }

  predicate AllBelow(ds: Digits, b: nat) { forall i :: 0 <= i < |ds| ==> ds[i] < b }

  function Power(b: nat, k: nat): nat { if k == 0 then 1 else Power(b, k - 1) * b }

  /** The last `len` decimal digits of a number. */
  function Decimal(x: nat, len: nat): (r: Digits)
    ensures |r| == len && AllBelow(r, 10)
  {
    if len == 0 then [] else Decimal(x / 10, len - 1) + [x % 10]
  }

  /** The last `len` hexadecimal digits of a number. */
  function Nibbles(x: nat, len: nat): (r: Digits)
    ensures |r| == len && AllBelow(r, 16)
  {
    if len == 0 then [] else Nibbles(x / 16, len - 1) + [x % 16]
  }

  lemma LastOf(ds: Digits, d: nat)
    ensures Ten(ds + [d]) == Ten(ds) * 10 + d && Hex(ds + [d]) == Hex(ds) * 16 + d
  {
    assert (ds + [d])[..|ds|] == ds;
  }

  lemma {:induction false} TenDecimal(x: nat, len: nat)
    requires x < Power(10, len)
    ensures Ten(Decimal(x, len)) == x
  {
    if len > 0 {
      TenDecimal(x / 10, len - 1);
      LastOf(Decimal(x / 10, len - 1), x % 10);
    }
  }

  /** Writing hexadecimal digits and reading them back. */
  lemma {:induction false} NibblesHex(ds: Digits)
    requires AllBelow(ds, 16)
    ensures Nibbles(Hex(ds), |ds|) == ds
    decreases |ds|
  {
    if ds != [] {
      var k := |ds| - 1;
      NibblesHex(ds[..k]);
      assert ds == ds[..k] + [ds[k]];
      DivModUnique(Hex(ds), 16, Hex(ds[..k]), ds[k]);
    }
  }

  lemma Assoc(a: nat, b: nat, c: nat)
    ensures a * (b * c) == a * b * c
  {
  }

  lemma {:induction false} HexJoin(a: Digits, b: Digits)
    ensures Hex(a + b) == Hex(a) * Power(16, |b|) + Hex(b)
    decreases |b|
  {
    if b == [] {
      assert a + b == a;
    } else {
      var k := |b| - 1;
      HexJoin(a, b[..k]);
      assert a + b == (a + b[..k]) + [b[k]];
      LastOf(a + b[..k], b[k]);
      Assoc(Hex(a), Power(16, k), 16);
      assert Power(16, |b|) == Power(16, k) * 16 && Hex(b) == Hex(b[..k]) * 16 + b[k];
      hide Hex; hide Power;
    }
  }

  lemma {:induction false} HexZeros(n: nat)
    ensures Hex(Zeros(n)) == 0
  {
    if n > 0 {
      HexZeros(n - 1);
      assert Zeros(n) == Zeros(n - 1) + [0];
      LastOf(Zeros(n - 1), 0);
    }
  }

  lemma {:induction false} TenPadded(ds: Digits, n: nat)
    ensures Ten(ds + Zeros(n)) == Ten(ds) * Power(10, n)
  {
    if n == 0 {
      assert ds + Zeros(0) == ds;
    } else {
      TenPadded(ds, n - 1);
      assert ds + Zeros(n) == (ds + Zeros(n - 1)) + [0];
      LastOf(ds + Zeros(n - 1), 0);
      Assoc(Ten(ds), Power(10, n - 1), 10);
      assert Power(10, n) == Power(10, n - 1) * 10;
      hide Ten; hide Power;
    }
  }

  /** A digit set where there was a zero. */
  lemma SetDigit(n: nat, d: nat, t: Digits)
    ensures Hex(Zeros(n) + [d] + t) == Hex(Zeros(n + 1) + t) + d * Power(16, |t|)
  {
    hide Hex; hide Power;
    HexZeros(n); HexZeros(n + 1);
    LastOf(Zeros(n), d);
    assert Hex(Zeros(n) + [d]) == d;
    HexJoin(Zeros(n) + [d], t);
    HexJoin(Zeros(n + 1), t);
  }

  lemma {:induction false} HexBound(ds: Digits)
    requires AllBelow(ds, 16)
    ensures Hex(ds) < Power(16, |ds|)
    decreases |ds|
  {
    if ds != [] { HexBound(ds[..|ds| - 1]); }
  }

  /** Digits up to fifteen overflow neither the mantissa nor the exponent. */
  lemma {:induction false} TenBound(ds: Digits)
    requires AllBelow(ds, 16)
    ensures 3 * Ten(ds) <= 5 * (Power(10, |ds|) - 1)
    decreases |ds|
  {
    if ds != [] { TenBound(ds[..|ds| - 1]); }
  }

  lemma Powers()
    ensures Power(16, 16) == 0x1_0000_0000_0000_0000 && Power(16, 3) == 0x1000 && Power(10, 4) == 10000 &&
            Power(10, 3) == 1000
    ensures Power(10, 17) == 100_000_000_000_000_000
  {
    assert Power(16, 4) == 0x1_0000;
    assert Power(16, 8) == 0x1_0000_0000;
    assert Power(16, 12) == 0x1_0000_0000_0000;
    assert Power(10, 8) == 100_000_000;
    assert Power(10, 12) == 1_000_000_000_000;
    assert Power(10, 16) == 10_000_000_000_000_000;
  }

  // ---------------------------------------------------------------- formats

  /** The three longwords of a packed decimal. */
  datatype Pack = Pack(w0: u32, w1: u32, w2: u32)

  /** A decimal floating-point number: signs of significand and exponent, exponent magnitude
      (14 bits of the high word) and significand (the low word). */
  datatype Number = Number(sm: bool, se: bool, exp: nat, mant: u64)

  datatype Decoded = Copied(p: Pack) | Value(n: Number)

  function Bit(b: bool, weight: nat): nat { if b then weight else 0 }

  function Exp3(p: Pack): nat { p.w0 / 0x1_0000 % 0x1000 }
  function Frac(p: Pack): nat { p.w1 * 0x1_0000_0000 + p.w2 }
  predicate Se(p: Pack) { p.w0 / 0x4000_0000 % 2 == 1 }
  predicate Sm(p: Pack) { p.w0 / 0x8000_0000 % 2 == 1 }

  /** Infinities and NaNs, and zeros, are passed on as they are. */
  predicate Special(p: Pack) { p.w0 / 0x1_0000 % 0x8000 == 0x7fff }
  predicate Zero(p: Pack) { p.w0 % 16 == 0 && p.w1 == 0 && p.w2 == 0 }

  /** The digits of a packed decimal: integer digit and fraction. */
  function DigitsOf(p: Pack): (r: Digits)
    ensures |r| == 17 && AllBelow(r, 16)
  {
    [p.w0 % 16] + Nibbles(Frac(p), 16)
  }

  function ExpOf(p: Pack): int
  {
    var e: int := Ten(Nibbles(Exp3(p), 3));
    if Se(p) then 0 - e - 16 else e - 16
  }

  // ---------------------------------------------------------------- decoding

  function Shift(x: nat, k: nat): nat { if k == 0 then x else Shift(x / 16, k - 1) }

  /** The digit a loop takes at step `i`. */
  lemma {:induction false} DigitAt(x: nat, len: nat, i: nat)
    requires i < len
    ensures Shift(x, len - 1 - i) % 16 == Nibbles(x, len)[i]
    decreases len
  {
    if i < len - 1 { DigitAt(x / 16, len - 1, i); }
  }

  /** `fp_to_pack` up to the conversion to binary. The mantissa stays below 2 to the power of 63
      and the exponent below 2 to the power of 14 for every input. */
  method ToDecimal(p: Pack) returns (r: Decoded)
    ensures r.Copied? <==> Special(p) || Zero(p)
    ensures Special(p) ==> r == Copied(p)
    ensures !Special(p) && Zero(p) ==> r == Copied(p.(w0 := Bit(Sm(p), 0x8000_0000)))
    ensures r.Value? ==>
      && r.n.mant == Ten(DigitsOf(p)) < 0x8000_0000_0000_0000
      && r.n.exp < 0x4000 && (if r.n.se then 0 - r.n.exp else r.n.exp) == ExpOf(p)
      && (r.n.se <==> ExpOf(p) < 0) && r.n.sm == Sm(p)
  {
    if p.w0 / 0x1_0000 % 0x8000 == 0x7fff {
      return Copied(p);
    }
    if p.w0 % 16 == 0 && p.w1 == 0 && p.w2 == 0 {
      return Copied(p.(w0 := p.w0 / 0x8000_0000 * 0x8000_0000));
    }
    hide Frac; hide Exp3; hide Se; hide Sm; hide Nibbles; hide Ten; hide Power;
    var se := Se(p);
    var exp: int := ReadDigits(0, Exp3(p), 3, []);
    if se { exp := -exp; }
    exp := exp - 16;
    if exp < 0 {
      exp := -exp;
      se := true;
    }
    OneDigit(p.w0 % 16);
    var mant := ReadDigits(p.w0 % 16, Frac(p), 16, [p.w0 % 16]);
    Powers();
    TenBound(DigitsOf(p)); TenBound(Nibbles(Exp3(p), 3));
    assert [] + Nibbles(Exp3(p), 3) == Nibbles(Exp3(p), 3);
    r := Value(Number(Sm(p), se, exp, mant));
  }

  lemma OneDigit(d: nat)
    ensures Ten([]) == 0 && Ten([d]) == d
  {
    LastOf([], d);
    assert [] + [d] == [d];
  }

  /** A loop that takes `n` hexadecimal digits of `x` from the left as decimal digits, after
      those already taken. */
  method ReadDigits(v0: nat, x: nat, n: nat, ghost taken: Digits) returns (v: nat)
    requires v0 == Ten(taken)
    ensures v == Ten(taken + Nibbles(x, n))
  {
    hide Shift; hide Ten; hide Nibbles;
    ghost var ds := Nibbles(x, n);
    v := v0;
    var i := 0;
    assert taken + ds[..0] == taken;
    while i < n
      invariant 0 <= i <= n && v == Ten(taken + ds[..i])
    {
      DigitAt(x, n, i);
      assert taken + ds[..i + 1] == (taken + ds[..i]) + [ds[i]];
      LastOf(taken + ds[..i], ds[i]);
      v := v * 10 + Shift(x, n - 1 - i) % 16;
      i := i + 1;
    }
    assert ds[..n] == ds;
  }

  // ---------------------------------------------------------------- encoding

  /** A loop that lays the last `len` decimal digits of `x` into hexadecimal digits: the first
      one apart, the others from the left of `n` places. */
  method WriteDigits(x0: nat, len0: nat, n: nat) returns (first: nat, rest: nat)
    requires 1 <= len0 <= n + 1
    ensures var ds := Decimal(x0, len0); first == ds[0] && rest == Hex(ds[1..] + Zeros(n + 1 - len0))
  {
    hide Hex; hide Power; hide Decimal;
    var x, len := x0, len0;
    ghost var tail: Digits := [];
    ghost var ds := Decimal(x0, len0);
    ghost var pad := Zeros(n + 1 - len0);
    first, rest := 0, 0;
    HexZeros(n);
    assert Zeros(len - 1) + tail + pad == Zeros(n);
    assert ds == ds + tail;
    hide Zeros;
    while len > 0
      invariant 0 <= len <= len0 && |tail| == len0 - len && ds == Decimal(x, len) + tail
      invariant len > 0 ==> rest == Hex(Zeros(len - 1) + tail + pad)
      invariant len == 0 ==> first == ds[0] && rest == Hex(ds[1..] + pad)
    {
      len := len - 1;
      var digit := x % 10;
      MoreTail(x, len, tail);
      x := x / 10;
      if len == 0 {
        first := digit;
        LastTail(digit, tail, pad);
        NoDecimal(x);
      } else {
        PlaceDigit(len, digit, tail, pad);
        rest := rest + digit * Power(16, n - len);
      }
      tail := [digit] + tail;
    }
  }

  lemma MoreTail(x: nat, len: nat, tail: Digits)
    ensures Decimal(x, len + 1) + tail == Decimal(x / 10, len) + ([x % 10] + tail)
  {
    hide Decimal;
    LastDecimal(x, len + 1);
    assert Decimal(x / 10, len) + [x % 10] + tail == Decimal(x / 10, len) + ([x % 10] + tail);
  }

  lemma NoDecimal(x: nat)
    ensures Decimal(x, 0) == []
  {
  }

  lemma LastTail(d: nat, tail: Digits, pad: Digits)
    ensures [] + ([d] + tail) == [d] + tail && ([d] + tail)[0] == d
    ensures Zeros(0) + tail + pad == ([d] + tail)[1..] + pad
  {
    assert Zeros(0) == [];
  }

  lemma PlaceDigit(len: nat, d: nat, tail: Digits, pad: Digits)
    requires len > 0
    ensures Hex(Zeros(len - 1) + ([d] + tail) + pad) == Hex(Zeros(len) + tail + pad) + d * Power(16, |tail| + |pad|)
  {
    hide Hex; hide Power;
    SetDigit(len - 1, d, tail + pad);
    assert Zeros(len) + tail + pad == Zeros(len) + (tail + pad);
    assert Zeros(len - 1) + ([d] + tail) + pad == Zeros(len - 1) + [d] + (tail + pad);
  }

  lemma LastDecimal(x: nat, len: nat)
    requires len > 0
    ensures Decimal(x, len) == Decimal(x / 10, len - 1) + [x % 10]
    ensures Decimal(x / 10, 0) == []
  {
  }

  /** The fields of the first longword. */
  lemma FirstLong(e3: nat, e4: nat, d: nat, se: bool, sm: bool)
    requires e3 < 0x1000 && e4 < 10 && d < 10
    ensures var w := e3 * 0x1_0000 + e4 * 0x1000 + d + Bit(se, 0x4000_0000) + Bit(sm, 0x8000_0000);
      && w < WRAP && w % 16 == d && w / 0x1000 % 16 == e4 && w / 0x1_0000 % 0x1000 == e3
      && (w / 0x4000_0000 % 2 == 1 <==> se) && (w / 0x8000_0000 % 2 == 1 <==> sm)
  {
    var hi := Bit(se, 1) + Bit(sm, 2);
    var w := e3 * 0x1_0000 + e4 * 0x1000 + d + hi * 0x4000_0000;
    var low := e3 * 0x1_0000 + e4 * 0x1000 + d;
    DivModUnique(w, 16, hi * 0x400_0000 + e3 * 0x1000 + e4 * 0x100, d);
    DivModUnique(w, 0x1000, hi * 0x4_0000 + e3 * 16 + e4, d);
    DivModUnique(hi * 0x4_0000 + e3 * 16 + e4, 16, hi * 0x4000 + e3, e4);
    DivModUnique(w, 0x1_0000, hi * 0x4000 + e3, e4 * 0x1000 + d);
    DivModUnique(hi * 0x4000 + e3, 0x1000, hi * 4, e3);
    DivModUnique(w, 0x4000_0000, hi, low);
    DivModUnique(w, 0x8000_0000, Bit(sm, 1), Bit(se, 0x4000_0000) + low);
  }

  /** `fp_from_pack` from the decimal number and its digit count on. */
  method FromDecimal(f: Number, len: nat) returns (p: Pack)
    requires 1 <= len <= 17 && f.exp < 0x4000
    ensures var ds, es := Decimal(f.mant, len), Decimal(f.exp, 4);
      && DigitsOf(p) == ds + Zeros(17 - len)
      && Nibbles(Exp3(p), 3) == es[1..] && p.w0 / 0x1000 % 16 == es[0]
      && Se(p) == f.se && Sm(p) == f.sm
  {
    hide Nibbles; hide Hex; hide Decimal; hide Power; hide Bit; hide DigitsOf;
    var packInt, packFrac := WriteDigits(f.mant, len, 16);
    var packExp4, packExp := WriteDigits(f.exp, 4, 3);
    ghost var ds, es := Decimal(f.mant, len), Decimal(f.exp, 4);
    assert es[1..] + Zeros(0) == es[1..];
    Bounds(ds[1..] + Zeros(17 - len), es[1..]);
    FirstLong(packExp, packExp4, packInt, f.se, f.sm);
    var w0 := packExp * 0x1_0000 + packExp4 * 0x1000 + packInt + Bit(f.se, 0x4000_0000) + Bit(f.sm, 0x8000_0000);
    p := Pack(w0, packFrac / 0x1_0000_0000, packFrac % 0x1_0000_0000);
    Assembled(p, ds, es, packFrac);
  }

  lemma Bounds(frac: Digits, es: Digits)
    requires |frac| == 16 && |es| == 3 && AllBelow(frac, 16) && AllBelow(es, 16)
    ensures Hex(frac) < 0x1_0000_0000_0000_0000 && Hex(es) < 0x1000
  {
    hide Hex; hide Power;
    HexBound(frac); HexBound(es);
    Powers();
  }

  /** Longwords that hold the digits. */
  lemma Assembled(p: Pack, ds: Digits, es: Digits, frac: nat)
    requires 1 <= |ds| <= 17 && |es| == 4 && AllBelow(ds, 10) && AllBelow(es, 10)
    requires frac == Hex(ds[1..] + Zeros(17 - |ds|)) && p.w1 == frac / 0x1_0000_0000 && p.w2 == frac % 0x1_0000_0000
    requires p.w0 % 16 == ds[0] && Exp3(p) == Hex(es[1..])
    ensures DigitsOf(p) == ds + Zeros(17 - |ds|) && Nibbles(Exp3(p), 3) == es[1..]
  {
    hide Nibbles; hide Hex; hide Exp3;
    var rest := ds[1..] + Zeros(17 - |ds|);
    NibblesHex(rest);
    NibblesHex(es[1..]);
    assert Frac(p) == frac;
    assert ds + Zeros(17 - |ds|) == [ds[0]] + rest;
  }

  /** What `floatx80_to_floatdecimal` hands over: a number, or an infinity or NaN by its words. */
  datatype Handed = Finite(n: Number, len: nat) | Other(sign: bool, low: u64)

  /** `fp_from_pack`. An infinity or NaN is copied, and decoding passes it on. */
  method FromPack(f: Handed) returns (p: Pack)
    requires f.Finite? ==> 1 <= f.len <= 17 && f.n.exp < 0x4000
    ensures f.Finite? ==>
      && DigitsOf(p) == Decimal(f.n.mant, f.len) + Zeros(17 - f.len)
      && Nibbles(Exp3(p), 3) == Decimal(f.n.exp, 4)[1..] && Se(p) == f.n.se && Sm(p) == f.n.sm
    ensures f.Other? ==> Special(p) && Sm(p) == f.sign && Frac(p) == f.low && p.w0 % 0x1_0000 == 0
  {
    hide Nibbles; hide Decimal; hide DigitsOf;
    match f
    case Finite(n, len) => p := FromDecimal(n, len);
    case Other(sign, low) =>
      p := Pack(if sign then 0xffff_0000 else 0x7fff_0000, low / 0x1_0000_0000, low % 0x1_0000_0000);
  }

  lemma {:induction false} DecimalTail(x: nat, len: nat)
    ensures Decimal(x, len + 1)[1..] == Decimal(x, len)
  {
    if len > 0 { DecimalTail(x / 10, len - 1); }
  }

  lemma TenMod(x: nat, p: nat)
    requires p > 0
    ensures x % (p * 10) / 10 == x / 10 % p && x % (p * 10) % 10 == x % 10
  {
    var a, r, d := x / 10 / p, x / 10 % p, x % 10;
    assert x / 10 == p * a + r;
    assert 10 * (p * a) == (p * 10) * a;
    DivModUnique(x, p * 10, a, r * 10 + d);
    DivModUnique(r * 10 + d, 10, r, d);
  }

  /** Leading digits do not show in the last ones. */
  lemma {:induction false} DecimalMod(x: nat, len: nat)
    ensures Power(10, len) > 0 && Decimal(x, len) == Decimal(x % Power(10, len), len)
  {
    if len > 0 {
      DecimalMod(x / 10, len - 1);
      TenMod(x, Power(10, len - 1));
      LastDecimal(x, len);
      LastDecimal(x % Power(10, len), len);
      assert Power(10, len) == Power(10, len - 1) * 10;
      hide Decimal; hide Power;
    }
  }

  /** Three digits of an exponent are its value below a thousand. */
  lemma ThreeDigits(x: nat)
    ensures Ten(Decimal(x, 4)[1..]) == x % 1000
  {
    hide Power; hide Decimal; hide Ten;
    DecimalTail(x, 3);
    DecimalMod(x, 3);
    Powers();
    TenDecimal(x % 1000, 3);
  }

  lemma {:induction false} NoNibbles(n: nat)
    ensures Nibbles(0, n) == Zeros(n)
  {
    if n > 0 { NoNibbles(n - 1); }
  }

  lemma LastNibble(x: nat, len: nat)
    requires len > 0
    ensures Nibbles(x, len)[len - 1] == x % 16
  {
  }

  lemma SpecialExponent(p: Pack)
    ensures Special(p) ==> Exp3(p) == 0xfff
  {
    var e := p.w0 / 0x1_0000;
    assert e == e / 0x8000 * 0x8000 + e % 0x8000;
    if e % 0x8000 == 0x7fff {
      DivModUnique(e, 0x1000, e / 0x8000 * 8 + 7, 0xfff);
    }
  }

  lemma SpecialDigit(p: Pack)
    ensures Special(p) ==> Nibbles(Exp3(p), 3)[2] == 15
  {
    hide Special; hide Exp3; hide Nibbles;
    SpecialExponent(p);
    LastNibble(Exp3(p), 3);
  }

  lemma ZeroDigits(p: Pack)
    ensures Zero(p) ==> Ten(DigitsOf(p)) == 0
  {
    hide Nibbles; hide Power;
    NoNibbles(16);
    TenPadded([], 17);
    assert Zero(p) ==> DigitsOf(p) == [] + Zeros(17);
  }

  /** A number with digits is neither of the cases that are passed on. */
  lemma Ordinary(p: Pack)
    requires AllBelow(Nibbles(Exp3(p), 3), 10) && Ten(DigitsOf(p)) > 0
    ensures !Special(p) && !Zero(p)
  {
    hide Ten; hide Nibbles; hide Special; hide Zero; hide DigitsOf; hide Exp3;
    SpecialDigit(p);
    ZeroDigits(p);
  }

  /** Encoding and decoding: the signs and the digits come back, the significand scaled to
      seventeen digits and the exponent lowered by sixteen. The exponent is right exactly when
      it has at most three digits: decoding does not look at the fourth. */
  method RoundTrip(f: Number, len: nat) returns (r: Number)
    requires 1 <= len <= 17 && 1 <= f.mant < Power(10, len) && f.exp < 0x4000
    ensures r.sm == f.sm && r.mant == f.mant * Power(10, 17 - len)
    ensures var e: int := f.exp % 1000; (if r.se then 0 - r.exp else r.exp) == (if f.se then 0 - e else e) - 16
    ensures (if r.se then 0 - r.exp else r.exp) == (if f.se then 0 - f.exp else f.exp) - 16 <==> f.exp <= 999
  {
    hide Ten; hide Nibbles; hide Decimal; hide Power; hide DigitsOf; hide Exp3; hide Se; hide Sm; hide Special;
    hide Zero;
    var p := FromDecimal(f, len);
    TenDecimal(f.mant, len);
    TenPadded(Decimal(f.mant, len), 17 - len);
    ThreeDigits(f.exp);
    Scaled(f.mant, 17 - len);
    Ordinary(p);
    var d := ToDecimal(p);
    r := d.n;
  }

  /** The exponent 1000 comes back as if it were 0. */
  method FourDigitsWitness() returns (f: Number, r: Number)
    ensures f.exp == 1000 && !f.se && !(f.mant == 0)
    ensures r.mant == f.mant * Power(10, 16) && (if r.se then 0 - r.exp else r.exp) == -16
  {
    assert Power(10, 1) == 10;
    hide Power;
    f := Number(false, false, 1000, 1);
    r := RoundTrip(f, 1);
  }

  lemma {:induction false} Scaled(x: nat, n: nat)
    requires x >= 1
    ensures x * Power(10, n) >= 1
  {
    if n > 0 {
      Scaled(x, n - 1);
      assert x * (Power(10, n - 1) * 10) == x * Power(10, n - 1) * 10;
    }
  }
}
