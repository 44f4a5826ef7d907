/** Indexed addressing of the 68020 and 68030: what the stepwise calculation computes. */
module Ea020 {
  import opened Words
  import opened Bus030
  import opened Program030

  /** What is left of an address calculation is its indexing and indirection. */
  ghost predicate TailOf(org: u32, regs: Regs, h: seq<u32>, base: u32, outer: u32, regd: u32, dp: u32, words: nat)
  {
    && EaNext(org, regs, h) == EaTail(base, outer, regd, dp, [], words)
    && (Indirect(dp) ==> forall y: u32 :: EaNext(org, regs, h + [y]) == EaTail(base, outer, regd, dp, [y], words))
  }

  lemma BriefNext(base: u32, regs: Regs, h: seq<u32>)
    ensures h == [] ==> EaNext(base, regs, h) == More(Fetch(2))
    ensures |h| == 1 && !Full(h[0]) ==>
            EaNext(base, regs, h) == Ret(Plus(Plus(base, SignExt(h[0], 8)), Index(h[0], regs)), 1)
  {
  }

  lemma Stages(org: u32, regs: Regs, h: seq<u32>)
    requires |h| > 0 && Full(h[0])
    ensures var b, o := BaseWords(h[0]), OuterWords(h[0]);
      && (b > 0 && |h| == 1 ==> EaNext(org, regs, h) == More(Fetch(2 * b)))
      && (o > 0 && |h| == (if b > 0 then 2 else 1) ==> EaNext(org, regs, h) == More(Fetch(2 * o)))
  {
    hide EaNext;
    FullNext(org, regs, h);
  }

  lemma TailReached(org: u32, regs: Regs, h: seq<u32>)
    requires |h| > 0 && Full(h[0]) &&
             |h| == 1 + (if BaseWords(h[0]) > 0 then 1 else 0) + (if OuterWords(h[0]) > 0 then 1 else 0)
    ensures var dp := h[0]; var b, o := BaseWords(dp), OuterWords(dp);
      var base := if dp / 0x80 % 2 == 1 then 0 else org; var regd := if dp / 0x40 % 2 == 1 then 0 else Index(dp, regs);
      TailOf(org, regs, h, if b > 0 then Plus(base, Displacement(b, h[1])) else base,
             if o > 0 then Displacement(o, h[|h| - 1]) else 0, regd, dp, 1 + b + o)
  {
    hide EaNext; hide EaTail; hide Index; hide Plus; hide Displacement;
    FullNext(org, regs, h);
    var j := |h|;
    assert h[j..] == [];
    forall y: u32 ensures (h + [y])[j..] == [y] {}
    forall y: u32 ensures EaNext(org, regs, h + [y]) ==
      EaFull(if h[0] / 0x80 % 2 == 1 then 0 else org, if h[0] / 0x40 % 2 == 1 then 0 else Index(h[0], regs), h[0],
             h + [y]) {
      FullNext(org, regs, h + [y]);
    }
  }

  lemma FullNext(base: u32, regs: Regs, h: seq<u32>)
    requires |h| > 0 && Full(h[0])
    ensures var dp := h[0];
      EaNext(base, regs, h) ==
        EaFull(if dp / 0x80 % 2 == 1 then 0 else base, if dp / 0x40 % 2 == 1 then 0 else Index(dp, regs), dp, h)
  {
  }

  function Word16(m: Bytes, a: u32): u32 { Value(m, a, 2) }

  /** Base displacement, outer displacement, base register and index of a full extension word
      that stands at `pc`. */
  function BaseDisp(m: Bytes, pc: u32, dp: u32): u32
  {
    var b := BaseWords(dp);
    if b == 0 then 0 else Displacement(b, Value(m, Plus(pc, 2), 2 * b))
  }

  function OuterDisp(m: Bytes, pc: u32, dp: u32): u32
  {
    var o := OuterWords(dp);
    if o == 0 then 0 else Displacement(o, Value(m, Plus(pc, 2 + 2 * BaseWords(dp)), 2 * o))
  }

  function BaseReg(base: u32, dp: u32): u32 { if dp / 0x80 % 2 == 1 then 0 else base }
  function IndexReg(regs: Regs, dp: u32): u32 { if dp / 0x40 % 2 == 1 then 0 else Index(dp, regs) }

  /** The address in the terms of the calculation. */
  function EaValue(base: u32, regs: Regs, m: Bytes, pc: u32): u32
  {
    var dp := Word16(m, pc);
    if !Full(dp) then Plus(Plus(base, SignExt(dp, 8)), Index(dp, regs)) else
      var at := Plus(BaseReg(base, dp), BaseDisp(m, pc, dp));
      var x, od := IndexReg(regs, dp), OuterDisp(m, pc, dp);
      if !Indirect(dp) then Plus(at, x)
      else if PostIndexed(dp) then Plus(Plus(Value(m, at, 4), x), od)
      else Plus(Value(m, Plus(at, x), 4), od)
  }

  lemma EaFromRet(base: u32, regs: Regs, h: seq<u32>, w: World)
    requires EaNext(base, regs, h).Ret?
    ensures var r := EaNext(base, regs, h); EaFrom(base, regs, h, w) == Ea(w, r.v, r.adds)
  {
    hide EaNext;
  }

  /** From the displacements on. */
  lemma EaTailMeans(base: u32, regs: Regs, h: seq<u32>, w: World, at: u32, outer: u32, index: u32, dp: u32, words: nat)
    requires TailOf(base, regs, h, at, outer, index, dp, words)
    ensures var e := EaFrom(base, regs, h, w);
      && e.w.pc == w.pc && e.w.mem == w.mem && e.adds == words
      && e.v == Plus(if !Indirect(dp) then Plus(at, index)
                     else if PostIndexed(dp) then Plus(Value(w.mem, at, 4), index)
                     else Value(w.mem, Plus(at, index), 4), outer)
  {
    hide Plus; hide Value; hide EaNext; hide EaFrom;
    if Indirect(dp) {
      var q := Read(if PostIndexed(dp) then at else Plus(at, index), 4);
      EaFromMore(base, regs, h, w, q);
      var d := Do(q, w);
      EaFromRet(base, regs, h + [d.1], d.0);
    } else {
      EaFromRet(base, regs, h, w);
    }
  }

  /** One extension word or longword fetched. */
  lemma Fetches(base: u32, regs: Regs, h: seq<u32>, w: World, n: code)
    requires EaNext(base, regs, h) == More(Fetch(n))
    ensures exists w1: World ::
      w1.mem == w.mem && w1.pc == Plus(w.pc, n) &&
      EaFrom(base, regs, h, w) == EaFrom(base, regs, h + [Value(w.mem, w.pc, n)], w1)
  {
    hide EaNext; hide EaFrom; hide Plus; hide Value;
    EaFromMore(base, regs, h, w, Fetch(n));
  }

  lemma EaComputes(base: u32, regs: Regs, w: World)
    ensures var e := EaFrom(base, regs, [], w); var dp := Word16(w.mem, w.pc);
      && e.v == EaValue(base, regs, w.mem, w.pc) && e.w.mem == w.mem
      && e.adds == (if Full(dp) then 1 + BaseWords(dp) + OuterWords(dp) else 1)
      && e.w.pc == Plus(w.pc, 2 * e.adds)
  {
    hide EaNext; hide EaFrom; hide Plus; hide Value; hide Index; hide SignExt; hide Full; hide Indirect;
    hide PostIndexed; hide TailOf;
    var dp := Word16(w.mem, w.pc);
    BriefNext(base, regs, []);
    Fetches(base, regs, [], w, 2);
    var w1: World :| w1.mem == w.mem && w1.pc == Plus(w.pc, 2) &&
      EaFrom(base, regs, [], w) == EaFrom(base, regs, [] + [dp], w1);
    var h := [dp];
    assert [] + [dp] == h;
    if !Full(dp) {
      BriefNext(base, regs, h);
      EaFromRet(base, regs, h, w1);
    } else {
      FullMeans(base, regs, w, w1, dp);
    }
  }

  lemma FullMeans(base: u32, regs: Regs, w: World, w1: World, dp: u32)
    requires dp == Word16(w.mem, w.pc) && Full(dp) && w1.mem == w.mem && w1.pc == Plus(w.pc, 2)
    ensures var e := EaFrom(base, regs, [dp], w1);
      && e.v == EaValue(base, regs, w.mem, w.pc) && e.w.mem == w.mem
      && e.adds == 1 + BaseWords(dp) + OuterWords(dp) && e.w.pc == Plus(w.pc, 2 * e.adds)
  {
    hide EaNext; hide EaFrom; hide Plus; hide Value; hide Index; hide SignExt; hide Full; hide Indirect;
    hide PostIndexed; hide TailOf; hide BaseWords; hide OuterWords; hide Displacement;
    var b, o := BaseWords(dp), OuterWords(dp);
    SmallWords(dp);
    var h, w2 := [dp], w1;
    Stages(base, regs, h);
    if b > 0 {
      Fetches(base, regs, h, w1, 2 * b);
      var x := Value(w1.mem, w1.pc, 2 * b);
      var w3: World :| w3.mem == w1.mem && w3.pc == Plus(w1.pc, 2 * b) &&
        EaFrom(base, regs, h, w1) == EaFrom(base, regs, h + [x], w3);
      h, w2 := h + [x], w3;
    }
    PlusPlus(w.pc, 2, 2 * b);
    PlusZero(w1.pc);
    assert w2.mem == w.mem && w2.pc == Plus(w.pc, 2 + 2 * b);
    Stages(base, regs, h);
    var w4 := w2;
    if o > 0 {
      Fetches(base, regs, h, w2, 2 * o);
      var x := Value(w2.mem, w2.pc, 2 * o);
      var w3: World :| w3.mem == w2.mem && w3.pc == Plus(w2.pc, 2 * o) &&
        EaFrom(base, regs, h, w2) == EaFrom(base, regs, h + [x], w3);
      h, w4 := h + [x], w3;
    }
    PlusPlus(w.pc, 2 + 2 * b, 2 * o);
    PlusZero(w2.pc);
    assert w4.mem == w.mem && w4.pc == Plus(w.pc, 2 + 2 * b + 2 * o);
    TailReached(base, regs, h);
    var at := if b > 0 then Plus(BaseReg(base, dp), Displacement(b, h[1])) else BaseReg(base, dp);
    var outer := if o > 0 then Displacement(o, h[|h| - 1]) else 0;
    PlusZero(BaseReg(base, dp));
    assert at == Plus(BaseReg(base, dp), BaseDisp(w.mem, w.pc, dp)) && outer == OuterDisp(w.mem, w.pc, dp);
    EaTailMeans(base, regs, h, w4, at, outer, IndexReg(regs, dp), dp, 1 + b + o);
    PlusZero(Plus(at, IndexReg(regs, dp)));
    NoOuter(dp);
  }

  lemma SmallWords(dp: u32)
    ensures BaseWords(dp) <= 2 && OuterWords(dp) <= 2
  {
  }

  lemma NoOuter(dp: u32)
    ensures !Indirect(dp) ==> OuterWords(dp) == 0
  {
  }

  // ---------------------------------------------------------------- what that is

  /** The low byte and the low word of a number, signed. */
  function S8(v: nat): int { if v % 0x100 < 0x80 then v % 0x100 else v % 0x100 - 0x100 }
  function S16(v: nat): int { if v % 0x1_0000 < 0x8000 then v % 0x1_0000 else v % 0x1_0000 - 0x1_0000 }

  /** Bytes of a displacement whose size field is `f`, and its value at `at`. */
  function Bytes2(f: nat): nat { if f == 2 then 2 else if f == 3 then 4 else 0 }

  function Field(m: Bytes, at: u32, f: nat): int
  {
    if f == 2 then S16(Value(m, at, 2)) else if f == 3 then Value(m, at, 4) else 0
  }

  /** The index of an extension word: the register in bits 15-12, its low word signed if bit 11 is
      clear, times 1, 2, 4 or 8 by bits 10-9. */
  function Scaled(dp: u32, regs: Regs): int
  {
    var r, s := regs[dp / 0x1000 % 16], dp / 0x200 % 4;
    (if dp / 0x800 % 2 == 0 then S16(r) else r) * (if s == 0 then 1 else if s == 1 then 2 else if s == 2 then 4 else 8)
  }

  /** The addressing modes of the 68020: (d8,An,Xn), and if bit 8 is set (bd,An,Xn), ([bd,An,Xn],od)
      and ([bd,An],Xn,od), where bit 7 suppresses the base register, bit 6 the index, bits 5-4 are
      the size of the base displacement, bits 1-0 that of the outer displacement, zero for none
      and no indirection, and bit 2 puts the index behind the indirection. */
  function EaMeaning(base: u32, regs: Regs, m: Bytes, pc: u32): u32
  {
    var dp := Value(m, pc, 2);
    if dp / 0x100 % 2 == 0 then (base + S8(dp) + Scaled(dp, regs)) % 0x1_0000_0000
    else
      var bd := Field(m, (pc + 2) % 0x1_0000_0000, dp / 0x10 % 4);
      var od := Field(m, (pc + 2 + Bytes2(dp / 0x10 % 4)) % 0x1_0000_0000, dp % 4);
      var at := (if dp / 0x80 % 2 == 1 then 0 else base) + bd;
      var x := if dp / 0x40 % 2 == 1 then 0 else Scaled(dp, regs);
      if dp % 4 == 0 then (at + x) % 0x1_0000_0000
      else if dp / 4 % 2 == 1 then (Value(m, at % 0x1_0000_0000, 4) + x + od) % 0x1_0000_0000
      else (Value(m, (at + x) % 0x1_0000_0000, 4) + od) % 0x1_0000_0000
  }

  lemma SignedWord(v: nat)
    ensures SignExt(v, 16) == S16(v) || SignExt(v, 16) == S16(v) + WRAP
    ensures SignExt(v, 8) == S8(v) || SignExt(v, 8) == S8(v) + WRAP
  {
  }

  /** An unsigned summand may stand for a signed one. */
  lemma PlusSigned(a: int, b: nat, k: int, c: int)
    requires 0 <= a % WRAP && b == c + k * WRAP
    ensures Plus(a % WRAP, b) == (a + c) % WRAP
  {
    var q := a / WRAP;
    assert a % WRAP + b == (a + c) + (k - q) * WRAP;
    DivModUnique(a % WRAP + b, WRAP, (a + c) / WRAP + k - q, (a + c) % WRAP);
  }

  lemma IndexSigned(dp: u32, regs: Regs)
    ensures Index(dp, regs) == Scaled(dp, regs) % WRAP
  {
    var r, s := regs[dp / 0x1000 % 16], dp / 0x200 % 4;
    SignedWord(r);
    Powers4();
    hide Pow2; hide SignExt; hide S16;
    var p := Pow2(s);
    var x: int := if dp / 0x800 % 2 == 0 then S16(r) else r;
    var y: int := if dp / 0x800 % 2 == 0 then SignExt(r, 16) else r;
    var k := if y == x then 0 else 1;
    assert y * p == x * p + k * p * WRAP;
    DivModUnique(y * p, WRAP, x * p / WRAP + k * p, x * p % WRAP);
  }

  lemma Powers4()
    ensures Pow2(0) == 1 && Pow2(1) == 2 && Pow2(2) == 4 && Pow2(3) == 8
  {
  }

  /** Two signed summands. */
  lemma PlusBoth(a: int, b: nat, c: int, d: nat, e: int)
    requires (b - c) % WRAP == 0 && (d - e) % WRAP == 0
    ensures Plus(Plus(a % WRAP, b), d) == (a + c + e) % WRAP
  {
    hide Plus;
    PlusSigned(a, b, (b - c) / WRAP, c);
    PlusSigned(a + c, d, (d - e) / WRAP, e);
  }

  lemma Reduced(x: int)
    ensures (x % WRAP - x) % WRAP == 0
  {
    DivModUnique(x % WRAP - x, WRAP, 0 - x / WRAP, 0);
  }

  lemma Signs(v: nat)
    ensures (SignExt(v, 16) - S16(v)) % WRAP == 0 && (SignExt(v, 8) - S8(v)) % WRAP == 0
  {
    hide SignExt; hide S16; hide S8;
    SignedWord(v);
  }

  lemma BriefValue(base: u32, regs: Regs, dp: u32)
    ensures Plus(Plus(base, SignExt(dp, 8)), Index(dp, regs)) == (base + S8(dp) + Scaled(dp, regs)) % WRAP
  {
    hide SignExt; hide S8; hide Index; hide Scaled; hide Plus;
    Signs(dp);
    IndexSigned(dp, regs);
    Reduced(Scaled(dp, regs));
    PlusBoth(base, SignExt(dp, 8), S8(dp), Index(dp, regs), Scaled(dp, regs));
  }

  lemma FieldValue(words: nat, v: u32, f: nat)
    requires (f == 2 && words == 1) || (f == 3 && words == 2)
    ensures (Displacement(words, v) - if f == 2 then S16(v) else v) % WRAP == 0
  {
    hide SignExt; hide S16;
    Signs(v);
  }

  lemma BaseValue(m: Bytes, pc: u32, dp: u32)
    ensures (BaseDisp(m, pc, dp) - Field(m, (pc + 2) % WRAP, dp / 0x10 % 4)) % WRAP == 0
  {
    hide Value; hide Displacement; hide S16;
    var f := dp / 0x10 % 4;
    if f == 2 { FieldValue(1, Value(m, Plus(pc, 2), 2), f); }
    if f == 3 { FieldValue(2, Value(m, Plus(pc, 2), 4), f); }
  }

  lemma OuterValue(m: Bytes, pc: u32, dp: u32)
    ensures (OuterDisp(m, pc, dp) - Field(m, (pc + 2 + Bytes2(dp / 0x10 % 4)) % WRAP, dp % 4)) % WRAP == 0
  {
    hide Value; hide Displacement; hide S16;
    var f, at := dp % 4, Plus(pc, 2 + 2 * BaseWords(dp));
    assert at == (pc + 2 + Bytes2(dp / 0x10 % 4)) % WRAP;
    if f == 2 { FieldValue(1, Value(m, at, 2), f); }
    if f == 3 { FieldValue(2, Value(m, at, 4), f); }
  }

  lemma IndexValue(regs: Regs, dp: u32)
    ensures (IndexReg(regs, dp) - if dp / 0x40 % 2 == 1 then 0 else Scaled(dp, regs)) % WRAP == 0
  {
    hide Index; hide Scaled;
    IndexSigned(dp, regs);
    Reduced(Scaled(dp, regs));
  }

  /** Unsigned operands that stand for signed ones, in the three shapes of the full format. */
  lemma FullSums(m: Bytes, b: u32, ubd: u32, bd: int, ux: u32, x: int, uod: u32, od: int)
    requires (ubd - bd) % WRAP == 0 && (ux - x) % WRAP == 0 && (uod - od) % WRAP == 0
    ensures Plus(b, ubd) == (b + bd) % WRAP && Plus(Plus(b, ubd), ux) == (b + bd + x) % WRAP
    ensures Plus(Plus(Value(m, Plus(b, ubd), 4), ux), uod) == (Value(m, (b + bd) % WRAP, 4) + x + od) % WRAP
    ensures Plus(Value(m, Plus(Plus(b, ubd), ux), 4), uod) == (Value(m, (b + bd + x) % WRAP, 4) + od) % WRAP
  {
    hide Value; hide Plus;
    PlusSigned(b, ubd, (ubd - bd) / WRAP, bd);
    PlusBoth(b, ubd, bd, ux, x);
    PlusBoth(Value(m, Plus(b, ubd), 4), ux, x, uod, od);
    PlusSigned(Value(m, Plus(Plus(b, ubd), ux), 4), uod, (uod - od) / WRAP, od);
  }

  lemma ValueIs(base: u32, regs: Regs, m: Bytes, pc: u32)
    ensures EaValue(base, regs, m, pc) == EaMeaning(base, regs, m, pc)
  {
    hide Value; hide Plus; hide Index; hide Scaled; hide SignExt; hide S8; hide Field; hide BaseDisp; hide OuterDisp;
    hide Displacement; hide IndexReg; hide BaseWords; hide OuterWords; hide Bytes2;
    var dp := Value(m, pc, 2);
    BriefValue(base, regs, dp);
    BaseValue(m, pc, dp);
    OuterValue(m, pc, dp);
    IndexValue(regs, dp);
    FullSums(m, BaseReg(base, dp), BaseDisp(m, pc, dp), Field(m, (pc + 2) % WRAP, dp / 0x10 % 4),
             IndexReg(regs, dp), if dp / 0x40 % 2 == 1 then 0 else Scaled(dp, regs),
             OuterDisp(m, pc, dp), Field(m, (pc + 2 + Bytes2(dp / 0x10 % 4)) % WRAP, dp % 4));
  }

  /** The stepwise calculation yields the address of the addressing mode, leaves memory as it is
      and moves the program counter past the extension words. */
  lemma EaMeans(base: u32, regs: Regs, w: World)
    ensures var e := EaFrom(base, regs, [], w); var dp := Value(w.mem, w.pc, 2);
      && e.v == EaMeaning(base, regs, w.mem, w.pc) && e.w.mem == w.mem
      && 2 * e.adds == 2 + (if dp / 0x100 % 2 == 1 then Bytes2(dp / 0x10 % 4) + Bytes2(dp % 4) else 0)
      && e.w.pc == (w.pc + 2 * e.adds) % 0x1_0000_0000
  {
    hide EaFrom; hide EaValue; hide EaMeaning; hide Value;
    EaComputes(base, regs, w);
    ValueIs(base, regs, w.mem, w.pc);
  }

  /** The word (0,A0,D1.W) with A0 = 0x1000 and D1 = 0x10002: only the low word of D1 counts. */
  lemma WordIndex(regs: Regs, m: Bytes, pc: u32)
    requires Value(m, pc, 2) == 0x1000 && regs[1] == 0x1_0002
    ensures EaMeaning(0x1000, regs, m, pc) == 0x1002
  {
  }
}
