/** Bit-field read-modify-write of the 68060: the field is read together with what surrounds it
    and written back next to it. Registers and bytes are strings of bits, most significant
    first, so that the masks and shifts of the program act on them bit by bit. */
module Bitfield060 {
  import opened Words

  type Bits = seq<bool>
  type Octet = b: Bits | |b| == 8 witness [false, false, false, false, false, false, false, false]
  type Reg = b: Bits | |b| == 32 witness seq(32, i => false)

  function Zeros(n: nat): (r: Bits) ensures |r| == n { seq(n, i => false) }

  function Ones(): (r: Reg) { seq(32, i => true) }

  function Shl(x: Reg, k: nat): (r: Reg) { seq(32, i requires 0 <= i < 32 => i + k < 32 && x[i + k]) }
  function Shr(x: Reg, k: nat): (r: Reg) { seq(32, i requires 0 <= i < 32 => i >= k && x[i - k]) }
  function AndNot(x: Reg, y: Reg): (r: Reg) { seq(32, i requires 0 <= i < 32 => x[i] && !y[i]) }
  function Or(x: Reg, y: Reg): (r: Reg) { seq(32, i requires 0 <= i < 32 => x[i] || y[i]) }

  // ---------------------------------------------------------------- memory

  type Ram = map<u32, Octet>

  function ByteAt(m: Ram, a: u32): Octet { if a in m then m[a] else Zeros(8) }

  /** The bits of `n` bytes. */
  function Span(m: Ram, a: u32, n: nat): (r: Bits)
    ensures |r| == 8 * n
  {
    if n == 0 then [] else Span(m, a, n - 1) + ByteAt(m, Plus(a, n - 1))
  }

  /** The low `n` bytes of a register put into memory. */
  function Deposit(m: Ram, a: u32, n: nat, x: Reg): Ram
    requires n <= 4
  {
    if n == 0 then m else Deposit(m, a, n - 1, Shr(x, 8))[Plus(a, n - 1) := x[24..]]
  }

  predicate Outside(a: u32, n: nat, b: u32) { forall i :: 0 <= i < n ==> Plus(a, i) != b }

  /** Only the `n` bytes at `a` may differ. */
  ghost predicate Untouched(m: Ram, k: Ram, a: u32, n: nat)
  {
    forall b: u32 :: Outside(a, n, b) ==> ByteAt(k, b) == ByteAt(m, b)
  }

  // ---------------------------------------------------------------- what a field is

  /** The field of a string of bits. */
  function GetField(x: Bits, o: nat, w: nat): Bits
    requires o + w <= |x|
  {
    x[o..o + w]
  }

  /** The string with its field replaced. */
  function PutField(x: Bits, o: nat, v: Bits): Bits
    requires o + |v| <= |x|
  {
    x[..o] + v + x[o + |v|..]
  }

  /** The lens laws: a field put is the field got, putting what was got changes nothing, the last
      put wins, and every bit outside the field stays. */
  lemma LensLaws(x: Bits, o: nat, v: Bits, u: Bits)
    requires o + |v| <= |x| && |u| == |v|
    ensures |PutField(x, o, v)| == |x|
    ensures GetField(PutField(x, o, v), o, |v|) == v
    ensures PutField(x, o, GetField(x, o, |v|)) == x
    ensures PutField(PutField(x, o, v), o, u) == PutField(x, o, u)
    ensures forall i :: 0 <= i < |x| && !(o <= i < o + |v|) ==> PutField(x, o, v)[i] == x[i]
  {
  }

  /** Bytes the field lies in. */
  function Bytes(o: nat, w: nat): nat { (o + w + 7) / 8 }

  lemma BytesIs(o: nat, w: nat)
    requires o < 8 && 1 <= w <= 32
    ensures 1 <= Bytes(o, w) <= 5 && 8 * Bytes(o, w) - 8 < o + w <= 8 * Bytes(o, w)
  {
  }

  /** A register keeps the bits of bytes `from` to `from + n` of a span, field cleared. */
  ghost predicate Kept(d: Reg, x: Bits, from: nat, n: nat, o: nat, w: nat)
    requires n <= 4 && 8 * (from + n) <= |x|
  {
    forall i :: 0 <= i < 32 ==>
      var j := i - (32 - 8 * n) + 8 * from;
      d[i] == (i >= 32 - 8 * n && !(o <= j < o + w) && x[j])
  }

  /** What `mmu060_get_rmw_bitfield` leaves for writing back. */
  ghost predicate Held(d0: Reg, d1: Reg, x: Bits, o: nat, w: nat)
    requires o < 8 && 1 <= w <= 32 && |x| == 8 * Bytes(o, w)
  {
    match Bytes(o, w)
    case 3 => Kept(d0, x, 0, 2, o, w) && Kept(d1, x, 2, 1, o, w)
    case 5 => Kept(d0, x, 0, 4, o, w) && Kept(d1, x, 4, 1, o, w)
    case n => n <= 4 && Kept(d0, x, 0, n, o, w)
  }

  // ---------------------------------------------------------------- the five cases

  /** Bits of memory as an unsigned register value. */
  function Widened(x: Bits): (r: Reg)
    requires |x| <= 32
  {
    Zeros(32 - |x|) + x
  }

  function Mask(w: nat): Reg
    requires 1 <= w <= 32
  {
    Shl(Ones(), 32 - w)
  }

  /** A field inside one access of `n` bytes. */
  lemma GetWithin(x: Bits, n: nat, o: nat, w: nat)
    requires n <= 4 && |x| == 8 * n && 1 <= w && o + w <= 8 * n
    ensures Shl(Widened(x), 32 - 8 * n + o)[..w] == GetField(x, o, w)
    ensures Kept(AndNot(Widened(x), Shr(Mask(w), 32 - 8 * n + o)), x, 0, n, o, w)
  {
  }

  /** A field over a word and a byte. */
  lemma GetOver3(x: Bits, o: nat, w: nat)
    requires |x| == 24 && o < 8 && 1 <= w && 16 < o + w <= 24
    ensures var t1, t2 := Widened(x[..16]), Widened(x[16..]);
      && Or(Shl(t1, 16 + o), Shl(t2, 8 + o))[..w] == GetField(x, o, w)
      && Kept(AndNot(t1, Shr(Mask(w), 16 + o)), x, 0, 2, o, w)
      && Kept(AndNot(t2, Shr(Mask(w), 8 + o)), x, 2, 1, o, w)
  {
  }

  /** A field over a longword and a byte. */
  lemma GetOver5(x: Bits, o: nat, w: nat)
    requires |x| == 40 && o < 8 && w <= 32 && 32 < o + w
    ensures var t1, t2 := Widened(x[..32]), Widened(x[32..]);
      && Or(Shl(t1, o), Shr(t2, 8 - o))[..w] == GetField(x, o, w)
      && Kept(AndNot(t1, Shr(Mask(w), o)), x, 0, 4, o, w)
      && Kept(AndNot(t2, Shl(Mask(w), 8 - o)), x, 4, 1, o, w)
  {
  }

  /** A value below 2 to the power of `w`. */
  predicate Below(v: Reg, w: nat)
    requires w <= 32
  {
    forall i :: 0 <= i < 32 - w ==> !v[i]
  }

  /** The bit of a value that falls on bit `i` when its last bit falls on the end of the field. */
  predicate Falls(v: Reg, o: nat, w: nat, i: int) { i < o + w && i - (o + w) + 32 >= 0 && v[i - (o + w) + 32] }

  /** What is written for any value: the bits outside the field, ORed with the value. */
  function Written(x: Bits, o: nat, w: nat, v: Reg): (r: Bits)
    ensures |r| == |x|
  {
    seq(|x|, i requires 0 <= i < |x| => (!(o <= i < o + w) && x[i]) || Falls(v, o, w, i))
  }

  /** That is the field replaced by the low bits of the value if and only if no higher bit of the
      value falls on a clear bit before the field. */
  lemma WrittenExact(x: Bits, o: nat, w: nat, v: Reg)
    requires o + w <= |x| && 1 <= w <= 32
    ensures Written(x, o, w, v) == PutField(x, o, v[32 - w..]) <==> forall i :: 0 <= i < o && Falls(v, o, w, i) ==> x[i]
  {
    var p, q := Written(x, o, w, v), PutField(x, o, v[32 - w..]);
    forall i | 0 <= i < |x| ensures p[i] == q[i] <==> !(i < o && Falls(v, o, w, i) && !x[i]) {}
    if forall i :: 0 <= i < o && Falls(v, o, w, i) ==> x[i] {
      assert p == q;
    }
  }

  /** A value wider than its field: writing 3 as the last bit of a zero byte changes the bit in
      front of the field too. */
  lemma WiderWitness()
    ensures var x, v := Zeros(8), Zeros(30) + [true, true];
      Written(x, 7, 1, v) != PutField(x, 7, v[31..]) && Written(x, 7, 1, v)[6] && !x[6]
  {
    var x, v := Zeros(8), Zeros(30) + [true, true];
    assert Falls(v, 7, 1, 6);
    WrittenExact(x, 7, 1, v);
  }

  /** Values below 2 to the power of the width have no higher bits. */
  lemma WrittenBelow(x: Bits, o: nat, w: nat, v: Reg)
    requires o + w <= |x| && 1 <= w <= 32
    ensures Below(v, w) ==> Written(x, o, w, v) == PutField(x, o, v[32 - w..])
  {
    if Below(v, w) { WrittenExact(x, o, w, v); }
  }

  /** Writing a field inside one access. */
  lemma PutWithin(d: Reg, x: Bits, n: nat, o: nat, w: nat, v: Reg)
    requires n <= 4 && |x| == 8 * n && 1 <= w <= 32 && o + w <= 8 * n && Kept(d, x, 0, n, o, w)
    ensures Or(d, Shl(v, 8 * n - (o + w)))[32 - 8 * n..] == Written(x, o, w, v)
  {
  }

  /** Writing a field over an access of `n` bytes and one byte more. */
  lemma PutOver(d: Reg, e: Reg, x: Bits, n: nat, o: nat, w: nat, v: Reg)
    requires n <= 4 && |x| == 8 * n + 8 && 1 <= w <= 32 && o < 8 && 8 * n < o + w <= 8 * n + 8
    requires Kept(d, x, 0, n, o, w) && Kept(e, x, n, 1, o, w)
    ensures Or(d, Shr(v, o + w - 8 * n))[32 - 8 * n..] + Or(e, Shl(v, 8 * n + 8 - (o + w)))[24..] == Written(x, o, w, v)
  {
    hide Shl; hide Shr; hide Or; hide Written; hide Kept;
    PutHead(d, x, n, o, w, v);
    PutTail(e, x, n, o, w, v);
  }

  lemma PutHead(d: Reg, x: Bits, n: nat, o: nat, w: nat, v: Reg)
    requires n <= 4 && |x| == 8 * n + 8 && 8 * n < o + w && Kept(d, x, 0, n, o, w)
    ensures Or(d, Shr(v, o + w - 8 * n))[32 - 8 * n..] == Written(x, o, w, v)[..8 * n]
  {
  }

  lemma PutTail(e: Reg, x: Bits, n: nat, o: nat, w: nat, v: Reg)
    requires n <= 4 && |x| == 8 * n + 8 && o + w <= 8 * n + 8 && Kept(e, x, n, 1, o, w)
    ensures Or(e, Shl(v, 8 * n + 8 - (o + w)))[24..] == Written(x, o, w, v)[8 * n..]
  {
  }

  // ---------------------------------------------------------------- the two operations

  /** `mmu060_get_rmw_bitfield`: the field stands at the top of the result, and `bdata` keeps
      the rest of its bytes. */
  method GetRmwBitfield(m: Ram, src: u32, bdata: array<Reg>, offset: int, width: nat) returns (res: Reg)
    requires bdata.Length == 2 && 1 <= width <= 32
    modifies bdata
    ensures var o := offset % 8; var x := Span(m, src, Bytes(o, width));
      res[..width] == GetField(x, o, width) && Held(bdata[0], bdata[1], x, o, width)
  {
    hide Shl; hide Shr; hide AndNot; hide Or; hide Kept; hide Span; hide Widened; hide Mask; hide GetField; hide Plus;
    hide Bytes;
    var o := offset % 8;
    var mask := Mask(width);
    var tmp1, tmp2;
    BytesIs(o, width);
    match Bytes(o, width)
    case 1 =>
      GetWithin(Span(m, src, 1), 1, o, width);
      tmp1 := Widened(Span(m, src, 1));
      res := Shl(tmp1, 24 + o);
      bdata[0] := AndNot(tmp1, Shr(mask, 24 + o));
    case 2 =>
      GetWithin(Span(m, src, 2), 2, o, width);
      tmp1 := Widened(Span(m, src, 2));
      res := Shl(tmp1, 16 + o);
      bdata[0] := AndNot(tmp1, Shr(mask, 16 + o));
    case 3 =>
      SpanJoins(m, src, 2);
      GetOver3(Span(m, src, 3), o, width);
      tmp1 := Widened(Span(m, src, 2));
      tmp2 := Widened(Span(m, Plus(src, 2), 1));
      res := Shl(tmp1, 16 + o);
      bdata[0] := AndNot(tmp1, Shr(mask, 16 + o));
      res := Or(res, Shl(tmp2, 8 + o));
      bdata[1] := AndNot(tmp2, Shr(mask, 8 + o));
    case 4 =>
      GetWithin(Span(m, src, 4), 4, o, width);
      tmp1 := Widened(Span(m, src, 4));
      res := Shl(tmp1, o);
      bdata[0] := AndNot(tmp1, Shr(mask, o));
    case _ =>
      SpanJoins(m, src, 4);
      GetOver5(Span(m, src, 5), o, width);
      tmp1 := Widened(Span(m, src, 4));
      tmp2 := Widened(Span(m, Plus(src, 4), 1));
      res := Shl(tmp1, o);
      bdata[0] := AndNot(tmp1, Shr(mask, o));
      res := Or(res, Shr(tmp2, 8 - o));
      bdata[1] := AndNot(tmp2, Shl(mask, 8 - o));
  }

  /** `mmu060_put_rmw_bitfield` with what the matching read left in `bdata`, for any value. For a
      value that fits, the bytes of the field get the new field and keep all their other bits;
      no other byte is touched. */
  method PutRmwBitfield(m: Ram, dst: u32, bdata: array<Reg>, val: Reg, offset: int, width: nat) returns (k: Ram)
    requires bdata.Length == 2 && 1 <= width <= 32
    requires var o := offset % 8; Held(bdata[0], bdata[1], Span(m, dst, Bytes(o, width)), o, width)
    ensures var o := offset % 8; var n := Bytes(o, width);
      && Span(k, dst, n) == Written(Span(m, dst, n), o, width, val) && Untouched(m, k, dst, n)
      && (Below(val, width) ==> Span(k, dst, n) == PutField(Span(m, dst, n), o, val[32 - width..]))
  {
    hide Shl; hide Shr; hide Or; hide Kept; hide Span; hide PutField; hide Below; hide Written; hide Untouched;
    hide Held; hide Bytes;
    var o := offset % 8;
    var end, n := o + width, Bytes(o, width);
    BytesIs(o, width);
    ghost var x := Span(m, dst, n);
    WrittenBelow(x, o, width, val);
    HeldIs(bdata[0], bdata[1], x, o, width);
    match n
    case 1 => k := PutOne(m, dst, 1, bdata[0], val, o, width);
    case 2 => k := PutOne(m, dst, 2, bdata[0], val, o, width);
    case 3 => k := PutTwo(m, dst, 2, bdata[0], bdata[1], val, o, width);
    case 4 => k := PutOne(m, dst, 4, bdata[0], val, o, width);
    case _ => k := PutTwo(m, dst, 4, bdata[0], bdata[1], val, o, width);
  }

  lemma HeldIs(d0: Reg, d1: Reg, x: Bits, o: nat, w: nat)
    requires o < 8 && 1 <= w <= 32 && |x| == 8 * Bytes(o, w) && Held(d0, d1, x, o, w)
    ensures var n := Bytes(o, w);
      && (n == 1 || n == 2 || n == 4 ==> Kept(d0, x, 0, n, o, w))
      && (n == 3 ==> Kept(d0, x, 0, 2, o, w) && Kept(d1, x, 2, 1, o, w))
      && (n == 5 ==> Kept(d0, x, 0, 4, o, w) && Kept(d1, x, 4, 1, o, w))
  {
    hide Kept;
  }

  /** A field in one access of `n` bytes: its bits are shifted to the end of the field and ORed to
      what was kept. */
  method PutOne(m: Ram, dst: u32, n: nat, d: Reg, val: Reg, o: nat, w: nat) returns (k: Ram)
    requires 1 <= n <= 4 && 1 <= w <= 32 && o + w <= 8 * n && Kept(d, Span(m, dst, n), 0, n, o, w)
    ensures Span(k, dst, n) == Written(Span(m, dst, n), o, w, val) && Untouched(m, k, dst, n)
  {
    hide Shl; hide Or; hide Kept; hide Span; hide Written; hide Untouched;
    PutWithin(d, Span(m, dst, n), n, o, w, val);
    k := Write(m, dst, n, Or(d, Shl(val, 8 * n - (o + w))));
  }

  /** A field in an access of `n` bytes and one byte more. */
  method PutTwo(m: Ram, dst: u32, n: nat, d: Reg, e: Reg, val: Reg, o: nat, w: nat) returns (k: Ram)
    requires 1 <= n <= 4 && 1 <= w <= 32 && o < 8 && 8 * n < o + w <= 8 * n + 8
    requires var x := Span(m, dst, n + 1); Kept(d, x, 0, n, o, w) && Kept(e, x, n, 1, o, w)
    ensures Span(k, dst, n + 1) == Written(Span(m, dst, n + 1), o, w, val) && Untouched(m, k, dst, n + 1)
  {
    hide Shl; hide Shr; hide Or; hide Kept; hide Span; hide Written; hide Untouched;
    PutOver(d, e, Span(m, dst, n + 1), n, o, w, val);
    k := Write(m, dst, n, Or(d, Shr(val, o + w - 8 * n)));
    k := WriteNext(k, dst, n, Or(e, Shl(val, 8 * n + 8 - (o + w))), m);
  }

  /** A field written is the field read afterwards, for every offset, width and value. */
  method WriteThenRead(m: Ram, a: u32, val: Reg, offset: int, width: nat) returns (k: Ram, v: Reg)
    requires 1 <= width <= 32 && Below(val, width)
    ensures v == val
    ensures var n := Bytes(offset % 8, width);
      Untouched(m, k, a, n) && Span(k, a, n) == PutField(Span(m, a, n), offset % 8, val[32 - width..])
  {
    hide Span; hide Untouched; hide Held;
    var bdata := new Reg[2](_ => Zeros(32));
    var old0 := GetRmwBitfield(m, a, bdata, offset, width);
    k := PutRmwBitfield(m, a, bdata, val, offset, width);
    var res := GetRmwBitfield(k, a, bdata, offset, width);
    v := Shr(res, 32 - width);
    ghost var n, o := Bytes(offset % 8, width), offset % 8;
    LensLaws(Span(m, a, n), o, val[32 - width..], val[32 - width..]);
    FieldValue(res, val, width);
  }

  /** Writing back the field that was read changes no byte. */
  method WriteBack(m: Ram, a: u32, offset: int, width: nat) returns (k: Ram)
    requires 1 <= width <= 32
    ensures forall b: u32 :: ByteAt(k, b) == ByteAt(m, b)
  {
    hide Span; hide Held; hide Plus; hide ByteAt;
    var bdata := new Reg[2](_ => Zeros(32));
    var res := GetRmwBitfield(m, a, bdata, offset, width);
    k := PutRmwBitfield(m, a, bdata, Shr(res, 32 - width), offset, width);
    ghost var n, o := Bytes(offset % 8, width), offset % 8;
    ghost var x := Span(m, a, n);
    assert Shr(res, 32 - width)[32 - width..] == GetField(x, o, width);
    LensLaws(x, o, GetField(x, o, width), GetField(x, o, width));
    forall b: u32 ensures ByteAt(k, b) == ByteAt(m, b) {
      if !Outside(a, n, b) {
        var i :| 0 <= i < n && Plus(a, i) == b;
        SpanBytes(m, k, a, n, i);
      }
    }
  }

  lemma FieldValue(res: Reg, val: Reg, w: nat)
    requires 1 <= w <= 32 && Below(val, w) && res[..w] == val[32 - w..]
    ensures Shr(res, 32 - w) == val
  {
    forall i | 0 <= i < 32 ensures Shr(res, 32 - w)[i] == val[i] {
      if i >= 32 - w { assert res[..w][i - (32 - w)] == val[32 - w..][i - (32 - w)]; }
    }
  }

  lemma {:induction false} SpanBytes(m: Ram, k: Ram, a: u32, n: nat, i: nat)
    requires i < n && Span(m, a, n) == Span(k, a, n)
    ensures ByteAt(m, Plus(a, i)) == ByteAt(k, Plus(a, i))
  {
    hide Plus; hide ByteAt;
    var p, q := Span(m, a, n - 1), Span(k, a, n - 1);
    var b, c := ByteAt(m, Plus(a, n - 1)), ByteAt(k, Plus(a, n - 1));
    assert p == (p + b)[..8 * (n - 1)] && q == (q + c)[..8 * (n - 1)];
    assert b == (p + b)[8 * (n - 1)..] && c == (q + c)[8 * (n - 1)..];
    if i < n - 1 { SpanBytes(m, k, a, n - 1, i); }
  }

  /** A write of `n` bytes. */
  method Write(m: Ram, a: u32, n: nat, x: Reg) returns (k: Ram)
    requires 1 <= n <= 4
    ensures Span(k, a, n) == x[32 - 8 * n..]
    ensures Untouched(m, k, a, n)
  {
    k := Deposit(m, a, n, x);
    SpanDeposit(m, a, n, x);
  }

  /** A byte written after `n` bytes already there. */
  method WriteNext(m: Ram, a: u32, n: nat, x: Reg, ghost m0: Ram) returns (k: Ram)
    requires n <= 4 && Untouched(m0, m, a, n)
    ensures Span(k, a, n + 1) == Span(m, a, n) + x[24..] && Untouched(m0, k, a, n + 1)
  {
    hide Plus; hide Span; hide Untouched;
    k := m[Plus(a, n) := x[24..]];
    OneByte(m, a, n, x[24..]);
    StillUntouched(m0, m, k, a, n);
  }

  /** One byte set after `n` others. */
  lemma OneByte(m: Ram, a: u32, n: nat, b: Octet)
    requires n <= 4
    ensures var k := m[Plus(a, n) := b]; Span(k, a, n + 1) == Span(m, a, n) + b && Changed(m, k, Plus(a, n))
  {
    var k := m[Plus(a, n) := b];
    assert Changed(m, k, Plus(a, n));
    hide Changed;
    SpanSame(m, k, a, n, n);
    SpanLast(k, a, n);
    assert ByteAt(k, Plus(a, n)) == b;
    hide Span; hide Plus;
  }

  /** At most one byte differs. */
  ghost predicate Changed(m: Ram, k: Ram, a: u32) { forall b: u32 :: b != a ==> ByteAt(k, b) == ByteAt(m, b) }

  lemma SpanLast(m: Ram, a: u32, n: nat)
    ensures Span(m, a, n + 1) == Span(m, a, n) + ByteAt(m, Plus(a, n))
  {
    hide Plus; hide ByteAt;
  }

  lemma StillUntouched(m0: Ram, m: Ram, k: Ram, a: u32, n: nat)
    requires Untouched(m0, m, a, n) && Changed(m, k, Plus(a, n))
    ensures Untouched(m0, k, a, n + 1)
  {
    hide Plus; hide ByteAt;
    forall b: u32 | Outside(a, n + 1, b) ensures ByteAt(k, b) == ByteAt(m0, b) {
      assert Plus(a, n) != b;
      assert Outside(a, n, b);
    }
  }

  lemma {:induction false} SpanSame(m: Ram, k: Ram, a: u32, n: nat, i: nat)
    requires i <= n <= 4 && Changed(m, k, Plus(a, n))
    ensures Span(k, a, i) == Span(m, a, i)
  {
    hide ByteAt; hide Plus;
    if i > 0 {
      SpanSame(m, k, a, n, i - 1);
      Distinct(a, i - 1, n);
    }
  }

  lemma Distinct(a: u32, i: nat, n: nat)
    requires i < n <= 4
    ensures Plus(a, i) != Plus(a, n)
  {
  }

  lemma {:induction false} SpanDeposit(m: Ram, a: u32, n: nat, x: Reg)
    requires n <= 4
    ensures Span(Deposit(m, a, n, x), a, n) == x[32 - 8 * n..]
    ensures Untouched(m, Deposit(m, a, n, x), a, n)
  {
    hide Plus; hide Shr; hide Span; hide Untouched; hide ByteAt;
    if n == 0 {
      NothingUntouched(m, a);
    } else {
      var y := Shr(x, 8);
      SpanDeposit(m, a, n - 1, y);
      var d := Deposit(m, a, n - 1, y);
      OneByte(d, a, n - 1, x[24..]);
      StillUntouched(m, d, Deposit(m, a, n, x), a, n - 1);
      ShiftedByte(x, n);
    }
  }

  lemma NothingUntouched(m: Ram, a: u32)
    ensures Untouched(m, m, a, 0) && Span(m, a, 0) == []
  {
  }

  lemma ShiftedByte(x: Reg, n: nat)
    requires 1 <= n <= 4
    ensures Shr(x, 8)[32 - 8 * (n - 1)..] + x[24..] == x[32 - 8 * n..]
  {
  }

  lemma SpanJoins(m: Ram, a: u32, n: nat)
    ensures Span(m, a, n + 1) == Span(m, a, n) + Span(m, Plus(a, n), 1)
    ensures Span(m, a, n + 1)[..8 * n] == Span(m, a, n) && Span(m, a, n + 1)[8 * n..] == Span(m, Plus(a, n), 1)
  {
    assert Span(m, Plus(a, n), 0) == [];
    assert Plus(Plus(a, n), 0) == Plus(a, n);
  }
}
