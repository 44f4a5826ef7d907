/** 32-bit quantities and the layout of descriptor longwords. */
module Words {

  const WRAP: int := 0x1_0000_0000

  type u32 = x: int | 0 <= x < 0x1_0000_0000
  type u24 = x: int | 0 <= x < 0x100_0000
  type u3 = x: int | 0 <= x < 8
  type u2 = x: int | 0 <= x < 4

  /** A function code, 0 to 7. */
  type fcode = u3

  /** A longword of descriptor memory, split at the bits the walkers look at:
      bits 31-8, bits 7-5, M (bit 4), U (bit 3), WP (bit 2) and the type (bits 1-0). */
  datatype Word = Word(hi: u24, mid: u3, m: bool, u: bool, wp: bool, ty: u2)

  function Flag(b: bool, weight: nat): nat { if b then weight else 0 }

  /** The value of a longword. */
  function Raw(w: Word): u32
  {
    w.hi * 0x100 + w.mid * 0x20 + Flag(w.m, 0x10) + Flag(w.u, 8) + Flag(w.wp, 4) + w.ty
  }

  /** `Raw(w) & 0xffffff00`: a page address. */
  function Above8(w: Word): u32 { w.hi * 0x100 }

  /** `Raw(w) & 0xfffffff0`: a table address. */
  function Above4(w: Word): u32 { w.hi * 0x100 + w.mid * 0x20 + Flag(w.m, 0x10) }

  /** `Raw(w) & 0xfffffffc`: the address in an indirect descriptor. */
  function Above2(w: Word): u32
  {
    w.hi * 0x100 + w.mid * 0x20 + Flag(w.m, 0x10) + Flag(w.u, 8) + Flag(w.wp, 4)
  }

  /** Addition of addresses. */
  function Plus(a: u32, b: nat): u32 { (a + b) % WRAP }

  type Mem = map<u32, Word>

  datatype Option<T> = None | Some(value: T)

  /** Bitwise and. */
  function And(x: nat, y: nat): (r: nat)
    ensures r <= x
  {
    if x == 0 || y == 0 then 0 else (x % 2) * (y % 2) + 2 * And(x / 2, y / 2)
  }

  function Pow2(k: nat): (r: nat)
    ensures r > 0
  {
    if k == 0 then 1 else 2 * Pow2(k - 1)
  }

  lemma AndUnfold(x: nat, y: nat)
    ensures And(x, y) == if x == 0 || y == 0 then 0 else (x % 2) * (y % 2) + 2 * And(x / 2, y / 2)
  {
  }

  lemma SmallMultiple(n: int, k: int)
    requires n > 0
    ensures n * k > -n ==> k >= 0
    ensures n * k < n ==> k <= 0
  {
  }

  lemma DivModUnique(x: int, n: int, a: int, r: int)
    requires n > 0 && 0 <= r < n && x == n * a + r
    ensures x / n == a && x % n == r
  {
    var k := x / n - a;
    assert n * k == r - x % n by { assert n * (x / n - a) == n * (x / n) - n * a; }
    SmallMultiple(n, k);
  }

  /** A longword is its fields, and the masks take the fields they name. */
  lemma RawFields(w: Word)
    ensures Above8(w) == Raw(w) - Raw(w) % 0x100 && Above4(w) == Raw(w) - Raw(w) % 0x10
    ensures Above2(w) == Raw(w) - Raw(w) % 4 && w.ty == Raw(w) % 4
    ensures w.wp == (Raw(w) / 4 % 2 == 1) && w.u == (Raw(w) / 8 % 2 == 1) && w.m == (Raw(w) / 0x10 % 2 == 1)
    ensures w.mid == Raw(w) / 0x20 % 8 && w.hi == Raw(w) / 0x100
  {
    var m, u, wp := Flag(w.m, 1), Flag(w.u, 1), Flag(w.wp, 1);
    var top3 := w.hi * 8 + w.mid;
    var top4 := top3 * 2 + m;
    var top5 := top4 * 2 + u;
    DivModUnique(Raw(w), 0x100, w.hi, w.mid * 0x20 + m * 0x10 + u * 8 + wp * 4 + w.ty);
    DivModUnique(Raw(w), 0x20, top3, m * 0x10 + u * 8 + wp * 4 + w.ty);
    DivModUnique(Raw(w), 0x10, top4, u * 8 + wp * 4 + w.ty);
    DivModUnique(Raw(w), 8, top5, wp * 4 + w.ty);
    DivModUnique(Raw(w), 4, top5 * 2 + wp, w.ty);
    DivModUnique(top3, 8, w.hi, w.mid);
    DivModUnique(top4, 2, top3, m);
    DivModUnique(top5, 2, top4, u);
    DivModUnique(top5 * 2 + wp, 2, top5, wp);
  }

  lemma DivNat(a: nat, n: nat)
    requires n > 0
    ensures a / n >= 0 && a == n * (a / n) + a % n && a % n <= a
    ensures (a - a % n) % n == 0 && (a - a % n) / n == a / n
  {
    SmallMultiple(n, a / n);
    assert n * (a / n) >= 0;
    DivModUnique(a - a % n, n, a / n, 0);
  }

  /** No carry out of an aligned block. */
  lemma Within(p: u32, n: nat, k: nat, i: nat)
    requires n > 0 && n * k == WRAP && i < n
    ensures 0 <= p - p % n && p - p % n + i < WRAP && Plus(p - p % n, i) == p - p % n + i
  {
    DivNat(p, n);
    var a := p / n;
    assert n * (k - a - 1) == n * k - n * a - n;
    SmallMultiple(n, k - a - 1);
    assert n * (k - a - 1) >= 0;
  }

  lemma HalfMod(x: nat, p: nat)
    requires p > 0
    ensures x % (2 * p) == 2 * ((x / 2) % p) + x % 2
  {
    var a, r := (x / 2) / p, (x / 2) % p;
    DivModUnique(x, 2 * p, a, 2 * r + x % 2) by {
      assert x == 2 * (p * a + r) + x % 2;
      assert 2 * (p * a) == (2 * p) * a;
    }
  }

  /** A mask without low bits does not see the low bits of the other operand. */
  lemma {:induction false} AndIgnoresLow(x: nat, y: nat, k: nat)
    requires y % Pow2(k) == 0
    ensures x % Pow2(k) <= x && And(x, y) == And(x - x % Pow2(k), y)
  {
    if k > 0 {
      var p := Pow2(k - 1);
      HalfMod(x, p);
      HalfMod(y, p);
      AndIgnoresLow(x / 2, y / 2, k - 1);
      var z := x - x % (2 * p);
      assert z % 2 == 0 && z / 2 == x / 2 - (x / 2) % p;
      assert y % 2 == 0;
    }
  }

  /** Two longwords that a walker cannot tell apart: equal but for the U bit,
      and for the M bit of a page descriptor. */
  predicate SameWord(v: Word, w: Word)
  {
    v.hi == w.hi && v.mid == w.mid && v.wp == w.wp && v.ty == w.ty && (v.ty != 1 ==> v.m == w.m)
  }

  /** `w` has every U and M bit that `v` has. */
  predicate Keeps(v: Word, w: Word)
  {
    (v.u ==> w.u) && (v.m ==> w.m)
  }

  /** `n` is `m` with some U and M bits set. */
  ghost predicate Ors(m: Mem, n: Mem)
  {
    && n.Keys == m.Keys
    && forall a :: a in m ==> n[a] == m[a].(u := n[a].u, m := n[a].m) && Keeps(m[a], n[a])
  }

  /** Where descriptors live. A head is the first longword of a descriptor whose U or M
      bit a walk may set; a tail is a longword a walk reads an address from without ever
      setting bits in it. */
  datatype Layout = Layout(heads: iset<u32>, tails: iset<u32>)

  ghost predicate Apart(L: Layout) { forall a :: a in L.heads ==> a !in L.tails }

  /** No head lies where writes fail. */
  ghost predicate Free(L: Layout, rom: set<u32>) { forall a :: a in L.heads ==> a !in rom }

  ghost predicate Known(L: Layout, a: u32) { a in L.heads || a in L.tails }

  /** Two memories that no walk over layout `L` can tell apart. */
  ghost predicate Alike(L: Layout, m: Mem, n: Mem)
  {
    && (forall a :: Known(L, a) ==> (a in m <==> a in n))
    && (forall a :: a in L.heads && a in m && a in n ==> SameWord(m[a], n[a]))
    && (forall a :: a in L.tails && a in m && a in n ==> m[a] == n[a])
  }

  /** `n` came from `m` by setting U and M bits only. */
  ghost predicate Grows(L: Layout, m: Mem, n: Mem)
  {
    Alike(L, m, n) && forall a :: a in L.heads && a in m && a in n ==> Keeps(m[a], n[a])
  }
}
