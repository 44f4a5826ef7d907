/** The 68030 data bus: byte memory read and written in big-endian order, and the aligned
    pieces a misaligned access is cut into. */
module Bus030 {
  import opened Words

  type u8 = x: int | 0 <= x < 0x100

  type size = n: nat | n == 1 || n == 2 || n == 4 witness 1

  /** Addresses outside the map read as zero. */
  type Bytes = map<u32, u8>

  function At(m: Bytes, a: u32): u8 { if a in m then m[a] else 0 }

  function P256(k: nat): (r: nat)
    ensures r > 0
  {
    if k == 0 then 1 else 256 * P256(k - 1)
  }

  /** The `n` bytes at an address, most significant first. */
  function Load(m: Bytes, a: u32, n: nat): (r: nat)
    ensures r < P256(n)
  {
    if n == 0 then 0 else Load(m, a, n - 1) * 256 + At(m, Plus(a, n - 1))
  }

  /** The low `n` bytes of a value put at an address, most significant first. */
  function Store(m: Bytes, a: u32, n: nat, v: nat): Bytes
  {
    if n == 0 then m else Store(m, a, n - 1, v / 256)[Plus(a, n - 1) := v % 256]
  }

  /** `v >> 8 * k`. */
  function Top(v: nat, k: nat): (r: nat)
    ensures r <= v
  {
    if k == 0 then v else Top(v / 256, k - 1)
  }

  /** `v << 8 * k`. */
  function Lift(v: nat, k: nat): nat { if k == 0 then v else Lift(v, k - 1) * 256 }

  /** The low `n` bytes of a value. */
  function Low(v: nat, n: nat): nat { if n == 0 then 0 else Low(v / 256, n - 1) * 256 + v % 256 }

  lemma PlusPlus(a: u32, i: nat, k: nat)
    ensures Plus(Plus(a, i), k) == Plus(a, i + k)
  {
  }

  lemma PlusDiffers(a: u32, i: nat, k: nat)
    requires i < k < WRAP
    ensures Plus(a, i) != Plus(a, k)
  {
  }

  lemma {:induction false} LowMod(v: nat, n: nat)
    ensures Low(v, n) == v % P256(n)
  {
    if n > 0 {
      LowMod(v / 256, n - 1);
      LastByte(v, P256(n - 1));
    }
  }

  lemma LastByte(v: nat, p: nat)
    requires p > 0
    ensures v % (256 * p) == v / 256 % p * 256 + v % 256
  {
    hide *;
    var w := v / 256;
    var q, r := w / p, w % p;
    DivNat(w, p);
    Regroup(p, q);
    DivModUnique(v, 256 * p, q, r * 256 + v % 256);
  }

  lemma Regroup(p: int, q: int)
    ensures 256 * (p * q) == (256 * p) * q
  {
  }

  lemma {:induction false} LoadAgrees(m: Bytes, k: Bytes, a: u32, n: nat)
    requires forall i :: 0 <= i < n ==> At(m, Plus(a, i)) == At(k, Plus(a, i))
    ensures Load(m, a, n) == Load(k, a, n)
  {
    if n > 0 { LoadAgrees(m, k, a, n - 1); }
  }

  lemma {:induction false} StoreOther(m: Bytes, a: u32, n: nat, v: nat, b: u32)
    requires forall i :: 0 <= i < n ==> Plus(a, i) != b
    ensures At(Store(m, a, n, v), b) == At(m, b)
  {
    hide Plus;
    if n > 0 {
      StoreOther(m, a, n - 1, v / 256, b);
      assert Plus(a, n - 1) != b;
    }
  }

  /** What is written is read back; by StoreOther no other byte changes. */
  lemma {:induction false} LoadStore(m: Bytes, a: u32, n: nat, v: nat)
    requires n <= WRAP
    ensures Load(Store(m, a, n, v), a, n) == Low(v, n) == v % P256(n)
  {
    hide Plus; hide P256;
    LowMod(v, n);
    if n > 0 {
      LoadStore(m, a, n - 1, v / 256);
      var k := Store(m, a, n - 1, v / 256);
      var s := Store(m, a, n, v);
      forall i | 0 <= i < n - 1 ensures At(s, Plus(a, i)) == At(k, Plus(a, i)) {
        PlusDiffers(a, i, n - 1);
      }
      LoadAgrees(s, k, a, n - 1);
    }
  }

  // ---------------------------------------------------------------- pieces

  /** How many bus cycles an access takes: an odd word is two bytes, an even but misaligned
      longword two words, an odd longword a byte, a word and a byte. */
  function Count(a: u32, n: size): (r: nat)
    ensures 1 <= r <= 3
  {
    if n == 1 then 1
    else if n == 2 then (if a % 2 == 0 then 1 else 2)
    else if a % 4 == 0 then 1 else if a % 2 == 0 then 2 else 3
  }

  /** Bytes covered by the first `j` cycles. */
  function Off(a: u32, n: size, j: nat): (r: nat)
    requires j <= Count(a, n)
    ensures r <= n && (j < Count(a, n) ==> r < n) && (j > 0 ==> r > 0)
  {
    if j == 0 then 0 else if j == Count(a, n) then n
    else if n == 2 then 1 else if a % 2 == 0 then 2 else if j == 1 then 1 else 3
  }

  datatype Touch = Data(write: bool, a: u32, n: nat) | Ins(a: u32, n: nat)

  /** The first `j` bus cycles of an access. */
  function Touches(write: bool, a: u32, n: size, j: nat): seq<Touch>
    requires j <= Count(a, n)
  {
    if j == 0 then []
    else Touches(write, a, n, j - 1) + [Data(write, Plus(a, Off(a, n, j - 1)), Off(a, n, j) - Off(a, n, j - 1))]
  }

  lemma EvenSteps(a: u32)
    ensures a % 2 == 1 ==> Plus(a, 1) % 2 == 0
    ensures a % 2 == 0 ==> Plus(a, 2) % 2 == 0
    ensures Plus(a, 0) == a
  {
  }

  /** Cycle `j` of an access: a byte, an even word or an aligned longword that starts at the `j`-th
      offset and ends at the next. */
  ghost predicate Cycle(write: bool, a: u32, n: size, j: nat, t: Touch)
    requires j < Count(a, n)
  {
    && t.Data? && t.write == write && t.a == Plus(a, Off(a, n, j)) && t.n == Off(a, n, j + 1) - Off(a, n, j) && t.n > 0
    && (t.n == 1 || (t.n == 2 && t.a % 2 == 0) || (t.n == 4 && t.a % 4 == 0))
  }

  lemma CycleAligned(write: bool, a: u32, n: size, j: nat)
    requires j < Count(a, n)
    ensures var i, k := Off(a, n, j), Off(a, n, j + 1); i < k && Cycle(write, a, n, j, Data(write, Plus(a, i), k - i))
  {
    hide Plus;
    EvenSteps(a);
  }

  lemma OffEnds(a: u32, n: size)
    ensures Off(a, n, 0) == 0 && Off(a, n, Count(a, n)) == n
  {
    hide Count;
  }

  lemma TouchStep(write: bool, a: u32, n: size, j: nat)
    requires j < Count(a, n) && Off(a, n, j) < Off(a, n, j + 1)
    ensures Touches(write, a, n, j + 1) ==
      Touches(write, a, n, j) + [Data(write, Plus(a, Off(a, n, j)), Off(a, n, j + 1) - Off(a, n, j))]
  {
  }

  lemma {:induction false} TouchesAt(write: bool, a: u32, n: size, j: nat)
    requires j <= Count(a, n)
    ensures var t := Touches(write, a, n, j); |t| == j && forall i :: 0 <= i < j ==> Cycle(write, a, n, i, t[i])
  {
    hide Plus; hide Count; hide Off; hide Touches; hide Cycle;
    if j == 0 {
      NoTouches(write, a, n);
    } else {
      TouchesAt(write, a, n, j - 1);
      CycleAligned(write, a, n, j - 1);
      TouchStep(write, a, n, j - 1);
    }
  }

  lemma NoTouches(write: bool, a: u32, n: size)
    ensures Touches(write, a, n, 0) == []
  {
  }

  /** The cycles of an access cover its bytes from left to right, each once, and each cycle is
      a byte, an even word or an aligned longword. */
  lemma TouchesCover(write: bool, a: u32, n: size)
    ensures var t := Touches(write, a, n, Count(a, n));
      && |t| == Count(a, n) && (forall j :: 0 <= j < |t| ==> Cycle(write, a, n, j, t[j]))
      && Off(a, n, 0) == 0 && Off(a, n, |t|) == n
  {
    hide Plus; hide Touches; hide Count; hide Off; hide Cycle;
    TouchesAt(write, a, n, Count(a, n));
    OffEnds(a, n);
  }

  // ---------------------------------------------------------------- pieces of values

  lemma Powers()
    ensures P256(0) == 1 && P256(1) == 0x100 && P256(2) == 0x1_0000 && P256(3) == 0x100_0000 && P256(4) == WRAP
  {
  }

  /** Reading in two parts. */
  lemma {:induction false} LoadSplit(m: Bytes, a: u32, i: nat, k: nat)
    ensures Load(m, a, i + k) == Lift(Load(m, a, i), k) + Load(m, Plus(a, i), k)
  {
    hide Plus;
    if k > 0 {
      LoadSplit(m, a, i, k - 1);
      PlusPlus(a, i, k - 1);
    }
  }

  /** Writing in two parts. */
  lemma {:induction false} StoreSplit(m: Bytes, a: u32, i: nat, k: nat, v: nat)
    ensures Store(m, a, i + k, v) == Store(Store(m, a, i, Top(v, k)), Plus(a, i), k, v)
    decreases k
  {
    hide Plus;
    if k > 0 {
      StoreSplit(m, a, i, k - 1, v / 256);
      PlusPlus(a, i, k - 1);
    }
  }
}
