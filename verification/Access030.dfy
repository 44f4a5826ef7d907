/** Data accesses of the 68030 that may fault, with the progress bits of split accesses and
    their continuation after a return from the fault handler. */
module Access030 {
  import opened Words
  import opened Bus030

  /** The flags of `mmu030_state[1]`. */
  datatype Flags = Flags(disp0: bool, disp1: bool, sub0: bool, sub1: bool, sub2: bool, sub3: bool,
                         subX: bool, subL: bool, last: bool, fmovem: bool, movem1: bool, movem2: bool)

  const NOFLAGS := Flags(false, false, false, false, false, false, false, false, false, false, false, false)

  /** What the CPU remembers of a fault: whether it was a data fault (DF), the direction, the
      address and the size. */
  datatype Fault = Fault(df: bool, read: bool, a: u32, n: size)

  predicate SubClear(f: Flags) { !f.sub0 && !f.sub1 && !f.sub2 && !f.sub3 && !f.subX && !f.subL }

  /** `unalign_clear`. */
  function Cleared(f: Flags): (r: Flags)
    ensures SubClear(r) && (SubClear(f) ==> r == f)
  {
    f.(sub0 := false, sub1 := false, sub2 := false, sub3 := false, subX := false, subL := false)
  }

  /** `unalign_init`. */
  function Started(f: Flags, l: bool, l2: bool): Flags
  {
    f.(sub0 := true, subL := f.subL || l, subX := f.subX || l2)
  }

  /** Sub-accesses already done. */
  function Progress(f: Flags): nat { if !f.sub1 then 0 else if !f.sub2 then 1 else if !f.sub3 then 2 else 3 }

  /** The flags of an access in progress; `g` holds the other flags. */
  predicate Split(f: Flags, g: Flags, a: u32, n: size)
  {
    && f.sub0 && f.subL == (n == 4) && f.subX == (n == 4 && a % 2 == 1)
    && (f.sub2 ==> f.sub1) && (f.sub3 ==> f.sub2) && Cleared(f) == g
  }

  /** The first `j` cycles of a split read are done: their bytes stand at the top of the data
      buffer, and nothing else has happened. `g` and `t0` are the flags and trace before it. */
  ghost predicate Reading(a: u32, n: size, g: Flags, t0: seq<Touch>, m: Bytes, t: seq<Touch>, f: Flags, buf: u32,
                          j: nat)
    requires j <= Count(a, n)
  {
    && SubClear(g) && Split(f, g, a, n) && Progress(f) == j && t == t0 + Touches(false, a, n, j)
    && (j > 0 ==> Top(buf, n - Off(a, n, j)) == Load(m, a, Off(a, n, j)))
  }

  /** A read of `n` bytes at `a` has faulted, at the first cycle not yet done. */
  ghost predicate PendingRead(a: u32, n: size, g: Flags, t0: seq<Touch>, m: Bytes, t: seq<Touch>, f: Flags, buf: u32,
                              flt: Fault)
  {
    && flt.df && flt.read
    && if Count(a, n) == 1 then SubClear(g) && f == g && flt.a == a && flt.n == n && t == t0
       else
         var j := Progress(f);
         j < Count(a, n) && Reading(a, n, g, t0, m, t, f, buf, j) && flt.a == Plus(a, Off(a, n, j))
  }

  /** The first `j` cycles of a split write are done: their bytes are in memory, and the value
      is still in the data buffer. */
  ghost predicate Writing(a: u32, n: size, v: u32, g: Flags, m0: Bytes, t0: seq<Touch>, m: Bytes, t: seq<Touch>,
                          f: Flags, buf: u32, j: nat)
    requires j <= Count(a, n)
  {
    && SubClear(g) && Split(f, g, a, n) && Progress(f) == j && t == t0 + Touches(true, a, n, j)
    && buf == v && m == Store(m0, a, Off(a, n, j), Top(v, n - Off(a, n, j)))
  }

  ghost predicate PendingWrite(a: u32, n: size, v: u32, g: Flags, m0: Bytes, t0: seq<Touch>, m: Bytes, t: seq<Touch>,
                               f: Flags, buf: u32, flt: Fault)
  {
    && flt.df && !flt.read && buf == v
    && if Count(a, n) == 1 then SubClear(g) && f == g && flt.a == a && flt.n == n && t == t0 && m == m0
       else
         var j := Progress(f);
         j < Count(a, n) && Writing(a, n, v, g, m0, t0, m, t, f, buf, j) && flt.a == Plus(a, Off(a, n, j))
  }

  /** The flags after one more cycle. */
  function Stepped(f: Flags): Flags
  {
    if !f.sub1 then f.(sub1 := true) else if !f.sub2 then f.(sub2 := true) else f.(sub3 := true)
  }

  lemma ClearedStep(f: Flags)
    ensures Cleared(Stepped(f)) == Cleared(f)
  {
    if !f.sub1 {
      assert Cleared(f.(sub1 := true)) == Cleared(f);
    } else if !f.sub2 {
      assert Cleared(f.(sub2 := true)) == Cleared(f);
    } else {
      assert Cleared(f.(sub3 := true)) == Cleared(f);
    }
  }

  lemma SplitStep(f: Flags, g: Flags, a: u32, n: size)
    requires Split(f, g, a, n) && Progress(f) < 3
    ensures Split(Stepped(f), g, a, n) && Progress(Stepped(f)) == Progress(f) + 1
  {
    hide Cleared;
    ClearedStep(f);
  }

  lemma ReadingStarts(a: u32, n: size, g: Flags, t: seq<Touch>, m: Bytes, buf: u32)
    requires SubClear(g) && Count(a, n) > 1
    ensures Reading(a, n, g, t, m, t, Started(g, n == 4, n == 4 && a % 2 == 1), buf, 0)
  {
  }

  /** One more cycle of a split read. */
  lemma ReadingStep(a: u32, n: size, g: Flags, t0: seq<Touch>, m: Bytes, t: seq<Touch>, f: Flags, buf: u32, now: u32,
                    j: nat)
    requires j < Count(a, n) && Count(a, n) > 1 && Reading(a, n, g, t0, m, t, f, buf, j)
    requires var i, k := Off(a, n, j), Off(a, n, j + 1);
      Top(now, n - k) == (if j == 0 then 0 else Lift(Top(buf, n - i), k - i)) + Load(m, Plus(a, i), k - i)
    ensures var i, k := Off(a, n, j), Off(a, n, j + 1);
      Reading(a, n, g, t0, m, t + [Data(false, Plus(a, i), k - i)], Stepped(f), now, j + 1)
  {
    hide Plus; hide Lift; hide Load; hide Top;
    SplitStep(f, g, a, n);
    var i, k := Off(a, n, j), Off(a, n, j + 1);
    LoadSplit(m, a, i, k - i);
    if j == 0 {
      EvenSteps(a);
    }
  }

  lemma ReadingEnds(a: u32, n: size, g: Flags, t0: seq<Touch>, m: Bytes, t: seq<Touch>, f: Flags, buf: u32)
    requires Count(a, n) > 1 && Reading(a, n, g, t0, m, t, f, buf, Count(a, n))
    ensures Cleared(f) == g && buf == Load(m, a, n) && t == t0 + Touches(false, a, n, Count(a, n))
  {
    hide Load; hide Touches;
    assert Top(buf, 0) == buf;
  }

  lemma WritingStarts(a: u32, n: size, v: u32, g: Flags, t: seq<Touch>, m: Bytes)
    requires SubClear(g) && Count(a, n) > 1
    ensures Writing(a, n, v, g, m, t, m, t, Started(g, n == 4, n == 4 && a % 2 == 1), v, 0)
  {
  }

  /** One more cycle of a split write. */
  lemma WritingStep(a: u32, n: size, v: u32, g: Flags, m0: Bytes, t0: seq<Touch>, m: Bytes, t: seq<Touch>, f: Flags,
                    buf: u32, j: nat)
    requires j < Count(a, n) && Count(a, n) > 1 && Writing(a, n, v, g, m0, t0, m, t, f, buf, j)
    ensures var i, k := Off(a, n, j), Off(a, n, j + 1);
      Writing(a, n, v, g, m0, t0, Store(m, Plus(a, i), k - i, Top(v, n - k)), t + [Data(true, Plus(a, i), k - i)],
              Stepped(f), buf, j + 1)
  {
    hide Plus; hide Store; hide Top; hide Split; hide Progress; hide Stepped; hide Touches; hide Off; hide Count;
    SplitStep(f, g, a, n);
    OffStep(a, n, j);
    var i, k := Off(a, n, j), Off(a, n, j + 1);
    StoreSplit(m0, a, i, k - i, Top(v, n - k));
    TopTop(v, n - k, k - i);
    TouchStep(true, a, n, j);
  }

  lemma OffStep(a: u32, n: size, j: nat)
    requires j < Count(a, n)
    ensures Off(a, n, j) < Off(a, n, j + 1) <= n && Off(a, n, j + 1) - Off(a, n, j) in {1, 2, 4} && j < 3
  {
  }

  lemma WritingEnds(a: u32, n: size, v: u32, g: Flags, m0: Bytes, t0: seq<Touch>, m: Bytes, t: seq<Touch>, f: Flags,
                    buf: u32)
    requires Count(a, n) > 1 && Writing(a, n, v, g, m0, t0, m, t, f, buf, Count(a, n))
    ensures Cleared(f) == g && m == Store(m0, a, n, v) && t == t0 + Touches(true, a, n, Count(a, n))
  {
    hide Store; hide Touches;
  }

  lemma {:induction false} TopTop(v: nat, i: nat, k: nat)
    ensures Top(Top(v, i), k) == Top(v, i + k)
    decreases i
  {
    if i > 0 { TopTop(v / 256, i - 1, k); }
  }

  lemma Tops(v: nat)
    ensures Top(v, 0) == v && Top(v, 1) == v / 0x100 && Top(v, 2) == v / 0x1_0000 && Top(v, 3) == v / 0x100_0000
    ensures Lift(v, 0) == v && Lift(v, 1) == v * 0x100 && Lift(v, 2) == v * 0x1_0000 && Lift(v, 3) == v * 0x100_0000
  {
    assert Top(v, 2) == Top(v / 256, 1) && Top(v, 3) == Top(v / 256, 2) && Top(v / 256, 2) == Top(v / 256 / 256, 1);
    assert Lift(v, 2) == Lift(v, 1) * 256 && Lift(v, 3) == Lift(v, 2) * 256;
  }

  /** `1 << 8 * k`, for the shifts that occur. */
  function Weight(k: nat): (r: nat)
    requires k <= 3
    ensures r > 0
  {
    if k == 0 then 1 else if k == 1 then 0x100 else if k == 2 then 0x1_0000 else 0x100_0000
  }

  lemma WeightIs(k: nat)
    requires k <= 3
    ensures P256(k) == Weight(k)
  {
    Powers();
  }

  /** A buffer with `k` bytes cleared, `s` bytes from the right. */
  function Hole(buf: u32, s: nat, k: nat): (r: u32)
    requires s + k <= 3
  {
    buf - buf % Weight(s + k) + buf % Weight(s)
  }

  /** Bytes placed next to what is kept fit the buffer and extend what stands at its top. */
  lemma Fills(a: u32, n: size, j: nat, buf: u32, keep: u32, v: nat)
    requires j < Count(a, n) && Count(a, n) > 1
    requires var i, k := Off(a, n, j), Off(a, n, j + 1); var s := n - k;
      v < Weight(k - i) && if j == 0 then keep < Weight(s) else keep == Hole(buf, s, k - i)
    ensures var i, k := Off(a, n, j), Off(a, n, j + 1); var s := n - k;
      && keep + Lift(v, s) < WRAP && (keep + Lift(v, s)) % Weight(s) == keep % Weight(s)
      && Top(keep + Lift(v, s), s) == (if j == 0 then 0 else Lift(Top(buf, n - i), k - i)) + v
  {
    hide Lift; hide Top; hide Hole; hide Weight;
    var i, k := Off(a, n, j), Off(a, n, j + 1);
    var s := n - k;
    TopLift(keep, v, s);
    if j > 0 {
      HoleTop(buf, s, k - i, v);
    } else {
      LowFits(keep, s, k, v);
    }
  }

  lemma LowFits(keep: u32, s: nat, k: nat, v: nat)
    requires 0 < s && 0 < k && s + k <= 4 && keep < Weight(s) && v < Weight(k)
    ensures Top(keep, s) == 0 && keep + Lift(v, s) < WRAP && (keep + Lift(v, s)) % Weight(s) == keep % Weight(s)
  {
    hide Lift; hide Top;
    Tops(v); Tops(keep);
    if s == 1 {
      LowFitsAt(keep, 0x100, 0x100_0000, v);
    } else if s == 2 {
      LowFitsAt(keep, 0x1_0000, 0x1_0000, v);
    } else {
      LowFitsAt(keep, 0x100_0000, 0x100, v);
    }
  }

  lemma LowFitsAt(keep: nat, w: nat, u: nat, v: nat)
    requires 0 < w && keep < w && v < u && u * w == WRAP
    ensures keep / w == 0 && keep + v * w < WRAP && (keep + v * w) % w == keep % w
  {
    AddMultiple(keep, v, w);
    AddMultiple(keep, 0, w);
    DivModUnique(keep, w, 0, keep);
    assert (v + 1) * w <= u * w;
  }

  lemma AddMultiple(x: nat, v: nat, w: nat)
    requires x < w
    ensures (x + v * w) % w == x
  {
    DivModUnique(x + v * w, w, v, x);
  }

  lemma HoleTop(buf: u32, s: nat, k: nat, v: nat)
    requires (s == 0 && (k == 1 || k == 2)) || (s == 1 && k == 2)
    requires v < Weight(k)
    ensures var h := Hole(buf, s, k);
      Top(h, s) == Lift(Top(buf, s + k), k) && h + Lift(v, s) < WRAP && (h + Lift(v, s)) % Weight(s) == h % Weight(s)
  {
    hide Lift; hide Top; hide Hole;
    Tops(buf); Tops(Hole(buf, s, k)); Tops(Top(buf, s + k)); Tops(v);
    if s == 0 && k == 1 {
      LowByteHole(buf);
    } else if s == 0 {
      LowWordHole(buf);
    } else {
      MidWordHole(buf, v);
    }
  }

  lemma LowByteHole(buf: u32)
    ensures Hole(buf, 0, 1) == buf / 0x100 * 0x100 <= 0xffff_ff00
  {
  }

  lemma LowWordHole(buf: u32)
    ensures Hole(buf, 0, 2) == buf / 0x1_0000 * 0x1_0000 <= 0xffff_0000
  {
  }

  lemma MidWordHole(buf: u32, v: nat)
    requires v < 0x1_0000
    ensures var h := Hole(buf, 1, 2);
      h + v * 0x100 < WRAP && h / 0x100 == buf / 0x100_0000 * 0x1_0000 && (h + v * 0x100) % 0x100 == h % 0x100
  {
    var q, r := buf / 0x100_0000, buf % 0x100;
    assert Hole(buf, 1, 2) == q * 0x100_0000 + r <= 0xff00_00ff;
    assert Hole(buf, 1, 2) + v * 0x100 == (q * 0x1_0000 + v) * 0x100 + r;
    AddMultiple(r, q * 0x1_0000 + v, 0x100);
    AddMultiple(r, q * 0x1_0000, 0x100);
  }

  /** A buffer whose low bytes are zero has room there. */
  lemma Vacant(buf: u32, s: nat, k: nat)
    requires s + k <= 3 && buf % Weight(s + k) == 0
    ensures Hole(buf, s, k) == buf && buf % Weight(s) == 0
  {
    var w := buf / Weight(s + k);
    assert buf == Weight(s + k) * w;
    if s == 1 && k == 2 {
      AddMultiple(0, w * 0x1_0000, 0x100);
    } else if s == 1 && k == 1 {
      AddMultiple(0, w * 0x100, 0x100);
    } else if s == 2 && k == 1 {
      AddMultiple(0, w * 0x100, 0x1_0000);
    }
  }

  lemma {:induction false} TopLift(x: nat, v: nat, s: nat)
    ensures Top(x + Lift(v, s), s) == Top(x, s) + v
  {
    if s > 0 {
      assert (x + Lift(v, s)) / 256 == x / 256 + Lift(v, s - 1);
      TopLift(x / 256, v, s - 1);
    }
  }

  lemma LowByte(x: nat, y: nat)
    requires x % 0x100 == y % 0x100
    ensures Low(x, 1) == Low(y, 1)
  {
    assert Low(x / 256, 0) == 0 && Low(y / 256, 0) == 0;
  }

  lemma WordBytes(v: nat)
    ensures Low(v % 0x1_0000, 1) == Low(v, 1)
    ensures Low(v % 0x1_0000 / 0x100, 1) == Low(v / 0x100, 1)
  {
    hide Low;
    var q, r := v / 0x1_0000, v % 0x1_0000;
    assert v == q * 0x1_0000 + r;
    assert v / 0x100 == q * 0x100 + r / 0x100;
    AddMultiple(r / 0x100, q, 0x100);
    LowByte(v % 0x1_0000 / 0x100, v / 0x100);
    assert v == q * 0x100 * 0x100 + r;
    assert v / 0x100 * 0x100 == v - v % 0x100;
    AddMultiple(r % 0x100, q * 0x100 + r / 0x100, 0x100);
    LowByte(v % 0x1_0000, v);
  }

  /** Where the cycles of the three kinds of split access begin. */
  lemma OddParts(a: u32)
    requires a % 2 == 1
    ensures Count(a, 4) == 3 && Off(a, 4, 0) == 0 && Off(a, 4, 1) == 1 && Off(a, 4, 2) == 3 && Off(a, 4, 3) == 4
  {
  }

  lemma EvenParts(a: u32)
    requires a % 4 == 2
    ensures Count(a, 4) == 2 && Off(a, 4, 0) == 0 && Off(a, 4, 1) == 2 && Off(a, 4, 2) == 4
  {
  }

  lemma WordParts(a: u32)
    requires a % 2 == 1
    ensures Count(a, 2) == 2 && Off(a, 2, 0) == 0 && Off(a, 2, 1) == 1 && Off(a, 2, 2) == 2
  {
  }

  lemma HalfParts(a: u32, n: size)
    requires Count(a, n) == 2
    ensures (n == 2 || n == 4) && Off(a, n, 0) == 0 && Off(a, n, 1) == n / 2 && Off(a, n, 2) == n
  {
  }

  lemma OddSteps(a: u32)
    ensures Plus(Plus(a, 1), 2) == Plus(a, 3)
  {
  }

  lemma OneTouch(write: bool, a: u32, n: size)
    requires Count(a, n) == 1
    ensures Touches(write, a, n, 1) == [Data(write, a, n)]
  {
  }

  /** What the progress bits of a faulted access say. */
  lemma Whence(a: u32, n: size, g: Flags, t0: seq<Touch>, m: Bytes, t: seq<Touch>, f: Flags, buf: u32, flt: Fault)
    requires Count(a, n) > 1 && PendingRead(a, n, g, t0, m, t, f, buf, flt)
    ensures Split(f, g, a, n) && Progress(f) < Count(a, n) && Reading(a, n, g, t0, m, t, f, buf, Progress(f)) &&
            flt.a == Plus(a, Off(a, n, Progress(f)))
  {
  }

  /** The flags tell the three kinds of split access apart. */
  lemma Kinds(f: Flags, g: Flags, a: u32, n: size)
    requires Count(a, n) > 1 && Split(f, g, a, n)
    ensures f.subL && f.subX ==> n == 4 && a % 2 == 1 && Count(a, n) == 3
    ensures f.subL && !f.subX ==> n == 4 && a % 4 == 2 && Count(a, n) == 2
    ensures !f.subL ==> n == 2 && a % 2 == 1 && Count(a, n) == 2
  {
  }

  lemma Shape(a: u32, n: size, g: Flags, t0: seq<Touch>, m: Bytes, t: seq<Touch>, f: Flags, buf: u32, j: nat)
    requires j <= Count(a, n) && Reading(a, n, g, t0, m, t, f, buf, j)
    ensures Split(f, g, a, n) && Progress(f) == j
  {
  }

  lemma WhenceW(a: u32, n: size, v: u32, g: Flags, m0: Bytes, t0: seq<Touch>, m: Bytes, t: seq<Touch>, f: Flags,
                buf: u32, flt: Fault)
    requires Count(a, n) > 1 && PendingWrite(a, n, v, g, m0, t0, m, t, f, buf, flt)
    ensures Split(f, g, a, n) && Progress(f) < Count(a, n) && Writing(a, n, v, g, m0, t0, m, t, f, buf, Progress(f)) &&
            flt.a == Plus(a, Off(a, n, Progress(f)))
    ensures buf == v
  {
  }

  lemma ShapeW(a: u32, n: size, v: u32, g: Flags, m0: Bytes, t0: seq<Touch>, m: Bytes, t: seq<Touch>, f: Flags,
               buf: u32, j: nat)
    requires j <= Count(a, n) && Writing(a, n, v, g, m0, t0, m, t, f, buf, j)
    ensures Split(f, g, a, n) && Progress(f) == j && buf == v
  {
  }

  lemma ByteOnTop(buf: u32, b: nat)
    requires buf / 0x100 == b < 0x100
    ensures Hole(buf, 0, 1) % 0x1_0000 == Hole(buf, 0, 1)
  {
    hide Hole;
    LowByteHole(buf);
    DivModUnique(b * 0x100, 0x1_0000, 0, b * 0x100);
  }

  /** A half-read word holds one byte above the byte still to come. */
  lemma WordTop(a: u32, g: Flags, t0: seq<Touch>, m: Bytes, t: seq<Touch>, f: Flags, buf: u32)
    requires a % 2 == 1 && Progress(f) < 2 && Reading(a, 2, g, t0, m, t, f, buf, Progress(f))
    ensures f.sub1 ==> Hole(buf, 0, 1) % 0x1_0000 == Hole(buf, 0, 1)
  {
    if Progress(f) == 1 {
      WordParts(a);
      ByteOnTop(buf, Load(m, a, 1)) by { LoadBounds(m, a); Tops(buf); }
      hide Reading; hide Load; hide Hole;
    }
  }

  lemma LoadBounds(m: Bytes, a: u32)
    ensures Load(m, a, 1) < 0x100 && Load(m, a, 2) < 0x1_0000 && Load(m, a, 4) < WRAP
  {
    Powers();
  }

  /** Only the low bytes of a value are written. */
  lemma {:induction false} StoreLow(m: Bytes, a: u32, n: nat, v: nat)
    ensures Store(m, a, n, v) == Store(m, a, n, Low(v, n))
  {
    hide Plus;
    if n > 0 {
      var l := Low(v / 256, n - 1);
      StoreLow(m, a, n - 1, v / 256);
      DivModUnique(l * 256 + v % 256, 256, l, v % 256);
      assert Low(v, n) == l * 256 + v % 256;
      hide Low;
    }
  }

  class Bus {
    var mem: Bytes
    var f: Flags          // mmu030_state[1]
    var buf: u32          // mmu030_data_buffer_out
    var flt: Fault
    var fate: seq<bool>   // which of the coming bus cycles fault
    ghost var trace: seq<Touch>

    constructor (m: Bytes, faults: seq<bool>)
      ensures mem == m && fate == faults && f == NOFLAGS && trace == []
    {
      mem, f, buf, flt, fate, trace := m, NOFLAGS, 0, Fault(false, true, 0, 1), faults, [];
    }

    /** Whether the next bus cycle goes through. */
    method Cycle(read: bool, a: u32, n: size) returns (ok: bool)
      modifies this`fate, this`flt
      ensures ok ==> |fate| <= |old(fate)| && flt == old(flt)
      ensures !ok ==> |fate| < |old(fate)| && flt == Fault(true, read, a, n)
    {
      ok := fate == [] || !fate[0];
      if fate != [] { fate := fate[1..]; }
      if !ok { flt := Fault(true, read, a, n); }
    }

    /** `mmu030_get_generic`; `flag` is the size reported on a fault. */
    method GetGeneric(a: u32, n: size, flag: size) returns (ok: bool, v: u32)
      modifies this`fate, this`flt, this`trace
      ensures ok ==> |fate| <= |old(fate)| && flt == old(flt) && v == Load(mem, a, n) &&
                     trace == old(trace) + [Data(false, a, n)]
      ensures !ok ==> |fate| < |old(fate)| && flt == Fault(true, true, a, flag) && trace == old(trace)
    {
      v := 0;
      ok := Cycle(true, a, flag);
      if ok {
        LoadBounds(mem, a);
        v := Load(mem, a, n);
        trace := trace + [Data(false, a, n)];
      }
    }

    /** `mmu030_put_generic`. */
    method PutGeneric(a: u32, v: u32, n: size, flag: size) returns (ok: bool)
      modifies this`fate, this`flt, this`trace, this`mem
      ensures ok ==> |fate| <= |old(fate)| && flt == old(flt) && mem == Store(old(mem), a, n, v) &&
                     trace == old(trace) + [Data(true, a, n)]
      ensures !ok ==> |fate| < |old(fate)| && flt == Fault(true, false, a, flag) && trace == old(trace) &&
                      mem == old(mem)
    {
      ok := Cycle(false, a, flag);
      if ok {
        mem := Store(mem, a, n, v);
        trace := trace + [Data(true, a, n)];
      }
    }

    /** One cycle of a split read: its bytes go into the buffer `s` bytes from the right, next
        to what is kept there, and its progress bit is set. */
    method ReadPart(at: u32, k: size, flag: size, keep: u32, s: nat, ghost a: u32, ghost n: size, ghost g: Flags,
                    ghost t0: seq<Touch>, ghost j: nat)
      returns (ok: bool)
      requires j < Count(a, n) && Count(a, n) > 1 && at == Plus(a, Off(a, n, j)) &&
               k == Off(a, n, j + 1) - Off(a, n, j) && s == n - Off(a, n, j + 1)
      requires Reading(a, n, g, t0, mem, trace, f, buf, j)
      requires if j == 0 then keep < Weight(s) else keep == Hole(buf, s, k)
      modifies this`f, this`buf, this`fate, this`flt, this`trace
      ensures ok ==> |fate| <= |old(fate)| && Reading(a, n, g, t0, mem, trace, f, buf, j + 1)
      ensures ok && keep % Weight(s) == 0 ==> buf % Weight(s) == 0
      ensures !ok ==> |fate| < |old(fate)| && PendingRead(a, n, g, t0, mem, trace, f, buf, flt)
    {
      hide Off; hide Load; hide Touches; hide Top; hide Lift;
      var v;
      ok, v := GetGeneric(at, k, flag);
      if !ok {
        assert Progress(f) == j;
        return;
      }
      WeightIs(k);
      Fills(a, n, j, buf, keep, v);
      ReadingStep(a, n, g, t0, mem, old(trace), f, buf, keep + Lift(v, s), j);
      buf := keep + Lift(v, s);
      f := Stepped(f);
    }

    /** `mmu030_get_word_unaligned`. */
    method GetWordUnaligned(a: u32) returns (ok: bool, v: u32)
      requires a % 2 == 1 && SubClear(f)
      modifies this`f, this`buf, this`fate, this`flt, this`trace
      ensures ok ==> |fate| <= |old(fate)| && f == old(f) && v == Load(mem, a, 2) &&
                     trace == old(trace) + Touches(false, a, 2, 2)
      ensures !ok ==> |fate| < |old(fate)| && PendingRead(a, 2, old(f), old(trace), mem, trace, f, buf, flt)
    {
      hide Load; hide Touches; hide Plus; hide Reading; hide PendingRead; hide Top; hide Lift; hide Split; hide P256;
      hide Hole; hide Weight;
      EvenSteps(a);
      v := 0;
      ghost var g, t0 := f, trace;
      ReadingStarts(a, 2, g, trace, mem, buf);
      f := Started(f, false, false);
      ok := ReadPart(a, 1, 2, 0, 1, a, 2, g, t0, 0);
      if !ok { return; }
      Vacant(buf, 0, 1);
      ok := ReadPart(Plus(a, 1), 1, 1, buf, 0, a, 2, g, t0, 1);
      if !ok { return; }
      ReadingEnds(a, 2, g, t0, mem, trace, f, buf);
      f := Cleared(f);
      v := buf;
    }

    /** `mmu030_get_long_unaligned` on an even address. */
    method GetLongEven(a: u32) returns (ok: bool, v: u32)
      requires a % 4 == 2 && SubClear(f)
      modifies this`f, this`buf, this`fate, this`flt, this`trace
      ensures ok ==> |fate| <= |old(fate)| && f == old(f) && v == Load(mem, a, 4) &&
                     trace == old(trace) + Touches(false, a, 4, 2)
      ensures !ok ==> |fate| < |old(fate)| && PendingRead(a, 4, old(f), old(trace), mem, trace, f, buf, flt)
    {
      hide Load; hide Touches; hide Plus; hide Reading; hide PendingRead; hide Top; hide Lift; hide Split; hide P256;
      hide Hole; hide Weight;
      EvenSteps(a);
      v := 0;
      ghost var g, t0 := f, trace;
      ReadingStarts(a, 4, g, trace, mem, buf);
      f := Started(f, true, false);
      ok := ReadPart(a, 2, 4, 0, 2, a, 4, g, t0, 0);
      if !ok { return; }
      Vacant(buf, 0, 2);
      ok := ReadPart(Plus(a, 2), 2, 2, buf, 0, a, 4, g, t0, 1);
      if !ok { return; }
      ReadingEnds(a, 4, g, t0, mem, trace, f, buf);
      f := Cleared(f);
      v := buf;
    }

    /** `mmu030_get_long_unaligned` on an odd address. */
    method GetLongOdd(a: u32) returns (ok: bool, v: u32)
      requires a % 2 == 1 && SubClear(f)
      modifies this`f, this`buf, this`fate, this`flt, this`trace
      ensures ok ==> |fate| <= |old(fate)| && f == old(f) && v == Load(mem, a, 4) &&
                     trace == old(trace) + Touches(false, a, 4, 3)
      ensures !ok ==> |fate| < |old(fate)| && PendingRead(a, 4, old(f), old(trace), mem, trace, f, buf, flt)
    {
      hide Load; hide Touches; hide Plus; hide Reading; hide PendingRead; hide Top; hide Lift; hide Split; hide P256;
      hide Hole; hide Weight;
      hide Count; hide Off; hide Cleared;
      EvenSteps(a); OddParts(a);
      v := 0;
      ghost var g, t0 := f, trace;
      ReadingStarts(a, 4, g, trace, mem, buf);
      f := Started(f, true, true);
      ok := ReadPart(a, 1, 4, 0, 3, a, 4, g, t0, 0);
      if !ok { return; }
      Vacant(buf, 1, 2);
      ok := ReadPart(Plus(a, 1), 2, 2, buf, 1, a, 4, g, t0, 1);
      if !ok { return; }
      Vacant(buf, 0, 1);
      ok := ReadPart(Plus(a, 3), 1, 1, buf, 0, a, 4, g, t0, 2);
      if !ok { return; }
      ReadingEnds(a, 4, g, t0, mem, trace, f, buf);
      f := Cleared(f);
      v := buf;
    }

    /** The continuation of an odd longword read: byte, word, byte. */
    method ReadOnOdd(at: u32, ghost a: u32, ghost g: Flags, ghost t0: seq<Touch>) returns (ok: bool)
      requires a % 2 == 1 && PendingRead(a, 4, g, t0, mem, trace, f, buf, flt) && at == flt.a
      modifies this`f, this`buf, this`fate, this`flt, this`trace
      ensures ok ==> |fate| <= |old(fate)| && Reading(a, 4, g, t0, mem, trace, f, buf, 3)
      ensures !ok ==> |fate| < |old(fate)| && PendingRead(a, 4, g, t0, mem, trace, f, buf, flt)
    {
      Whence(a, 4, g, t0, mem, trace, f, buf, flt);
      hide Load; hide Touches; hide Plus; hide Reading; hide PendingRead; hide Top; hide Lift; hide P256;
      hide Split; hide Cleared; hide Hole; hide Count; hide Off;
      EvenSteps(a); OddSteps(a); OddParts(a);
      var addr := at;
      if !f.sub1 {
        ok := ReadPart(addr, 1, 4, buf % 0x100_0000, 3, a, 4, g, t0, 0);
        if !ok { return; }
        Shape(a, 4, g, t0, mem, trace, f, buf, 1);
        addr := Plus(addr, 1);
      }
      if !f.sub2 {
        ok := ReadPart(addr, 2, 2, Hole(buf, 1, 2), 1, a, 4, g, t0, 1);
        if !ok { return; }
        Shape(a, 4, g, t0, mem, trace, f, buf, 2);
        addr := Plus(addr, 2);
      }
      ok := ReadPart(addr, 1, 1, Hole(buf, 0, 1), 0, a, 4, g, t0, 2);
    }

    /** The continuation of an even longword read: word, word. */
    method ReadOnEven(at: u32, ghost a: u32, ghost g: Flags, ghost t0: seq<Touch>) returns (ok: bool)
      requires a % 4 == 2 && PendingRead(a, 4, g, t0, mem, trace, f, buf, flt) && at == flt.a
      modifies this`f, this`buf, this`fate, this`flt, this`trace
      ensures ok ==> |fate| <= |old(fate)| && Reading(a, 4, g, t0, mem, trace, f, buf, 2)
      ensures !ok ==> |fate| < |old(fate)| && PendingRead(a, 4, g, t0, mem, trace, f, buf, flt)
    {
      Whence(a, 4, g, t0, mem, trace, f, buf, flt);
      hide Load; hide Touches; hide Plus; hide Reading; hide PendingRead; hide Top; hide Lift; hide P256;
      hide Split; hide Cleared; hide Hole; hide Count; hide Off;
      EvenSteps(a); EvenParts(a);
      var addr := at;
      if !f.sub1 {
        ok := ReadPart(addr, 2, 4, buf % 0x1_0000, 2, a, 4, g, t0, 0);
        if !ok { return; }
        Shape(a, 4, g, t0, mem, trace, f, buf, 1);
        addr := Plus(addr, 2);
      }
      ok := ReadPart(addr, 2, 2, Hole(buf, 0, 2), 0, a, 4, g, t0, 1);
    }

    /** The continuation of an odd word read: byte, byte. */
    method ReadOnWord(at: u32, ghost a: u32, ghost g: Flags, ghost t0: seq<Touch>) returns (ok: bool)
      requires a % 2 == 1 && PendingRead(a, 2, g, t0, mem, trace, f, buf, flt) && at == flt.a
      modifies this`f, this`buf, this`fate, this`flt, this`trace
      ensures ok ==> |fate| <= |old(fate)| && Reading(a, 2, g, t0, mem, trace, f, buf, 2)
      ensures !ok ==> |fate| < |old(fate)| && PendingRead(a, 2, g, t0, mem, trace, f, buf, flt)
    {
      Whence(a, 2, g, t0, mem, trace, f, buf, flt);
      hide Load; hide Touches; hide Plus; hide Reading; hide PendingRead; hide Top; hide Lift; hide P256;
      hide Split; hide Cleared; hide Hole; hide Count; hide Off;
      EvenSteps(a); WordParts(a);
      var addr := at;
      if !f.sub1 {
        ok := ReadPart(addr, 1, 2, buf % 0x100, 1, a, 2, g, t0, 0);
        if !ok { return; }
        Shape(a, 2, g, t0, mem, trace, f, buf, 1);
        addr := Plus(addr, 1);
      }
      WordTop(a, g, t0, mem, trace, f, buf);
      ok := ReadPart(addr, 1, 1, Hole(buf, 0, 1) % 0x1_0000, 0, a, 2, g, t0, 1);
    }

    /** `mmu030_unaligned_read_continue`. */
    method UnalignedReadContinue(at: u32, ghost a: u32, ghost n: size, ghost g: Flags, ghost t0: seq<Touch>)
      returns (ok: bool)
      requires Count(a, n) > 1 && PendingRead(a, n, g, t0, mem, trace, f, buf, flt) && at == flt.a
      modifies this`f, this`buf, this`fate, this`flt, this`trace
      ensures ok ==> |fate| <= |old(fate)| && f == g && buf == Load(mem, a, n) &&
                     trace == t0 + Touches(false, a, n, Count(a, n))
      ensures !ok ==> |fate| < |old(fate)| && PendingRead(a, n, g, t0, mem, trace, f, buf, flt)
    {
      hide Load; hide Touches; hide Plus; hide Reading; hide PendingRead; hide Off; hide Progress; hide Split;
      hide Count;
      Whence(a, n, g, t0, mem, trace, f, buf, flt);
      Kinds(f, g, a, n);
      if f.subL {
        if f.subX {
          ok := ReadOnOdd(at, a, g, t0);
        } else {
          ok := ReadOnEven(at, a, g, t0);
        }
      } else {
        ok := ReadOnWord(at, a, g, t0);
      }
      if ok {
        ReadingEnds(a, n, g, t0, mem, trace, f, buf);
        f := Cleared(f);
      }
    }

    // -------------------------------------------------------------- writes

    /** One cycle of a split write. */
    method WritePart(at: u32, v: u32, k: size, flag: size, ghost val: u32, ghost a: u32, ghost n: size, ghost g: Flags,
                     ghost m0: Bytes, ghost t0: seq<Touch>, ghost j: nat)
      returns (ok: bool)
      requires j < Count(a, n) && Count(a, n) > 1 && at == Plus(a, Off(a, n, j)) && k == Off(a, n, j + 1) - Off(a, n, j)
      requires Writing(a, n, val, g, m0, t0, mem, trace, f, buf, j)
      requires Low(v, k) == Low(Top(val, n - Off(a, n, j + 1)), k)
      modifies this`f, this`fate, this`flt, this`trace, this`mem
      ensures ok ==> |fate| <= |old(fate)| && Writing(a, n, val, g, m0, t0, mem, trace, f, buf, j + 1)
      ensures !ok ==> |fate| < |old(fate)| && PendingWrite(a, n, val, g, m0, t0, mem, trace, f, buf, flt)
    {
      hide Off; hide Store; hide Touches; hide Top; hide Low;
      ok := PutGeneric(at, v, k, flag);
      if !ok {
        assert Progress(f) == j;
        return;
      }
      StoreLow(old(mem), at, k, v);
      StoreLow(old(mem), at, k, Top(val, n - Off(a, n, j + 1)));
      WritingStep(a, n, val, g, m0, t0, old(mem), old(trace), f, buf, j);
      f := Stepped(f);
    }

    /** `mmu030_put_word_unaligned`; the value is in the data buffer too. */
    method PutWordUnaligned(a: u32, val: u32) returns (ok: bool)
      requires a % 2 == 1 && SubClear(f) && buf == val
      modifies this`f, this`fate, this`flt, this`trace, this`mem
      ensures ok ==> |fate| <= |old(fate)| && f == old(f) && mem == Store(old(mem), a, 2, val) &&
                     trace == old(trace) + Touches(true, a, 2, 2)
      ensures !ok ==> |fate| < |old(fate)| &&
                      PendingWrite(a, 2, val, old(f), old(mem), old(trace), mem, trace, f, buf, flt)
    {
      hide Store; hide Touches; hide Plus; hide Writing; hide PendingWrite; hide Top; hide Low;
      EvenSteps(a); Tops(val);
      ghost var g, t0, m0 := f, trace, mem;
      WritingStarts(a, 2, val, g, trace, mem);
      f := Started(f, false, false);
      WordBytes(val);
      var w := val % 0x1_0000;
      ok := WritePart(a, w / 0x100, 1, 2, val, a, 2, g, m0, t0, 0);
      if !ok { return; }
      ok := WritePart(Plus(a, 1), w, 1, 1, val, a, 2, g, m0, t0, 1);
      if !ok { return; }
      WritingEnds(a, 2, val, g, m0, t0, mem, trace, f, buf);
      f := Cleared(f);
    }

    /** `mmu030_put_long_unaligned`. */
    method PutLongUnaligned(a: u32, val: u32) returns (ok: bool)
      requires a % 4 != 0 && SubClear(f) && buf == val
      modifies this`f, this`fate, this`flt, this`trace, this`mem
      ensures ok ==> |fate| <= |old(fate)| && f == old(f) && mem == Store(old(mem), a, 4, val) &&
                     trace == old(trace) + Touches(true, a, 4, Count(a, 4))
      ensures !ok ==> |fate| < |old(fate)| &&
                      PendingWrite(a, 4, val, old(f), old(mem), old(trace), mem, trace, f, buf, flt)
    {
      hide Store; hide Touches; hide Plus; hide Writing; hide PendingWrite; hide Top; hide Low; hide Split;
      EvenSteps(a); Tops(val);
      ghost var g, t0, m0 := f, trace, mem;
      WritingStarts(a, 4, val, g, trace, mem);
      if a % 2 == 0 {
        f := Started(f, true, false);
        ok := WritePart(a, val / 0x1_0000, 2, 4, val, a, 4, g, m0, t0, 0);
        if !ok { return; }
        ok := WritePart(Plus(a, 2), val, 2, 2, val, a, 4, g, m0, t0, 1);
        if !ok { return; }
      } else {
        f := Started(f, true, true);
        ok := WritePart(a, val / 0x100_0000, 1, 4, val, a, 4, g, m0, t0, 0);
        if !ok { return; }
        ok := WritePart(Plus(a, 1), val / 0x100, 2, 2, val, a, 4, g, m0, t0, 1);
        if !ok { return; }
        ok := WritePart(Plus(a, 3), val, 1, 1, val, a, 4, g, m0, t0, 2);
        if !ok { return; }
      }
      WritingEnds(a, 4, val, g, m0, t0, mem, trace, f, buf);
      f := Cleared(f);
    }

    /** The continuation of an odd longword write. */
    method WriteOnOdd(at: u32, ghost val: u32, ghost a: u32, ghost g: Flags, ghost m0: Bytes, ghost t0: seq<Touch>)
      returns (ok: bool)
      requires a % 2 == 1 && PendingWrite(a, 4, val, g, m0, t0, mem, trace, f, buf, flt) && at == flt.a
      modifies this`f, this`fate, this`flt, this`trace, this`mem
      ensures ok ==> |fate| <= |old(fate)| && Writing(a, 4, val, g, m0, t0, mem, trace, f, buf, 3)
      ensures !ok ==> |fate| < |old(fate)| && PendingWrite(a, 4, val, g, m0, t0, mem, trace, f, buf, flt)
    {
      WhenceW(a, 4, val, g, m0, t0, mem, trace, f, buf, flt);
      hide Store; hide Touches; hide Plus; hide Writing; hide PendingWrite; hide Top; hide Low;
      hide Split; hide Cleared; hide Count; hide Off;
      EvenSteps(a); OddSteps(a); OddParts(a); Tops(val);
      var addr := at;
      if !f.sub1 {
        ok := WritePart(addr, buf / 0x100_0000, 1, 4, val, a, 4, g, m0, t0, 0);
        if !ok { return; }
        ShapeW(a, 4, val, g, m0, t0, mem, trace, f, buf, 1);
        addr := Plus(addr, 1);
      }
      if !f.sub2 {
        ok := WritePart(addr, buf / 0x100, 2, 2, val, a, 4, g, m0, t0, 1);
        if !ok { return; }
        ShapeW(a, 4, val, g, m0, t0, mem, trace, f, buf, 2);
        addr := Plus(addr, 2);
      }
      ok := WritePart(addr, buf, 1, 1, val, a, 4, g, m0, t0, 2);
    }

    /** The continuation of an access in two halves of `k` bytes. */
    method WriteOnHalves(at: u32, k: size, ghost val: u32, ghost a: u32, ghost n: size, ghost g: Flags, ghost m0: Bytes,
                         ghost t0: seq<Touch>)
      returns (ok: bool)
      requires Count(a, n) == 2 && n == 2 * k && PendingWrite(a, n, val, g, m0, t0, mem, trace, f, buf, flt) &&
               at == flt.a
      modifies this`f, this`fate, this`flt, this`trace, this`mem
      ensures ok ==> |fate| <= |old(fate)| && Writing(a, n, val, g, m0, t0, mem, trace, f, buf, 2)
      ensures !ok ==> |fate| < |old(fate)| && PendingWrite(a, n, val, g, m0, t0, mem, trace, f, buf, flt)
    {
      hide Store; hide Touches; hide Plus; hide Writing; hide PendingWrite; hide Top; hide Low; hide Split;
      hide Cleared; hide Count; hide Off;
      WhenceW(a, n, val, g, m0, t0, mem, trace, f, buf, flt);
      EvenSteps(a); HalfParts(a, n); Tops(val);
      var addr := at;
      if !f.sub1 {
        ok := WritePart(addr, if k == 1 then buf / 0x100 else buf / 0x1_0000, k, 2 * k, val, a, n, g, m0, t0, 0);
        if !ok { return; }
        ShapeW(a, n, val, g, m0, t0, mem, trace, f, buf, 1);
        addr := Plus(addr, k);
      }
      ok := WritePart(addr, buf, k, k, val, a, n, g, m0, t0, 1);
    }

    /** `mmu030_unaligned_write_continue`. */
    method UnalignedWriteContinue(at: u32, ghost val: u32, ghost a: u32, ghost n: size, ghost g: Flags, ghost m0: Bytes,
                                  ghost t0: seq<Touch>)
      returns (ok: bool)
      requires Count(a, n) > 1 && PendingWrite(a, n, val, g, m0, t0, mem, trace, f, buf, flt) && at == flt.a
      modifies this`f, this`fate, this`flt, this`trace, this`mem
      ensures ok ==> |fate| <= |old(fate)| && f == g && mem == Store(m0, a, n, val) &&
                     trace == t0 + Touches(true, a, n, Count(a, n))
      ensures !ok ==> |fate| < |old(fate)| && PendingWrite(a, n, val, g, m0, t0, mem, trace, f, buf, flt)
    {
      hide Store; hide Touches; hide Plus; hide Writing; hide PendingWrite; hide Off; hide Progress; hide Split;
      hide Count;
      WhenceW(a, n, val, g, m0, t0, mem, trace, f, buf, flt);
      Kinds(f, g, a, n);
      if f.subL {
        if f.subX {
          ok := WriteOnOdd(at, val, a, g, m0, t0);
        } else {
          ok := WriteOnHalves(at, 2, val, a, n, g, m0, t0);
        }
      } else {
        ok := WriteOnHalves(at, 1, val, a, n, g, m0, t0);
      }
      if ok {
        WritingEnds(a, n, val, g, m0, t0, mem, trace, f, buf);
        f := Cleared(f);
      }
    }

    // -------------------------------------------------------------- whole accesses

    /** `uae_mmu030_get_byte`, `_word` and `_long`. */
    method Get(a: u32, n: size) returns (ok: bool, v: u32)
      requires SubClear(f)
      modifies this`f, this`buf, this`fate, this`flt, this`trace
      ensures ok ==> |fate| <= |old(fate)| && f == old(f) && v == Load(mem, a, n) &&
                     trace == old(trace) + Touches(false, a, n, Count(a, n))
      ensures !ok ==> |fate| < |old(fate)| && PendingRead(a, n, old(f), old(trace), mem, trace, f, buf, flt)
    {
      hide Load; hide Touches; hide Reading;
      if n == 2 && a % 2 == 1 {
        ok, v := GetWordUnaligned(a);
      } else if n == 4 && a % 4 != 0 {
        if a % 2 == 0 { ok, v := GetLongEven(a); } else { ok, v := GetLongOdd(a); }
      } else {
        OneTouch(false, a, n);
        ok, v := GetGeneric(a, n, n);
      }
    }

    /** `uae_mmu030_put_byte`, `_word` and `_long`; the value is in the data buffer too. */
    method Put(a: u32, val: u32, n: size) returns (ok: bool)
      requires SubClear(f) && buf == val
      modifies this`f, this`fate, this`flt, this`trace, this`mem
      ensures ok ==> |fate| <= |old(fate)| && f == old(f) && mem == Store(old(mem), a, n, val) &&
                     trace == old(trace) + Touches(true, a, n, Count(a, n))
      ensures !ok ==> |fate| < |old(fate)| &&
                      PendingWrite(a, n, val, old(f), old(mem), old(trace), mem, trace, f, buf, flt)
    {
      hide Store; hide Touches; hide Writing;
      if n == 2 && a % 2 == 1 {
        ok := PutWordUnaligned(a, val);
      } else if n == 4 && a % 4 != 0 {
        ok := PutLongUnaligned(a, val);
      } else {
        OneTouch(true, a, n);
        ok := PutGeneric(a, val, n, n);
      }
    }

    /** The access retried by RTE when DF is set: a read. */
    method RetryRead(ghost a: u32, ghost n: size, ghost g: Flags, ghost t0: seq<Touch>) returns (ok: bool)
      requires PendingRead(a, n, g, t0, mem, trace, f, buf, flt)
      modifies this`f, this`buf, this`fate, this`flt, this`trace
      ensures ok ==> |fate| <= |old(fate)| && f == g && buf == Load(mem, a, n) &&
                     trace == t0 + Touches(false, a, n, Count(a, n))
      ensures !ok ==> |fate| < |old(fate)| && PendingRead(a, n, g, t0, mem, trace, f, buf, flt)
    {
      hide Load; hide Touches;
      if f.sub0 {
        ok := UnalignedReadContinue(flt.a, a, n, g, t0);
      } else {
        var v;
        ok, v := Get(flt.a, flt.n);
        if ok { buf := v; }
      }
    }

    /** The access retried by RTE when DF is set: a write. */
    method RetryWrite(ghost val: u32, ghost a: u32, ghost n: size, ghost g: Flags, ghost m0: Bytes,
                      ghost t0: seq<Touch>)
      returns (ok: bool)
      requires PendingWrite(a, n, val, g, m0, t0, mem, trace, f, buf, flt)
      modifies this`f, this`fate, this`flt, this`trace, this`mem
      ensures ok ==> |fate| <= |old(fate)| && f == g && mem == Store(m0, a, n, val) &&
                     trace == t0 + Touches(true, a, n, Count(a, n))
      ensures !ok ==> |fate| < |old(fate)| && PendingWrite(a, n, val, g, m0, t0, mem, trace, f, buf, flt)
    {
      hide Store; hide Touches;
      if f.sub0 {
        ok := UnalignedWriteContinue(flt.a, val, a, n, g, m0, t0);
      } else {
        ok := Put(flt.a, buf, flt.n);
      }
    }

    // -------------------------------------------------------------- accesses with all their faults

    /** A read faulted any number of times at any of its cycles and retried until it is through:
        the big-endian value, every byte touched once and from left to right. */
    method ReadThrough(a: u32, n: size) returns (v: u32)
      requires SubClear(f)
      modifies this
      ensures v == Load(mem, a, n) && mem == old(mem) && f == old(f)
      ensures trace == old(trace) + Touches(false, a, n, Count(a, n))
    {
      hide Load; hide Touches; hide PendingRead;
      var ok;
      ok, v := Get(a, n);
      while !ok
        modifies this`f, this`buf, this`fate, this`flt, this`trace
        invariant ok ==> v == Load(mem, a, n) && f == old(f) && trace == old(trace) + Touches(false, a, n, Count(a, n))
        invariant !ok ==> PendingRead(a, n, old(f), old(trace), mem, trace, f, buf, flt)
        decreases |fate|, !ok
      {
        ok := RetryRead(a, n, old(f), old(trace));
        v := buf;
      }
    }

    /** The same for a write: memory ends as if nothing had faulted. */
    method WriteThrough(a: u32, v: u32, n: size)
      requires SubClear(f)
      modifies this
      ensures mem == Store(old(mem), a, n, v) && f == old(f)
      ensures trace == old(trace) + Touches(true, a, n, Count(a, n))
    {
      hide Store; hide Touches; hide PendingWrite;
      buf := v;
      var ok := Put(a, v, n);
      while !ok
        modifies this`f, this`fate, this`flt, this`trace, this`mem
        invariant ok ==> mem == Store(old(mem), a, n, v) && f == old(f) &&
                         trace == old(trace) + Touches(true, a, n, Count(a, n))
        invariant !ok ==> PendingWrite(a, n, v, old(f), old(mem), old(trace), mem, trace, f, buf, flt)
        decreases |fate|, !ok
      {
        ok := RetryWrite(v, a, n, old(f), old(mem), old(trace));
      }
    }
  }
}
