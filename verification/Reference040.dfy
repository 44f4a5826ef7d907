/** What the 68040/68060 reference machine says, on raw bits, and the tags and keys of the caches. */
module Reference040 {
  import opened Words
  import opened Bits
  import opened Walk040
  import opened Gate040
  import opened Path040
  import opened State040
  import opened Refine040

  /** Pages of 8K or 4K bytes. */
  function Size(c: Cfg): nat { if c.big then 0x2000 else 0x1000 }

  lemma PageOf(c: Cfg, w: Word)
    ensures Base(c, Above8(w)) == Raw(w) - Raw(w) % Size(c)
  {
    hide Raw; hide Above8;
    RawFields(w);
    var r := Raw(w);
    if c.big { Cut(r, 0x20); } else { Cut(r, 0x10); }
  }

  lemma Cut(r: u32, k: nat)
    requires k > 0
    ensures var a, n := r - r % 0x100, 0x100 * k; a - a % n == r - r % n
  {
    var a, n := r - r % 0x100, 0x100 * k;
    var q, low := r / 0x100, r % 0x100;
    DivNat(q, k);
    assert 0x100 * k * (q / k) == 0x100 * (k * (q / k));
    DivModUnique(r, n, q / k, 0x100 * (q % k) + low);
    DivModUnique(a, n, q / k, 0x100 * (q % k));
  }

  /** A translated access: a bus error when the search finds no page, when the user meets bit 7, and
      when a write meets protection on its path; else the page in bits 31-12 or 31-13 of the
      descriptor, joined with the low bits of the address. */
  lemma AccessMeans(c: Cfg, m: Mem, addr: u32, super: bool, write: bool)
    ensures var r, w := PlainAccess(c, m, addr, super, write), RootSearch(c, m, Ask(addr, super, write));
      && r.0 == w.mem
      && if w.res.Page? && (Raw(w.res.d) / 0x80 % 2 == 0 || super) && !(write && w.res.wp)
         then
           var d := Raw(w.res.d);
           r.1.Phys? && r.1.addr == d - d % Size(c) + addr % Size(c)
         else r.1 == PageFault
  {
    hide Walk; hide RootSearch; hide Raw; hide Refused; hide Physical; hide Base; hide Size;
    var q := Ask(addr, super, write);
    WalkIs(c, m, q);
    var w := Walk(c, m, q);
    RefusedMeans(w.res, q);
    if w.res.Page? {
      PageOf(c, w.res.d);
      OwnPage(c, Raw(w.res.d), addr);
    }
  }

  lemma OwnPage(c: Cfg, d: u32, addr: u32)
    ensures d % Size(c) <= d && Physical(c, d - d % Size(c), addr) == d - d % Size(c) + addr % Size(c)
  {
    hide Plus;
    if c.big { Within(d, 0x2000, 0x8_0000, addr % 0x2000); } else { Within(d, 0x1000, 0x10_0000, addr % 0x1000); }
  }

  /** The line a search leaves: the same bits. */
  lemma LineMeans(c: Cfg, tag: nat, d: Word, wp: bool)
    ensures var l, r := LineOf(c, tag, Page(d, wp)), Raw(d);
      && l.valid && l.resident && l.tag == tag && l.wp == wp && l.super == (r / 0x80 % 2 == 1)
      && l.modified == (r / 0x10 % 2 == 1) && l.global == (r / 0x400 % 2 == 1) && l.phys == r - r % Size(c)
  {
    hide Raw; hide Base; hide SuperOnly; hide Global; hide Above8; hide Above4; hide Above2;
    RawFields(d);
    HighBits(d);
    PageOf(c, d);
  }

  // ---------------------------------------------------------------- tags and keys

  /** Bits `k` and up of a number below 2 to the power of `n`. */
  lemma AndHigh(x: nat, k: nat, n: nat)
    requires k <= n && x < Pow2(n)
    ensures And(x, Band(n, k)) == x - x % Pow2(k)
  {
    hide And; hide Pow2; hide Band;
    AndBand(x, n, k);
    DivModUnique(x, Pow2(n), 0, x);
  }

  lemma BandIs(n: nat, k: nat)
    requires k <= n
    ensures Band(n, k) == Pow2(n) - Pow2(k)
  {
  }

  /** The tag: `((super ? 0x80000000 : 0) | (addr >> 1)) & 0xffff8000`, or `0xffff0000` with 8K
      pages. */
  lemma TagMeans(c: Cfg, a: u32, super: bool)
    ensures Tag(c, a, super) ==
      And((if super then 0x8000_0000 else 0) + a / 2, if c.big then 0xffff_0000 else 0xffff_8000)
  {
    hide And; hide Pow2;
    PowersOfTwo();
    var x := (if super then 0x8000_0000 else 0) + a / 2;
    AndHigh(x, 15, 32);
    AndHigh(x, 16, 32);
    BandIs(32, 15);
    BandIs(32, 16);
    TagCut(a);
  }

  lemma TagCut(a: u32)
    ensures a / 2 - a / 2 % 0x8000 == a / 0x1_0000 * 0x8000 && a / 2 - a / 2 % 0x1_0000 == a / 0x2_0000 * 0x1_0000
    ensures (0x8000_0000 + a / 2) % 0x8000 == a / 2 % 0x8000 && (0x8000_0000 + a / 2) % 0x1_0000 == a / 2 % 0x1_0000
  {
    var y := a / 2;
    DivModUnique(a, 2, y, a % 2);
    DivModUnique(a, 0x1_0000, y / 0x8000, y % 0x8000 * 2 + a % 2);
    DivModUnique(a, 0x2_0000, y / 0x1_0000, y % 0x1_0000 * 2 + a % 2);
    DivModUnique(0x8000_0000 + y, 0x8000, 0x1_0000 + y / 0x8000, y % 0x8000);
    DivModUnique(0x8000_0000 + y, 0x1_0000, 0x8000 + y / 0x1_0000, y % 0x1_0000);
  }

  /** The set: `(addr & 0x1e000) >> 13`, or `(addr & 0xf000) >> 12`. */
  lemma SetMeans(c: Cfg, a: u32)
    ensures SetIndex(c, a) == if c.big then And(a, 0x1_e000) / 0x2000 else And(a, 0xf000) / 0x1000
  {
    hide And; hide Pow2; hide Band;
    PowersOfTwo();
    AndBand(a, 17, 13);
    AndBand(a, 16, 12);
    BandIs(17, 13);
    BandIs(16, 12);
    SetCut(a);
  }

  lemma SetCut(a: u32)
    ensures (a % 0x2_0000 - a % 0x2000) / 0x2000 == a / 0x2000 % 16
    ensures (a % 0x1_0000 - a % 0x1000) / 0x1000 == a / 0x1000 % 16
  {
    var q, r := a / 0x2000, a / 0x1000;
    DivModUnique(a, 0x2_0000, q / 16, 0x2000 * (q % 16) + a % 0x2000);
    DivModUnique(a, 0x1_0000, r / 16, 0x1000 * (r % 16) + a % 0x1000);
  }

  /** The shortcut keys, and the value that no instruction key has. */
  lemma KeysMean(c: Cfg, a: u32, super: bool)
    ensures Key(c, a, super) == (a - a % Size(c)) / (Size(c) / 2) + if super then 1 else 0
    ensures InsKey(c, a, super) == a - a % Size(c) + if super then 1 else 0
    ensures NoIns(c) == Size(c) - 1
  {
    var n := Size(c);
    DivModUnique(a - a % n, n / 2, 2 * (a / n), 0);
  }

  /** The lines of a set: those of instruction pages first, 16 sets of 4 ways each. */
  lemma SlotMeans(data: bool, index: nat)
    requires index < 16
    ensures Type(data) == (if data then 1 else 0) && SetAt(data, index) == (if data then 64 else 0) + 4 * index
  {
  }

  /** MOVEC to the registers 4 to 7: ITT0, ITT1, DTT0 and DTT1. */
  lemma RegistersMean(g: Gate, t: Ttr)
    ensures WithTtr(g, 0, t) == g.(itt0 := t) && WithTtr(g, 1, t) == g.(itt1 := t)
    ensures WithTtr(g, 2, t) == g.(dtt0 := t) && WithTtr(g, 3, t) == g.(dtt1 := t)
  {
  }
}
