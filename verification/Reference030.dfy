/** What the 68030 reference machine says, on raw bits: which accesses fault, and the address of
    those that do not. And the keys and switches that the caches and PMOVE use. */
module Reference030 {
  import opened Words
  import opened Bits
  import opened Walk030
  import opened Path030
  import opened Fresh030
  import opened State030
  import opened Refine030
  import opened Mmu030

  lemma PageJoins(x: Tables, page: u32, addr: u32)
    ensures var p := Pow2(x.ps);
      p > 0 && page % p <= page && Physical(x, Base(x, page), addr) == page - page % p + addr % p
  {
    hide Pow2; hide Plus;
    Pow2Add(x.ps, 32 - x.ps);
    PowersOfTwo();
    Within(page, Pow2(x.ps), Pow2(32 - x.ps), addr % Pow2(x.ps));
  }

  /** A translated access: writes, and both halves of a locked cycle, search for writing. It faults
      when the search finds no page, when the user meets bit 8 of a long descriptor, and when one
      that searches for writing meets bit 2; the fault says read for reads and fetches. Otherwise
      the address is the page found with its low bits from the logical address. */
  lemma AccessMeans(c: Config, m: Mem, k: Kind, addr: u32, fc: fcode)
    ensures Untranslated(c, k, addr, fc) ==> PlainAccess(c, m, k, addr, fc) == (m, Phys(addr))
    ensures var write := k in {Write, GenWrite, LockRead, LockWrite};
      var r, w, p := PlainAccess(c, m, k, addr, fc), Walk(c.env, m, Query(addr, fc, write, 0)), Pow2(c.env.x.ps);
      var user := fc < 4 && exists i :: 0 <= i < |w.hops| && w.hops[i].live && w.hops[i].d.long &&
                                        Raw(w.hops[i].d.w0) / 0x100 % 2 == 1;
      var wp := write && exists i :: 0 <= i < |w.hops| && w.hops[i].live && Raw(w.hops[i].d.w0) / 4 % 2 == 1;
      !Untranslated(c, k, addr, fc) ==>
        && r.0 == w.mem
        && if !w.end.Leaf? || user || wp then r.1 == PageFault(k in {Read, GenRead, LockRead, Fetch})
           else if write && !w.end.m then r.1 == Wild
           else
             p > 0 && w.end.page % p <= w.end.page && r.1.Phys? &&
             r.1.addr == w.end.page - w.end.page % p + addr % p
  {
    hide Walk; hide Untranslated; hide Raw; hide Pow2; hide Protected; hide Denied; hide Base; hide Physical;
    var w := Walk(c.env, m, Query(addr, fc, k in {Write, GenWrite, LockRead, LockWrite}, 0));
    ProtectionMeans(w.hops, fc);
    if w.end.Leaf? { PageJoins(c.env.x, w.end.page, addr); }
  }

  lemma Eighths(n: nat, p: nat)
    requires p > 0
    ensures (n * (8 * p)) / p == n * 8
  {
    assert n * (8 * p) == p * (n * 8);
    DivModUnique(n * (8 * p), p, n * 8, 0);
  }

  /** The keys: `((addr & imask) >> (size - 3)) | fc`, `(addr & imask) | fc` and the hint slot
      `((addr & imask) >> size) & 0x1f`. */
  lemma KeysMean(x: Tables, a: u32, fc: fcode)
    ensures var p := Pow2(x.ps);
      && p > 0 && a % p <= a && Key(x, a, fc) == (a - a % p) / Pow2(x.ps - 3) + fc
      && InsKey(x, a, fc) == a - a % p + fc && HintSlot(x, a) == a / p % 32
  {
    hide Pow2;
    var p, e := Pow2(x.ps), Pow2(x.ps - 3);
    PageFacts(x, a);
    DivNat(a, p);
    EightTimes(x.ps);
    Eighths(a / p, e);
    assert p * (a / p) == a / p * (8 * e);
  }

  lemma EightTimes(ps: nat)
    requires ps >= 3
    ensures Pow2(ps) == 8 * Pow2(ps - 3)
  {
    PowDouble(ps);
    PowDouble(ps - 1);
    PowDouble(ps - 2);
  }

  /** The switches of TC. */
  lemma TcMeans(c: Config, tc: u32, x: Tables)
    ensures var d := WithTc(c, tc, x);
      && d.enabled == (Bit(tc, 31) == 1) && d.env.sre == (Bit(tc, 25) == 1) && d.env.fcl == (Bit(tc, 24) == 1)
      && d.env.x == x && d == c.(enabled := d.enabled, env := c.env.(x := x, sre := d.env.sre, fcl := d.env.fcl))
  {
    hide Bit; hide Pow2;
    BitIs(tc, 31); BitIs(tc, 25); BitIs(tc, 24);
    PowersOfTwo();
  }
}
