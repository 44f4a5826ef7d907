/** The 68030 table search as a mathematical function: which descriptors a search passes,
    how it ends, and what it leaves in descriptor memory. */
module Walk030 {
  import opened Words

  /** Decoded translation parameters: table masks and shifts, the index of the last
      table level, and the base-two logarithm of the page size. */
  datatype Xlat = Xlat(mask: seq<nat>, shift: seq<nat>, last: nat, ps: nat)

  ghost predicate Sound(x: Xlat)
  {
    && |x.mask| == 4 && |x.shift| == 4 && x.last <= 3
    && 8 <= x.ps <= 15
    && (forall t :: 0 <= t < 4 ==> x.mask[t] % Pow2(x.ps) == 0)
  }

  type Tables = x: Xlat | Sound(x) witness Xlat([0, 0, 0, 0], [0, 0, 0, 0], 0, 8)

  /** A root pointer register: descriptor half and address half. */
  datatype Root = Root(hi: Word, lo: Word)

  /** Everything a search depends on besides memory. `sre` and `fcl` are TC bits 25 and 24;
      `rom` holds the addresses at which a write ends in a bus error. */
  datatype Env = Env(x: Tables, sre: bool, fcl: bool, srp: Root, crp: Root, rom: set<u32>)

  /** One search: level 0 fills the ATC, levels 1 to 7 are PTEST. */
  datatype Query = Query(addr: u32, fc: fcode, write: bool, level: nat)

  /** A short or long descriptor; a short one has no second longword. */
  datatype Desc = Desc(long: bool, w0: Word, w1: Word)

  /** A fetched descriptor. `live` says that its protection bits count: it is a table or
      page descriptor, not an invalid or indirect one. */
  datatype Hop = Hop(at: u32, d: Desc, live: bool)

  datatype End =
    | Leaf(page: u32, m: bool)   // page descriptor; m is its M bit as the search leaves it
    | LeafLimit(m: bool)         // early termination descriptor whose limit is violated
    | Limit                      // limit violation at a table descriptor
    | Invalid                    // invalid descriptor
    | Broken                     // bus error on a descriptor read
    | Jammed                     // bus error on a descriptor write
    | Stopped                    // PTEST level reached

  datatype Walked = Walked(mem: Mem, hops: seq<Hop>, end: End)

  const NOWORD := Word(0, 0, false, false, false, 0)

  predicate Super(fc: fcode) { fc >= 4 }

  /** Descriptor bit 8, present in long descriptors only. */
  predicate SuperOnly(d: Desc) { d.long && d.w0.hi % 2 == 1 }

  function Pointer(d: Desc): Word { if d.long then d.w1 else d.w0 }

  function Index(x: Tables, addr: u32, t: nat): nat
    requires t < 4
  {
    And(addr, x.mask[t]) / Pow2(x.shift[t])
  }

  /** Address bits covered by table levels `t` and below. */
  function Unused(x: Tables, addr: u32, t: nat): nat
    requires t <= x.last
    decreases 4 - t
  {
    And(addr, x.mask[t]) + if t < x.last then Unused(x, addr, t + 1) else 0
  }

  /** The limit field (bits 30-16) bounds the next index from above, or from below when
      bit 31 is set. */
  predicate OverLimit(d: Desc, index: nat)
  {
    d.long &&
    var limit := (d.w0.hi / 0x100) % 0x8000;
    if d.w0.hi / 0x80_0000 == 1 then index < limit else index > limit
  }

  function Fetch(m: Mem, a: u32, long: bool): Option<Desc>
  {
    if a !in m then None
    else if !long then Some(Desc(false, m[a], NOWORD))
    else if Plus(a, 4) !in m then None
    else Some(Desc(true, m[a], m[Plus(a, 4)]))
  }

  /** Size of the descriptors in the table that `d` points to. */
  predicate Wide(d: Desc) { d.w0.ty == 3 }

  function Entry(d: Desc, index: nat): u32 { Plus(Above4(Pointer(d)), index * (if Wide(d) then 8 else 4)) }

  predicate Protected(hops: seq<Hop>)
  {
    exists i :: 0 <= i < |hops| && hops[i].live && hops[i].d.w0.wp
  }

  predicate Denied(hops: seq<Hop>, fc: fcode)
  {
    !Super(fc) && exists i :: 0 <= i < |hops| && hops[i].live && SuperOnly(hops[i].d)
  }

  /** The root pointer in use, its reserved bits ignored. */
  function RootOf(e: Env, fc: fcode): Desc
  {
    var r := if e.sre && Super(fc) then e.srp else e.crp;
    Desc(true, Word(r.hi.hi - r.hi.hi % 0x100, 0, false, false, false, r.hi.ty), r.lo)
  }

  function Walk(e: Env, m: Mem, q: Query): Walked
  {
    var d := RootOf(e, q.fc);
    if d.w0.ty == 0 then Walked(m, [], Invalid)
    else if d.w0.ty == 1 then Page(e, m, q, [], d, 0, true)
    else if e.fcl then
      var a := Entry(d, q.fc);
      match Fetch(m, a, Wide(d))
      case None => Walked(m, [], Broken)
      case Some(n) =>
        if n.w0.ty == 0 then Walked(m, [Hop(a, n, false)], Invalid)
        else if n.w0.ty == 1 then Page(e, m, q, [Hop(a, n, true)], n, 0, true)
        else Table(e, m, q, [Hop(a, n, true)], n, 0)
    else Table(e, m, q, [], d, 0)
  }

  /** The U bit of the table descriptor just passed is to be set. */
  predicate MustMark(q: Query, hops: seq<Hop>, d: Desc)
  {
    |hops| > 0 && q.level == 0 && !d.w0.u && !Denied(hops, q.fc)
  }

  /** Memory after that. */
  function MarkUsed(m: Mem, q: Query, hops: seq<Hop>, d: Desc): Mem
  {
    if MustMark(q, hops, d) then m[hops[|hops| - 1].at := d.w0.(u := true)] else m
  }

  /** Continue at table level `t` from descriptor `d`, the last of `hops` (or the root). */
  function Table(e: Env, m: Mem, q: Query, hops: seq<Hop>, d: Desc, t: nat): Walked
    requires t <= e.x.last
    decreases 4 - t
  {
    var m1 := MarkUsed(m, q, hops, d);
    if MustMark(q, hops, d) && hops[|hops| - 1].at in e.rom then Walked(m, hops, Jammed)
    else if |hops| > 0 && q.level == |hops| then Walked(m1, hops, Stopped)
    else if OverLimit(d, Index(e.x, q.addr, t)) then Walked(m1, hops, Limit)
    else
      var a := Entry(d, Index(e.x, q.addr, t));
      match Fetch(m1, a, Wide(d))
      case None => Walked(m1, hops, Broken)
      case Some(n) =>
        if n.w0.ty == 0 then Walked(m1, hops + [Hop(a, n, false)], Invalid)
        else if n.w0.ty == 1 then Page(e, m1, q, hops + [Hop(a, n, true)], n, t + 1, t + 1 <= e.x.last)
        else if t + 1 <= e.x.last then Table(e, m1, q, hops + [Hop(a, n, true)], n, t + 1)
        else Indirect(e, m1, q, hops + [Hop(a, n, false)], n)
  }

  function Indirect(e: Env, m: Mem, q: Query, hops: seq<Hop>, d: Desc): Walked
  {
    if q.level == |hops| then Walked(m, hops, Stopped)
    else
      var a := Above2(Pointer(d));
      match Fetch(m, a, Wide(d))
      case None => Walked(m, hops, Broken)
      case Some(n) =>
        if n.w0.ty != 1 then Walked(m, hops + [Hop(a, n, false)], Invalid)
        else Page(e, m, q, hops + [Hop(a, n, true)], n, 4, false)
  }

  /** A page descriptor as a search leaves it. */
  function Used(q: Query, hops: seq<Hop>, d: Desc): Word
  {
    if |hops| > 0 && q.level == 0 && !Denied(hops, q.fc)
    then d.w0.(u := true, m := d.w0.m || (q.write && !Protected(hops))) else d.w0
  }

  function Page(e: Env, m: Mem, q: Query, hops: seq<Hop>, d: Desc, t: nat, early: bool): Walked
    requires early ==> t <= e.x.last
  {
    var w := Used(q, hops, d);
    var m1 := if w != d.w0 && |hops| > 0 then m[hops[|hops| - 1].at := w] else m;
    var mod := |hops| > 0 && w.m;
    if w != d.w0 && |hops| > 0 && hops[|hops| - 1].at in e.rom then Walked(m, hops, Jammed)
    else if early && (|hops| > 0 || !e.fcl) && OverLimit(d, Index(e.x, q.addr, t)) then
      Walked(m1, hops, LeafLimit(mod))
    else
      var low := if early then Unused(e.x, q.addr, t) else 0;
      Walked(m1, hops, Leaf(Plus(Above8(Pointer(d)), low), mod))
  }

  /** The status register bits a search reports, each read off the path it took. */
  datatype Status = Status(busError: bool, limit: bool, super: bool, wp: bool, invalid: bool, modified: bool)

  /** The descriptors before the last one. */
  function Earlier(hops: seq<Hop>): seq<Hop> { if hops == [] then [] else hops[..|hops| - 1] }

  /** The descriptors whose protection bits the status knows of: a failing write comes before
      those of its descriptor are added. */
  function Seen(w: Walked): seq<Hop> { if w.end.Jammed? then Earlier(w.hops) else w.hops }

  function StatusOf(w: Walked, fc: fcode): Status
  {
    Status(w.end.Broken? || w.end.Jammed?, w.end.Limit? || w.end.LeafLimit?, Denied(Seen(w), fc), Protected(Seen(w)),
           w.end.Limit? || w.end.LeafLimit? || w.end.Invalid? || w.end.Broken? || w.end.Jammed?,
           (w.end.Leaf? || w.end.LeafLimit?) && w.end.m)
  }
}
