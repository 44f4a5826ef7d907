/** An instruction as a deterministic program of bus requests, and what it does when nothing
    faults. Indexed addressing (the 68020 extension words) is a block of its own. */
module Program030 {
  import opened Words
  import opened Bus030

  type code = n: nat | n == 2 || n == 4 witness 2

  /** One logged access: data read, data write, extension word or longword at the program
      counter (advancing it), word or longword ahead of it, and a value kept in the log. */
  datatype Req =
    | Read(a: u32, n: size)
    | Write(a: u32, n: size, v: u32)
    | Fetch(m: code)
    | Peek(o: u32, m: code)
    | Note(v: u32)

  /** Memory, program counter and the bus cycles done so far. */
  datatype World = World(mem: Bytes, pc: u32, trace: seq<Touch>)

  function Value(m: Bytes, a: u32, n: size): (r: u32)
    ensures r == Load(m, a, n)
  {
    Powers();
    Load(m, a, n)
  }

  /** A request carried out, and the value it returns. */
  function Do(q: Req, w: World): (World, u32)
  {
    match q
    case Read(a, n) => (w.(trace := w.trace + Touches(false, a, n, Count(a, n))), Value(w.mem, a, n))
    case Write(a, n, v) => (w.(mem := Store(w.mem, a, n, v), trace := w.trace + Touches(true, a, n, Count(a, n))), v)
    case Fetch(m) => (w.(pc := Plus(w.pc, m), trace := w.trace + [Ins(w.pc, m)]), Value(w.mem, w.pc, m))
    case Peek(o, m) => (w.(trace := w.trace + [Ins(Plus(w.pc, o), m)]), Value(w.mem, Plus(w.pc, o), m))
    case Note(v) => (w, v)
  }

  /** How far a request moves the program counter. */
  function Adv(q: Req): nat { if q.Fetch? then q.m else 0 }

  lemma DoPc(q: Req, w: World)
    ensures Do(q, w).0.pc == Plus(w.pc, Adv(q))
  {
  }

  // ---------------------------------------------------------------- indexed addressing

  function SignExt(v: nat, bits: nat): u32
    requires bits == 8 || bits == 16
  {
    if bits == 8 then (if v % 0x100 < 0x80 then v % 0x100 else v % 0x100 + 0xffff_ff00)
    else if v % 0x1_0000 < 0x8000 then v % 0x1_0000 else v % 0x1_0000 + 0xffff_0000
  }

  type Regs = r: seq<u32> | |r| == 16 witness seq(16, i => 0)

  /** The index operand: register, sign extension, scale. */
  function Index(dp: u32, regs: Regs): u32
  {
    var r := regs[dp / 0x1000 % 16];
    var x := if dp / 0x800 % 2 == 0 then SignExt(r, 16) else r;
    x * Pow2(dp / 0x200 % 4) % WRAP
  }

  /** Words of base and outer displacement asked for by a full extension word. */
  function BaseWords(dp: u32): nat { if dp / 0x10 % 4 == 2 then 1 else if dp / 0x10 % 4 == 3 then 2 else 0 }
  function OuterWords(dp: u32): nat { if dp % 4 == 2 then 1 else if dp % 4 == 3 then 2 else 0 }

  function Displacement(words: nat, v: u32): u32 { if words == 1 then SignExt(v, 16) else v }

  predicate Full(dp: u32) { dp / 0x100 % 2 == 1 }
  predicate PostIndexed(dp: u32) { dp / 4 % 2 == 1 }
  predicate Indirect(dp: u32) { dp % 4 != 0 }

  datatype EaAct = More(q: Req) | Ret(v: u32, adds: nat)

  /** The next step of `get_disp_ea_020`, given the values its accesses have returned so far. */
  function EaNext(base: u32, regs: Regs, h: seq<u32>): (r: EaAct)
    ensures r.More? ==> |h| < 4 && (r.q.Fetch? || r.q.Read?)
  {
    if |h| == 0 then More(Fetch(2)) else
      var dp := h[0];
      if !Full(dp) then Ret(Plus(Plus(base, SignExt(dp, 8)), Index(dp, regs)), 1)
      else EaFull(if dp / 0x80 % 2 == 1 then 0 else base, if dp / 0x40 % 2 == 1 then 0 else Index(dp, regs), dp, h)
  }

  /** The full format: base displacement, outer displacement, memory indirection. */
  function EaFull(base: u32, index: u32, dp: u32, h: seq<u32>): (r: EaAct)
    requires |h| > 0
    ensures r.More? ==> |h| < 4 && (r.q.Fetch? || r.q.Read?)
  {
    var b, o := BaseWords(dp), OuterWords(dp);
    if b > 0 && |h| == 1 then More(Fetch(2 * b)) else
      var i := if b > 0 then 2 else 1;
      var at := if b > 0 then Plus(base, Displacement(b, h[1])) else base;
      if o > 0 && |h| == i then More(Fetch(2 * o)) else
        var j := if o > 0 then i + 1 else i;
        var outer := if o > 0 then Displacement(o, h[i]) else 0;
        EaTail(at, outer, index, dp, h[j..], 1 + b + o)
  }

  /** Indexing and memory indirection; `got` holds the longword of the indirection, if read. */
  function EaTail(at: u32, outer: u32, index: u32, dp: u32, got: seq<u32>, words: nat): (r: EaAct)
    ensures r.More? ==> |got| == 0 && r.q.Read?
  {
    var pre := if PostIndexed(dp) then at else Plus(at, index);
    if Indirect(dp) && |got| == 0 then More(Read(pre, 4)) else
      var a := if Indirect(dp) then got[0] else pre;
      var post := if PostIndexed(dp) then Plus(a, index) else a;
      Ret(Plus(post, outer), words)
  }

  datatype Ea = Ea(w: World, v: u32, adds: nat)

  /** The calculation carried on from the values it has. */
  function EaFrom(base: u32, regs: Regs, h: seq<u32>, w: World): Ea
    decreases 4 - |h|
  {
    match EaNext(base, regs, h)
    case Ret(v, adds) => Ea(w, v, adds)
    case More(q) => EaFrom(base, regs, h + [Do(q, w).1], Do(q, w).0)
  }

  lemma EaFromMore(base: u32, regs: Regs, h: seq<u32>, w: World, q: Req)
    requires EaNext(base, regs, h) == More(q)
    ensures EaFrom(base, regs, h, w) == EaFrom(base, regs, h + [Do(q, w).1], Do(q, w).0)
  {
    hide EaNext; hide Do;
  }

  /** The program counter after the accesses that returned `h`. */
  function EaPc(base: u32, regs: Regs, pc: u32, h: seq<u32>): u32
  {
    if h == [] then pc else
      var k := |h| - 1;
      var a := EaNext(base, regs, h[..k]);
      Plus(EaPc(base, regs, pc, h[..k]), if a.More? then Adv(a.q) else 0)
  }

  /** `h` are values of successive accesses of one calculation. */
  predicate Along(base: u32, regs: Regs, h: seq<u32>)
  {
    forall k :: 0 <= k < |h| ==> EaNext(base, regs, h[..k]).More?
  }

  /** The extension words counted by the calculation are the ones it fetched, at most five. */
  lemma AddsIsAdvance(base: u32, regs: Regs, pc: u32, h: seq<u32>)
    requires Along(base, regs, h) && EaNext(base, regs, h).Ret?
    ensures var adds := EaNext(base, regs, h).adds; adds <= 5 && EaPc(base, regs, pc, h) == Plus(pc, 2 * adds)
  {
    EaPcSum(base, regs, pc, h);
    WordsSum(base, regs, h);
  }

  /** Words fetched by the first accesses. */
  function EaWords(base: u32, regs: Regs, h: seq<u32>): nat
  {
    if h == [] then 0 else
      var a := EaNext(base, regs, h[..|h| - 1]);
      EaWords(base, regs, h[..|h| - 1]) + if a.More? && a.q.Fetch? then a.q.m / 2 else 0
  }

  lemma {:induction false} EaPcSum(base: u32, regs: Regs, pc: u32, h: seq<u32>)
    ensures EaPc(base, regs, pc, h) == Plus(pc, 2 * EaWords(base, regs, h))
    decreases |h|
  {
    hide EaNext; hide Plus;
    if h == [] {
      PlusZero(pc);
    } else {
      var k := |h| - 1;
      EaPcSum(base, regs, pc, h[..k]);
      var a := EaNext(base, regs, h[..k]);
      PlusPlus(pc, 2 * EaWords(base, regs, h[..k]), if a.More? then Adv(a.q) else 0);
    }
  }

  lemma PlusZero(a: u32)
    ensures Plus(a, 0) == a
  {
  }

  /** Values of a finished calculation: each access returned one, and the words add up. */
  lemma WordsSum(base: u32, regs: Regs, h: seq<u32>)
    requires Along(base, regs, h) && EaNext(base, regs, h).Ret?
    ensures var adds := EaNext(base, regs, h).adds; adds <= 5 && EaWords(base, regs, h) == adds
  {
    hide Index; hide SignExt; hide Displacement; hide Plus; hide Along; hide EaWords;
    AlongStep(base, regs, h, 0); AlongStep(base, regs, h, 1); AlongStep(base, regs, h, 2); AlongStep(base, regs, h, 3);
    AlongStep(base, regs, h, 4);
    assert h[..|h|] == h;
    NoWords(base, regs);
    assert h[..0] == [];
  }

  lemma NoWords(base: u32, regs: Regs)
    ensures EaWords(base, regs, []) == 0
  {
  }

  lemma AlongStep(base: u32, regs: Regs, h: seq<u32>, k: nat)
    requires Along(base, regs, h)
    ensures k < |h| ==>
      && EaNext(base, regs, h[..k]).More?
      && EaWords(base, regs, h[..k + 1]) == EaWords(base, regs, h[..k]) +
           (if EaNext(base, regs, h[..k]).q.Fetch? then EaNext(base, regs, h[..k]).q.m / 2 else 0)
  {
    hide EaNext;
    if k < |h| { assert h[..k + 1][..k] == h[..k]; }
  }

  lemma PcStep(base: u32, regs: Regs, pc: u32, h: seq<u32>, k: nat)
    requires k < |h| && EaNext(base, regs, h[..k]).More?
    ensures EaPc(base, regs, pc, h[..k + 1]) == Plus(EaPc(base, regs, pc, h[..k]), Adv(EaNext(base, regs, h[..k]).q))
  {
    assert h[..k + 1][..k] == h[..k];
  }

  // ---------------------------------------------------------------- programs

  /** What an instruction does next: a request, an indexed address from the registers as they are
      by then (`i` tells the source operand from the destination), the end, or its last write and
      the end; the end leaves registers. */
  datatype Act =
    | Ask(q: Req)
    | Address(i: nat, base: u32, regs: Regs)
    | End(out: seq<u32>)
    | Last(a: u32, n: size, v: u32, out: seq<u32>)

  /** An instruction decides from the values returned to it so far. */
  type Prog = seq<u32> -> Act

  datatype Finish = Finish(w: World, out: seq<u32>)

  /** The instruction run from the values it has, at most `n` steps, without faults. */
  function Plain(p: Prog, h: seq<u32>, w: World, n: nat): Option<Finish>
    decreases n
  {
    if n == 0 then None else
      match p(h)
      case End(out) => Some(Finish(w, out))
      case Last(a, k, v, out) => Some(Finish(Do(Write(a, k, v), w).0, out))
      case Ask(q) => Plain(p, h + [Do(q, w).1], Do(q, w).0, n - 1)
      case Address(i, base, regs) =>
        var e := EaFrom(base, regs, [], w);
        Plain(p, h + [e.v], e.w, n - 1)
  }

  /** The log has room: at most nine accesses are in it at a time, an address calculation
      giving its own back, and each of the two address memos is used once. */
  predicate EaFits(base: u32, regs: Regs, h: seq<u32>, w: World, len: nat)
    decreases 4 - |h|
  {
    match EaNext(base, regs, h)
    case Ret(v, adds) => true
    case More(q) => len + |h| <= 8 && EaFits(base, regs, h + [Do(q, w).1], Do(q, w).0, len)
  }

  predicate Fits(p: Prog, h: seq<u32>, w: World, n: nat, len: nat, used: set<nat>)
    decreases n
  {
    n == 0 ||
      match p(h)
      case End(out) => true
      case Last(a, k, v, out) => len <= 8
      case Ask(q) => len <= 8 && Fits(p, h + [Do(q, w).1], Do(q, w).0, n - 1, len + 1, used)
      case Address(i, base, regs) =>
        var e := EaFrom(base, regs, [], w);
        i < 2 && i !in used && EaFits(base, regs, [], w, len) && Fits(p, h + [e.v], e.w, n - 1, len, used + {i})
  }
}
