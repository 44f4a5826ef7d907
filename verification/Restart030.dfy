/** Instruction restart: the access log, the memo of indexed addresses, the fault frame and
    the return from it. */
module Restart030 {
  import opened Words
  import opened Program030

  const LOG: nat := 10   // MAX_MMU030_ACCESS + 1

  // ---------------------------------------------------------------- where an instruction stands

  /** A finished step: a logged access, or an indexed address. */
  datatype Entry = Got(v: u32, adv: nat) | Memo(v: u32, i: nat, adds: nat)

  /** The steps finished, and the values an address calculation under way has so far. */
  datatype Pos = Pos(hist: seq<Entry>, open: bool, inner: seq<u32>)

  function Values(hist: seq<Entry>): (r: seq<u32>)
    ensures |r| == |hist|
  {
    seq(|hist|, k requires 0 <= k < |hist| => hist[k].v)
  }

  function LogOf(hist: seq<Entry>): (r: seq<u32>)
  {
    if hist == [] then [] else
      var k := |hist| - 1;
      LogOf(hist[..k]) + if hist[k].Got? then [hist[k].v] else []
  }

  function Moved(e: Entry): nat { if e.Got? then e.adv else 2 * e.adds }

  function PcAfter(pc: u32, hist: seq<Entry>): u32
  {
    if hist == [] then pc else Plus(PcAfter(pc, hist[..|hist| - 1]), Moved(hist[|hist| - 1]))
  }

  function UsedMemos(hist: seq<Entry>): set<nat>
  {
    if hist == [] then {} else
      var e := hist[|hist| - 1];
      UsedMemos(hist[..|hist| - 1]) + if e.Memo? then {e.i} else {}
  }

  /** The entries are what the program asked for. */
  predicate Follows(p: Prog, hist: seq<Entry>)
  {
    forall k :: 0 <= k < |hist| ==>
      match p(Values(hist[..k]))
      case Ask(q) => hist[k].Got? && hist[k].adv == Adv(q) && (q.Write? ==> hist[k].v == q.v)
      case Address(i, base, _) => hist[k].Memo? && hist[k].i == i
      case End(_) => false
      case Last(_, _, _, _) => false
  }

  /** The program is at `pos` with world `w`, and running on from there without faults takes at
      most `n` more steps, has room in the log, and ends in `goal`. */
  ghost predicate Sound(p: Prog, start: u32, pos: Pos, w: World, n: nat, goal: Finish)
  {
    && Follows(p, pos.hist)
    && var h := Values(pos.hist); var len := |LogOf(pos.hist)|;
       if pos.open then
         && p(h).Address? && Along(p(h).base, p(h).regs, pos.inner) && p(h).i < 2 && p(h).i !in UsedMemos(pos.hist)
         && w.pc == EaPc(p(h).base, p(h).regs, PcAfter(start, pos.hist), pos.inner)
         && EaFits(p(h).base, p(h).regs, pos.inner, w, len) && len + |pos.inner| <= 9
         && var e := EaFrom(p(h).base, p(h).regs, pos.inner, w);
            Plain(p, h + [e.v], e.w, n) == Some(goal) && Fits(p, h + [e.v], e.w, n, len, UsedMemos(pos.hist) + {p(h).i})
       else
         && pos.inner == [] && w.pc == PcAfter(start, pos.hist) && len <= 9
         && Plain(p, h, w, n) == Some(goal) && Fits(p, h, w, n, len, UsedMemos(pos.hist))
  }

  function Logged(pos: Pos): seq<u32> { LogOf(pos.hist) + pos.inner }

  /** The request the program stands at, if it stands at one. */
  function Asked(p: Prog, pos: Pos): Option<Req>
  {
    var h := Values(pos.hist);
    match p(h)
    case Ask(q) => if pos.open then None else Some(q)
    case Address(i, base, regs) =>
      if !pos.open then None else
        (match EaNext(base, regs, pos.inner)
         case More(q) => Some(q)
         case Ret(_, _) => None)
    case _ => None
  }

  function Pushed(pos: Pos, v: u32, adv: nat): Pos
  {
    if pos.open then pos.(inner := pos.inner + [v]) else pos.(hist := pos.hist + [Got(v, adv)])
  }

  // ---------------------------------------------------------------- lemmas on positions

  lemma Grown(hist: seq<Entry>, e: Entry, pc: u32)
    ensures Values(hist + [e]) == Values(hist) + [e.v]
    ensures LogOf(hist + [e]) == LogOf(hist) + if e.Got? then [e.v] else []
    ensures PcAfter(pc, hist + [e]) == Plus(PcAfter(pc, hist), Moved(e))
    ensures UsedMemos(hist + [e]) == UsedMemos(hist) + if e.Memo? then {e.i} else {}
  {
    hide Plus;
    assert (hist + [e])[..|hist|] == hist;
  }

  lemma FollowsOn(p: Prog, hist: seq<Entry>, e: Entry)
    requires Follows(p, hist)
    requires match p(Values(hist))
      case Ask(q) => e.Got? && e.adv == Adv(q) && (q.Write? ==> e.v == q.v)
      case Address(i, base, _) => e.Memo? && e.i == i
      case End(_) => false
      case Last(_, _, _, _) => false
    ensures Follows(p, hist + [e])
  {
    var h := hist + [e];
    forall k | 0 <= k < |h| ensures
      match p(Values(h[..k]))
      case Ask(q) => h[k].Got? && h[k].adv == Adv(q) && (q.Write? ==> h[k].v == q.v)
      case Address(i, base, _) => h[k].Memo? && h[k].i == i
      case End(_) => false
      case Last(_, _, _, _) => false
    {
      assert h[..k] == hist[..k];
      if k == |hist| { assert hist[..k] == hist; }
    }
  }

  lemma AlongOn(base: u32, regs: Regs, h: seq<u32>, v: u32)
    requires Along(base, regs, h) && EaNext(base, regs, h).More?
    ensures Along(base, regs, h + [v])
    ensures forall pc :: EaPc(base, regs, pc, h + [v]) == Plus(EaPc(base, regs, pc, h), Adv(EaNext(base, regs, h).q))
  {
    hide EaNext; hide Plus;
    assert (h + [v])[..|h|] == h;
    forall k | 0 <= k < |h| + 1 ensures EaNext(base, regs, (h + [v])[..k]).More? {
      assert (h + [v])[..k] == h[..k];
      if k == |h| { assert h[..k] == h; }
    }
  }

  lemma DoWrite(q: Req, w: World)
    ensures q.Write? ==> Do(q, w).1 == q.v
  {
  }

  lemma StepInside(p: Prog, start: u32, pos: Pos, w: World, n: nat, goal: Finish, q: Req)
    requires Sound(p, start, pos, w, n, goal) && Asked(p, pos) == Some(q) && pos.open
    ensures |Logged(pos)| <= 8
    ensures var d := Do(q, w); var next := Pushed(pos, d.1, Adv(q));
      Sound(p, start, next, d.0, n, goal) && Logged(next) == Logged(pos) + [d.1]
  {
    hide Do; hide Plus; hide EaNext; hide EaFrom; hide PcAfter;
    var d, h := Do(q, w), Values(pos.hist);
    DoPc(q, w);
    AlongOn(p(h).base, p(h).regs, pos.inner, d.1);
    EaFromMore(p(h).base, p(h).regs, pos.inner, w, q);
  }

  lemma StepOutside(p: Prog, start: u32, pos: Pos, w: World, n: nat, goal: Finish, q: Req)
    requires Sound(p, start, pos, w, n, goal) && Asked(p, pos) == Some(q) && !pos.open
    ensures |Logged(pos)| <= 8 && n > 0
    ensures var d := Do(q, w); var next := Pushed(pos, d.1, Adv(q));
      Sound(p, start, next, d.0, n - 1, goal) && Logged(next) == Logged(pos) + [d.1]
  {
    hide Do; hide Plus; hide EaNext; hide EaFrom; hide PcAfter; hide EaFits; hide Along; hide EaPc;
    var d := Do(q, w);
    DoPc(q, w);
    DoWrite(q, w);
    Grown(pos.hist, Got(d.1, Adv(q)), start);
    FollowsOn(p, pos.hist, Got(d.1, Adv(q)));
    assert Logged(pos) == LogOf(pos.hist);
    assert UsedMemos(pos.hist) + {} == UsedMemos(pos.hist);
  }

  /** Finishing the request it stands at moves a program to the next position. */
  lemma SoundStep(p: Prog, start: u32, pos: Pos, w: World, n: nat, goal: Finish, q: Req)
    requires Sound(p, start, pos, w, n, goal) && Asked(p, pos) == Some(q)
    ensures |Logged(pos)| <= 8 && (!pos.open ==> n > 0)
    ensures var d := Do(q, w); var next := Pushed(pos, d.1, Adv(q));
      && Sound(p, start, next, d.0, if pos.open then n else n - 1, goal)
      && Logged(next) == Logged(pos) + [d.1]
  {
    hide Sound; hide Do; hide Asked; hide Logged; hide Pushed;
    if pos.open { StepInside(p, start, pos, w, n, goal, q); } else { StepOutside(p, start, pos, w, n, goal, q); }
  }

  /** Entering an address calculation. */
  lemma SoundOpen(p: Prog, start: u32, pos: Pos, w: World, n: nat, goal: Finish)
    requires Sound(p, start, pos, w, n, goal) && !pos.open && p(Values(pos.hist)).Address?
    ensures n > 0 && Sound(p, start, pos.(open := true), w, n - 1, goal)
  {
    hide EaNext; hide EaFrom; hide EaFits;
  }

  /** Leaving it: its accesses are forgotten, its value kept in a memo. */
  lemma SoundClose(p: Prog, start: u32, pos: Pos, w: World, n: nat, goal: Finish)
    requires Sound(p, start, pos, w, n, goal) && pos.open
    requires EaNext(p(Values(pos.hist)).base, p(Values(pos.hist)).regs, pos.inner).Ret?
    ensures var act := p(Values(pos.hist)); var r := EaNext(act.base, act.regs, pos.inner);
      && act.i < 2 && act.i !in UsedMemos(pos.hist) && r.adds <= 5
      && Sound(p, start, Pos(pos.hist + [Memo(r.v, act.i, r.adds)], false, []), w, n, goal)
  {
    var act := p(Values(pos.hist));
    var r := EaNext(act.base, act.regs, pos.inner);
    AddsIsAdvance(act.base, act.regs, PcAfter(start, pos.hist), pos.inner);
    assert EaFrom(act.base, act.regs, pos.inner, w) == Ea(w, r.v, r.adds);
    hide EaNext; hide Plus; hide EaFits; hide EaPc; hide Along;
    Grown(pos.hist, Memo(r.v, act.i, r.adds), start);
    FollowsOn(p, pos.hist, Memo(r.v, act.i, r.adds));
  }

  /** A prefix of the history accounts for a prefix of the log. */
  lemma {:induction false} LogPrefix(hist: seq<Entry>, k: nat)
    requires k <= |hist|
    ensures |LogOf(hist[..k])| <= |LogOf(hist)| && LogOf(hist)[..|LogOf(hist[..k])|] == LogOf(hist[..k])
    decreases |hist|
  {
    if k == |hist| {
      assert hist[..k] == hist;
    } else {
      var m := |hist| - 1;
      LogPrefix(hist[..m], k);
      assert hist[..m][..k] == hist[..k];
    }
  }

  /** One more entry of the history replayed. */
  lemma ReplayStep(hist: seq<Entry>, k: nat, pc: u32)
    requires k < |hist|
    ensures var e := hist[k];
      && Values(hist[..k + 1]) == Values(hist[..k]) + [e.v]
      && PcAfter(pc, hist[..k + 1]) == Plus(PcAfter(pc, hist[..k]), Moved(e))
      && LogOf(hist[..k + 1]) == LogOf(hist[..k]) + (if e.Got? then [e.v] else [])
      && (e.Got? ==> |LogOf(hist[..k])| < |LogOf(hist)| && LogOf(hist)[|LogOf(hist[..k])|] == e.v)
  {
    hide Plus; hide LogOf;
    assert hist[..k + 1] == hist[..k] + [hist[k]];
    Grown(hist[..k], hist[k], pc);
    LogPrefix(hist, k + 1);
  }
}
