/** Whole runs of the 68030 MMU. */
module Trace030 {
  import opened Words
  import opened Walk030
  import opened Stable030
  import opened Fresh030
  import opened Atc030
  import opened State030
  import opened Run030
  import opened Refine030
  import opened Exits030

  /** What a program can do to the MMU. `Probe` is the access probe. `SetConfig` stands for an
      accepted PMOVE to TC, SRP, CRP, TT0 or TT1 with FD clear. `Store` is any store outside
      descriptor memory, and `Rewrite` a rebuilding of descriptor memory that ends in such a
      PMOVE. */
  datatype Op =
    | Do(k: Kind, addr: u32, fc: fcode)
    | Probe(addr: u32, fc: fcode, write: bool)
    | Load(addr: u32, fc: fcode, write: bool)
    | PFlushA
    | PFlushFc(base: nat, mask: nat)
    | PFlushPage(addr: u32, base: nat, mask: nat)
    | SetConfig(cfg: Config)
    | Store(a: u32, v: Word)
    | Rewrite(m: Mem, cfg: Config)

  function Step(s: State, op: Op): (State, Outcome)
  {
    match op
    case Do(k, addr, fc) => Access(s, k, addr, fc)
    case Probe(addr, fc, write) => CheckFc(s, addr, fc, write)
    case Load(addr, fc, write) => (PLoad(s, addr, fc, write), Done)
    case PFlushA => (FlushAll(s), Done)
    case PFlushFc(base, mask) => (FlushFc(s, base, mask), Done)
    case PFlushPage(addr, base, mask) => (FlushPageFc(s, addr, base, mask), Done)
    case SetConfig(cfg) => (Configure(s, cfg), Done)
    case Store(a, v) => (s.(mem := s.mem[a := v]), Done)
    case Rewrite(m, cfg) => (Configure(s.(mem := m), cfg), Done)
  }

  /** The MMU without ATC and page caches: registers and memory are all its state. */
  datatype Plain = Plain(cfg: Config, mem: Mem)

  function PlainStep(p: Plain, op: Op): (Plain, Outcome)
  {
    match op
    case Do(k, addr, fc) =>
      var r := PlainAccess(p.cfg, p.mem, k, addr, fc);
      (p.(mem := r.0), r.1)
    case Probe(addr, fc, write) =>
      var r := PlainProbe(p.cfg, p.mem, addr, fc, write);
      (p.(mem := r.0), r.1)
    case Load(addr, fc, write) => (p.(mem := Search(p.cfg.env, p.mem, addr, fc, write).mem), Done)
    case PFlushA => (p, Done)
    case PFlushFc(_, _) => (p, Done)
    case PFlushPage(_, _, _) => (p, Done)
    case SetConfig(cfg) => (p.(cfg := cfg), Done)
    case Store(a, v) => (p.(mem := p.mem[a := v]), Done)
    case Rewrite(m, cfg) => (Plain(cfg, m), Done)
  }

  /** The one place where the ATC shows: a probe for writing of a write-protected page that has no
      line. */
  ghost predicate Loose(s: State, op: Op) { op.Probe? && LooseProbe(s, op.addr, op.fc, op.write) }

  /** The layout of descriptor memory after an operation: only a rewrite chooses a new one. */
  ghost function After(op: Op, L: Layout, chosen: Layout): Layout { if op.Rewrite? then chosen else L }

  /** What the operating system sees to: translation is enabled only with tables laid out
      as `next` says, and no store hits descriptor memory. */
  ghost predicate Permitted(s: State, L: Layout, op: Op, next: Layout)
  {
    match op
    case Load(_, _, _) => s.cfg.enabled
    case SetConfig(cfg) => cfg.enabled ==> AllLaid(cfg.env, L, s.mem)
    case Store(a, _) => !Known(L, a)
    case Rewrite(m, cfg) => cfg.enabled ==> AllLaid(cfg.env, next, m)
    case _ => true
  }

  ghost predicate Matched(s: State, L: Layout, p: Plain)
  {
    Inv(s, L) && p.cfg == s.cfg && Alike(L, s.mem, p.mem)
  }

  lemma AlikeTransitive(L: Layout, m: Mem, n: Mem, o: Mem)
    requires Alike(L, m, n) && Alike(L, n, o)
    ensures Alike(L, m, o) && Alike(L, n, m)
  {
  }

  /** Memories that differ in U and M bits give the same outcome. */
  lemma PlainAlike(c: Config, L: Layout, m: Mem, n: Mem, k: Kind, addr: u32, fc: fcode)
    requires c.enabled ==> AllLaid(c.env, L, m)
    requires Alike(L, m, n)
    ensures var p, q := PlainAccess(c, m, k, addr, fc), PlainAccess(c, n, k, addr, fc);
      p.1 == q.1 && Alike(L, p.0, q.0)
  {
    if !Untranslated(c, k, addr, fc) {
      var q := Query(addr, fc, Writes(k), 0);
      assert Laid(c.env, L, m, addr, fc);
      WalkAlike(c.env, L, m, n, q, q);
      SameFaults(L, Walk(c.env, m, q), Walk(c.env, n, q), fc);
      RootLeaf(c.env, m, q);
      RootLeaf(c.env, n, q);
      hide Walk;
      hide Laid;
      hide AllLaid;
      hide Alike;
      hide Denied;
      hide Protected;
    }
  }

  lemma InstallAfterFlush(s: State, L: Layout, addr: u32, fc: fcode, write: bool)
    requires Inv(s, L) && s.cfg.enabled
    ensures var r := PLoad(s, addr, fc, write);
      Inv(r, L) && r.cfg == s.cfg && r.mem == Search(s.cfg.env, s.mem, addr, fc, write).mem
  {
    hide Inv; hide Walk; hide Base;
    var t := FlushPage(s, addr);
    FlushesKeep(s, L, addr, 0, 0);
    InstallKeeps(t, L, addr, fc, write);
  }

  lemma StoreKeeps(s: State, L: Layout, a: u32, v: Word)
    requires Inv(s, L) && !Known(L, a)
    ensures Inv(s.(mem := s.mem[a := v]), L)
  {
    var e, n := s.cfg.env, s.mem[a := v];
    if s.cfg.enabled {
      assert Grows(L, s.mem, n);
      AllLaidAlike(e, L, s.mem, n);
      SlotsLater(e, L, s.mem, n, s);
      forall addr: u32, fc: fcode | s.ilog == InsKey(e.x, addr, fc)
        ensures Good(e, n, addr, fc, s.iphys)
      {
        GoodLater(e, L, s.mem, n, addr, fc, s.iphys);
      }
    }
    hide Good;
    hide AllLaid;
    hide LinesOk;
    hide ReadsOk;
    hide WritesOk;
    hide Grows;
    hide Untranslated;
  }

  /** A flush of everything makes any configuration with sound tables coherent. */
  lemma ConfigureKeeps(s: State, L: Layout, cfg: Config)
    requires Unique(s.atc) && !AllRecent(s.atc)
    requires cfg.enabled ==> AllLaid(cfg.env, L, s.mem)
    ensures Inv(Configure(s, cfg), L)
  {
    hide Good; hide Fresh; hide AllLaid; hide EmptyFast;
    var r := Configure(s, cfg);
    assert forall i :: 0 <= i < SLOTS ==> r.atc[i].mru == s.atc[i].mru;
    EmptySlotsOk(cfg.env, s.mem);
    NoFetchSlot(cfg, s.mem, s.iphys);
  }

  lemma AccessStep(s: State, L: Layout, p: Plain, k: Kind, addr: u32, fc: fcode)
    requires Matched(s, L, p)
    ensures var r, q := Step(s, Do(k, addr, fc)), PlainStep(p, Do(k, addr, fc));
      (r.1 == q.1 <==> !q.1.Wild?) && (!q.1.Wild? ==> Matched(r.0, L, q.0))
  {
    hide Inv; hide Alike; hide Grows; hide AllLaid; hide Access; hide PlainAccess;
    InvLaidOut(s, L);
    AccessAgrees(s, L, k, addr, fc);
    PlainAlike(s.cfg, L, s.mem, p.mem, k, addr, fc);
    if !PlainAccess(s.cfg, p.mem, k, addr, fc).1.Wild? {
      AfterAccess(s, L, p, k, addr, fc, Access(s, k, addr, fc).0.mem);
    }
  }

  lemma ProbeStep(s: State, L: Layout, p: Plain, addr: u32, fc: fcode, write: bool)
    requires Matched(s, L, p)
    ensures var op := Probe(addr, fc, write); var r, q := Step(s, op), PlainStep(p, op);
      (r.1 == q.1 <==> !Loose(s, op) && !q.1.Wild?) && (!q.1.Wild? ==> Matched(r.0, L, q.0))
  {
    hide Inv; hide Alike; hide Grows; hide AllLaid; hide CheckFc; hide PlainAccess; hide LooseProbe;
    InvLaidOut(s, L);
    CheckFcExact(s, L, addr, fc, write);
    PlainAlike(s.cfg, L, s.mem, p.mem, Probed(write), addr, fc);
    if !PlainProbe(s.cfg, p.mem, addr, fc, write).1.Wild? {
      AfterAccess(s, L, p, Probed(write), addr, fc, CheckFc(s, addr, fc, write).0.mem);
    }
  }

  lemma LoadStep(s: State, L: Layout, p: Plain, addr: u32, fc: fcode, write: bool)
    requires Matched(s, L, p) && s.cfg.enabled
    ensures var r, q := Step(s, Load(addr, fc, write)), PlainStep(p, Load(addr, fc, write));
      r.1 == q.1 && Matched(r.0, L, q.0)
  {
    hide Inv; hide Alike; hide AllLaid; hide Walk; hide Laid; hide PLoad;
    InvLaidOut(s, L);
    InstallAfterFlush(s, L, addr, fc, write);
    LaidAt(s.cfg.env, L, s.mem, addr, fc);
    WalkAlike(s.cfg.env, L, s.mem, p.mem, Query(addr, fc, write, 0), Query(addr, fc, write, 0));
  }

  lemma InvLaidOut(s: State, L: Layout)
    requires Inv(s, L)
    ensures Unique(s.atc) && !AllRecent(s.atc)
    ensures s.cfg.enabled ==> AllLaid(s.cfg.env, L, s.mem)
  {
    hide AllLaid; hide Unique; hide AllRecent;
  }

  /** One operation: same outcome, unless it is a loose probe or a write that the reference leaves
      open; and unless it is the latter, the two machines stay matched. */
  lemma StepMatched(s: State, L: Layout, p: Plain, op: Op, chosen: Layout)
    requires Matched(s, L, p)
    requires Permitted(s, L, op, chosen) && Apart(chosen)
    ensures var r, q := Step(s, op), PlainStep(p, op);
      && (r.1 == q.1 <==> !Loose(s, op) && !q.1.Wild?)
      && (!q.1.Wild? ==> Matched(r.0, After(op, L, chosen), q.0))
  {
    hide Inv; hide AllLaid; hide Access; hide PlainAccess; hide PLoad; hide Walk; hide Unique; hide AllRecent;
    hide CheckFc; hide PlainProbe; hide LooseProbe;
    InvLaidOut(s, L);
    match op
    case Do(k, addr, fc) =>
      AccessStep(s, L, p, k, addr, fc);
    case Probe(addr, fc, write) =>
      ProbeStep(s, L, p, addr, fc, write);
    case Load(addr, fc, write) =>
      LoadStep(s, L, p, addr, fc, write);
    case PFlushA => FlushesKeep(s, L, 0, 0, 0);
    case PFlushFc(base, mask) => FlushesKeep(s, L, 0, base, mask);
    case PFlushPage(addr, base, mask) => FlushesKeep(s, L, addr, base, mask);
    case SetConfig(cfg) => ConfigureKeeps(s, L, cfg);
    case Store(a, v) => StoreKeeps(s, L, a, v);
    case Rewrite(m, cfg) => ConfigureKeeps(s.(mem := m), chosen, cfg);
  }

  lemma PlainGrows(c: Config, L: Layout, m: Mem, k: Kind, addr: u32, fc: fcode)
    requires c.enabled ==> AllLaid(c.env, L, m)
    ensures Alike(L, m, PlainAccess(c, m, k, addr, fc).0)
  {
    hide Laid; hide Walk; hide Denied; hide Protected;
    GrowsItself(L, m);
    if !Untranslated(c, k, addr, fc) {
      assert Laid(c.env, L, m, addr, fc);
      SearchGrows(c.env, L, m, addr, fc, Writes(k));
    }
  }

  /** Bits that one machine sets while looking up and the other while searching. */
  lemma AfterAccess(s: State, L: Layout, p: Plain, k: Kind, addr: u32, fc: fcode, n: Mem)
    requires Matched(s, L, p) && Grows(L, s.mem, n)
    ensures Alike(L, n, PlainAccess(s.cfg, p.mem, k, addr, fc).0)
  {
    hide Inv; hide Alike; hide PlainAccess; hide AllLaid;
    InvLaidOut(s, L);
    GrowsAlike(L, s.mem, n);
    if s.cfg.enabled { AllLaidAlike(s.cfg.env, L, s.mem, p.mem); }
    PlainGrows(s.cfg, L, p.mem, k, addr, fc);
    AlikeItself(L, n);
    AlikeTransitive(L, s.mem, n, n);
    AlikeTransitive(L, n, s.mem, p.mem);
    AlikeTransitive(L, n, p.mem, PlainAccess(s.cfg, p.mem, k, addr, fc).0);
  }

  lemma GrowsAlike(L: Layout, m: Mem, n: Mem)
    requires Grows(L, m, n)
    ensures Alike(L, m, n)
  {
  }

  // ---------------------------------------------------------------- runs

  function Outcomes(s: State, ops: seq<Op>): seq<Outcome>
    decreases |ops|
  {
    if ops == [] then [] else
      var r := Step(s, ops[0]);
      [r.1] + Outcomes(r.0, ops[1..])
  }

  function PlainOutcomes(p: Plain, ops: seq<Op>): seq<Outcome>
    decreases |ops|
  {
    if ops == [] then [] else
      var r := PlainStep(p, ops[0]);
      [r.1] + PlainOutcomes(r.0, ops[1..])
  }

  ghost predicate AllPermitted(s: State, L: Layout, ops: seq<Op>, chosen: seq<Layout>)
    requires |ops| == |chosen|
    decreases |ops|
  {
    ops == [] ||
    (&& Permitted(s, L, ops[0], chosen[0]) && Apart(chosen[0])
     && AllPermitted(Step(s, ops[0]).0, After(ops[0], L, chosen[0]), ops[1..], chosen[1..]))
  }

  /** The state in front of each operation of a run. */
  function Before(s: State, ops: seq<Op>, i: nat): State
    requires i <= |ops|
    decreases |ops|
  {
    if i == 0 then s else Before(Step(s, ops[0]).0, ops[1..], i - 1)
  }

  /** The reference has an outcome to offer for each of the first `i` operations of a run. */
  predicate Tame(p: Plain, ops: seq<Op>, i: nat)
    requires i <= |ops|
    decreases i
  {
    i == 0 || (!PlainStep(p, ops[0]).1.Wild? && Tame(PlainStep(p, ops[0]).0, ops[1..], i - 1))
  }

  /** In every run, up to and including the first write that the reference leaves open, the MMU
      with its ATC, its two data page caches and its instruction page cache gives an operation the
      outcome of an MMU that searches the tables each time, if and only if it is neither that
      write nor a loose probe. */
  lemma {:induction false} RunsDiffer(s: State, L: Layout, p: Plain, ops: seq<Op>, chosen: seq<Layout>, i: nat)
    requires |ops| == |chosen| && i < |ops|
    requires Matched(s, L, p) && AllPermitted(s, L, ops, chosen) && Tame(p, ops, i)
    ensures |Outcomes(s, ops)| == |ops| == |PlainOutcomes(p, ops)|
    ensures Outcomes(s, ops)[i] == PlainOutcomes(p, ops)[i] <==>
      !Loose(Before(s, ops, i), ops[i]) && !PlainOutcomes(p, ops)[i].Wild?
    decreases |ops|
  {
    hide Step; hide PlainStep; hide Matched; hide Permitted; hide Loose;
    StepMatched(s, L, p, ops[0], chosen[0]);
    OutcomesLength(s, p, ops);
    var t, q := Step(s, ops[0]).0, PlainStep(p, ops[0]).0;
    if i > 0 {
      RunsDiffer(t, After(ops[0], L, chosen[0]), q, ops[1..], chosen[1..], i - 1);
    }
  }

  lemma {:induction false} OutcomesLength(s: State, p: Plain, ops: seq<Op>)
    ensures |Outcomes(s, ops)| == |ops| == |PlainOutcomes(p, ops)|
    decreases |ops|
  {
    hide Step; hide PlainStep;
    if ops != [] { OutcomesLength(Step(s, ops[0]).0, PlainStep(p, ops[0]).0, ops[1..]); }
  }

  /** A run has the outcomes of the MMU without caches exactly when it has neither a loose probe
      nor a write that the reference leaves open. */
  lemma RunsAgree(s: State, L: Layout, p: Plain, ops: seq<Op>, chosen: seq<Layout>)
    requires |ops| == |chosen|
    requires Matched(s, L, p) && AllPermitted(s, L, ops, chosen)
    ensures Outcomes(s, ops) == PlainOutcomes(p, ops) <==>
      Tame(p, ops, |ops|) && forall i :: 0 <= i < |ops| ==> !Loose(Before(s, ops, i), ops[i])
  {
    hide Step; hide PlainStep; hide Matched; hide AllPermitted; hide Loose; hide Before; hide Outcomes;
    hide PlainOutcomes; hide Tame;
    OutcomesLength(s, p, ops);
    NeverWild(s, ops);
    TameMeans(p, ops, |ops|);
    if Tame(p, ops, |ops|) || Outcomes(s, ops) == PlainOutcomes(p, ops) {
      forall i | 0 <= i < |ops|
        ensures Outcomes(s, ops)[i] == PlainOutcomes(p, ops)[i] <==> !Loose(Before(s, ops, i), ops[i])
      {
        TameMeans(p, ops, i);
        RunsDiffer(s, L, p, ops, chosen, i);
      }
    }
  }

  lemma {:induction false} TameMeans(p: Plain, ops: seq<Op>, i: nat)
    requires i <= |ops|
    ensures |PlainOutcomes(p, ops)| == |ops|
    ensures Tame(p, ops, i) <==> forall j :: 0 <= j < i ==> !PlainOutcomes(p, ops)[j].Wild?
    decreases |ops|
  {
    hide PlainStep;
    if ops != [] {
      var q := PlainStep(p, ops[0]).0;
      TameMeans(q, ops[1..], if i == 0 then 0 else i - 1);
      var outs, rest := PlainOutcomes(p, ops), PlainOutcomes(q, ops[1..]);
      assert outs == [PlainStep(p, ops[0]).1] + rest;
      if i > 0 {
        assert outs[0] == PlainStep(p, ops[0]).1;
        if Tame(q, ops[1..], i - 1) && !outs[0].Wild? {
          forall j | 0 <= j < i ensures !outs[j].Wild? {
            if j > 0 { assert outs[j] == rest[j - 1]; }
          }
        }
        if forall j :: 0 <= j < i ==> !outs[j].Wild? {
          forall j | 0 <= j < i - 1 ensures !rest[j].Wild? { assert outs[j + 1] == rest[j]; }
        }
      }
    }
  }

  /** The program itself always goes on with some address or fault. */
  lemma {:induction false} NeverWild(s: State, ops: seq<Op>)
    ensures forall i :: 0 <= i < |Outcomes(s, ops)| ==> !Outcomes(s, ops)[i].Wild?
    decreases |ops|
  {
    hide Step;
    if ops != [] {
      StepNeverWild(s, ops[0]);
      NeverWild(Step(s, ops[0]).0, ops[1..]);
    }
  }

  lemma StepNeverWild(s: State, op: Op)
    ensures !Step(s, op).1.Wild?
  {
    hide Resolve; hide Key; hide InsKey; hide Untranslated; hide Install; hide FlushFast; hide FlushLines; hide AddFast;
  }

  /** The state after reset: translation off and the instruction page cache empty. A warm reset
      leaves the lines and history bits as they were, and the data page caches hold whatever
      they held. */
  ghost predicate AfterReset(s: State)
  {
    !s.cfg.enabled && s.ilog == NOKEY && Unique(s.atc) && !AllRecent(s.atc)
  }

  /** The same from reset on. */
  lemma RunsFromReset(s: State, L: Layout, ops: seq<Op>, chosen: seq<Layout>)
    requires |ops| == |chosen|
    requires AfterReset(s) && AllPermitted(s, L, ops, chosen)
    ensures var p := Plain(s.cfg, s.mem);
      Outcomes(s, ops) == PlainOutcomes(p, ops) <==>
      Tame(p, ops, |ops|) && forall i :: 0 <= i < |ops| ==> !Loose(Before(s, ops, i), ops[i])
  {
    hide Step; hide PlainStep; hide Outcomes; hide PlainOutcomes; hide AllPermitted; hide Coherent; hide Tame;
    hide Before; hide Loose;
    AlikeItself(L, s.mem);
    RunsAgree(s, L, Plain(s.cfg, s.mem), ops, chosen);
  }
}
