/** The running 68030 MMU, driven by a program. */
module Machine030 {
  import opened Words
  import opened Stable030
  import opened State030
  import opened Run030
  import opened Trace030
  import opened Mmu030

  /** One operation of a program, carried out by the MMU object. */
  method Perform(u: Mmu030, op: Op) returns (o: Outcome)
    requires u.Valid()
    modifies u, u.atc, u.hint, u.rd, u.wr
    ensures u.Valid() && (u.Snapshot(), o) == Step(old(u.Snapshot()), op)
  {
    hide Access; hide PLoad; hide Configure; hide FlushAll; hide FlushFc; hide FlushPageFc;
    hide CheckFc;
    o := Done;
    match op
    case Do(k, addr, fc) =>
      match k {
        case Read => o := u.Get(addr, fc);
        case Write => o := u.Put(addr, fc);
        case Fetch => o := u.GetIns(addr, fc);
        case _ => o := u.Generic(k, addr, fc);
      }
    case Probe(addr, fc, write) => o := u.CheckAccess(addr, fc, write);
    case Load(addr, fc, write) => u.Load(addr, fc, write);
    case PFlushA => u.FlushAtcAll();
    case PFlushFc(base, mask) => u.FlushAtcFc(base, mask);
    case PFlushPage(addr, base, mask) => u.FlushAtcPageFc(addr, base, mask);
    case SetConfig(cfg) => u.FlushForConfig(cfg);
    case Store(a, v) => u.mem := u.mem[a := v];
    case Rewrite(m, cfg) =>
      u.mem := m;
      u.FlushForConfig(cfg);
  }

  /** A whole run on the MMU object, up to and including the first write that the reference leaves
      open: an operation has the outcome of an MMU without caches exactly when it is neither that
      write nor a loose probe. */
  method RunProgram(u: Mmu030, ops: seq<Op>, ghost L: Layout, ghost chosen: seq<Layout>) returns (outs: seq<Outcome>)
    requires u.Valid() && |chosen| == |ops|
    requires Inv(u.Snapshot(), L) && AllPermitted(u.Snapshot(), L, ops, chosen)
    modifies u, u.atc, u.hint, u.rd, u.wr
    ensures var s := old(u.Snapshot()); var plain := PlainOutcomes(Plain(s.cfg, s.mem), ops);
      && |outs| == |ops| == |plain|
      && forall i :: 0 <= i < |ops| && Tame(Plain(s.cfg, s.mem), ops, i) ==>
           (outs[i] == plain[i] <==> !Loose(Before(s, ops, i), ops[i]) && !plain[i].Wild?)
  {
    ghost var s := u.Snapshot();
    ghost var p := Plain(s.cfg, s.mem);
    hide Step; hide Inv; hide AllPermitted; hide Alike; hide PlainOutcomes; hide Outcomes; hide Tame; hide Loose;
    hide Before;
    AlikeItself(L, s.mem);
    OutcomesLength(s, p, ops);
    forall i | 0 <= i < |ops| && Tame(p, ops, i)
      ensures Outcomes(s, ops)[i] == PlainOutcomes(p, ops)[i] <==>
        !Loose(Before(s, ops, i), ops[i]) && !PlainOutcomes(p, ops)[i].Wild?
    {
      RunsDiffer(s, L, p, ops, chosen, i);
    }
    outs := RunOn(u, ops);
  }

  method RunOn(u: Mmu030, ops: seq<Op>) returns (outs: seq<Outcome>)
    requires u.Valid()
    modifies u, u.atc, u.hint, u.rd, u.wr
    ensures u.Valid() && outs == Outcomes(old(u.Snapshot()), ops)
    decreases |ops|
  {
    hide Step;
    if ops == [] {
      return [];
    }
    var o := Perform(u, ops[0]);
    var rest := RunOn(u, ops[1..]);
    outs := [o] + rest;
  }
}
