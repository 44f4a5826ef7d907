/** The running 68040/68060 MMU, driven by a program. */
module Machine040 {
  import opened Words
  import opened Walk040
  import opened State040
  import opened Run040
  import opened Trace040
  import opened Mmu040

  /** One operation of a program, carried out by the MMU object. */
  method Perform(u: Mmu040, op: Op) returns (o: Outcome)
    requires u.Valid()
    modifies u, u.atc, u.ways, u.rd, u.wr
    ensures u.Valid() && (u.Snapshot(), o) == Step(old(u.Snapshot()), op)
  {
    hide FetchAt; hide ReadAt; hide WriteAt; hide PTest; hide Configure; hide FlushAll; hide FlushPage; hide Unique;
    hide LoadPhysical;
    o := Done;
    match op
    case Ins(addr, super) => o := u.GetIns(addr, super);
    case Get(addr, super, data) => o := u.Get(addr, super, data, false);
    case Probe(addr, super) => o := u.Get(addr, super, true, true);
    case Put(addr, super, data) => o := u.Put(addr, super, data);
    case Plpa(addr, super, data, write) => o := u.LoadAddress(addr, super, data, write);
    case PFlush(addr, super, global) => u.FlushAtc(addr, super, global);
    case PFlushA(global) => u.FlushAtcAll(global);
    case Test(addr, super, data, write) => u.PTestSearch(addr, super, data, write);
    case MoveTtr(i, t) => u.gate := WithTtr(u.gate, i, t);
    case Setup(c, g) => u.Reconfigure(c, g);
    case Store(a, v) => u.mem := u.mem[a := v];
    case Rewrite(m, c, g) =>
      u.mem := m;
      u.Reconfigure(c, g);
  }

  method RunOn(u: Mmu040, ops: seq<Op>) returns (outs: seq<Outcome>)
    requires u.Valid()
    modifies u, u.atc, u.ways, u.rd, u.wr
    ensures u.Valid() && outs == Outcomes(old(u.Snapshot()), ops)
    decreases |ops|
  {
    hide Step; hide Unique;
    if ops == [] {
      return [];
    }
    var o := Perform(u, ops[0]);
    var rest := RunOn(u, ops[1..]);
    outs := [o] + rest;
  }

  /** A whole run on the MMU object has the outcomes of an MMU that searches every time if and
      only if it has no locked read of a write-protected page in the read cache. */
  method RunProgram(u: Mmu040, ops: seq<Op>, ghost L: Layout, ghost next: seq<Layout>) returns (outs: seq<Outcome>)
    requires u.Valid() && |next| == |ops|
    requires Live(u.Snapshot(), L) && AllPermitted(u.Snapshot(), L, ops, next)
    modifies u, u.atc, u.ways, u.rd, u.wr
    ensures var s := old(u.Snapshot());
      outs == PlainOutcomes(Plain(s.c, s.gate, s.mem), ops) <==>
      forall i :: 0 <= i < |ops| ==> !Loose(Before(s, ops, i), ops[i])
  {
    ghost var s := u.Snapshot();
    hide Step; hide Live; hide AllPermitted; hide Alike4; hide Unique; hide PlainOutcomes; hide Outcomes; hide Before;
    hide Loose;
    AlikeSelf4(L, s.mem);
    Trace040.RunsAgree(s, L, Plain(s.c, s.gate, s.mem), ops, next);
    outs := RunOn(u, ops);
  }
}
