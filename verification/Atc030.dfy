/** The 68030 address translation cache: 22 lines, pseudo-LRU replacement. */
module Atc030 {
  import opened Words

  const SLOTS: nat := 22

  /** One ATC line: logical part, physical part and history bit. */
  datatype Line = Line(valid: bool, laddr: u32, fc: fcode, paddr: u32, modified: bool, wp: bool, be: bool, mru: bool)

  predicate Matches(l: Line, page: u32, fc: fcode) { l.valid && l.laddr == page && l.fc == fc }

  /** At most one valid line for each page and function code. */
  ghost predicate Unique(atc: seq<Line>)
  {
    forall i, j :: 0 <= i < j < |atc| && atc[i].valid && atc[j].valid ==>
      atc[i].laddr != atc[j].laddr || atc[i].fc != atc[j].fc
  }

  predicate NoMatch(atc: seq<Line>, page: u32, fc: fcode)
  {
    forall i :: 0 <= i < |atc| ==> !Matches(atc[i], page, fc)
  }

  /** Lowest matching line, or -1. */
  function Find(atc: seq<Line>, page: u32, fc: fcode): (r: int)
    ensures r == -1 ==> NoMatch(atc, page, fc)
    ensures r != -1 ==> 0 <= r < |atc| && Matches(atc[r], page, fc)
  {
    if atc == [] then -1
    else
      var r := Find(atc[..|atc| - 1], page, fc);
      if r >= 0 then assert Matches(atc[..|atc| - 1][r], page, fc); r
      else
        assert forall i :: 0 <= i < |atc| - 1 ==> atc[i] == atc[..|atc| - 1][i];
        if Matches(atc[|atc| - 1], page, fc) then |atc| - 1 else -1
  }

  lemma FindUnique(atc: seq<Line>, page: u32, fc: fcode, i: nat)
    requires Unique(atc) && i < |atc| && Matches(atc[i], page, fc)
    ensures Find(atc, page, fc) == i
  {
  }

  // ---------------------------------------------------------------- history bits

  predicate AllRecent(atc: seq<Line>) { forall i :: 0 <= i < |atc| ==> atc[i].mru }

  /** `mmu030_atc_handle_history_bit`: mark line `e` as used, and forget all other history
      when no unused line would be left. */
  function Touch(atc: seq<Line>, e: nat): (r: seq<Line>)
    requires e < |atc|
    ensures |r| == |atc|
    ensures r[e] == atc[e].(mru := true)
    ensures forall i :: 0 <= i < |atc| ==> r[i] == atc[i].(mru := r[i].mru)
  {
    var a := atc[e := atc[e].(mru := true)];
    if AllRecent(a) then seq(|atc|, i requires 0 <= i < |atc| => a[i].(mru := i == e)) else a
  }

  /** Some line is always replaceable: the history bits are never all set. */
  lemma TouchLeavesOld(atc: seq<Line>, e: nat)
    requires e < |atc| && |atc| > 1
    ensures !AllRecent(Touch(atc, e))
  {
    var r := Touch(atc, e);
    var a := atc[e := atc[e].(mru := true)];
    if AllRecent(a) {
      var other := if e == 0 then 1 else 0;
      assert !r[other].mru;
    }
  }

  // ---------------------------------------------------------------- replacement

  function FirstInvalid(atc: seq<Line>, i: nat): (r: nat)
    requires i <= |atc|
    ensures i <= r <= |atc|
    ensures forall k :: i <= k < r ==> atc[k].valid
    ensures r < |atc| ==> !atc[r].valid
    decreases |atc| - i
  {
    if i < |atc| && atc[i].valid then FirstInvalid(atc, i + 1) else i
  }

  function FirstOld(atc: seq<Line>, i: nat): (r: nat)
    requires i <= |atc|
    ensures i <= r <= |atc|
    ensures forall k :: i <= k < r ==> atc[k].mru
    ensures r < |atc| ==> !atc[r].mru
    decreases |atc| - i
  {
    if i < |atc| && atc[i].mru then FirstOld(atc, i + 1) else i
  }

  /** The line a new entry goes to; past the end when there is none. */
  function Victim(atc: seq<Line>): (r: nat)
    ensures r <= |atc|
  {
    var i := FirstInvalid(atc, 0);
    if i < |atc| then i else FirstOld(atc, 0)
  }

  /** A history: the lines touched, in order, by hits and by new entries. */
  function Touches(atc: seq<Line>, es: seq<nat>): (r: seq<Line>)
    requires forall i :: 0 <= i < |es| ==> es[i] < |atc|
    ensures |r| == |atc|
  {
    if es == [] then atc else Touch(Touches(atc, es[..|es| - 1]), es[|es| - 1])
  }

  /** After any run of touches the replacement finds a line, and when the ATC is full that
      line is not the one touched last: "ATC entry not found" cannot happen. */
  lemma VictimExists(atc: seq<Line>, es: seq<nat>)
    requires |atc| == SLOTS && !AllRecent(atc)
    requires forall i :: 0 <= i < |es| ==> es[i] < SLOTS
    ensures var a := Touches(atc, es);
      && !AllRecent(a) && Victim(a) < SLOTS
      && (es != [] && (forall i :: 0 <= i < SLOTS ==> a[i].valid) ==> Victim(a) != es[|es| - 1])
  {
    var a := Touches(atc, es);
    if es != [] {
      TouchLeavesOld(Touches(atc, es[..|es| - 1]), es[|es| - 1]);
    }
  }

  // ---------------------------------------------------------------- what changes keep

  lemma FewerStaysValid(was: seq<Line>, now: seq<Line>)
    requires |was| == |now| == SLOTS && Unique(was) && !AllRecent(was)
    requires forall i :: 0 <= i < SLOTS ==> now[i] == was[i] || now[i] == was[i].(valid := false)
    ensures Unique(now) && !AllRecent(now)
  {
    var i :| 0 <= i < SLOTS && !was[i].mru;
    assert !now[i].mru;
  }

  lemma TouchStaysValid(was: seq<Line>, e: nat)
    requires |was| == SLOTS && Unique(was) && e < SLOTS
    ensures Unique(Touch(was, e)) && !AllRecent(Touch(was, e))
  {
    TouchLeavesOld(was, e);
    TouchUnique(was, e);
  }

  lemma TouchUnique(was: seq<Line>, e: nat)
    requires Unique(was) && e < |was|
    ensures Unique(Touch(was, e))
  {
    hide AllRecent;
    var t := Touch(was, e);
    forall i, j | 0 <= i < j < |t| && t[i].valid && t[j].valid ensures t[i].laddr != t[j].laddr || t[i].fc != t[j].fc {
      assert was[i].valid && was[j].valid;
    }
  }

  lemma NewStaysValid(was: seq<Line>, v: nat, l: Line)
    requires |was| == SLOTS && Unique(was) && v < SLOTS && l.mru && NoMatch(was, l.laddr, l.fc)
    ensures Unique(Touch(was, v)[v := l]) && !AllRecent(Touch(was, v)[v := l])
  {
    TouchLeavesOld(was, v);
    TouchUnique(was, v);
    var t := Touch(was, v);
    assert NoMatch(t, l.laddr, l.fc) by { hide AllRecent; }
    var i :| 0 <= i < SLOTS && !t[i].mru;
    assert !t[v := l][i].mru;
    hide Touch;
  }

  /** Dropping the one line of a page leaves none. */
  lemma DropLeavesNone(atc: seq<Line>, page: u32, fc: fcode, i: nat)
    requires Unique(atc) && i < |atc| && Matches(atc[i], page, fc)
    ensures NoMatch(atc[i := atc[i].(valid := false)], page, fc)
  {
  }

  lemma VictimIn(atc: seq<Line>)
    requires |atc| == SLOTS && !AllRecent(atc)
    ensures Victim(atc) < SLOTS
  {
  }
}
