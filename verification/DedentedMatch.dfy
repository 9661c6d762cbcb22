/** A match of scripts/repair_narrow_annotations.py that reaches across the end of nested blocks: the last line of
    a compound statement and the two lines after the statement. Both new lines then belong to the inner block. */
module DedentedMatch {
  import opened NarrowGuards
  import opened GuardText
  import opened RepairAnnotations
  import opened RepairedText
  import opened Wrappers

  // ---- the last line of a statement -----------------------------------------------------------

  /** `a` is the last line of the block. */
  predicate Ends(b: Block, a: Stmt)
    decreases b
  {
    b.Then? && if b.rest == End then b.first == a || EndsIn(b.first, a) else Ends(b.rest, a)
  }

  predicate EndsIn(st: Stmt, a: Stmt)
    decreases st
  {
    match st
    case If(_, yes, no) => if no == End then Ends(yes, a) else Ends(no, a)
    case While(_, body) => Ends(body, a)
    case Try(_, handler) => Ends(handler, a)
    case _ => false
  }

  /** The block in which the last line, an assignment, has been replaced by the two new lines. */
  function Swallow(b: Block, n: Stmt): (r: Block)
    requires n.Annotated?
    ensures r == End <==> b == End
    decreases b
  {
    match b
    case End => End
    case Then(st, rest) =>
      if rest != End then Then(st, Swallow(rest, n))
      else if st.Assign? then Then(First(st), Then(Second(n), End))
      else Then(SwallowIn(st, n), End)
  }

  function SwallowIn(st: Stmt, n: Stmt): Stmt
    requires n.Annotated?
    decreases st
  {
    match st
    case If(c, yes, no) => if no == End then If(c, Swallow(yes, n), no) else If(c, yes, Swallow(no, n))
    case While(c, body) => While(c, Swallow(body, n))
    case Try(body, handler) => Try(body, Swallow(handler, n))
    case _ => st
  }

  // ---- what is taken into a block ---------------------------------------------------------------

  /** Behind the simple statements of a block comes what follows it. */
  lemma {:induction false} UpcomingAt(b: Block, ahead: seq<Stmt>, i: nat)
    requires i < |Upcoming(b, ahead)|
    ensures i >= Size(b) ==> i - Size(b) < |ahead| && Upcoming(b, ahead)[i] == ahead[i - Size(b)]
  {
    if b.Then? && i > 0 { UpcomingAt(b.rest, ahead, i - 1); }
  }

  /** Only annotated lines are taken. */
  lemma {:induction false} TakesAnnotated(b: Block, ahead: seq<Stmt>)
    ensures forall i :: 0 <= i < Reach(b, ahead).1 ==> ahead[i].Annotated?
    decreases b, 1
  {
    match b
    case End =>
    case Then(x, rest) =>
      var next := Upcoming(rest, ahead);
      UpcomingFits(rest, ahead);
      var k := if Compound(x) then ReachIn(x, next).1
               else if |next| == 2 && Repairable(x, next[0], next[1]) then 2 else 0;
      if Compound(x) { TakesAnnotatedIn(x, next); }
      if k <= Size(rest) {
        TakesAnnotated(Drop(rest, k), ahead);
      } else {
        forall i | 0 <= i < k - Size(rest) ensures ahead[i].Annotated? { UpcomingAt(rest, ahead, i + Size(rest)); }
      }
  }

  lemma {:induction false} TakesAnnotatedIn(st: Stmt, ahead: seq<Stmt>)
    ensures forall i :: 0 <= i < ReachIn(st, ahead).1 ==> ahead[i].Annotated?
    decreases st, 0
  {
    match st
    case If(_, yes, no) => if no == End { TakesAnnotated(yes, ahead); } else { TakesAnnotated(no, ahead); }
    case While(_, body) => TakesAnnotated(body, ahead);
    case Try(_, handler) => TakesAnnotated(handler, ahead);
    case _ =>
  }

  /** What comes behind an assignment is not seen, or seen and not needed. */
  lemma {:induction false} UpcomingExtends(b: Block, before: seq<Stmt>, more: seq<Stmt>) returns (seen: seq<Stmt>)
    ensures seen <= more && Upcoming(b, before + more) == Upcoming(b, before) + seen
  {
    match b
    case End =>
      var room: nat := if |before| > 2 then 0 else 2 - |before|;
      seen := more[..if room < |more| then room else |more|];
      assert Two(before + more) == Two(before) + seen;
    case Then(x, rest) =>
      if Compound(x) {
        seen := [];
      } else {
        var inner := UpcomingExtends(rest, before, more);
        var p := [x] + Upcoming(rest, before);
        assert [x] + Upcoming(rest, before + more) == p + inner;
        var room: nat := if |p| > 2 then 0 else 2 - |p|;
        seen := inner[..if room < |inner| then room else |inner|];
        assert Two(p + inner) == Two(p) + seen;
      }
  }

  /** So a block reaches no further than the next assignment. */
  lemma {:induction false} AssignStops(b: Block, before: seq<Stmt>, more: seq<Stmt>)
    requires more != [] ==> more[0].Assign?
    ensures Reach(b, before + more) == Reach(b, before)
    decreases b, 1
  {
    match b
    case End =>
    case Then(x, rest) =>
      var seen := UpcomingExtends(rest, before, more);
      var next := Upcoming(rest, before);
      UpcomingFits(rest, before + more);
      UpcomingFits(rest, before);
      if Compound(x) {
        AssignStopsIn(x, next, seen);
        var k := ReachIn(x, next).1;
        if k <= Size(rest) { AssignStops(Drop(rest, k), before, more); }
      } else {
        if |next| == 2 {
          assert seen == [] && next + seen == next;
          if 2 <= Size(rest) { AssignStops(Drop(rest, 2), before, more); }
        }
        AssignStops(rest, before, more);
      }
  }

  lemma {:induction false} AssignStopsIn(st: Stmt, before: seq<Stmt>, more: seq<Stmt>)
    requires more != [] ==> more[0].Assign?
    ensures ReachIn(st, before + more) == ReachIn(st, before)
    decreases st, 0
  {
    match st
    case If(_, yes, no) => if no == End { AssignStops(yes, before, more); } else { AssignStops(no, before, more); }
    case While(_, body) => AssignStops(body, before, more);
    case Try(_, handler) => AssignStops(handler, before, more);
    case _ =>
  }

  /** Annotated lines at the front of a block can be dropped without losing its last line. */
  lemma {:induction false} DropEnds(b: Block, a: Stmt, ahead: seq<Stmt>, k: nat)
    requires Ends(b, a) && a.Assign? && k <= |Upcoming(b, ahead)|
    requires forall i :: 0 <= i < k ==> Upcoming(b, ahead)[i].Annotated?
    ensures k < Size(b) && Ends(Drop(b, k), a)
  {
    if k > 0 {
      var next := Upcoming(b, ahead);
      assert next[0] == b.first;
      forall i | 0 <= i < k - 1 ensures Upcoming(b.rest, ahead)[i].Annotated? {
        assert next[i + 1] == Upcoming(b.rest, ahead)[i];
      }
      DropEnds(b.rest, a, ahead, k - 1);
    }
  }

  /** What a block ending in an assignment sees of the lines behind it starts with that assignment. */
  lemma {:induction false} SeesEnd(b: Block, a: Stmt, ahead: seq<Stmt>)
    requires Ends(b, a) && a.Assign?
    ensures
      || Upcoming(b, ahead) == Upcoming(b, [])
      || (b == Then(a, End) && Upcoming(b, []) == [a] && Upcoming(b, ahead) == [a] + Upcoming(b, ahead)[1..])
  {
    if b.rest != End && !Compound(b.first) { SeesEnd(b.rest, a, ahead); }
  }

  /** The last line of a block and the two lines behind the block are one match: on top of what the script makes
      of the block alone, the last line is replaced and the two lines are taken. */
  lemma {:induction false} SwallowsLast(b: Block, a: Stmt, m: Stmt, n: Stmt)
    requires Ends(b, a) && Repairable(a, m, n)
    ensures Ends(Reach(b, []).0, a) && Reach(b, [m, n]) == (Swallow(Reach(b, []).0, n), 2)
    decreases b, 1
  {
    var x, rest := b.first, b.rest;
    var next, alone := Upcoming(rest, [m, n]), Upcoming(rest, []);
    UpcomingFits(rest, [m, n]);
    UpcomingFits(rest, []);
    if rest == End {
      assert next == [m, n] && alone == [];
      if Compound(x) { SwallowsLastIn(x, a, m, n); }
    } else {
      SeesEnd(rest, a, [m, n]);
      if Compound(x) {
        if next != alone {
          assert [] + next == next && [] + alone == alone;
          AssignStopsIn(x, [], next);
          AssignStopsIn(x, [], alone);
        }
        TakesAnnotatedIn(x, alone);
        DropEnds(rest, a, [], ReachIn(x, alone).1);
        SwallowsLast(Drop(rest, ReachIn(x, alone).1), a, m, n);
      } else {
        if |alone| == 2 && Repairable(x, alone[0], alone[1]) {
          DropEnds(rest, a, [], 2);
          SwallowsLast(Drop(rest, 2), a, m, n);
        } else {
          SwallowsLast(rest, a, m, n);
        }
      }
    }
  }

  lemma {:induction false} SwallowsLastIn(st: Stmt, a: Stmt, m: Stmt, n: Stmt)
    requires EndsIn(st, a) && Repairable(a, m, n)
    ensures EndsIn(ReachIn(st, []).0, a) && ReachIn(st, [m, n]) == (SwallowIn(ReachIn(st, []).0, n), 2)
    decreases st, 0
  {
    match st
    case If(_, yes, no) => if no == End { SwallowsLast(yes, a, m, n); } else { SwallowsLast(no, a, m, n); }
    case While(_, body) => SwallowsLast(body, a, m, n);
    case Try(_, handler) => SwallowsLast(handler, a, m, n);
    case _ =>
  }

  lemma {:induction false} AlignedTail(b: Block, indent: nat, tail: Text)
    ensures Aligned(Print(b, indent, tail)) ==> Aligned(tail)
    decreases b, 1
  {
    if b.Then? {
      AlignedTailStmt(b.first, indent, Print(b.rest, indent, tail));
      AlignedTail(b.rest, indent, tail);
    }
  }

  lemma {:induction false} AlignedTailStmt(st: Stmt, indent: nat, tail: Text)
    ensures Aligned(PrintStmt(st, indent, tail)) ==> Aligned(tail)
    decreases st, 0
  {
    match st
    case If(c, yes, no) =>
      AlignedTailSuite(yes, indent + 1, PrintElse(no, indent, tail));
      AlignedTail(no, indent + 1, tail);
    case While(c, body) =>
      AlignedTailSuite(body, indent + 1, tail);
    case Try(body, handler) =>
      AlignedTailSuite(body, indent + 1, Line(indent, ExceptLine, PrintSuite(handler, indent + 1, tail)));
      AlignedTailSuite(handler, indent + 1, tail);
    case _ =>
  }

  lemma {:induction false} AlignedTailSuite(b: Block, indent: nat, tail: Text)
    ensures Aligned(PrintSuite(b, indent, tail)) ==> Aligned(tail)
    decreases b, 2
  {
    AlignedTail(b, indent, tail);
  }

  /** The last line lies deeper than the two lines behind the block. */
  lemma {:induction false} UnalignedEnd(b: Block, a: Stmt, m: Stmt, n: Stmt, indent: nat, tail: Text)
    requires Ends(b, a) && Repairable(a, m, n)
    requires tail.Line? && tail.indent < indent && tail.kind == Simple(m)
    requires tail.next.Line? && tail.next.kind == Simple(n)
    ensures !Aligned(Print(b, indent, tail))
    decreases b, 1
  {
    if b.rest != End {
      UnalignedEnd(b.rest, a, m, n, indent, tail);
      AlignedTailStmt(b.first, indent, Print(b.rest, indent, tail));
    } else if Compound(b.first) {
      UnalignedEndIn(b.first, a, m, n, indent, tail);
    } else {
      PrintSimple(a, End, indent, tail);
      assert Hit(Print(b, indent, tail));
    }
  }

  lemma {:induction false} UnalignedEndIn(st: Stmt, a: Stmt, m: Stmt, n: Stmt, indent: nat, tail: Text)
    requires EndsIn(st, a) && Repairable(a, m, n)
    requires tail.Line? && tail.indent <= indent && tail.kind == Simple(m)
    requires tail.next.Line? && tail.next.kind == Simple(n)
    ensures !Aligned(PrintStmt(st, indent, tail))
    decreases st, 0
  {
    match st
    case If(c, yes, no) =>
      if no == End {
        UnalignedEnd(yes, a, m, n, indent + 1, tail);
      } else {
        UnalignedEnd(no, a, m, n, indent + 1, tail);
        AlignedTailSuite(yes, indent + 1, PrintElse(no, indent, tail));
      }
    case While(c, body) =>
      UnalignedEnd(body, a, m, n, indent + 1, tail);
    case Try(body, handler) =>
      UnalignedEnd(handler, a, m, n, indent + 1, tail);
      AlignedTailSuite(body, indent + 1, Line(indent, ExceptLine, PrintSuite(handler, indent + 1, tail)));
  }

  /** The lines that the script writes when the match starts at the end of a compound statement, whatever follows:
      both new lines are in the statement, at the place of its last line. */
  lemma DedentedText(st: Stmt, a: Stmt, m: Stmt, n: Stmt, rest: Block)
    requires EndsIn(st, a) && Repairable(a, m, n)
    ensures !Aligned(Print(Then(st, Then(m, Then(n, rest))), 0, Eof))
    ensures RepairLines(Print(Then(st, Then(m, Then(n, rest))), 0, Eof)) ==
            Print(Then(SwallowIn(ReachIn(st, []).0, n), Reach(rest, []).0), 0, Eof)
  {
    var b := Then(st, Then(m, Then(n, rest)));
    PrintTwo(m, n, rest, 0, Eof);
    UnalignedEndIn(st, a, m, n, 0, Print(Then(m, Then(n, rest)), 0, Eof));
    ReachText(b);
    assert Upcoming(Then(n, rest), []) == Two([n] + Upcoming(rest, []));
    assert Upcoming(Then(m, Then(n, rest)), []) == [m, n];
    SwallowsLastIn(st, a, m, n);
    assert Drop(Then(m, Then(n, rest)), 2) == Drop(Then(n, rest), 1) == rest;
    assert Size(Then(m, Then(n, rest))) >= 2;
  }

  // ---- what that means ---------------------------------------------------------------------------

  /** The way to the last line leads through no loop. */
  predicate Once(b: Block)
    decreases b
  {
    b.Then? ==> if b.rest == End then OnceIn(b.first) else Once(b.rest)
  }

  predicate OnceIn(st: Stmt)
    decreases st
  {
    match st
    case If(_, yes, no) => if no == End then Once(yes) else Once(no)
    case While(_, _) => false
    case Try(_, handler) => Once(handler)
    case _ => true
  }

  /** The state in which a run executes the last line, if it comes to it. */
  function AtLast(sem: Sem, fuel: nat, b: Block, s: State): Option<State>
    decreases b
  {
    match b
    case End => None
    case Then(st, rest) =>
      if rest == End then (if Compound(st) then AtLastIn(sem, fuel, st, s) else Some(s))
      else
        var o := Exec(sem, fuel, st, s);
        if o.Done? then AtLast(sem, fuel, rest, o.state) else None
  }

  function AtLastIn(sem: Sem, fuel: nat, st: Stmt, s: State): Option<State>
    decreases st
  {
    match st
    case If(c, yes, no) =>
      var (v, s1) := Eval(sem, c, s);
      if v.None? then None
      else if no == End then (if Holds(sem, v.value) then AtLast(sem, fuel, yes, s1) else None)
      else (if Holds(sem, v.value) then None else AtLast(sem, fuel, no, s1))
    case Try(body, handler) =>
      var o := ExecAll(sem, fuel, body, s);
      if o.Raised? then AtLast(sem, fuel, handler, o.state) else None
    case _ => None
  }

  /** A run that comes to the last line ends there, with the assignment or with the two new lines; every other run
      does not see the difference. */
  lemma {:induction false} SwallowRuns(sem: Sem, fuel: nat, b: Block, a: Stmt, n: Stmt, s: State)
    requires Ends(b, a) && Once(b) && a.Assign? && n.Annotated?
    ensures match AtLast(sem, fuel, b, s)
      case Some(t) =>
        && ExecAll(sem, fuel, b, s) == Exec(sem, fuel, a, t)
        && ExecAll(sem, fuel, Swallow(b, n), s) == ExecAll(sem, fuel, Then(First(a), Then(Second(n), End)), t)
      case None => ExecAll(sem, fuel, Swallow(b, n), s) == ExecAll(sem, fuel, b, s)
    decreases b, 1
  {
    var o := Exec(sem, fuel, b.first, s);
    if b.rest == End {
      LastOf(sem, fuel, b.first, s);
      if Compound(b.first) {
        SwallowRunsIn(sem, fuel, b.first, a, n, s);
        LastOf(sem, fuel, SwallowIn(b.first, n), s);
      }
    } else if o.Done? {
      SwallowRuns(sem, fuel, b.rest, a, n, o.state);
    }
  }

  lemma {:induction false} SwallowRunsIn(sem: Sem, fuel: nat, st: Stmt, a: Stmt, n: Stmt, s: State)
    requires EndsIn(st, a) && OnceIn(st) && a.Assign? && n.Annotated?
    ensures match AtLastIn(sem, fuel, st, s)
      case Some(t) =>
        && Exec(sem, fuel, st, s) == Exec(sem, fuel, a, t)
        && Exec(sem, fuel, SwallowIn(st, n), s) == ExecAll(sem, fuel, Then(First(a), Then(Second(n), End)), t)
      case None => Exec(sem, fuel, SwallowIn(st, n), s) == Exec(sem, fuel, st, s)
    decreases st, 0
  {
    match st
    case If(c, yes, no) =>
      var s1 := Eval(sem, c, s).1;
      if no == End { SwallowRuns(sem, fuel, yes, a, n, s1); } else { SwallowRuns(sem, fuel, no, a, n, s1); }
    case Try(body, handler) =>
      var o := ExecAll(sem, fuel, body, s);
      if o.Raised? { SwallowRuns(sem, fuel, handler, a, n, o.state); }
  }

  /** The two lines after the statement would change nothing. */
  predicate Idle(sem: Sem, a: Stmt, n: Stmt, s: State)
    requires a.Assign? && n.Annotated? && IsRawGuard(a.target, n.value)
  {
    var x, r := a.target, Raw(a.target);
    && x in s.vars && r in s.vars && s.vars[r] == s.vars[x]
    && Narrowed(sem, s.vars[x], n.typeName, n.value.no.value) == Some(s.vars[x])
  }

  lemma IdleIff(sem: Sem, fuel: nat, a: Stmt, m: Stmt, n: Stmt, s: State)
    requires Repairable(a, m, n)
    ensures ExecAll(sem, fuel, Then(m, Then(n, End)), s) == Done(s) <==> Idle(sem, a, n, s)
  {
    RawDiffers(a.target);
    var x, r := a.target, Raw(a.target);
    if x in s.vars {
      var s1 := s.(vars := s.vars[r := s.vars[x]]);
      var w := Narrowed(sem, s.vars[x], n.typeName, n.value.no.value);
      assert Exec(sem, fuel, m, s) == Done(s1);
      RawGuardValue(sem, x, n.typeName, n.value.no.value, s1);
      LastOf(sem, fuel, n, s1);
      assert ExecAll(sem, fuel, Then(m, Then(n, End)), s) == Exec(sem, fuel, n, s1);
      if w.Some? {
        var s2 := s1.(vars := s1.vars[x := w.value]);
        assert Exec(sem, fuel, n, s1) == Done(s2);
        assert s2.vars[r] == s.vars[x] && s2.vars[x] == w.value;
        if r in s.vars && s.vars[r] == s.vars[x] && w.value == s.vars[x] { assert s2.vars == s.vars; }
      }
    } else {
      assert Exec(sem, fuel, m, s) == Raised(s);
    }
  }

  /** When a run keeps its meaning: it comes to the last line and the test passes there, or it does not come to it,
      and then either the statement does not finish or the two lines after it would change nothing. */
  predicate Keeps(sem: Sem, fuel: nat, st: Stmt, a: Stmt, n: Stmt, s: State)
    requires a.Assign? && n.Annotated? && IsRawGuard(a.target, n.value)
  {
    match AtLastIn(sem, fuel, st, s)
    case Some(t) => TestPasses(sem, a, n, t)
    case None =>
      var o := Exec(sem, fuel, st, s);
      o.Done? ==> Idle(sem, a, n, o.state)
  }

  lemma ThreeFrom(sem: Sem, fuel: nat, a: Stmt, st: Stmt, m: Stmt, n: Stmt, s: State, t: State)
    requires Exec(sem, fuel, st, s) == Exec(sem, fuel, a, t)
    ensures ExecAll(sem, fuel, Then(st, Then(m, Then(n, End))), s) == ExecAll(sem, fuel, Then(a, Then(m, Then(n, End))), t)
  {}

  /** Up to the end of the match a run is the same exactly then, and then it is the same whatever follows. */
  lemma DedentedMeaning(sem: Sem, fuel: nat, st: Stmt, a: Stmt, m: Stmt, n: Stmt, rest: Block, s: State)
    requires EndsIn(st, a) && OnceIn(st) && Repairable(a, m, n)
    ensures ExecAll(sem, fuel, Then(SwallowIn(st, n), End), s) == ExecAll(sem, fuel, Then(st, Then(m, Then(n, End))), s)
      <==> Keeps(sem, fuel, st, a, n, s)
    ensures Keeps(sem, fuel, st, a, n, s) ==>
      ExecAll(sem, fuel, Then(SwallowIn(st, n), rest), s) == ExecAll(sem, fuel, Then(st, Then(m, Then(n, rest))), s)
  {
    SwallowRunsIn(sem, fuel, st, a, n, s);
    LastOf(sem, fuel, SwallowIn(st, n), s);
    var o := Exec(sem, fuel, st, s);
    match AtLastIn(sem, fuel, st, s) {
      case Some(t) =>
        TripleRuns(sem, fuel, a, m, n, t);
        ThreeFrom(sem, fuel, a, st, m, n, s, t);
      case None =>
        if o.Done? { IdleIff(sem, fuel, a, m, n, o.state); }
    }
    AppendThree(st, m, n, rest);
    ExecAppend(sem, fuel, Then(st, Then(m, Then(n, End))), rest, s);
    assert ExecAll(sem, fuel, Then(SwallowIn(st, n), rest), s) ==
      var q := Exec(sem, fuel, SwallowIn(st, n), s); if q.Done? then ExecAll(sem, fuel, rest, q.state) else q;
  }
}
