/** scripts/repair_narrow_annotations.py: collapsing `assign + temporary + annotated narrowing`
    triples, over the statements of a program. */
module RepairAnnotations {
  import opened Wrappers
  import opened NarrowGuards

  /** `_raw_x if isinstance(_raw_x, T) else d`, with a type and a default that the pattern takes. */
  predicate IsRawGuard(x: string, e: Expr) {
    && e.IfExp? && e.cond.Test? && IsEmptyLiteral(e.no) && TypeText(e.cond.typeName)
    && e == RawGuard(x, e.cond.typeName, e.no.value)
  }

  /** `name = expr`, `_raw_name: object = name`, `name: T = <guard on _raw_name>`. The pattern takes the rest of
      the first line for `expr`, further targets included. */
  predicate IsTriple(a: Stmt, b: Stmt, c: Stmt) {
    && a.Assign?
    && b == Annotated(Raw(a.target), "object", Var(a.target))
    && c.Annotated? && c.more == [] && c.target == a.target && TypeText(c.typeName) && IsRawGuard(a.target, c.value)
  }

  /** The two types are compared only once the shape has matched. */
  predicate Repairable(a: Stmt, b: Stmt, c: Stmt) {
    IsTriple(a, b, c) && c.typeName == c.value.cond.typeName
  }

  /** A repairable triple starts here. */
  predicate Starts(x: Stmt, rest: Block) {
    rest.Then? && rest.rest.Then? && Repairable(x, rest.first, rest.rest.first)
  }

  function First(a: Stmt): Stmt
    requires a.Assign?
  {
    Annotated(Raw(a.target), "object", a.value, a.more)
  }

  function Second(c: Stmt): Stmt
    requires c.Annotated?
  {
    Assign(c.target, c.value)
  }

  function Repair(b: Block): Block
  {
    match b
    case End => End
    case Then(x, Then(y, Then(z, rest))) =>
      if Repairable(x, y, z) then Then(First(x), Then(Second(z), Repair(rest)))
      else if IsTriple(x, y, z) then Then(x, Then(y, Then(z, Repair(rest))))
      else Then(RepairInside(x), Repair(Then(y, Then(z, rest))))
    case Then(x, rest) => Then(RepairInside(x), Repair(rest))
  }

  function RepairInside(st: Stmt): Stmt {
    match st
    case If(c, yes, no) => If(c, Repair(yes), Repair(no))
    case While(c, body) => While(c, Repair(body))
    case Try(body, handler) => Try(Repair(body), Repair(handler))
    case _ => st
  }

  /** The test of the triple does not raise, or it does not matter: the name already held the value. */
  predicate TestPasses(sem: Sem, a: Stmt, c: Stmt, s: State)
    requires a.Assign? && c.Annotated?
  {
    var v := Eval(sem, a.value, s).0;
    v.Some? ==>
      || sem.isInstance(v.value, c.typeName).Some?
      || (a.target in s.vars && s.vars[a.target] == v.value) || a.target in a.more
  }

  /** The states after the first two statements of the triple, and after the first of the pair, with the value that
      the guard gives. */
  lemma TripleStates(sem: Sem, fuel: nat, a: Stmt, b: Stmt, c: Stmt, s: State)
    requires Repairable(a, b, c)
    ensures var x, r := a.target, Raw(a.target); var (v, s1) := Eval(sem, a.value, s);
      if v.None? then
        ExecAll(sem, fuel, Then(a, Then(b, Then(c, End))), s) == Raised(s1)
        && ExecAll(sem, fuel, Then(First(a), Then(Second(c), End)), s) == Raised(s1)
      else
        var t := s1.(vars := Bind(s1.vars[x := v.value], a.more, v.value)[r := v.value]);
        var u := s1.(vars := Bind(s1.vars[r := v.value], a.more, v.value));
        var w := Narrowed(sem, v.value, c.typeName, c.value.no.value);
        && ExecAll(sem, fuel, Then(a, Then(b, Then(c, End))), s) ==
           (if w.None? then Raised(t) else Done(t.(vars := t.vars[x := w.value])))
        && ExecAll(sem, fuel, Then(First(a), Then(Second(c), End)), s) ==
           (if w.None? then Raised(u) else Done(u.(vars := u.vars[x := w.value])))
  {
    RawDiffers(a.target);
    var x, r := a.target, Raw(a.target);
    var (v, s1) := Eval(sem, a.value, s);
    if v.Some? {
      var t1 := s1.(vars := Bind(s1.vars[x := v.value], a.more, v.value));
      var t := t1.(vars := t1.vars[r := v.value]);
      var u := s1.(vars := Bind(s1.vars[r := v.value], a.more, v.value));
      BindHolds(s1.vars, x, a.more, v.value);
      BindHolds(s1.vars, r, a.more, v.value);
      assert Exec(sem, fuel, a, s) == Done(t1) && Exec(sem, fuel, b, t1) == Done(t);
      assert Exec(sem, fuel, First(a), s) == Done(u);
      RawGuardValue(sem, x, c.typeName, c.value.no.value, t);
      RawGuardValue(sem, x, c.typeName, c.value.no.value, u);
      LastOf(sem, fuel, c, t);
      LastOf(sem, fuel, Second(c), u);
      assert ExecAll(sem, fuel, Then(b, Then(c, End)), t1) == ExecAll(sem, fuel, Then(c, End), t);
    } else {
      assert Exec(sem, fuel, a, s) == Raised(s1) && Exec(sem, fuel, First(a), s) == Raised(s1);
    }
  }

  lemma LastOf(sem: Sem, fuel: nat, st: Stmt, s: State)
    ensures ExecAll(sem, fuel, Then(st, End), s) == Exec(sem, fuel, st, s)
  {}

  lemma BindHolds(vars: map<string, Value>, x: string, more: seq<string>, v: Value)
    ensures x in Bind(vars[x := v], more, v) && Bind(vars[x := v], more, v)[x] == v
  {}

  /** The collapsed triple does exactly what the triple did if and only if the test passes. */
  lemma TripleRuns(sem: Sem, fuel: nat, a: Stmt, b: Stmt, c: Stmt, s: State)
    requires Repairable(a, b, c)
    ensures ExecAll(sem, fuel, Then(First(a), Then(Second(c), End)), s) ==
            ExecAll(sem, fuel, Then(a, Then(b, Then(c, End))), s)
      <==> TestPasses(sem, a, c, s)
  {
    RawDiffers(a.target);
    TripleStates(sem, fuel, a, b, c, s);
    EvalKeepsVars(sem, a.value, s);
    var (v, s1) := Eval(sem, a.value, s);
    if v.Some? {
      var w := Narrowed(sem, v.value, c.typeName, c.value.no.value);
      if w.None? { BindDiffers(s1.vars, a.target, Raw(a.target), a.more, v.value); }
      else { BindBoth(s1.vars, a.target, Raw(a.target), a.more, v.value, w.value); }
    }
  }

  /** The temporary and the further targets get the same value. Until the name itself is set last, the two states
      differ in the name at most. */
  lemma BindBoth(vars: map<string, Value>, x: string, r: string, more: seq<string>, v: Value, w: Value)
    requires x != r
    ensures Bind(vars[x := v], more, v)[r := v][x := w] == Bind(vars[r := v], more, v)[x := w]
  {}

  lemma BindDiffers(vars: map<string, Value>, x: string, r: string, more: seq<string>, v: Value)
    requires x != r
    ensures Bind(vars[x := v], more, v)[r := v] == Bind(vars[r := v], more, v)
      <==> (x in vars && vars[x] == v) || x in more
  {
    var t, u := Bind(vars[x := v], more, v)[r := v], Bind(vars[r := v], more, v);
    assert x in t && t[x] == v;
    BindBoth(vars, x, r, more, v, v);
    if x in u && u[x] == v { assert u == u[x := v] && t == t[x := v]; }
  }

  function Append(a: Block, b: Block): Block {
    match a
    case End => b
    case Then(st, rest) => Then(st, Append(rest, b))
  }

  lemma {:induction false} ExecAppend(sem: Sem, fuel: nat, a: Block, b: Block, s: State)
    ensures ExecAll(sem, fuel, Append(a, b), s) ==
            var o := ExecAll(sem, fuel, a, s); if o.Done? then ExecAll(sem, fuel, b, o.state) else o
  {
    if a.Then? {
      var o := Exec(sem, fuel, a.first, s);
      if o.Done? { ExecAppend(sem, fuel, a.rest, b, o.state); }
    }
  }

  lemma RepairStep(x: Stmt, rest: Block)
    ensures Repair(Then(x, rest)) ==
      if Starts(x, rest) then Then(First(x), Then(Second(rest.rest.first), Repair(rest.rest.rest)))
      else Then(RepairInside(x), Repair(rest))
  {
    if rest.Then? && rest.rest.Then? && IsTriple(x, rest.first, rest.rest.first) && !Starts(x, rest) {
      var y, z := rest.first, rest.rest.first;
      assert Repair(rest) == Then(y, Repair(rest.rest)) && Repair(rest.rest) == Then(z, Repair(rest.rest.rest));
    }
  }

  /** In every repaired triple that the run comes to, the test passes. */
  predicate Tested(sem: Sem, fuel: nat, b: Block, s: State)
    decreases fuel, b, 1
  {
    match b
    case End => true
    case Then(x, rest) =>
      && (Starts(x, rest) ==> TestPasses(sem, x, rest.rest.first, s))
      && TestedIn(sem, fuel, x, s)
      && var o := Exec(sem, fuel, x, s);
         o.Done? ==> Tested(sem, fuel, rest, o.state)
  }

  predicate TestedIn(sem: Sem, fuel: nat, st: Stmt, s: State)
    decreases fuel, st, 0
  {
    match st
    case If(c, yes, no) =>
      var (v, s1) := Eval(sem, c, s);
      v.Some? ==> if Holds(sem, v.value) then Tested(sem, fuel, yes, s1) else Tested(sem, fuel, no, s1)
    case While(c, body) =>
      var (v, s1) := Eval(sem, c, s);
      v.Some? && Holds(sem, v.value) && fuel > 0 ==>
        Tested(sem, fuel - 1, body, s1) &&
        var o := ExecAll(sem, fuel - 1, body, s1);
        o.Done? ==> TestedIn(sem, fuel - 1, st, o.state)
    case Try(body, handler) =>
      Tested(sem, fuel, body, s) &&
      var o := ExecAll(sem, fuel, body, s);
      o.Raised? ==> Tested(sem, fuel, handler, o.state)
    case _ => true
  }

  /** Behind a triple the run goes on from the state that its three statements give. */
  lemma TestedBehind(sem: Sem, fuel: nat, x: Stmt, y: Stmt, z: Stmt, rest: Block, s: State)
    requires Tested(sem, fuel, Then(x, Then(y, Then(z, rest))), s)
    ensures var o := ExecAll(sem, fuel, Then(x, Then(y, Then(z, End))), s);
      o.Done? ==> Tested(sem, fuel, rest, o.state)
  {
    var o := Exec(sem, fuel, x, s);
    if o.Done? {
      assert Tested(sem, fuel, Then(y, Then(z, rest)), o.state);
      var p := Exec(sem, fuel, y, o.state);
      if p.Done? {
        assert Tested(sem, fuel, Then(z, rest), p.state);
        LastOf(sem, fuel, z, p.state);
        assert ExecAll(sem, fuel, Then(y, Then(z, End)), o.state) == Exec(sem, fuel, z, p.state);
      }
    }
  }

  /** In such a run the repair leaves the final environment identical: no purity assumption, and the
      temporaries included. */
  lemma {:induction false} RepairRuns(sem: Sem, fuel: nat, b: Block, s: State)
    requires Tested(sem, fuel, b, s)
    ensures ExecAll(sem, fuel, Repair(b), s) == ExecAll(sem, fuel, b, s)
    decreases fuel, b, 1
  {
    if b.Then? {
      var x, tail := b.first, b.rest;
      RepairStep(x, tail);
      if Starts(x, tail) {
        var y, z, rest := tail.first, tail.rest.first, tail.rest.rest;
        var three, two := Then(x, Then(y, Then(z, End))), Then(First(x), Then(Second(z), End));
        TripleRuns(sem, fuel, x, y, z, s);
        TestedBehind(sem, fuel, x, y, z, rest, s);
        AppendThree(x, y, z, rest);
        AppendTwo(First(x), Second(z), Repair(rest));
        ExecAppend(sem, fuel, three, rest, s);
        ExecAppend(sem, fuel, two, Repair(rest), s);
        var o := ExecAll(sem, fuel, three, s);
        if o.Done? { RepairRuns(sem, fuel, rest, o.state); }
      } else {
        RepairInsideRuns(sem, fuel, x, s);
        var o := Exec(sem, fuel, x, s);
        if o.Done? { RepairRuns(sem, fuel, tail, o.state); }
      }
    }
  }

  lemma AppendThree(x: Stmt, y: Stmt, z: Stmt, rest: Block)
    ensures Append(Then(x, Then(y, Then(z, End))), rest) == Then(x, Then(y, Then(z, rest)))
  {
    assert Append(Then(z, End), rest) == Then(z, rest);
  }

  lemma AppendTwo(x: Stmt, y: Stmt, rest: Block)
    ensures Append(Then(x, Then(y, End)), rest) == Then(x, Then(y, rest))
  {
    assert Append(Then(y, End), rest) == Then(y, rest);
  }

  lemma {:induction false} RepairInsideRuns(sem: Sem, fuel: nat, st: Stmt, s: State)
    requires TestedIn(sem, fuel, st, s)
    ensures Exec(sem, fuel, RepairInside(st), s) == Exec(sem, fuel, st, s)
    decreases fuel, st, 0
  {
    match st
    case If(c, yes, no) =>
      var (v, s1) := Eval(sem, c, s);
      if v.Some? {
        if Holds(sem, v.value) { RepairRuns(sem, fuel, yes, s1); } else { RepairRuns(sem, fuel, no, s1); }
      }
    case While(c, body) =>
      var (v, s1) := Eval(sem, c, s);
      if v.Some? && Holds(sem, v.value) && fuel > 0 {
        RepairRuns(sem, fuel - 1, body, s1);
        var o := ExecAll(sem, fuel - 1, body, s1);
        if o.Done? { RepairInsideRuns(sem, fuel - 1, st, o.state); }
      }
    case Try(body, handler) =>
      RepairRuns(sem, fuel, body, s);
      var o := ExecAll(sem, fuel, body, s);
      if o.Raised? { RepairRuns(sem, fuel, handler, o.state); }
    case _ =>
  }

  /** The types that the repaired triples test for. */
  function RepairedTypes(b: Block): set<string> {
    match b
    case End => {}
    case Then(x, rest) =>
      (if Starts(x, rest) then {rest.rest.first.typeName} else {}) + RepairedTypesIn(x) + RepairedTypes(rest)
  }

  function RepairedTypesIn(st: Stmt): set<string> {
    match st
    case If(_, yes, no) => RepairedTypes(yes) + RepairedTypes(no)
    case While(_, body) => RepairedTypes(body)
    case Try(body, handler) => RepairedTypes(body) + RepairedTypes(handler)
    case _ => {}
  }

  /** When no test for these types raises, every run passes its tests. */
  lemma {:induction false} TypesTested(sem: Sem, fuel: nat, b: Block, s: State)
    requires Testable(sem, RepairedTypes(b))
    ensures Tested(sem, fuel, b, s)
    decreases fuel, b, 1
  {
    if b.Then? {
      if Starts(b.first, b.rest) { assert b.rest.rest.first.typeName in RepairedTypes(b); }
      FewerTypes(sem, RepairedTypes(b), RepairedTypesIn(b.first));
      FewerTypes(sem, RepairedTypes(b), RepairedTypes(b.rest));
      TypesTestedIn(sem, fuel, b.first, s);
      var o := Exec(sem, fuel, b.first, s);
      if o.Done? { TypesTested(sem, fuel, b.rest, o.state); }
    }
  }

  lemma FewerTypes(sem: Sem, more: set<string>, fewer: set<string>)
    requires Testable(sem, more) && fewer <= more
    ensures Testable(sem, fewer)
  {}

  lemma {:induction false} TypesTestedIn(sem: Sem, fuel: nat, st: Stmt, s: State)
    requires Testable(sem, RepairedTypesIn(st))
    ensures TestedIn(sem, fuel, st, s)
    decreases fuel, st, 0
  {
    match st
    case If(c, yes, no) =>
      FewerTypes(sem, RepairedTypesIn(st), RepairedTypes(yes));
      FewerTypes(sem, RepairedTypesIn(st), RepairedTypes(no));
      TypesTested(sem, fuel, yes, Eval(sem, c, s).1);
      TypesTested(sem, fuel, no, Eval(sem, c, s).1);
    case While(c, body) =>
      if fuel > 0 {
        var s1 := Eval(sem, c, s).1;
        TypesTested(sem, fuel - 1, body, s1);
        var o := ExecAll(sem, fuel - 1, body, s1);
        if o.Done? { TypesTestedIn(sem, fuel - 1, st, o.state); }
      }
    case Try(body, handler) =>
      FewerTypes(sem, RepairedTypesIn(st), RepairedTypes(body));
      FewerTypes(sem, RepairedTypesIn(st), RepairedTypes(handler));
      TypesTested(sem, fuel, body, s);
      var o := ExecAll(sem, fuel, body, s);
      if o.Raised? { TypesTested(sem, fuel, handler, o.state); }
    case _ =>
  }

  lemma {:induction false} RepairAnnotates(b: Block)
    ensures AnnotatedNames(Repair(b)) <= AnnotatedNames(b)
    decreases b, 1
  {
    match b
    case End =>
    case Then(x, Then(y, Then(z, rest))) =>
      if IsTriple(x, y, z) {
        RepairAnnotates(rest);
        ThreeAnnotate(x, y, z, rest);
        if Repairable(x, y, z) { TwoAnnotate(First(x), Second(z), Repair(rest)); }
        else { ThreeAnnotate(x, y, z, Repair(rest)); }
      } else {
        RepairInsideAnnotates(x);
        RepairAnnotates(Then(y, Then(z, rest)));
      }
    case Then(x, rest) =>
      RepairInsideAnnotates(x);
      RepairAnnotates(rest);
  }

  lemma ThreeAnnotate(x: Stmt, y: Stmt, z: Stmt, rest: Block)
    ensures AnnotatedNames(Then(x, Then(y, Then(z, rest)))) ==
            AnnotatedIn(x) + AnnotatedIn(y) + AnnotatedIn(z) + AnnotatedNames(rest)
  {
    assert AnnotatedNames(Then(z, rest)) == AnnotatedIn(z) + AnnotatedNames(rest);
    assert AnnotatedNames(Then(y, Then(z, rest))) == AnnotatedIn(y) + AnnotatedNames(Then(z, rest));
  }

  lemma TwoAnnotate(x: Stmt, y: Stmt, rest: Block)
    ensures AnnotatedNames(Then(x, Then(y, rest))) == AnnotatedIn(x) + AnnotatedIn(y) + AnnotatedNames(rest)
  {
    assert AnnotatedNames(Then(y, rest)) == AnnotatedIn(y) + AnnotatedNames(rest);
  }

  lemma {:induction false} RepairInsideAnnotates(st: Stmt)
    ensures AnnotatedIn(RepairInside(st)) <= AnnotatedIn(st)
    decreases st, 0
  {
    match st
    case If(_, yes, no) => { RepairAnnotates(yes); RepairAnnotates(no); }
    case While(_, body) => RepairAnnotates(body);
    case Try(body, handler) => { RepairAnnotates(body); RepairAnnotates(handler); }
    case _ =>
  }

  /** The annotations that close the repaired triples. */
  function Closing(b: Block): multiset<(string, string)> {
    match b
    case End => multiset{}
    case Then(x, rest) =>
      (if Starts(x, rest) then multiset{(x.target, rest.rest.first.typeName)} else multiset{}) + ClosingIn(x) + Closing(rest)
  }

  function ClosingIn(st: Stmt): multiset<(string, string)> {
    match st
    case If(_, yes, no) => Closing(yes) + Closing(no)
    case While(_, body) => Closing(body)
    case Try(body, handler) => Closing(body) + Closing(handler)
    case _ => multiset{}
  }

  lemma AnnotationsOfTwo(x: Stmt, y: Stmt, rest: Block)
    ensures Annotations(Then(x, Then(y, rest))) == AnnotationsOf(x) + (AnnotationsOf(y) + Annotations(rest))
  {
    assert Annotations(Then(y, rest)) == AnnotationsOf(y) + Annotations(rest);
  }

  lemma NothingCloses(st: Stmt, rest: Block)
    requires st.Annotated?
    ensures Closing(Then(st, rest)) == Closing(rest)
  {}

  lemma Regroup(raw: multiset<(string, string)>, last: multiset<(string, string)>, rest: multiset<(string, string)>,
                kept: multiset<(string, string)>, closing: multiset<(string, string)>)
    requires rest == kept + closing
    ensures raw + (last + rest) == (raw + kept) + (last + closing)
  {}

  lemma TripleDrops(x: Stmt, y: Stmt, z: Stmt, rest: Block)
    requires Repairable(x, y, z) && Annotations(rest) == Annotations(Repair(rest)) + Closing(rest)
    ensures Annotations(Then(x, Then(y, Then(z, rest)))) ==
      Annotations(Then(First(x), Then(Second(z), Repair(rest)))) + Closing(Then(x, Then(y, Then(z, rest))))
  {
    var raw, last := multiset{("_raw_" + x.target, "object")}, multiset{(x.target, z.typeName)};
    AnnotationsOfTwo(y, z, rest);
    assert Annotations(Then(x, Then(y, Then(z, rest)))) == raw + (last + Annotations(rest));
    AnnotationsOfTwo(First(x), Second(z), Repair(rest));
    assert Annotations(Then(First(x), Then(Second(z), Repair(rest)))) == raw + Annotations(Repair(rest));
    ClosingTriple(x, y, z, rest);
    Regroup(raw, last, Annotations(rest), Annotations(Repair(rest)), Closing(rest));
  }

  lemma ClosingTriple(x: Stmt, y: Stmt, z: Stmt, rest: Block)
    requires Repairable(x, y, z)
    ensures Closing(Then(x, Then(y, Then(z, rest)))) == multiset{(x.target, z.typeName)} + Closing(rest)
  {
    NothingCloses(z, rest);
    NothingCloses(y, Then(z, rest));
  }

  /** Each repaired triple loses its closing annotation; every other annotation stays, and that of its temporary is
      as it was. */
  lemma {:induction false} RepairDrops(b: Block)
    ensures Annotations(b) == Annotations(Repair(b)) + Closing(b)
    decreases b, 1
  {
    if b.Then? {
      var x, tail := b.first, b.rest;
      RepairStep(x, tail);
      if Starts(x, tail) {
        var y, z, rest := tail.first, tail.rest.first, tail.rest.rest;
        RepairDrops(rest);
        TripleDrops(x, y, z, rest);
      } else {
        RepairInsideDrops(x);
        RepairDrops(tail);
      }
    }
  }

  lemma {:induction false} RepairInsideDrops(st: Stmt)
    ensures AnnotationsOf(st) == AnnotationsOf(RepairInside(st)) + ClosingIn(st)
    decreases st, 0
  {
    match st
    case If(_, yes, no) => { RepairDrops(yes); RepairDrops(no); }
    case While(_, body) => RepairDrops(body);
    case Try(body, handler) => { RepairDrops(body); RepairDrops(handler); }
    case _ =>
  }

  /** So a name whose every annotation closes a repaired triple is not annotated any more, and one that closes none
      has its annotations as before. */
  lemma DropsAnnotations(b: Block, x: string)
    ensures (forall t :: Annotations(b)[(x, t)] == Closing(b)[(x, t)]) <==> x !in AnnotatedNames(Repair(b))
    ensures (forall t :: (x, t) !in Closing(b)) <==> forall t :: Annotations(Repair(b))[(x, t)] == Annotations(b)[(x, t)]
  {
    RepairDrops(b);
    AnnotatedIff(Repair(b), x);
    var before, after, closing := Annotations(b), Annotations(Repair(b)), Closing(b);
    assert forall t :: before[(x, t)] == after[(x, t)] + closing[(x, t)];
    if x in AnnotatedNames(Repair(b)) {
      var t :| (x, t) in after;
      assert before[(x, t)] != closing[(x, t)];
    }
    if t :| (x, t) in closing { assert after[(x, t)] != before[(x, t)]; }
  }

  /** Some repaired triple starts with a chained assignment. */
  predicate ChainedTriple(b: Block) {
    match b
    case End => false
    case Then(x, rest) =>
      || (Starts(x, rest) && x.more != [])
      || ChainedIn(x) || ChainedTriple(rest)
  }

  predicate ChainedIn(st: Stmt) {
    match st
    case If(_, yes, no) => ChainedTriple(yes) || ChainedTriple(no)
    case While(_, body) => ChainedTriple(body)
    case Try(body, handler) => ChainedTriple(body) || ChainedTriple(handler)
    case _ => false
  }

  lemma NoTripleAt(st: Stmt, rest: Block)
    requires st.Annotated?
    ensures ChainedTriple(Then(st, rest)) <==> ChainedTriple(rest)
  {}

  lemma {:induction false} RepairParses(b: Block)
    requires Parses(b)
    ensures Parses(Repair(b)) <==> !ChainedTriple(b)
    decreases b, 1
  {
    if b.Then? {
      var x, tail := b.first, b.rest;
      RepairStep(x, tail);
      if Starts(x, tail) {
        var y, z, rest := tail.first, tail.rest.first, tail.rest.rest;
        assert ParsesStmt(x) && Parses(tail) && Parses(tail.rest);
        RepairParses(rest);
        NoTripleAt(z, rest);
        NoTripleAt(y, tail.rest);
        RawGuardWritten(x.target, z.value.cond.typeName, z.value.no.value);
        assert Parses(Then(Second(z), Repair(rest))) <==> Parses(Repair(rest));
      } else {
        RepairInsideParses(x);
        RepairParses(tail);
      }
    }
  }

  lemma {:induction false} RepairInsideParses(st: Stmt)
    requires ParsesStmt(st)
    ensures ParsesStmt(RepairInside(st)) <==> !ChainedIn(st)
    decreases st, 0
  {
    match st
    case If(_, yes, no) => { RepairParses(yes); RepairParses(no); }
    case While(_, body) => RepairParses(body);
    case Try(body, handler) => { RepairParses(body); RepairParses(handler); }
    case _ =>
  }

  function RepairProgram(p: Program): Program { p.(body := Repair(p.body)) }

  lemma RepairedCompiles(p: Program)
    requires Compiles(p)
    ensures Compiles(RepairProgram(p)) <==> !ChainedTriple(p.body)
  {
    RepairAnnotates(p.body);
    RepairParses(p.body);
  }

  /** A program that compiles still compiles after the repair, and every run in which the tests of its repaired
      triples cannot raise is the same, exactly when no repaired triple starts with a chained assignment:
      `_raw_x: object = y = e` is not Python. Single runs need less, see `RepairRuns`. It drops the annotations that
      close repaired triples and keeps every other. */
  lemma RepairMeaning(p: Program)
    requires Compiles(p)
    ensures Annotations(p.body) == Annotations(RepairProgram(p).body) + Closing(p.body)
    ensures (forall sem, fuel: nat, s :: Testable(sem, RepairedTypes(p.body)) ==>
               Run(sem, fuel, RepairProgram(p), s) == Run(sem, fuel, p, s))
      <==> !ChainedTriple(p.body)
  {
    RepairDrops(p.body);
    RepairedCompiles(p);
    forall sem, fuel: nat, s | Testable(sem, RepairedTypes(p.body))
      ensures ExecAll(sem, fuel, Repair(p.body), s) == ExecAll(sem, fuel, p.body, s)
    {
      TypesTested(sem, fuel, p.body, s);
      RepairRuns(sem, fuel, p.body, s);
    }
    if ChainedTriple(p.body) {
      var sem, s := SomeRun();
      assert Testable(sem, RepairedTypes(p.body));
      assert Run(sem, 0, RepairProgram(p), s).None?;
    }
  }

  /** Narrowing followed by repair gives the same visible result as the original program, when narrowing alone does
      and the tests of the repaired triples cannot raise, under the same condition. */
  lemma NarrowThenRepair(p: Program)
    requires Compiles(p) && SameMeaning(Temporaries(p), {}, p, NarrowProgram(p))
    ensures SameMeaning(Temporaries(p), RepairedTypes(Narrow(p.body)), p, RepairProgram(NarrowProgram(p)))
      <==> !ChainedTriple(Narrow(p.body))
  {
    var n := NarrowProgram(p);
    var some, start := SomeRun();
    assert Testable(some, {}) && Run(some, 0, n, start).Some?;
    RepairMeaning(n);
    RepairedCompiles(n);
    if ChainedTriple(n.body) {
      assert Testable(some, RepairedTypes(n.body));
      assert Run(some, 0, RepairProgram(n), start).None?;
    } else {
      forall sem, fuel: nat, s | Testable(sem, RepairedTypes(n.body))
        ensures var a, b := Run(sem, fuel, p, s), Run(sem, fuel, RepairProgram(n), s);
          a.Some? && b.Some? && SameOutcome(Temporaries(p), a.value, b.value)
      {
        assert Testable(sem, {});
        assert Run(sem, fuel, RepairProgram(n), s) == Run(sem, fuel, n, s);
        var a, m := Run(sem, fuel, p, s), Run(sem, fuel, n, s);
        assert a.Some? && m.Some? && SameOutcome(Temporaries(p), a.value, m.value);
      }
    }
  }
}
