/** Programs that scripts/repair_narrow_annotations.py changes. */
module RepairExamples {
  import opened NarrowExamples
  import opened NarrowGuards
  import opened RepairAnnotations
  import opened Wrappers

  // ---- a chained assignment --------------------------------------------------------------------

  /** `x = x if isinstance(x, t) else {}`, and the two lines that narrowing makes of it. */
  function Again(t: string): Stmt { Assign("x", Guard(Var("x"), Var("x"), t, Const(EmptyDict))) }

  function AgainRaw(): Stmt { Annotated(Raw("x"), "object", Var("x")) }

  function AgainNarrowed(t: string): Stmt { Annotated("x", t, RawGuard("x", t, EmptyDict)) }

  lemma AgainIsSite(t: string)
    requires TypeText(t)
    ensures PlainSite(Again(t)) && ParsesStmt(Again(t)) && SiteParts(Again(t)) == Parts(Var("x"), Var("x"), t, EmptyDict)
    ensures Narrow(Then(Again(t), End)) == Then(AgainRaw(), Then(AgainNarrowed(t), End))
  {
    AttachSplits(Var("x"), Var("x"), t, EmptyDict);
    assert Written(Test(Var("x"), t));
  }

  lemma AgainTriple(a: Stmt, t: string)
    requires a.Assign? && a.target == "x" && TypeText(t)
    ensures Repairable(a, AgainRaw(), AgainNarrowed(t))
  {}

  /** `x = y = e`, `x = x if isinstance(x, T) else {}`: each script alone would be fine, both together leave a
      file that Python does not accept. */
  lemma ChainBreaks(e: Expr, t: string) returns (p: Program)
    requires Written(e) && TypeText(t) && SingleType(t)
    ensures Compiles(p) && Compiles(NarrowProgram(p)) && !Compiles(RepairProgram(NarrowProgram(p)))
  {
    var chain := Assign("x", e, ["y"]);
    p := Program({}, Then(chain, Then(Again(t), End)));
    AgainIsSite(t);
    assert Parses(Then(Again(t), End));
    assert AnnotatedIn(Again(t)) == {} && AnnotatedNames(End) == {};
    assert SingleTypesIn(Again(t)) && SingleTypes(End);
    assert AnnotatedNames(Then(Again(t), End)) == {} && SingleTypes(Then(Again(t), End));
    assert AnnotatedNames(p.body) == {};
    assert Narrow(p.body) == Then(chain, Then(AgainRaw(), Then(AgainNarrowed(t), End)));
    AgainTriple(chain, t);
    assert SingleTypesIn(chain) && SingleTypes(p.body);
    NarrowedCompiles(p);
    RepairedCompiles(NarrowProgram(p));
  }

  // ---- a test that raises ----------------------------------------------------------------------

  /** `try:` `x = v`, `_raw_x: object = x`, `x: list[int] = _raw_x if isinstance(_raw_x, list[int]) else {}`,
      `except: pass` */
  function GuardedTriple(v: Value): Block {
    Then(Try(Then(Assign("x", Const(v)), Then(AgainRaw(), Then(AgainNarrowed("list[int]"), End))), End), End)
  }

  lemma ListText(t: string)
    requires t == "list[int]"
    ensures TypeText(t) && SingleType(t)
  {
    forall i | 0 < i < |t| ensures TypeChar(t[i]) {
      assert t[i] == ['l', 'i', 's', 't', '[', 'i', 'n', 't', ']'][i];
    }
  }

  /** Python refuses to test for `list[int]`. Behind the handler the original program has `x`, and the repaired one
      does not, although it compiles and no assignment is chained. */
  lemma TestRaises(sem: Sem, v: Value, p: Program)
    requires sem.isInstance(v, "list[int]").None? && p == Program({}, GuardedTriple(v))
    ensures Compiles(p) && Compiles(RepairProgram(p)) && !ChainedTriple(p.body)
    ensures Run(sem, 0, p, State(map[], 0)) == Some(Done(State(map["x" := v, "_raw_x" := v], 0)))
    ensures Run(sem, 0, RepairProgram(p), State(map[], 0)) == Some(Done(State(map["_raw_x" := v], 0)))
  {
    var a, b, c := Assign("x", Const(v)), AgainRaw(), AgainNarrowed("list[int]");
    var inner := Then(a, Then(b, Then(c, End)));
    ListText("list[int]");
    RawX();
    AgainTriple(a, "list[int]");
    TripleParses(a, b, c);
    RepairedCompiles(p);
    assert Repair(inner) == Then(First(a), Then(Second(c), End));
    assert Repair(p.body) == Then(Try(Repair(inner), End), End);
    var s := State(map[], 0);
    TripleStates(sem, 0, a, b, c, s);
    assert ExecAll(sem, 0, inner, s) == Raised(State(map["x" := v, "_raw_x" := v], 0));
    assert ExecAll(sem, 0, Repair(inner), s) == Raised(State(map["_raw_x" := v], 0));
    assert Exec(sem, 0, Try(inner, End), s) == Done(State(map["x" := v, "_raw_x" := v], 0));
    assert Exec(sem, 0, Try(Repair(inner), End), s) == Done(State(map["_raw_x" := v], 0));
  }

  lemma TripleParses(a: Stmt, b: Stmt, c: Stmt)
    requires a.Assign? && a.more == [] && Repairable(a, b, c) && ParsesStmt(a) && ParsesStmt(c)
    ensures var inner := Then(a, Then(b, Then(c, End)));
      Parses(Then(Try(inner, End), End)) && !ChainedTriple(Then(Try(inner, End), End))
  {
    var last, tail := Then(c, End), Then(b, Then(c, End));
    NoTripleAt(c, End);
    NoTripleAt(b, last);
    assert Parses(last) by { assert Parses(End); }
    assert Parses(tail);
    var inner := Then(a, tail);
    assert !ChainedTriple(inner) && Parses(inner);
    assert ParsesStmt(Try(inner, End)) && !ChainedIn(Try(inner, End)) by { assert !ChainedTriple(End) && Parses(End); }
  }
}
