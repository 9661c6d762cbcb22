/** A program that changes its visible result when it is narrowed and then repaired. */
module DedentedExample {
  import opened DedentedMatch
  import opened GuardText
  import opened NarrowExamples
  import opened NarrowGuards
  import opened RepairAnnotations
  import opened RepairedText
  import opened RepairExamples
  import opened Wrappers

  /** `if c: x = <a dict>` */
  function Guarded(): Stmt { If(Var("c"), Then(Given(), End), End) }

  function Given(): Stmt { Assign("x", Const(Object("dict", 1))) }

  /** `if c: x = <a dict>` followed by `x = x if isinstance(x, dict) else {}` */
  function GuardedBody(): Block { Then(Guarded(), Then(Again("dict"), End)) }

  /** What the two scripts make of it, one after the other. */
  function GuardedResult(): Block { Then(SwallowIn(Guarded(), AgainNarrowed("dict")), End) }

  lemma GuardedText()
    ensures RepairLines(Print(Narrow(GuardedBody()), 0, Eof)) == Print(GuardedResult(), 0, Eof)
    ensures !ChainedTriple(Narrow(GuardedBody()))
  {
    var a, m, n := Given(), AgainRaw(), AgainNarrowed("dict");
    DictText("dict");
    AgainIsSite("dict");
    AgainTriple(a, "dict");
    assert Narrow(Then(a, End)) == Then(a, End);
    assert Narrow(GuardedBody()) == Then(Guarded(), Then(m, Then(n, End)));
    assert Ends(Then(a, End), a) && EndsIn(Guarded(), a);
    DedentedText(Guarded(), a, m, n, End);
    assert Reach(Then(a, End), []) == (Then(a, End), 0);
    assert ReachIn(Guarded(), []).0 == Guarded();
    NoTripleAt(n, End);
    NoTripleAt(m, Then(n, End));
    assert !ChainedTriple(Then(a, End));
  }

  lemma GuardedShape(p: Program)
    requires p == Program({}, GuardedBody())
    ensures Compiles(p) && PureSites(p.body) && PlainSites(p.body)
    ensures Temporaries(p) == {"_raw_x"} && Avoids({"_raw_x"}, p.body)
  {
    DictText("dict");
    AgainIsSite("dict");
    RawX();
    assert |"c"| == 1 && |"_raw_x"| == 6;
    var tail, inner := Then(Again("dict"), End), Then(Given(), End);
    assert SitesIn(Again("dict")) == {"x"} && AnnotatedIn(Again("dict")) == {};
    assert SiteNames(tail) == {"x"} && AnnotatedNames(tail) == {};
    assert Parses(tail) && PureSites(tail) && PlainSites(tail) && Avoids({"_raw_x"}, tail);
    assert SiteNames(inner) == {} && AnnotatedNames(inner) == {};
    assert Parses(inner) && PureSites(inner) && PlainSites(inner) && Avoids({"_raw_x"}, inner);
    assert SitesIn(Guarded()) == {} && AnnotatedIn(Guarded()) == {};
    assert SiteNames(p.body) == {"x"} && AnnotatedNames(p.body) == {};
  }

  /** With `x = None` and a false condition the first program narrows `x`, and the second leaves it. */
  lemma GuardedRuns(sem: Sem, s: State)
    requires s == State(map["x" := Object("NoneType", 0), "c" := Truth(false)], 0)
    requires sem.isInstance(Object("NoneType", 0), "dict") == Some(false)
    ensures ExecAll(sem, 0, GuardedBody(), s) == Done(s.(vars := s.vars["x" := EmptyDict]))
    ensures ExecAll(sem, 0, GuardedResult(), s) == Done(s)
  {
    assert "c"[0] != "x"[0];
    assert Exec(sem, 0, Guarded(), s) == Done(s);
    GuardValue(sem, Var("x"), "dict", EmptyDict, s);
    var s1 := s.(vars := s.vars["x" := EmptyDict]);
    assert Exec(sem, 0, Again("dict"), s) == Done(s1);
    LastOf(sem, 0, Again("dict"), s);
    assert Exec(sem, 0, SwallowIn(Guarded(), AgainNarrowed("dict")), s) == Done(s);
  }

  /** Narrowing and then repairing a correct, pure program can change its visible result. */
  lemma DedentBreaks() returns (p: Program, text: Block, sem: Sem, s: State)
    ensures Compiles(p) && PureSites(p.body) && PlainSites(p.body) && Avoids(Temporaries(p), p.body)
    ensures !ChainedTriple(Narrow(p.body)) && forall types :: Testable(sem, types)
    ensures RepairLines(Print(Narrow(p.body), 0, Eof)) == Print(text, 0, Eof)
    ensures !SameOutcome(Temporaries(p), ExecAll(sem, 0, p.body, s), ExecAll(sem, 0, text, s))
  {
    p, text := Program({}, GuardedBody()), GuardedResult();
    sem := Sem((v: Value, t) => Some(v.Object? && v.cls == t), v => false, (o, v, w) => Some(v), k => EmptyDict);
    s := State(map["x" := Object("NoneType", 0), "c" := Truth(false)], 0);
    GuardedText();
    GuardedShape(p);
    assert |"NoneType"| != |"dict"|;
    GuardedRuns(sem, s);
    RawX();
    assert s.vars["x"] != EmptyDict;
  }
}
