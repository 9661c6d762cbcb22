/** Programs that scripts/narrow_mapping_guards.py changes. */
module NarrowExamples {
  import opened NarrowGuards
  import opened Wrappers

  lemma VisiblyDifferent(hidden: set<string>, p: Program, sem: Sem, start: State, s: State, t: State, x: string)
    requires Compiles(p)
    requires ExecAll(sem, 0, p.body, start) == Done(s) && ExecAll(sem, 0, Narrow(p.body), start) == Done(t)
    requires x !in hidden && x in s.vars && x in t.vars && s.vars[x] != t.vars[x]
    ensures !SameMeaning(hidden, {}, p, NarrowProgram(p))
  {
    var a, b := Run(sem, 0, p, start), Run(sem, 0, NarrowProgram(p), start);
    assert Testable(sem, {});
    assert !SameVisible(hidden, s, t);
    assert !(a.Some? && b.Some? && SameOutcome(hidden, a.value, b.value));
  }

  lemma DictText(t: string)
    requires t == "dict"
    ensures TypeText(t) && SingleType(t)
  {
    assert t[0] == 'd' && t[1] == 'i' && t[2] == 'c' && t[3] == 't';
  }

  lemma RawX()
    ensures Raw("x") == "_raw_x" && "_raw_x" != "x" && "_raw_x" != "y" && "x" != "y"
  {
    assert |"_raw_x"| > |"x"| && |"_raw_x"| > |"y"| && "x"[0] != "y"[0];
  }

  // ---- a program that uses a temporary ---------------------------------------------------------

  /** `x = v if isinstance(v, dict) else {}` for a constant. */
  function ConstantSite(v: Value, t: string := "dict"): Stmt {
    Assign("x", Guard(Const(v), Const(v), t, Const(EmptyDict)))
  }

  lemma ConstantIsSite(v: Value, t: string)
    requires TypeText(t)
    ensures PlainSite(ConstantSite(v, t)) && SiteParts(ConstantSite(v, t)) == Parts(Const(v), Const(v), t, EmptyDict)
    ensures ParsesStmt(ConstantSite(v, t))
  {
    AttachSplits(Const(v), Const(v), t, EmptyDict);
  }

  /** `_raw_x = one`, `x = two if isinstance(two, dict) else {}`, `y = _raw_x` */
  function CollisionBody(one: Value, two: Value): Block {
    Then(Assign("_raw_x", Const(one)), Then(ConstantSite(two), Then(Assign("y", Var("_raw_x")), End)))
  }

  /** A program that reads the temporary of one of its sites is outside the tool's contract:
      its reading changes. */
  lemma RawCollision() returns (p: Program)
    ensures Compiles(p) && PureSites(p.body) && PlainSites(p.body) && MayAnnotate(p)
    ensures !Avoids(Temporaries(p), p.body) && !SameMeaning(Temporaries(p), {}, p, NarrowProgram(p))
  {
    var one, two := Object("dict", 1), Object("dict", 2);
    p := Program({}, CollisionBody(one, two));
    var sem := Sem((v, t) => Some(true), v => true, (o, v, w) => Some(v), n => EmptyDict);
    CollisionShape(one, two);
    RawX();
    var s := CollisionRuns(sem, one, two);
    var t := CollisionNarrowed(sem, one, two);
    VisiblyDifferent(Temporaries(p), p, sem, State(map[], 0), s, t, "y");
  }

  lemma CollisionShape(one: Value, two: Value)
    ensures var b := CollisionBody(one, two);
      && PureSites(b) && PlainSites(b) && SingleTypes(b) && Parses(b) && AnnotatedNames(b) == {}
      && SiteNames(b) == {"x"} && RawNames(SiteNames(b)) == {"_raw_x"} && !Avoids({"_raw_x"}, b)
  {
    RawX();
    DictText("dict");
    ConstantIsSite(two, "dict");
    var site, read := ConstantSite(two), Then(Assign("y", Var("_raw_x")), End);
    assert SitesIn(site) == {"x"} && AnnotatedIn(site) == {} && ParsesStmt(site) && SingleTypesIn(site);
    assert SiteNames(read) == {} && AnnotatedNames(read) == {};
    assert PureSites(read) && PlainSites(read) && SingleTypes(read) && Parses(read);
    var rest := Then(site, read);
    assert SiteNames(rest) == {"x"};
    assert AnnotatedNames(rest) == {};
    assert PureSites(rest) && PlainSites(rest) && SingleTypes(rest) && Parses(rest);
    assert !IsSite(Assign("_raw_x", Const(one)));
  }

  lemma CollisionRuns(sem: Sem, one: Value, two: Value) returns (s3: State)
    requires sem.isInstance(two, "dict") == Some(true)
    ensures ExecAll(sem, 0, CollisionBody(one, two), State(map[], 0)) == Done(s3)
    ensures "y" in s3.vars && s3.vars["y"] == one
  {
    RawX();
    var read, first := Assign("y", Var("_raw_x")), Assign("_raw_x", Const(one));
    var s1, s2 := State(map["_raw_x" := one], 0), State(map["_raw_x" := one, "x" := two], 0);
    assert Exec(sem, 0, first, State(map[], 0)) == Done(s1);
    GuardValue(sem, Const(two), "dict", EmptyDict, s1);
    assert Exec(sem, 0, ConstantSite(two), s1) == Done(s2);
    s3 := State(map["_raw_x" := one, "x" := two, "y" := one], 0);
    assert Exec(sem, 0, read, s2) == Done(s3);
    assert ExecAll(sem, 0, Then(read, End), s2) == Done(s3);
    assert ExecAll(sem, 0, Then(ConstantSite(two), Then(read, End)), s1) == Done(s3);
  }

  lemma CollisionNarrowed(sem: Sem, one: Value, two: Value) returns (t3: State)
    requires sem.isInstance(two, "dict") == Some(true)
    ensures ExecAll(sem, 0, Narrow(CollisionBody(one, two)), State(map[], 0)) == Done(t3)
    ensures "y" in t3.vars && t3.vars["y"] == two
  {
    RawX();
    DictText("dict");
    ConstantIsSite(two, "dict");
    var read, first := Assign("y", Var("_raw_x")), Assign("_raw_x", Const(one));
    var rest := Then(read, End);
    var s1 := State(map["_raw_x" := one], 0);
    assert Exec(sem, 0, first, State(map[], 0)) == Done(s1);
    assert Narrow(rest) == rest && NarrowInside(first) == first && !IsSite(first);
    SiteRuns(sem, 0, ConstantSite(two), rest, s1);
    var t2 := s1.(vars := s1.vars["_raw_x" := two]["x" := two]);
    t3 := State(map["_raw_x" := two, "x" := two, "y" := two], 0);
    assert Exec(sem, 0, read, t2) == Done(t3);
    assert ExecAll(sem, 0, rest, t2) == Done(t3);
    assert Narrow(Then(ConstantSite(two), rest)) == NarrowSite(ConstantSite(two), rest);
  }

  // ---- an expression that is evaluated twice ---------------------------------------------------

  /** `x = next() if isinstance(next(), dict) else {}` */
  function ImpureSite(): Stmt { Assign("x", Guard(Next, Next, "dict", Const(EmptyDict))) }

  /** The line tests one result and stores the next; the two lines that replace it test and store the same one. */
  lemma EvaluatedTwice() returns (p: Program)
    ensures p.body == Then(ImpureSite(), End) && Compiles(p) && PlainSites(p.body) && MayAnnotate(p)
    ensures Avoids(Temporaries(p), p.body) && !PureSites(p.body)
    ensures !SameMeaning(Temporaries(p), {}, p, NarrowProgram(p))
  {
    p := Program({}, Then(ImpureSite(), End));
    ImpureShape(p);
    RawX();
    var sem := Sem((v, t) => Some(true), v => true, (o, v, w) => Some(v), n => Object("dict", n));
    var s := State(map[], 0);
    var one, two := Object("dict", 0), Object("dict", 1);
    assert Eval(sem, ImpureSite().value, s) == (Some(two), State(map[], 2));
    var s1 := State(map["x" := two], 2);
    assert Exec(sem, 0, ImpureSite(), s) == Done(s1);
    assert ExecAll(sem, 0, p.body, s) == Done(s1);
    SiteRuns(sem, 0, ImpureSite(), End, s);
    var t1 := State(map["_raw_x" := one, "x" := one], 1);
    assert ExecAll(sem, 0, Narrow(p.body), s) == Done(t1);
    VisiblyDifferent(Temporaries(p), p, sem, s, s1, t1, "x");
  }

  lemma ImpureShape(p: Program)
    requires p == Program({}, Then(ImpureSite(), End))
    ensures Compiles(p) && PlainSites(p.body) && MayAnnotate(p) && Temporaries(p) == {"_raw_x"}
    ensures IsSite(ImpureSite()) && SiteParts(ImpureSite()) == Parts(Next, Next, "dict", EmptyDict)
    ensures Avoids({"_raw_x"}, p.body) && !PureSites(p.body)
  {
    RawX();
    DictText("dict");
    AttachSplits(Next, Next, "dict", EmptyDict);
    assert SitesIn(ImpureSite()) == {"x"} && AnnotatedIn(ImpureSite()) == {};
    assert SiteNames(p.body) == {"x"};
  }

  // ---- a type that is no annotation --------------------------------------------------------------

  /** `x = v if isinstance(v, dict,) else {}`: Python allows the comma in the call, and not in the annotation
      `x: dict, = ...` that the tool writes. */
  lemma TrailingComma(v: Value) returns (p: Program)
    ensures p.body == Then(ConstantSite(v, "dict,"), End) && p.declared == {}
    ensures Compiles(p) && PureSites(p.body) && PlainSites(p.body) && Avoids(Temporaries(p), p.body)
    ensures !Compiles(NarrowProgram(p))
  {
    var site := ConstantSite(v, "dict,");
    p := Program({}, Then(site, End));
    CommaText("dict,");
    RawX();
    ConstantIsSite(v, "dict,");
    assert SitesIn(site) == {"x"} && SiteNames(p.body) == {"x"};
    assert AnnotatedIn(site) == {} && AnnotatedNames(End) == {};
    assert AnnotatedNames(p.body) == {} + {};
    assert Parses(p.body);
    assert ExprAvoids({"_raw_x"}, Test(Const(v), "dict,"));
    assert Temporaries(p) == {"_raw_x"} && StmtAvoids({"_raw_x"}, site);
    assert !SingleTypesIn(site);
    NarrowedCompiles(p);
  }

  lemma CommaText(t: string)
    requires t == "dict,"
    ensures TypeText(t) && !SingleType(t)
  {
    assert t[0] == 'd' && t[1] == 'i' && t[2] == 'c' && t[3] == 't' && t[4] == ',';
    NoBrackets(t[..4]);
  }

  lemma {:induction false} NoBrackets(t: string)
    requires '[' !in t && ']' !in t
    ensures Brackets(t) == 0
  {
    if t != "" { NoBrackets(t[..|t| - 1]); }
  }

  // ---- a line that Python reads differently ------------------------------------------------------

  /** `a if b else c` */
  function Choice(): Expr { IfExp(Var("a"), Var("b"), Var("c")) }

  /** `x = a if b else c if isinstance(a if b else c, dict) else {}`, as Python reads it: the test belongs to `c`. */
  function OpenSite(): Stmt {
    Assign("x", IfExp(Var("a"), Var("b"), Guard(Var("c"), Choice(), "dict", Const(EmptyDict))))
  }

  lemma OpenIsSite()
    ensures IsSite(OpenSite()) && SiteParts(OpenSite()) == Parts(Choice(), Choice(), "dict", EmptyDict)
    ensures !PlainSite(OpenSite()) && Pure(Choice()) && Written(OpenSite().value)
  {
    DictText("dict");
    AttachSplits(Choice(), Choice(), "dict", EmptyDict);
  }

  /** With `b` true and `a` None the line gives None, and the two lines that replace it give `{}`, although the
      program is pure, compiles, declares nothing and uses no temporary. */
  lemma OpenConditional() returns (p: Program)
    ensures p.body == Then(OpenSite(), End) && Compiles(p) && PureSites(p.body) && MayAnnotate(p)
    ensures Avoids(Temporaries(p), p.body) && !PlainSites(p.body)
    ensures !SameMeaning(Temporaries(p), {}, p, NarrowProgram(p))
  {
    p := Program({}, Then(OpenSite(), End));
    OpenIsSite();
    RawX();
    var nothing, yes := Object("NoneType", 0), Truth(true);
    var sem := Sem((v, t) => Some(false), v => true, (o, v, w) => Some(v), n => EmptyDict);
    var s := State(map["a" := nothing, "b" := yes], 0);
    OpenShape(p);
    assert Eval(sem, OpenSite().value, s) == (Some(nothing), s);
    var s1 := s.(vars := s.vars["x" := nothing]);
    assert Exec(sem, 0, OpenSite(), s) == Done(s1);
    assert ExecAll(sem, 0, p.body, s) == Done(s1);
    assert Eval(sem, Choice(), s) == (Some(nothing), s);
    SiteRuns(sem, 0, OpenSite(), End, s);
    var t1 := s.(vars := s.vars["_raw_x" := nothing]["x" := EmptyDict]);
    assert ExecAll(sem, 0, Narrow(p.body), s) == Done(t1);
    VisiblyDifferent(Temporaries(p), p, sem, s, s1, t1, "x");
  }

  lemma OpenShape(p: Program)
    requires p == Program({}, Then(OpenSite(), End))
    ensures Parses(p.body) && AnnotatedNames(p.body) == {} && Temporaries(p) == {"_raw_x"} && Avoids({"_raw_x"}, p.body)
    ensures PureSites(p.body)
  {
    OpenIsSite();
    RawX();
    assert SitesIn(OpenSite()) == {"x"} && AnnotatedIn(OpenSite()) == {};
    assert SiteNames(p.body) == {"x"};
    assert |"a"| == |"b"| == |"c"| == 1 && |"_raw_x"| == 6;
  }

  /** A lambda takes the whole test into its body: no run keeps such a line. */
  lemma LambdaNeverKept(sem: Sem, st: Stmt, s: State)
    requires IsSite(st) && SiteParts(st).expr.Lambda? && ParsesStmt(st) && StmtAvoids({Raw(st.target)}, st)
    ensures !SameOutcome({Raw(st.target)}, RunSite(sem, st, s), Exec(sem, 0, st, s))
  {
    PureSiteMeaning(sem, st, s);
  }
}
