/** scripts/narrow_mapping_guards.py over a small statement language: what the rewrite does
    to the meaning of a program. */
module NarrowGuards {
  import opened Wrappers

  // ---- the language ------------------------------------------------------------------------

  /** `Function` is what a lambda with this body evaluates to. */
  datatype Value =
    | EmptyDict | EmptyList | EmptyTuple
    | Object(cls: string, id: int) | Truth(truth: bool) | Function(body: Expr)

  /** `Call` is a deterministic operation; `Next` has a side effect and a new result each time; `Test` is
      `isinstance(arg, typeName)`; `IfExp` is `yes if cond else no`. Parentheses are written out. */
  datatype Expr =
    | Const(value: Value)
    | Var(name: string)
    | Next
    | Call(op: string, left: Expr, right: Expr)
    | Test(arg: Expr, typeName: string)
    | Paren(inner: Expr)
    | IfExp(yes: Expr, cond: Expr, no: Expr)
    | Lambda(body: Expr)

  /** `e if isinstance(test, t) else d`, for an `e` that needs no parentheses. */
  function Guard(e: Expr, test: Expr, t: string, d: Expr): Expr { IfExp(e, Test(test, t), d) }

  /** Nothing that follows such an expression can become part of it. */
  predicate Closed(e: Expr) { !e.IfExp? && !e.Lambda? }

  /** The tree that Python reads from the text of the expression: what a conditional takes first, and its
      condition, are closed; its last part goes as far as it can. */
  predicate Written(e: Expr) {
    match e
    case Const(_) => true
    case Var(_) => true
    case Next => true
    case Call(_, l, r) => Written(l) && Written(r)
    case Test(arg, _) => Written(arg)
    case Paren(inner) => Written(inner)
    case IfExp(yes, c, no) => Closed(yes) && Closed(c) && Written(yes) && Written(c) && Written(no)
    case Lambda(body) => Written(body)
  }

  /** `more` are the further targets of a chained assignment `x = y = e`. Python has no such statement with an
      annotation: see `Parses`. */
  datatype Stmt =
    | Assign(target: string, value: Expr, more: seq<string> := [])
    | Annotated(target: string, typeName: string, value: Expr, more: seq<string> := [])
    | If(cond: Expr, yes: Block, no: Block)
    | While(cond: Expr, body: Block)
    | Try(body: Block, handler: Block)

  datatype Block = End | Then(first: Stmt, rest: Block)

  /** The parts of Python's semantics that the rewrites do not depend on. A test raises, which is None, when its
      type is not defined or is none that `isinstance` takes. */
  datatype Sem = Sem(isInstance: (Value, string) -> Option<bool>, truthy: Value -> bool,
                     apply: (string, Value, Value) -> Option<Value>, input: nat -> Value)

  predicate Holds(sem: Sem, v: Value) { if v.Truth? then v.truth else sem.truthy(v) }

  /** The variables in scope and how often the outside world has been asked. */
  datatype State = State(vars: map<string, Value>, world: nat)

  /** The value of an expression, or None when evaluating it raises. */
  function Eval(sem: Sem, e: Expr, s: State): (Option<Value>, State) {
    match e
    case Const(v) => (Some(v), s)
    case Var(x) => (if x in s.vars then Some(s.vars[x]) else None, s)
    case Next => (Some(sem.input(s.world)), s.(world := s.world + 1))
    case Call(op, l, r) =>
      var (lv, s1) := Eval(sem, l, s);
      if lv.None? then (None, s1) else
        var (rv, s2) := Eval(sem, r, s1);
        if rv.None? then (None, s2) else (sem.apply(op, lv.value, rv.value), s2)
    case Test(arg, t) =>
      var (v, s1) := Eval(sem, arg, s);
      (if v.None? then None else Tested(sem.isInstance(v.value, t)), s1)
    case Paren(inner) => Eval(sem, inner, s)
    case IfExp(yes, c, no) =>
      var (v, s1) := Eval(sem, c, s);
      if v.None? then (None, s1) else if Holds(sem, v.value) then Eval(sem, yes, s1) else Eval(sem, no, s1)
    case Lambda(body) => (Some(Function(body)), s)
  }

  function Tested(b: Option<bool>): Option<Value> { if b.None? then None else Some(Truth(b.value)) }

  datatype Outcome = Done(state: State) | Raised(state: State) | OutOfFuel

  function Bind(vars: map<string, Value>, more: seq<string>, v: Value): map<string, Value> {
    if more == [] then vars else vars + map y | y in more :: v
  }

  /** All targets get the value of the one evaluation. */
  function Store(sem: Sem, x: string, more: seq<string>, e: Expr, s: State): Outcome {
    var (v, s1) := Eval(sem, e, s);
    if v.None? then Raised(s1) else Done(s1.(vars := Bind(s1.vars[x := v.value], more, v.value)))
  }

  /** `fuel` bounds the number of loop iterations. */
  function Exec(sem: Sem, fuel: nat, st: Stmt, s: State): Outcome
    decreases fuel, st, 0
  {
    match st
    case Assign(x, e, more) => Store(sem, x, more, e, s)
    case Annotated(x, _, e, more) => Store(sem, x, more, e, s)
    case If(c, yes, no) =>
      var (v, s1) := Eval(sem, c, s);
      if v.None? then Raised(s1)
      else if Holds(sem, v.value) then ExecAll(sem, fuel, yes, s1) else ExecAll(sem, fuel, no, s1)
    case While(c, body) =>
      var (v, s1) := Eval(sem, c, s);
      if v.None? then Raised(s1)
      else if !Holds(sem, v.value) then Done(s1)
      else if fuel == 0 then OutOfFuel
      else
        var o := ExecAll(sem, fuel - 1, body, s1);
        if o.Done? then Exec(sem, fuel - 1, st, o.state) else o
    case Try(body, handler) =>
      var o := ExecAll(sem, fuel, body, s);
      if o.Raised? then ExecAll(sem, fuel, handler, o.state) else o
  }

  function ExecAll(sem: Sem, fuel: nat, b: Block, s: State): Outcome
    decreases fuel, b, 1
  {
    match b
    case End => Done(s)
    case Then(st, rest) =>
      var o := Exec(sem, fuel, st, s);
      if o.Done? then ExecAll(sem, fuel, rest, o.state) else o
  }

  // ---- scopes ------------------------------------------------------------------------------

  /** Names that the block annotates.  Python rejects the whole program when such a name is
      also declared `global` or `nonlocal`. */
  function AnnotatedNames(b: Block): set<string> {
    match b
    case End => {}
    case Then(st, rest) => AnnotatedIn(st) + AnnotatedNames(rest)
  }

  function AnnotatedIn(st: Stmt): set<string> {
    match st
    case Assign(_, _, _) => {}
    case Annotated(x, _, _, _) => {x}
    case If(_, yes, no) => AnnotatedNames(yes) + AnnotatedNames(no)
    case While(_, body) => AnnotatedNames(body)
    case Try(body, handler) => AnnotatedNames(body) + AnnotatedNames(handler)
  }

  /** The annotations of the block, each a name with the text of its type, as often as they occur. */
  function Annotations(b: Block): multiset<(string, string)> {
    match b
    case End => multiset{}
    case Then(st, rest) => AnnotationsOf(st) + Annotations(rest)
  }

  function AnnotationsOf(st: Stmt): multiset<(string, string)> {
    match st
    case Assign(_, _, _) => multiset{}
    case Annotated(x, t, _, _) => multiset{(x, t)}
    case If(_, yes, no) => Annotations(yes) + Annotations(no)
    case While(_, body) => Annotations(body)
    case Try(body, handler) => Annotations(body) + Annotations(handler)
  }

  lemma {:induction false} AnnotatedIff(b: Block, x: string)
    ensures x in AnnotatedNames(b) <==> exists t :: (x, t) in Annotations(b)
    decreases b, 1
  {
    match b
    case End =>
    case Then(st, rest) =>
      AnnotatedInIff(st, x);
      AnnotatedIff(rest, x);
      InSum(AnnotationsOf(st), Annotations(rest), x);
  }

  lemma {:induction false} AnnotatedInIff(st: Stmt, x: string)
    ensures x in AnnotatedIn(st) <==> exists t :: (x, t) in AnnotationsOf(st)
    decreases st, 0
  {
    match st
    case Assign(_, _, _) =>
    case Annotated(y, t, _, _) => if x == y { assert (x, t) in AnnotationsOf(st); }
    case If(_, yes, no) =>
      AnnotatedIff(yes, x);
      AnnotatedIff(no, x);
      InSum(Annotations(yes), Annotations(no), x);
    case While(_, body) => AnnotatedIff(body, x);
    case Try(body, handler) =>
      AnnotatedIff(body, x);
      AnnotatedIff(handler, x);
      InSum(Annotations(body), Annotations(handler), x);
  }

  lemma InSum(a: multiset<(string, string)>, b: multiset<(string, string)>, x: string)
    ensures (exists t :: (x, t) in a + b) <==> (exists t :: (x, t) in a) || (exists t :: (x, t) in b)
  {
    if t :| (x, t) in a { assert (x, t) in a + b; }
    if t :| (x, t) in b { assert (x, t) in a + b; }
    if t :| (x, t) in a + b { assert (x, t) in a || (x, t) in b; }
  }

  /** How many brackets are open behind the text. */
  function Brackets(t: string): int {
    if t == "" then 0
    else
      var last, before := t[|t| - 1], Brackets(t[..|t| - 1]);
      if last == '[' then before + 1 else if last == ']' then before - 1 else before
  }

  /** The text can stand as an annotation: it has no comma outside of brackets. */
  predicate SingleType(t: string) { forall i :: 0 <= i < |t| && t[i] == ',' ==> Brackets(t[..i]) > 0 }

  lemma {:induction false} BracketsAre(t: string)
    ensures Brackets(t) + multiset(t)[']'] == multiset(t)['[']
  {
    if t != "" {
      BracketsAre(t[..|t| - 1]);
      assert t == t[..|t| - 1] + [t[|t| - 1]];
    }
  }

  /** Before every comma more brackets are opened than closed. */
  lemma SingleTypeIs(before: string, after: string, t: string)
    ensures multiset(before)['['] <= multiset(before)[']'] ==> !SingleType(before + "," + after)
    ensures (forall i :: 0 <= i < |t| && t[i] == ',' ==> multiset(t[..i])['['] > multiset(t[..i])[']']) ==> SingleType(t)
  {
    var u := before + "," + after;
    assert u[|before|] == ',' && u[..|before|] == before;
    BracketsAre(before);
    forall i | 0 <= i < |t| { BracketsAre(t[..i]); }
  }

  /** The program is one that Python reads: its expressions are as written, and an annotated assignment has one
      target and one type. */
  predicate Parses(b: Block) {
    match b
    case End => true
    case Then(st, rest) => ParsesStmt(st) && Parses(rest)
  }

  predicate ParsesStmt(st: Stmt) {
    match st
    case Assign(_, e, _) => Written(e)
    case Annotated(_, t, e, more) => Written(e) && more == [] && SingleType(t)
    case If(c, yes, no) => Written(c) && Parses(yes) && Parses(no)
    case While(c, body) => Written(c) && Parses(body)
    case Try(body, handler) => Parses(body) && Parses(handler)
  }

  /** One scope: the names it declares `global` or `nonlocal`, and its body. */
  datatype Program = Program(declared: set<string>, body: Block)

  predicate Compiles(p: Program) {
    AnnotatedNames(p.body) !! p.declared && Parses(p.body)
  }

  // ---- names -------------------------------------------------------------------------------

  function Raw(x: string): string { "_raw_" + x }

  predicate ExprAvoids(hidden: set<string>, e: Expr) {
    match e
    case Const(_) => true
    case Var(x) => x !in hidden
    case Next => true
    case Call(_, l, r) => ExprAvoids(hidden, l) && ExprAvoids(hidden, r)
    case Test(arg, _) => ExprAvoids(hidden, arg)
    case Paren(inner) => ExprAvoids(hidden, inner)
    case IfExp(yes, c, no) => ExprAvoids(hidden, yes) && ExprAvoids(hidden, c) && ExprAvoids(hidden, no)
    case Lambda(body) => ExprAvoids(hidden, body)
  }

  /** The program never mentions a name in `hidden`. */
  predicate Avoids(hidden: set<string>, b: Block) {
    match b
    case End => true
    case Then(st, rest) => StmtAvoids(hidden, st) && Avoids(hidden, rest)
  }

  predicate StmtAvoids(hidden: set<string>, st: Stmt) {
    match st
    case Assign(x, e, more) => x !in hidden && NoneIn(more, hidden) && ExprAvoids(hidden, e)
    case Annotated(x, _, e, more) => x !in hidden && NoneIn(more, hidden) && ExprAvoids(hidden, e)
    case If(c, yes, no) => ExprAvoids(hidden, c) && Avoids(hidden, yes) && Avoids(hidden, no)
    case While(c, body) => ExprAvoids(hidden, c) && Avoids(hidden, body)
    case Try(body, handler) => Avoids(hidden, body) && Avoids(hidden, handler)
  }

  predicate NoneIn(names: seq<string>, hidden: set<string>) { forall y :: y in names ==> y !in hidden }

  function NamesOf(e: Expr): set<string> {
    match e
    case Var(x) => {x}
    case Call(_, l, r) => NamesOf(l) + NamesOf(r)
    case Test(arg, _) => NamesOf(arg)
    case Paren(inner) => NamesOf(inner)
    case IfExp(yes, c, no) => NamesOf(yes) + NamesOf(c) + NamesOf(no)
    case Lambda(body) => NamesOf(body)
    case _ => {}
  }

  /** The variables that a program reads or assigns. */
  function Mentioned(b: Block): set<string> {
    match b
    case End => {}
    case Then(Assign(x, e, more), rest) => {x} + (set y | y in more) + NamesOf(e) + Mentioned(rest)
    case Then(Annotated(x, _, e, more), rest) => {x} + (set y | y in more) + NamesOf(e) + Mentioned(rest)
    case Then(If(c, yes, no), rest) => NamesOf(c) + Mentioned(yes) + Mentioned(no) + Mentioned(rest)
    case Then(While(c, body), rest) => NamesOf(c) + Mentioned(body) + Mentioned(rest)
    case Then(Try(body, handler), rest) => Mentioned(body) + Mentioned(handler) + Mentioned(rest)
  }

  lemma {:induction false} ExprAvoidsIff(hidden: set<string>, e: Expr)
    ensures ExprAvoids(hidden, e) <==> hidden !! NamesOf(e)
  {
    match e
    case Call(_, l, r) => ExprAvoidsIff(hidden, l); ExprAvoidsIff(hidden, r);
    case Test(arg, _) => ExprAvoidsIff(hidden, arg);
    case Paren(inner) => ExprAvoidsIff(hidden, inner);
    case IfExp(yes, c, no) => ExprAvoidsIff(hidden, yes); ExprAvoidsIff(hidden, c); ExprAvoidsIff(hidden, no);
    case Lambda(body) => ExprAvoidsIff(hidden, body);
    case _ =>
  }

  /** A program avoids the names that it does not mention, types and operations aside. */
  lemma {:induction false} AvoidsIff(hidden: set<string>, b: Block)
    ensures Avoids(hidden, b) <==> hidden !! Mentioned(b)
    decreases b
  {
    match b
    case End =>
    case Then(st, rest) =>
      AvoidsIff(hidden, rest);
      match st {
        case Assign(_, e, _) => ExprAvoidsIff(hidden, e);
        case Annotated(_, _, e, _) => ExprAvoidsIff(hidden, e);
        case If(c, yes, no) => ExprAvoidsIff(hidden, c); AvoidsIff(hidden, yes); AvoidsIff(hidden, no);
        case While(c, body) => ExprAvoidsIff(hidden, c); AvoidsIff(hidden, body);
        case Try(body, handler) => AvoidsIff(hidden, body); AvoidsIff(hidden, handler);
      }
  }

  predicate Pure(e: Expr) {
    match e
    case Const(_) => true
    case Var(_) => true
    case Next => false
    case Call(_, l, r) => Pure(l) && Pure(r)
    case Test(arg, _) => Pure(arg)
    case Paren(inner) => Pure(inner)
    case IfExp(yes, c, no) => Pure(yes) && Pure(c) && Pure(no)
    case Lambda(_) => true
  }

  // ---- the lines that the tool takes ---------------------------------------------------------

  predicate TypeChar(c: char) {
    'A' <= c <= 'Z' || 'a' <= c <= 'z' || '0' <= c <= '9' || c in {'_', '.', '[', ']', ',', ' '}
  }

  /** The text of a type that the pattern takes. */
  predicate TypeText(t: string) {
    t != "" && TypeChar(t[0]) && !('0' <= t[0] <= '9') && t[0] !in {'.', '[', ']', ',', ' '}
    && forall i :: 0 < i < |t| ==> TypeChar(t[i])
  }

  /** The type group of the pattern, `[A-Za-z_]` and then `[A-Za-z0-9_.\[\], ]*`. */
  lemma TypeTextIs(c: char, rest: string)
    ensures TypeText([c] + rest) <==>
      && ('A' <= c <= 'Z' || 'a' <= c <= 'z' || c == '_')
      && forall d :: d in rest ==> 'A' <= d <= 'Z' || 'a' <= d <= 'z' || '0' <= d <= '9' || d in "_.[], "
  {
    var t := [c] + rest;
    assert t[1..] == rest;
    assert (forall d :: d in rest ==> TypeChar(d)) <==> forall i :: 0 < i < |t| ==> TypeChar(t[i]) by {
      if forall d :: d in rest ==> TypeChar(d) {
        forall i | 0 < i < |t| ensures TypeChar(t[i]) { assert t[i] == rest[i - 1]; }
      }
      if forall i :: 0 < i < |t| ==> TypeChar(t[i]) {
        forall d | d in rest ensures TypeChar(d) {
          var k :| 0 <= k < |rest| && rest[k] == d;
          assert t[k + 1] == d;
        }
      }
    }
  }

  predicate IsEmpty(v: Value) { v == EmptyDict || v == EmptyList || v == EmptyTuple }

  predicate IsEmptyLiteral(e: Expr) { e.Const? && IsEmpty(e.value) }

  /** What Python reads from the text of `e` followed by ` if c else n`: an open expression takes the rest in. */
  function Attach(e: Expr, c: Expr, n: Expr): Expr {
    match e
    case IfExp(yes, cond, no) => IfExp(yes, cond, Attach(no, c, n))
    case Lambda(body) => Lambda(Attach(body, c, n))
    case _ => IfExp(e, c, n)
  }

  /** A text `expr if isinstance(arg, typeName) else default`, taken apart. */
  datatype Parts = Parts(expr: Expr, arg: Expr, typeName: string, default: Value)

  /** Whether the text of an expression ends like that, and in which parts. */
  function Split(e: Expr): (r: Option<Parts>)
    ensures r.Some? ==> IsEmpty(r.value.default) && TypeText(r.value.typeName)
  {
    match e
    case IfExp(yes, c, no) =>
      if c.Test? && TypeText(c.typeName) && IsEmptyLiteral(no) then Some(Parts(yes, c.arg, c.typeName, no.value))
      else
        var inner := Split(no);
        if inner.None? then None else Some(inner.value.(expr := IfExp(yes, c, inner.value.expr)))
    case Lambda(body) =>
      var inner := Split(body);
      if inner.None? then None else Some(inner.value.(expr := Lambda(inner.value.expr)))
    case _ => None
  }

  /** ` if isinstance(` occurs nowhere in the text. */
  predicate NoInnerTest(e: Expr) {
    match e
    case Const(_) => true
    case Var(_) => true
    case Next => true
    case Call(_, l, r) => NoInnerTest(l) && NoInnerTest(r)
    case Test(arg, _) => NoInnerTest(arg)
    case Paren(inner) => NoInnerTest(inner)
    case IfExp(yes, c, no) => !c.Test? && NoInnerTest(yes) && NoInnerTest(c) && NoInnerTest(no)
    case Lambda(body) => NoInnerTest(body)
  }

  /** The line matches the pattern of the tool, with the same text before `if` and in the test. That this is what
      the pattern does is `GuardPattern.PatternTakes`. */
  predicate IsSite(st: Stmt) {
    st.Assign? && st.more == [] && Split(st.value).Some? &&
    var p := Split(st.value).value;
    p.arg == p.expr && NoInnerTest(p.expr)
  }

  function SiteParts(st: Stmt): Parts
    requires IsSite(st)
  {
    Split(st.value).value
  }

  /** Python reads the line as the tool does: the repeated expression is closed. */
  predicate PlainSite(st: Stmt) { IsSite(st) && Closed(SiteParts(st).expr) }

  lemma {:induction false} SplitAttaches(e: Expr)
    requires Written(e) && Split(e).Some?
    ensures var p := Split(e).value;
      && e == Attach(p.expr, Test(p.arg, p.typeName), Const(p.default))
      && Written(p.expr) && Written(p.arg) && (Pure(e) ==> Pure(p.expr))
  {
    match e
    case IfExp(yes, c, no) => if !(c.Test? && TypeText(c.typeName) && IsEmptyLiteral(no)) { SplitAttaches(no); }
    case Lambda(body) => SplitAttaches(body);
  }

  lemma {:induction false} AttachSplits(e: Expr, arg: Expr, t: string, d: Value)
    requires IsEmpty(d) && TypeText(t)
    ensures Split(Attach(e, Test(arg, t), Const(d))) == Some(Parts(e, arg, t, d))
  {
    match e
    case IfExp(yes, c, no) => AttachSplits(no, arg, t, d);
    case Lambda(body) => AttachSplits(body, arg, t, d);
    case _ =>
  }

  function RawGuard(x: string, t: string, d: Value): Expr { Guard(Var(Raw(x)), Var(Raw(x)), t, Const(d)) }

  function FirstLine(st: Stmt): Stmt
    requires IsSite(st)
  {
    Annotated(Raw(st.target), "object", SiteParts(st).expr)
  }

  function SecondLine(st: Stmt): Stmt
    requires IsSite(st)
  {
    var p := SiteParts(st);
    Annotated(st.target, p.typeName, RawGuard(st.target, p.typeName, p.default))
  }

  /** The two statements that replace a site. */
  function NarrowSite(st: Stmt, rest: Block): Block
    requires IsSite(st)
  {
    Then(FirstLine(st), Then(SecondLine(st), rest))
  }

  function Narrow(b: Block): Block {
    match b
    case End => End
    case Then(st, rest) =>
      if IsSite(st) then NarrowSite(st, Narrow(rest)) else Then(NarrowInside(st), Narrow(rest))
  }

  function NarrowInside(st: Stmt): Stmt {
    match st
    case If(c, yes, no) => If(c, Narrow(yes), Narrow(no))
    case While(c, body) => While(c, Narrow(body))
    case Try(body, handler) => Try(Narrow(body), Narrow(handler))
    case _ => st
  }

  /** The targets of the rewritten sites. */
  function SiteNames(b: Block): set<string> {
    match b
    case End => {}
    case Then(st, rest) => SitesIn(st) + SiteNames(rest)
  }

  function SitesIn(st: Stmt): set<string> {
    match st
    case Assign(x, _, _) => if IsSite(st) then {x} else {}
    case Annotated(_, _, _, _) => {}
    case If(_, yes, no) => SiteNames(yes) + SiteNames(no)
    case While(_, body) => SiteNames(body)
    case Try(body, handler) => SiteNames(body) + SiteNames(handler)
  }

  predicate PureSites(b: Block) {
    match b
    case End => true
    case Then(st, rest) => PureSitesIn(st) && PureSites(rest)
  }

  predicate PureSitesIn(st: Stmt) {
    match st
    case Assign(_, _, _) => IsSite(st) ==> Pure(SiteParts(st).expr)
    case Annotated(_, _, _, _) => true
    case If(_, yes, no) => PureSites(yes) && PureSites(no)
    case While(_, body) => PureSites(body)
    case Try(body, handler) => PureSites(body) && PureSites(handler)
  }

  /** Python reads every line of the tool as the tool does. */
  predicate PlainSites(b: Block) {
    match b
    case End => true
    case Then(st, rest) => PlainSitesIn(st) && PlainSites(rest)
  }

  predicate PlainSitesIn(st: Stmt) {
    match st
    case Assign(_, _, _) => IsSite(st) ==> PlainSite(st)
    case Annotated(_, _, _, _) => true
    case If(_, yes, no) => PlainSites(yes) && PlainSites(no)
    case While(_, body) => PlainSites(body)
    case Try(body, handler) => PlainSites(body) && PlainSites(handler)
  }

  // ---- equality up to the temporaries -------------------------------------------------------

  /** Equal but for the names in `hidden`. */
  ghost predicate SameVisible(hidden: set<string>, a: State, b: State) {
    && a.world == b.world
    && forall x :: x !in hidden ==> (x in a.vars <==> x in b.vars) && (x in a.vars ==> a.vars[x] == b.vars[x])
  }

  ghost predicate SameOutcome(hidden: set<string>, a: Outcome, b: Outcome) {
    match (a, b)
    case (Done(s), Done(t)) => SameVisible(hidden, s, t)
    case (Raised(s), Raised(t)) => SameVisible(hidden, s, t)
    case (OutOfFuel, OutOfFuel) => true
    case _ => false
  }

  /** The temporaries of all sites are hidden. */
  ghost predicate Hides(hidden: set<string>, sites: set<string>) {
    forall x {:trigger Raw(x)} :: x in sites ==> Raw(x) in hidden
  }

  lemma {:induction false} EvalVisible(sem: Sem, hidden: set<string>, e: Expr, a: State, b: State)
    requires ExprAvoids(hidden, e) && SameVisible(hidden, a, b)
    ensures Eval(sem, e, a).0 == Eval(sem, e, b).0
    ensures SameVisible(hidden, Eval(sem, e, a).1, Eval(sem, e, b).1)
  {
    match e
    case Call(op, l, r) =>
      EvalVisible(sem, hidden, l, a, b);
      EvalVisible(sem, hidden, r, Eval(sem, l, a).1, Eval(sem, l, b).1);
    case Test(arg, _) => EvalVisible(sem, hidden, arg, a, b);
    case Paren(inner) => EvalVisible(sem, hidden, inner, a, b);
    case IfExp(yes, c, no) =>
      EvalVisible(sem, hidden, c, a, b);
      EvalVisible(sem, hidden, yes, Eval(sem, c, a).1, Eval(sem, c, b).1);
      EvalVisible(sem, hidden, no, Eval(sem, c, a).1, Eval(sem, c, b).1);
    case _ =>
  }

  lemma {:induction false} PureEval(sem: Sem, e: Expr, s: State)
    requires Pure(e)
    ensures Eval(sem, e, s).1 == s
  {
    match e
    case Call(op, l, r) =>
      PureEval(sem, l, s);
      PureEval(sem, r, s);
    case Test(arg, _) => PureEval(sem, arg, s);
    case Paren(inner) => PureEval(sem, inner, s);
    case IfExp(yes, c, no) =>
      PureEval(sem, c, s);
      PureEval(sem, yes, s);
      PureEval(sem, no, s);
    case _ =>
  }

  lemma {:induction false} EvalKeepsVars(sem: Sem, e: Expr, s: State)
    ensures Eval(sem, e, s).1.vars == s.vars && Eval(sem, e, s).1.world >= s.world
  {
    match e
    case Call(op, l, r) =>
      EvalKeepsVars(sem, l, s);
      EvalKeepsVars(sem, r, Eval(sem, l, s).1);
    case Test(arg, _) => EvalKeepsVars(sem, arg, s);
    case Paren(inner) => EvalKeepsVars(sem, inner, s);
    case IfExp(yes, c, no) =>
      EvalKeepsVars(sem, c, s);
      EvalKeepsVars(sem, yes, Eval(sem, c, s).1);
      EvalKeepsVars(sem, no, Eval(sem, c, s).1);
    case _ =>
  }

  lemma RawDiffers(x: string)
    ensures Raw(x) != x
  {
    assert |Raw(x)| == |x| + 5;
  }

  // ---- one line --------------------------------------------------------------------------------

  /** What the guard on a temporary that holds `v` does. */
  function Narrowed(sem: Sem, v: Value, t: string, d: Value): Option<Value> {
    var b := sem.isInstance(v, t);
    if b.None? then None else Some(if b.value then v else d)
  }

  lemma RawGuardValue(sem: Sem, x: string, t: string, d: Value, s: State)
    requires Raw(x) in s.vars
    ensures Eval(sem, RawGuard(x, t, d), s) == (Narrowed(sem, s.vars[Raw(x)], t, d), s)
  {
    assert Eval(sem, Var(Raw(x)), s) == (Some(s.vars[Raw(x)]), s);
    assert Eval(sem, Const(d), s) == (Some(d), s);
  }

  /** The two replacement statements, run from `s`. */
  function RunSite(sem: Sem, st: Stmt, s: State): Outcome
    requires IsSite(st)
  {
    ExecAll(sem, 0, NarrowSite(st, End), s)
  }

  /** What the replacement statements compute: one evaluation, then the test. */
  lemma SiteRuns(sem: Sem, fuel: nat, st: Stmt, rest: Block, s: State)
    requires IsSite(st)
    ensures var p := SiteParts(st); var (v, s1) := Eval(sem, p.expr, s);
      ExecAll(sem, fuel, NarrowSite(st, rest), s) ==
      if v.None? then Raised(s1) else
        var s2 := s1.(vars := s1.vars[Raw(st.target) := v.value]);
        var w := Narrowed(sem, v.value, p.typeName, p.default);
        if w.None? then Raised(s2) else ExecAll(sem, fuel, rest, s2.(vars := s2.vars[st.target := w.value]))
  {
    RawDiffers(st.target);
    var p := SiteParts(st);
    var (v, s1) := Eval(sem, p.expr, s);
    if v.Some? {
      var s2 := s1.(vars := s1.vars[Raw(st.target) := v.value]);
      assert Exec(sem, fuel, FirstLine(st), s) == Done(s2);
      RawGuardValue(sem, st.target, p.typeName, p.default, s2);
      var w := Narrowed(sem, v.value, p.typeName, p.default);
      assert Exec(sem, fuel, SecondLine(st), s2) ==
        if w.None? then Raised(s2) else Done(s2.(vars := s2.vars[st.target := w.value]));
    } else {
      assert Exec(sem, fuel, FirstLine(st), s) == Raised(s1);
    }
    assert ExecAll(sem, fuel, Then(FirstLine(st), Then(SecondLine(st), rest)), s) ==
      var o := Exec(sem, fuel, FirstLine(st), s);
      if o.Done? then ExecAll(sem, fuel, Then(SecondLine(st), rest), o.state) else o;
  }

  /** A plain line keeps its meaning exactly when evaluating the expression a second time would have given the same
      value and no further effect, or was never needed. */
  lemma SiteMeaning(sem: Sem, st: Stmt, s: State)
    requires PlainSite(st) && Written(st.value) && StmtAvoids({Raw(st.target)}, st)
    ensures var p := SiteParts(st); var (v, s1) := Eval(sem, p.expr, s);
      SameOutcome({Raw(st.target)}, RunSite(sem, st, s), Exec(sem, 0, st, s)) <==>
      v.None? || sem.isInstance(v.value, p.typeName) != Some(true) || Eval(sem, p.expr, s1) == (v, s1)
  {
    SiteRuns(sem, 0, st, End, s);
    RawDiffers(st.target);
    SplitAttaches(st.value);
    var p := SiteParts(st);
    var (v, s1) := Eval(sem, p.expr, s);
    GuardValue(sem, p.expr, p.typeName, p.default, s);
    if v.Some? {
      EvalKeepsVars(sem, p.expr, s);
      EvalKeepsVars(sem, p.expr, s1);
      var (w, s2) := Eval(sem, p.expr, s1);
      SameAfter(st.target, s1, v.value, v.value, s1, v.value);
      if w.Some? { SameAfter(st.target, s1, v.value, v.value, s2, w.value); }
      SameAfter(st.target, s1, v.value, p.default, s1, p.default);
    }
  }

  /** Storing `a` next to the temporary, and storing `b`. */
  lemma SameAfter(x: string, s: State, raw: Value, a: Value, t: State, b: Value)
    requires s.vars == t.vars
    ensures SameVisible({Raw(x)}, s.(vars := s.vars[Raw(x) := raw][x := a]), t.(vars := t.vars[x := b]))
      <==> s.world == t.world && a == b
  {
    RawDiffers(x);
    assert x in s.vars[Raw(x) := raw][x := a] && x in t.vars[x := b];
  }

  lemma GuardValue(sem: Sem, e: Expr, t: string, d: Value, s: State)
    ensures Eval(sem, Guard(e, e, t, Const(d)), s) ==
      var (v, s1) := Eval(sem, e, s);
      if v.None? || sem.isInstance(v.value, t).None? then (None, s1)
      else if sem.isInstance(v.value, t).value then Eval(sem, e, s1) else (Some(d), s1)
  {
    assert Eval(sem, Const(d), Eval(sem, e, s).1) == (Some(d), Eval(sem, e, s).1);
  }

  // ---- lines that Python reads differently -------------------------------------------------------

  /** Where the evaluation of an expression ends: with an exception, in the part of a conditional before its `if`,
      at a lambda, or in its last part. */
  datatype Route = Raises | Early(value: Value) | Closure | Last

  function Follow(sem: Sem, e: Expr, s: State): Route {
    match e
    case IfExp(yes, c, no) =>
      var v := Eval(sem, c, s).0;
      if v.None? then Raises
      else if Holds(sem, v.value) then
        var w := Eval(sem, yes, s).0;
        if w.None? then Raises else Early(w.value)
      else Follow(sem, no, s)
    case Lambda(_) => Closure
    case _ => if Eval(sem, e, s).0.None? then Raises else Last
  }

  /** In Python's reading the test belongs to the last part. So the line is kept unless an earlier part of a
      conditional gives a value that the test would have replaced or refused, or the test has gone into the body
      of a lambda. A closed expression is its own last part. */
  predicate SiteKept(sem: Sem, st: Stmt, s: State)
    requires IsSite(st)
  {
    var p := SiteParts(st);
    match Follow(sem, p.expr, s)
    case Early(v) => Narrowed(sem, v, p.typeName, p.default) == Some(v)
    case Closure => false
    case _ => true
  }

  lemma {:induction false} AttachDiffers(e: Expr, c: Expr, n: Expr)
    ensures Attach(e, c, n) != e
  {
    match e
    case IfExp(_, _, no) => AttachDiffers(no, c, n);
    case Lambda(body) => AttachDiffers(body, c, n);
    case _ =>
  }

  /** The value that Python's reading gives, for a pure expression `e` of which `whole` is known to have the value. */
  lemma {:induction false} AttachValue(sem: Sem, e: Expr, whole: Expr, t: string, d: Value, s: State)
    requires Pure(e) && Pure(whole) && Eval(sem, whole, s).0 == Eval(sem, e, s).0
    ensures var v := Eval(sem, e, s).0; var (w, s1) := Eval(sem, Attach(e, Test(whole, t), Const(d)), s);
      match Follow(sem, e, s)
      case Raises => v == None && w == None && s1 == s
      case Early(u) => v == Some(u) && w == v && s1 == s
      case Closure => v.Some? && v.value.Function? && w.Some? && w.value.Function? && w != v && s1 == s
      case Last => v.Some? && w == Narrowed(sem, v.value, t, d) && s1 == s
  {
    PureEval(sem, e, s);
    PureEval(sem, whole, s);
    assert Eval(sem, Const(d), s) == (Some(d), s);
    match e
    case IfExp(yes, c, no) =>
      PureEval(sem, c, s);
      PureEval(sem, yes, s);
      var v := Eval(sem, c, s).0;
      if v.Some? && !Holds(sem, v.value) { AttachValue(sem, no, whole, t, d, s); }
    case Lambda(body) => AttachDiffers(body, Test(whole, t), Const(d));
    case _ =>
  }

  /** A pure line, read by Python in whatever way, keeps its meaning in a run exactly then. */
  lemma PureSiteMeaning(sem: Sem, st: Stmt, s: State)
    requires IsSite(st) && Written(st.value) && Pure(SiteParts(st).expr) && StmtAvoids({Raw(st.target)}, st)
    ensures SameOutcome({Raw(st.target)}, RunSite(sem, st, s), Exec(sem, 0, st, s)) <==> SiteKept(sem, st, s)
  {
    var p := SiteParts(st);
    SiteRuns(sem, 0, st, End, s);
    RawDiffers(st.target);
    SplitAttaches(st.value);
    PureEval(sem, p.expr, s);
    AttachValue(sem, p.expr, p.expr, p.typeName, p.default, s);
    var o, n := Exec(sem, 0, st, s), RunSite(sem, st, s);
    if o.Done? && n.Done? { assert st.target in o.state.vars && st.target in n.state.vars; }
  }

  // ---- whole programs: narrowing -------------------------------------------------------------

  /** Every rewritten line that the run comes to is kept there. */
  predicate RunKept(sem: Sem, fuel: nat, b: Block, s: State)
    decreases fuel, b, 1
  {
    match b
    case End => true
    case Then(st, rest) =>
      RunKeptIn(sem, fuel, st, s) &&
      var o := Exec(sem, fuel, st, s);
      o.Done? ==> RunKept(sem, fuel, rest, o.state)
  }

  predicate RunKeptIn(sem: Sem, fuel: nat, st: Stmt, s: State)
    decreases fuel, st, 0
  {
    match st
    case Assign(_, _, _) => IsSite(st) ==> SiteKept(sem, st, s)
    case Annotated(_, _, _, _) => true
    case If(c, yes, no) =>
      var (v, s1) := Eval(sem, c, s);
      v.Some? ==> if Holds(sem, v.value) then RunKept(sem, fuel, yes, s1) else RunKept(sem, fuel, no, s1)
    case While(c, body) =>
      var (v, s1) := Eval(sem, c, s);
      v.Some? && Holds(sem, v.value) && fuel > 0 ==>
        RunKept(sem, fuel - 1, body, s1) &&
        var o := ExecAll(sem, fuel - 1, body, s1);
        o.Done? ==> RunKeptIn(sem, fuel - 1, st, o.state)
    case Try(body, handler) =>
      RunKept(sem, fuel, body, s) &&
      var o := ExecAll(sem, fuel, body, s);
      o.Raised? ==> RunKept(sem, fuel, handler, o.state)
  }

  /** Plain lines are kept in every run. */
  lemma {:induction false} PlainRunsKept(sem: Sem, fuel: nat, b: Block, s: State)
    requires PlainSites(b)
    ensures RunKept(sem, fuel, b, s)
    decreases fuel, b, 1
  {
    match b
    case End =>
    case Then(st, rest) =>
      PlainRunsKeptIn(sem, fuel, st, s);
      var o := Exec(sem, fuel, st, s);
      if o.Done? { PlainRunsKept(sem, fuel, rest, o.state); }
  }

  lemma {:induction false} PlainRunsKeptIn(sem: Sem, fuel: nat, st: Stmt, s: State)
    requires PlainSitesIn(st)
    ensures RunKeptIn(sem, fuel, st, s)
    decreases fuel, st, 0
  {
    match st
    case Assign(_, _, _) =>
    case Annotated(_, _, _, _) =>
    case If(c, yes, no) =>
      PlainRunsKept(sem, fuel, yes, Eval(sem, c, s).1);
      PlainRunsKept(sem, fuel, no, Eval(sem, c, s).1);
    case While(c, body) =>
      if fuel > 0 {
        var s1 := Eval(sem, c, s).1;
        PlainRunsKept(sem, fuel - 1, body, s1);
        var o := ExecAll(sem, fuel - 1, body, s1);
        if o.Done? { PlainRunsKeptIn(sem, fuel - 1, st, o.state); }
      }
    case Try(body, handler) =>
      PlainRunsKept(sem, fuel, body, s);
      var o := ExecAll(sem, fuel, body, s);
      if o.Raised? { PlainRunsKept(sem, fuel, handler, o.state); }
  }

  /** Where the line is kept, the single evaluation gives what Python's reading of the line gave. */
  lemma PureSiteRuns(sem: Sem, fuel: nat, hidden: set<string>, st: Stmt, rest: Block, s: State, t: State)
    requires IsSite(st) && ParsesStmt(st) && Pure(SiteParts(st).expr) && SiteKept(sem, st, s)
    requires StmtAvoids(hidden, st) && Raw(st.target) in hidden && SameVisible(hidden, s, t)
    ensures var o := Exec(sem, fuel, st, s);
      if o.Done? then
        exists u :: SameVisible(hidden, o.state, u)
          && ExecAll(sem, fuel, NarrowSite(st, rest), t) == ExecAll(sem, fuel, rest, u)
      else SameOutcome(hidden, o, ExecAll(sem, fuel, NarrowSite(st, rest), t))
  {
    var p := SiteParts(st);
    SiteRuns(sem, fuel, st, rest, t);
    SplitAttaches(st.value);
    AttachAvoids(hidden, p.expr, Test(p.expr, p.typeName), Const(p.default));
    EvalVisible(sem, hidden, p.expr, s, t);
    PureEval(sem, p.expr, s);
    PureEval(sem, p.expr, t);
    RawDiffers(st.target);
    AttachValue(sem, p.expr, p.expr, p.typeName, p.default, s);
    var o := Exec(sem, fuel, st, s);
    if o.Done? {
      var v := Eval(sem, p.expr, s).0.value;
      var w := Narrowed(sem, v, p.typeName, p.default).value;
      var u := t.(vars := t.vars[Raw(st.target) := v][st.target := w]);
      assert o == Done(s.(vars := s.vars[st.target := w]));
      assert SameVisible(hidden, o.state, u);
    }
  }

  lemma {:induction false} AttachAvoids(hidden: set<string>, e: Expr, c: Expr, n: Expr)
    ensures ExprAvoids(hidden, Attach(e, c, n)) <==> ExprAvoids(hidden, e) && ExprAvoids(hidden, c) && ExprAvoids(hidden, n)
  {
    match e
    case IfExp(yes, cond, no) =>
      AttachAvoids(hidden, no, c, n);
      assert Attach(e, c, n) == IfExp(yes, cond, Attach(no, c, n));
    case Lambda(body) =>
      AttachAvoids(hidden, body, c, n);
      assert Attach(e, c, n) == Lambda(Attach(body, c, n));
    case _ =>
      assert Attach(e, c, n) == IfExp(e, c, n);
  }

  lemma {:induction false} NarrowRuns(sem: Sem, fuel: nat, hidden: set<string>, b: Block, s: State, t: State)
    requires Parses(b) && Avoids(hidden, b) && Hides(hidden, SiteNames(b)) && PureSites(b)
    requires RunKept(sem, fuel, b, s) && SameVisible(hidden, s, t)
    ensures SameOutcome(hidden, ExecAll(sem, fuel, b, s), ExecAll(sem, fuel, Narrow(b), t))
    decreases fuel, b, 1
  {
    match b
    case End =>
    case Then(st, rest) =>
      var o := Exec(sem, fuel, st, s);
      if IsSite(st) {
        assert st.target in SiteNames(b);
        PureSiteRuns(sem, fuel, hidden, st, Narrow(rest), s, t);
        if o.Done? {
          var u :| SameVisible(hidden, o.state, u)
                   && ExecAll(sem, fuel, NarrowSite(st, Narrow(rest)), t) == ExecAll(sem, fuel, Narrow(rest), u);
          NarrowRuns(sem, fuel, hidden, rest, o.state, u);
        }
      } else {
        NarrowInsideRuns(sem, fuel, hidden, st, s, t);
        var n := Exec(sem, fuel, NarrowInside(st), t);
        if o.Done? { NarrowRuns(sem, fuel, hidden, rest, o.state, n.state); }
      }
  }

  lemma {:induction false} NarrowInsideRuns(sem: Sem, fuel: nat, hidden: set<string>, st: Stmt, s: State, t: State)
    requires ParsesStmt(st) && StmtAvoids(hidden, st) && Hides(hidden, SitesIn(st)) && PureSitesIn(st) && !IsSite(st)
    requires RunKeptIn(sem, fuel, st, s) && SameVisible(hidden, s, t)
    ensures SameOutcome(hidden, Exec(sem, fuel, st, s), Exec(sem, fuel, NarrowInside(st), t))
    decreases fuel, st, 0
  {
    match st
    case Assign(x, e, _) => EvalVisible(sem, hidden, e, s, t);
    case Annotated(x, _, e, _) => EvalVisible(sem, hidden, e, s, t);
    case If(c, yes, no) =>
      EvalVisible(sem, hidden, c, s, t);
      var (v, s1) := Eval(sem, c, s);
      if v.Some? {
        if Holds(sem, v.value) { NarrowRuns(sem, fuel, hidden, yes, s1, Eval(sem, c, t).1); }
        else { NarrowRuns(sem, fuel, hidden, no, s1, Eval(sem, c, t).1); }
      }
    case While(c, body) =>
      EvalVisible(sem, hidden, c, s, t);
      var (v, s1) := Eval(sem, c, s);
      if v.Some? && Holds(sem, v.value) && fuel > 0 {
        var t1 := Eval(sem, c, t).1;
        NarrowRuns(sem, fuel - 1, hidden, body, s1, t1);
        var o, n := ExecAll(sem, fuel - 1, body, s1), ExecAll(sem, fuel - 1, Narrow(body), t1);
        if o.Done? { NarrowInsideRuns(sem, fuel - 1, hidden, st, o.state, n.state); }
      }
    case Try(body, handler) =>
      NarrowRuns(sem, fuel, hidden, body, s, t);
      var o, n := ExecAll(sem, fuel, body, s), ExecAll(sem, fuel, Narrow(body), t);
      if o.Raised? { NarrowRuns(sem, fuel, hidden, handler, o.state, n.state); }
  }

  function RawNames(names: set<string>): set<string> {
    set x | x in names :: Raw(x)
  }

  lemma {:induction false} NarrowAnnotates(b: Block)
    ensures AnnotatedNames(Narrow(b)) == AnnotatedNames(b) + SiteNames(b) + RawNames(SiteNames(b))
    decreases b, 1
  {
    match b
    case End =>
    case Then(st, rest) =>
      NarrowAnnotates(rest);
      RawUnion(SitesIn(st), SiteNames(rest));
      if IsSite(st) {
        assert RawNames({st.target}) == {Raw(st.target)};
        assert AnnotatedNames(NarrowSite(st, Narrow(rest))) ==
               {Raw(st.target)} + ({st.target} + AnnotatedNames(Narrow(rest))) by {
          assert AnnotatedNames(Then(SecondLine(st), Narrow(rest))) == {st.target} + AnnotatedNames(Narrow(rest));
        }
      } else {
        NarrowInsideAnnotates(st);
      }
  }

  lemma {:induction false} NarrowInsideAnnotates(st: Stmt)
    requires !IsSite(st)
    ensures AnnotatedIn(NarrowInside(st)) == AnnotatedIn(st) + SitesIn(st) + RawNames(SitesIn(st))
    decreases st, 0
  {
    match st
    case Assign(_, _, _) =>
    case Annotated(_, _, _, _) =>
    case If(_, yes, no) =>
      NarrowAnnotates(yes);
      NarrowAnnotates(no);
      RawUnion(SiteNames(yes), SiteNames(no));
    case While(_, body) => NarrowAnnotates(body);
    case Try(body, handler) =>
      NarrowAnnotates(body);
      NarrowAnnotates(handler);
      RawUnion(SiteNames(body), SiteNames(handler));
  }

  /** For each site, its temporary as an object and its target with the type of the test. */
  function Added(b: Block): multiset<(string, string)> {
    match b
    case End => multiset{}
    case Then(st, rest) => AddedFor(st) + Added(rest)
  }

  function AddedFor(st: Stmt): multiset<(string, string)> {
    match st
    case Assign(x, _, _) =>
      if IsSite(st) then multiset{("_raw_" + x, "object"), (x, SiteParts(st).typeName)} else multiset{}
    case Annotated(_, _, _, _) => multiset{}
    case If(_, yes, no) => Added(yes) + Added(no)
    case While(_, body) => Added(body)
    case Try(body, handler) => Added(body) + Added(handler)
  }

  /** These annotations are added, and none is lost. */
  lemma {:induction false} NarrowAdds(b: Block)
    ensures Annotations(Narrow(b)) == Annotations(b) + Added(b)
    decreases b, 1
  {
    match b
    case End =>
    case Then(st, rest) =>
      NarrowAdds(rest);
      if IsSite(st) { SiteAdds(st, Narrow(rest)); } else { NarrowInsideAdds(st); }
  }

  lemma SiteAdds(st: Stmt, rest: Block)
    requires IsSite(st)
    ensures Annotations(NarrowSite(st, rest)) == AddedFor(st) + Annotations(rest)
  {
    assert Annotations(Then(SecondLine(st), rest)) == AnnotationsOf(SecondLine(st)) + Annotations(rest);
  }

  lemma {:induction false} NarrowInsideAdds(st: Stmt)
    requires !IsSite(st)
    ensures AnnotationsOf(NarrowInside(st)) == AnnotationsOf(st) + AddedFor(st)
    decreases st, 0
  {
    match st
    case Assign(_, _, _) =>
    case Annotated(_, _, _, _) =>
    case If(_, yes, no) => { NarrowAdds(yes); NarrowAdds(no); }
    case While(_, body) => NarrowAdds(body);
    case Try(body, handler) => { NarrowAdds(body); NarrowAdds(handler); }
  }

  lemma RawUnion(a: set<string>, b: set<string>)
    ensures RawNames(a + b) == RawNames(a) + RawNames(b)
  {
  }

  /** Running a whole scope; None stands for Python's SyntaxError. */
  function Run(sem: Sem, fuel: nat, p: Program, s: State): Option<Outcome> {
    if Compiles(p) then Some(ExecAll(sem, fuel, p.body, s)) else None
  }

  function NarrowProgram(p: Program): Program { p.(body := Narrow(p.body)) }

  lemma RawGuardWritten(x: string, t: string, d: Value)
    ensures Written(RawGuard(x, t, d))
  {
    assert Written(Test(Var(Raw(x)), t)) && Written(Const(d));
  }

  lemma LinesParse(st: Stmt)
    requires IsSite(st) && Written(SiteParts(st).expr)
    ensures ParsesStmt(FirstLine(st))
    ensures ParsesStmt(SecondLine(st)) <==> SingleType(SiteParts(st).typeName)
  {
    RawGuardWritten(st.target, SiteParts(st).typeName, SiteParts(st).default);
    assert forall i :: 0 <= i < |"object"| ==> "object"[i] != ',';
  }

  /** Every rewritten line tests for something that can stand as an annotation. */
  predicate SingleTypes(b: Block) {
    match b
    case End => true
    case Then(st, rest) => SingleTypesIn(st) && SingleTypes(rest)
  }

  predicate SingleTypesIn(st: Stmt) {
    match st
    case Assign(_, _, _) => IsSite(st) ==> SingleType(SiteParts(st).typeName)
    case Annotated(_, _, _, _) => true
    case If(_, yes, no) => SingleTypes(yes) && SingleTypes(no)
    case While(_, body) => SingleTypes(body)
    case Try(body, handler) => SingleTypes(body) && SingleTypes(handler)
  }

  /** The lines of a program that the tool takes, at any depth. */
  function Sites(b: Block): (sites: set<Stmt>)
    ensures forall st :: st in sites ==> IsSite(st)
  {
    match b
    case End => {}
    case Then(If(_, yes, no), rest) => Sites(yes) + Sites(no) + Sites(rest)
    case Then(While(_, body), rest) => Sites(body) + Sites(rest)
    case Then(Try(body, handler), rest) => Sites(body) + Sites(handler) + Sites(rest)
    case Then(st, rest) => (if IsSite(st) then {st} else {}) + Sites(rest)
  }

  /** The conditions on a program are conditions on these lines. */
  lemma {:induction false} SitesDecide(b: Block)
    ensures PureSites(b) <==> forall st :: st in Sites(b) ==> Pure(SiteParts(st).expr)
    ensures PlainSites(b) <==> forall st :: st in Sites(b) ==> PlainSite(st)
    ensures SingleTypes(b) <==> forall st :: st in Sites(b) ==> SingleType(SiteParts(st).typeName)
    decreases b
  {
    match b
    case End =>
    case Then(st, rest) =>
      SitesDecide(rest);
      match st {
        case If(_, yes, no) => SitesDecide(yes); SitesDecide(no);
        case While(_, body) => SitesDecide(body);
        case Try(body, handler) => SitesDecide(body); SitesDecide(handler);
        case _ =>
      }
  }

  lemma {:induction false} SitesNamed(b: Block, x: string)
    ensures x in SiteNames(b) <==> exists st :: st in Sites(b) && st.target == x
    decreases b
  {
    match b
    case End =>
    case Then(st, rest) =>
      SitesNamed(rest, x);
      match st {
        case If(_, yes, no) => SitesNamed(yes, x); SitesNamed(no, x);
        case While(_, body) => SitesNamed(body, x);
        case Try(body, handler) => SitesNamed(body, x); SitesNamed(handler, x);
        case _ =>
      }
  }

  lemma {:induction false} NarrowParses(b: Block)
    requires Parses(b)
    ensures Parses(Narrow(b)) <==> SingleTypes(b)
    decreases b, 1
  {
    match b
    case End =>
    case Then(st, rest) =>
      NarrowParses(rest);
      if IsSite(st) {
        SplitAttaches(st.value);
        LinesParse(st);
        assert Parses(Then(SecondLine(st), Narrow(rest))) <==> ParsesStmt(SecondLine(st)) && Parses(Narrow(rest));
      } else {
        NarrowInsideParses(st);
      }
  }

  lemma {:induction false} NarrowInsideParses(st: Stmt)
    requires ParsesStmt(st) && !IsSite(st)
    ensures ParsesStmt(NarrowInside(st)) <==> SingleTypesIn(st)
    decreases st, 0
  {
    match st
    case If(_, yes, no) => { NarrowParses(yes); NarrowParses(no); }
    case While(_, body) => NarrowParses(body);
    case Try(body, handler) => { NarrowParses(body); NarrowParses(handler); }
    case _ =>
  }

  /** Both programs run, and every run of the two in which each of the `types` can be tested ends alike but for the
      names in `hidden`. */
  ghost predicate SameMeaning(hidden: set<string>, types: set<string>, p: Program, q: Program) {
    forall sem, fuel: nat, s :: Testable(sem, types) ==>
      var a, b := Run(sem, fuel, p, s), Run(sem, fuel, q, s);
      a.Some? && b.Some? && SameOutcome(hidden, a.value, b.value)
  }

  /** No test for one of the types raises. */
  ghost predicate Testable(sem: Sem, types: set<string>) {
    forall v, t :: t in types ==> sem.isInstance(v, t).Some?
  }

  /** The temporaries that narrowing adds to the program. */
  function Temporaries(p: Program): set<string> { RawNames(SiteNames(p.body)) }

  /** The annotations that the tool writes are Python: no rewritten name and no temporary is declared `global` or
      `nonlocal`, and no test names several types or has a comma behind its type. */
  predicate MayAnnotate(p: Program) {
    SiteNames(p.body) + Temporaries(p) !! p.declared && SingleTypes(p.body)
  }

  lemma NarrowedCompiles(p: Program)
    requires Compiles(p)
    ensures Compiles(NarrowProgram(p)) <==> MayAnnotate(p)
  {
    NarrowAnnotates(p.body);
    NarrowParses(p.body);
  }

  lemma SomeRun() returns (sem: Sem, s: State)
    ensures forall types :: Testable(sem, types)
  {
    sem := Sem((v, t) => Some(true), v => true, (o, v, w) => Some(v), n => EmptyDict);
    s := State(map[], 0);
  }

  /** Narrowing a program with pure sites, which does not use the temporaries itself. When Python reads every
      rewritten line as the tool does, it keeps the meaning exactly when the annotations are Python. In general it
      keeps it only then, and it does so if every run keeps the lines that it comes to. */
  lemma NarrowMeaning(p: Program)
    requires Compiles(p) && Avoids(Temporaries(p), p.body) && PureSites(p.body)
    ensures PlainSites(p.body) ==> (SameMeaning(Temporaries(p), {}, p, NarrowProgram(p)) <==> MayAnnotate(p))
    ensures SameMeaning(Temporaries(p), {}, p, NarrowProgram(p)) ==> MayAnnotate(p)
    ensures MayAnnotate(p) && (forall sem, fuel: nat, s :: RunKept(sem, fuel, p.body, s)) ==>
      SameMeaning(Temporaries(p), {}, p, NarrowProgram(p))
  {
    NarrowedCompiles(p);
    if !MayAnnotate(p) {
      var sem, s := SomeRun();
      assert Run(sem, 0, NarrowProgram(p), s).None?;
    }
    if PlainSites(p.body) {
      forall sem, fuel: nat, s ensures RunKept(sem, fuel, p.body, s) { PlainRunsKept(sem, fuel, p.body, s); }
    }
    if MayAnnotate(p) && (forall sem, fuel: nat, s :: RunKept(sem, fuel, p.body, s)) {
      forall sem, fuel: nat, s
        ensures SameOutcome(Temporaries(p), ExecAll(sem, fuel, p.body, s), ExecAll(sem, fuel, Narrow(p.body), s))
      {
        NarrowRuns(sem, fuel, Temporaries(p), p.body, s, s);
      }
    }
  }
}
