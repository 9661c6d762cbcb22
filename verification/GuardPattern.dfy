/** The pattern of scripts/narrow_mapping_guards.py over the words of a line, and which lines it takes when Python's
    grammar has produced them. */
module GuardPattern {
  import opened NarrowGuards
  import opened Wrappers

  /** `Op(f)` is `f(` and `IsInst` is `isinstance(`. */
  datatype Token =
    | Lit(value: Value) | Id(name: string) | Input | Type(text: string)
    | Op(op: string) | IsInst | LPar | RPar | Comma | IfWord | ElseWord | LambdaWord | Eq | Colon
    | Keyword(word: string)

  function Spelled(e: Expr): (ts: seq<Token>)
    ensures ts != []
  {
    match e
    case Const(v) => [Lit(v)]
    case Var(x) => [Id(x)]
    case Next => [Input]
    case Call(op, l, r) => [Op(op)] + Spelled(l) + [Comma] + Spelled(r) + [RPar]
    case Test(arg, t) => [IsInst] + Spelled(arg) + [Comma, Type(t), RPar]
    case Paren(inner) => [LPar] + Spelled(inner) + [RPar]
    case IfExp(yes, c, no) => Spelled(yes) + [IfWord] + Spelled(c) + [ElseWord] + Spelled(no)
    case Lambda(body) => [LambdaWord] + Spelled(body)
  }

  // ---- brackets ----------------------------------------------------------------------------------

  function Step(t: Token): int {
    if t.Op? || t.IsInst? || t.LPar? then 1 else if t.RPar? then -1 else 0
  }

  /** How many brackets are open after the words. */
  function Depth(ts: seq<Token>): int {
    if ts == [] then 0 else Step(ts[0]) + Depth(ts[1..])
  }

  lemma {:induction false} DepthAppend(a: seq<Token>, b: seq<Token>)
    ensures Depth(a + b) == Depth(a) + Depth(b)
  {
    if a == [] {
      assert a + b == b;
    } else {
      assert (a + b)[1..] == a[1..] + b;
      DepthAppend(a[1..], b);
    }
  }

  lemma DepthOne(t: Token)
    ensures Depth([t]) == Step(t)
  {
    assert [t][1..] == [];
  }

  /** Where a word of `a + b` lies. */
  lemma Where(a: seq<Token>, b: seq<Token>, p: seq<Token>, t: Token, r: seq<Token>) returns (rest: seq<Token>)
    requires a + b == p + [t] + r
    ensures if |p| < |a| then a == p + [t] + rest && r == rest + b else p == a + rest && b == rest + [t] + r
  {
    if |p| < |a| {
      rest := a[|p| + 1..];
      assert forall i :: 0 <= i < |a| ==> (a + b)[i] == a[i];
      assert a == p + [t] + rest;
      assert r == (a + b)[|p| + 1..] == rest + b;
    } else {
      rest := p[|a|..];
      assert p == (a + b)[..|p|] == a + rest;
      assert b == (a + b)[|a|..] == (p + [t] + r)[|a|..] == rest + [t] + r;
    }
  }

  /** Read from depth `d`: brackets never close below zero, commas are inside brackets, and so are the `if`s of a
      closed text. */
  predicate Nested(ts: seq<Token>, d: int, closed: bool) {
    ts == [] ||
    (d >= 0 && (ts[0] == Comma || (closed && ts[0] == IfWord) ==> d >= 1) && Nested(ts[1..], d + Step(ts[0]), closed))
  }

  lemma {:induction false} NestedAppend(a: seq<Token>, b: seq<Token>, d: int, closed: bool)
    ensures Nested(a + b, d, closed) <==> Nested(a, d, closed) && Nested(b, d + Depth(a), closed)
  {
    if a == [] {
      assert a + b == b;
    } else {
      assert (a + b)[1..] == a[1..] + b;
      NestedAppend(a[1..], b, d + Step(a[0]), closed);
    }
  }

  lemma {:induction false} NestedDeeper(ts: seq<Token>, d: int, closed: bool, deeper: int, strict: bool)
    requires Nested(ts, d, closed) && deeper >= d && (strict && !closed ==> deeper > d) && (ts != [] ==> d >= 0)
    ensures Nested(ts, deeper, strict)
  {
    if ts != [] { NestedDeeper(ts[1..], d + Step(ts[0]), closed, deeper + Step(ts[0]), strict); }
  }

  lemma NestedOne(t: Token, d: int, closed: bool)
    requires d >= 0 && (t == Comma || (closed && t == IfWord) ==> d >= 1)
    ensures Nested([t], d, closed)
  {
    assert [t][1..] == [];
  }

  /** All brackets are closed again. */
  predicate Balanced(ts: seq<Token>, closed: bool) { Nested(ts, 0, closed) && Depth(ts) == 0 }

  lemma BalancedOne(t: Token, closed: bool)
    requires Step(t) == 0 && t != Comma && (closed ==> t != IfWord)
    ensures Balanced([t], closed)
  {
    NestedOne(t, 0, closed);
    DepthOne(t);
  }

  lemma BalancedOpens(ts: seq<Token>, closed: bool)
    requires Balanced(ts, closed)
    ensures Balanced(ts, false)
  {
    NestedDeeper(ts, 0, closed, 0, false);
  }

  lemma BalancedBoth(a: seq<Token>, b: seq<Token>)
    requires Balanced(a, false) && Balanced(b, false)
    ensures Balanced(a + b, false)
  {
    DepthAppend(a, b);
    NestedAppend(a, b, 0, false);
  }

  /** Inside of brackets: from depth one back to depth one. */
  predicate Inner(ts: seq<Token>) { Nested(ts, 1, true) && Depth(ts) == 0 }

  lemma InnerText(ts: seq<Token>)
    requires Balanced(ts, false)
    ensures Inner(ts)
  {
    NestedDeeper(ts, 0, false, 1, true);
  }

  lemma InnerOne(t: Token)
    requires Step(t) == 0
    ensures Inner([t])
  {
    NestedOne(t, 1, true);
    DepthOne(t);
  }

  lemma InnerBoth(a: seq<Token>, b: seq<Token>)
    requires Inner(a) && Inner(b)
    ensures Inner(a + b)
  {
    DepthAppend(a, b);
    NestedAppend(a, b, 1, true);
  }

  lemma Bracketed(open_: Token, inner: seq<Token>)
    requires Step(open_) == 1 && Inner(inner)
    ensures Balanced([open_] + inner + [RPar], true)
  {
    NestedOne(open_, 0, true);
    DepthOne(open_);
    DepthAppend([open_], inner);
    NestedAppend([open_], inner, 0, true);
    NestedOne(RPar, 1, true);
    DepthOne(RPar);
    DepthAppend([open_] + inner, [RPar]);
    NestedAppend([open_] + inner, [RPar], 0, true);
  }

  lemma Assoc(a: seq<Token>, b: seq<Token>, c: seq<Token>)
    ensures a + b + c == a + (b + c)
  {}

  lemma CallBalanced(op: string, l: seq<Token>, r: seq<Token>)
    requires Balanced(l, false) && Balanced(r, false)
    ensures Balanced([Op(op)] + l + [Comma] + r + [RPar], true)
  {
    InnerText(l);
    InnerText(r);
    InnerOne(Comma);
    InnerBoth(l, [Comma]);
    InnerBoth(l + [Comma], r);
    Bracketed(Op(op), l + [Comma] + r);
    assert [Op(op)] + (l + [Comma] + r) == [Op(op)] + l + [Comma] + r;
  }

  lemma TestBalanced(arg: seq<Token>, t: string)
    requires Balanced(arg, false)
    ensures Balanced([IsInst] + arg + [Comma, Type(t), RPar], true)
  {
    InnerText(arg);
    InnerOne(Comma);
    InnerOne(Type(t));
    InnerBoth(arg, [Comma]);
    InnerBoth(arg + [Comma], [Type(t)]);
    Bracketed(IsInst, arg + [Comma] + [Type(t)]);
    assert [IsInst] + (arg + [Comma] + [Type(t)]) + [RPar] == [IsInst] + arg + [Comma, Type(t), RPar];
  }

  lemma ConditionalBalanced(yes: seq<Token>, c: seq<Token>, no: seq<Token>)
    requires Balanced(yes, false) && Balanced(c, false) && Balanced(no, false)
    ensures Balanced(yes + [IfWord] + c + [ElseWord] + no, false)
  {
    BalancedOne(IfWord, false);
    BalancedOne(ElseWord, false);
    BalancedBoth(yes, [IfWord]);
    BalancedBoth(yes + [IfWord], c);
    BalancedBoth(yes + [IfWord] + c, [ElseWord]);
    BalancedBoth(yes + [IfWord] + c + [ElseWord], no);
  }

  /** Every text is balanced. */
  lemma {:induction false} TextBalanced(e: Expr)
    ensures Balanced(Spelled(e), Closed(e)) && Balanced(Spelled(e), false)
  {
    match e {
      case Const(v) => BalancedOne(Lit(v), true);
      case Var(x) => BalancedOne(Id(x), true);
      case Next => BalancedOne(Input, true);
      case Call(op, l, r) =>
        TextBalanced(l);
        TextBalanced(r);
        CallBalanced(op, Spelled(l), Spelled(r));
      case Test(arg, t) =>
        TextBalanced(arg);
        TestBalanced(Spelled(arg), t);
      case Paren(inner) =>
        TextBalanced(inner);
        InnerText(Spelled(inner));
        Bracketed(LPar, Spelled(inner));
      case IfExp(yes, c, no) =>
        TextBalanced(yes);
        TextBalanced(c);
        TextBalanced(no);
        ConditionalBalanced(Spelled(yes), Spelled(c), Spelled(no));
      case Lambda(body) =>
        TextBalanced(body);
        BalancedOne(LambdaWord, false);
        BalancedBoth([LambdaWord], Spelled(body));
    }
    BalancedOpens(Spelled(e), Closed(e));
  }

  lemma BalancedAt(ts: seq<Token>, closed: bool, p: seq<Token>, t: Token, r: seq<Token>)
    requires Balanced(ts, closed) && ts == p + [t] + r
    ensures Depth(p) >= 0 && (t == Comma || (t == IfWord && closed) ==> Depth(p) >= 1)
    ensures Depth(p) + Step(t) + Depth(r) == 0
  {
    Assoc(p, [t], r);
    NestedAppend(p, [t] + r, 0, closed);
    DepthAppend(p, [t] + r);
    DepthAppend([t], r);
    DepthOne(t);
    assert ([t] + r)[0] == t;
  }

  /** What the brackets around a word are like. */
  lemma DepthBefore(e: Expr, p: seq<Token>, t: Token, r: seq<Token>)
    requires Spelled(e) == p + [t] + r
    ensures Depth(p) >= 0 && (t == Comma || (t == IfWord && Closed(e)) ==> Depth(p) >= 1)
    ensures Depth(p) + Step(t) + Depth(r) == 0
  {
    TextBalanced(e);
    BalancedAt(Spelled(e), Closed(e), p, t, r);
  }

  // ---- the grammar is unambiguous ------------------------------------------------------------------

  lemma AppendTail(a: seq<Token>, e: seq<Token>, c: seq<Token>, n: seq<Token>)
    ensures a + (e + [IfWord] + c + [ElseWord] + n) == a + e + [IfWord] + c + [ElseWord] + n
  {}

  /** The text that a conditional appended to an expression gives. */
  lemma {:induction false} AttachText(e: Expr, c: Expr, n: Expr)
    ensures Spelled(Attach(e, c, n)) == Spelled(e) + [IfWord] + Spelled(c) + [ElseWord] + Spelled(n)
  {
    match e
    case IfExp(yes, cond, no) =>
      AttachText(no, c, n);
      AppendTail(Spelled(yes) + [IfWord] + Spelled(cond) + [ElseWord], Spelled(no), Spelled(c), Spelled(n));
    case Lambda(body) =>
      AttachText(body, c, n);
      AppendTail([LambdaWord], Spelled(body), Spelled(c), Spelled(n));
    case _ =>
  }

  predicate Follows(r: seq<Token>) { r == [] || r[0] != IfWord }

  /** Words that are the same at the front can be dropped. */
  lemma Front(x: Token, a: seq<Token>, y: Token, b: seq<Token>)
    requires [x] + a == [y] + b
    ensures x == y && a == b
  {
    assert a == ([x] + a)[1..] && b == ([y] + b)[1..];
    assert ([x] + a)[0] == x && ([y] + b)[0] == y;
  }

  function Head(e: Expr): Token { Spelled(e)[0] }

  lemma SameHead(e: Expr, f: Expr, r: seq<Token>, q: seq<Token>)
    requires Spelled(e) + r == Spelled(f) + q
    ensures Head(e) == Head(f)
  {
    assert (Spelled(e) + r)[0] == Head(e) && (Spelled(f) + q)[0] == Head(f);
  }

  lemma CallFront(x: Token, l: seq<Token>, r: seq<Token>, rest: seq<Token>)
    ensures [x] + l + [Comma] + r + [RPar] + rest == [x] + (l + ([Comma] + (r + ([RPar] + rest))))
  {}

  lemma TestFront(arg: seq<Token>, t: string, rest: seq<Token>)
    ensures [IsInst] + arg + [Comma, Type(t), RPar] + rest ==
            [IsInst] + (arg + ([Comma] + ([Type(t)] + ([RPar] + rest))))
  {}

  lemma ParenFront(inner: seq<Token>, rest: seq<Token>)
    ensures [LPar] + inner + [RPar] + rest == [LPar] + (inner + ([RPar] + rest))
  {}

  lemma ConditionalFront(yes: seq<Token>, c: seq<Token>, no: seq<Token>, rest: seq<Token>)
    ensures yes + [IfWord] + c + [ElseWord] + no + rest == yes + ([IfWord] + (c + ([ElseWord] + (no + rest))))
  {}

  lemma UniqueCall(e: Expr, f: Expr, r: seq<Token>, q: seq<Token>)
    requires e.Call? && f.Call? && Written(e) && Written(f) && Spelled(e) + r == Spelled(f) + q
    ensures e == f && r == q
    decreases e, 0
  {
    CallFront(Op(e.op), Spelled(e.left), Spelled(e.right), r);
    CallFront(Op(f.op), Spelled(f.left), Spelled(f.right), q);
    var a, b := Spelled(e.right) + ([RPar] + r), Spelled(f.right) + ([RPar] + q);
    Front(Op(e.op), Spelled(e.left) + ([Comma] + a), Op(f.op), Spelled(f.left) + ([Comma] + b));
    Unique(e.left, f.left, [Comma] + a, [Comma] + b);
    Front(Comma, a, Comma, b);
    Unique(e.right, f.right, [RPar] + r, [RPar] + q);
    Front(RPar, r, RPar, q);
  }

  lemma UniqueTest(e: Expr, f: Expr, r: seq<Token>, q: seq<Token>)
    requires e.Test? && f.Test? && Written(e) && Written(f) && Spelled(e) + r == Spelled(f) + q
    ensures e == f && r == q
    decreases e, 0
  {
    TestFront(Spelled(e.arg), e.typeName, r);
    TestFront(Spelled(f.arg), f.typeName, q);
    var a, b := [Type(e.typeName)] + ([RPar] + r), [Type(f.typeName)] + ([RPar] + q);
    Front(IsInst, Spelled(e.arg) + ([Comma] + a), IsInst, Spelled(f.arg) + ([Comma] + b));
    Unique(e.arg, f.arg, [Comma] + a, [Comma] + b);
    Front(Comma, a, Comma, b);
    Front(Type(e.typeName), [RPar] + r, Type(f.typeName), [RPar] + q);
    Front(RPar, r, RPar, q);
  }

  lemma UniqueParen(e: Expr, f: Expr, r: seq<Token>, q: seq<Token>)
    requires e.Paren? && f.Paren? && Written(e) && Written(f) && Spelled(e) + r == Spelled(f) + q
    ensures e == f && r == q
    decreases e, 0
  {
    ParenFront(Spelled(e.inner), r);
    ParenFront(Spelled(f.inner), q);
    Front(LPar, Spelled(e.inner) + ([RPar] + r), LPar, Spelled(f.inner) + ([RPar] + q));
    Unique(e.inner, f.inner, [RPar] + r, [RPar] + q);
    Front(RPar, r, RPar, q);
  }

  /** A closed text ends where it ends, whatever follows. */
  lemma {:induction false} UniqueClosed(e: Expr, f: Expr, r: seq<Token>, q: seq<Token>)
    requires Closed(e) && Closed(f) && Written(e) && Written(f) && Spelled(e) + r == Spelled(f) + q
    ensures e == f && r == q
    decreases e, 1
  {
    SameHead(e, f, r, q);
    match e
    case Call(_, _, _) => UniqueCall(e, f, r, q);
    case Test(_, _) => UniqueTest(e, f, r, q);
    case Paren(_) => UniqueParen(e, f, r, q);
    case _ => Front(Head(e), r, Head(f), q);
  }

  lemma UniqueConditional(e: Expr, f: Expr, r: seq<Token>, q: seq<Token>)
    requires e.IfExp? && f.IfExp? && Written(e) && Written(f) && Follows(r) && Follows(q)
    requires Spelled(e) + r == Spelled(f) + q
    ensures e == f && r == q
    decreases e, 0
  {
    ConditionalFront(Spelled(e.yes), Spelled(e.cond), Spelled(e.no), r);
    ConditionalFront(Spelled(f.yes), Spelled(f.cond), Spelled(f.no), q);
    var a, b := Spelled(e.no) + r, Spelled(f.no) + q;
    var c, d := Spelled(e.cond) + ([ElseWord] + a), Spelled(f.cond) + ([ElseWord] + b);
    UniqueClosed(e.yes, f.yes, [IfWord] + c, [IfWord] + d);
    Front(IfWord, c, IfWord, d);
    UniqueClosed(e.cond, f.cond, [ElseWord] + a, [ElseWord] + b);
    Front(ElseWord, a, ElseWord, b);
    Unique(e.no, f.no, r, q);
  }

  /** A conditional starts with a closed text followed by `if`. */
  lemma NotConditional(e: Expr, f: Expr, r: seq<Token>, q: seq<Token>)
    requires e.IfExp? && Closed(f) && Written(e) && Written(f) && Spelled(e) + r == Spelled(f) + q
    ensures !Follows(q)
    decreases e, 0
  {
    ConditionalFront(Spelled(e.yes), Spelled(e.cond), Spelled(e.no), r);
    var rest := [IfWord] + (Spelled(e.cond) + ([ElseWord] + (Spelled(e.no) + r)));
    UniqueClosed(e.yes, f, rest, q);
  }

  lemma LambdaHead(e: Expr)
    requires Written(e)
    ensures Head(e) == LambdaWord <==> e.Lambda?
  {
    if e.IfExp? { assert Head(e) == Head(e.yes); }
  }

  /** The words of an expression determine it. */
  lemma {:induction false} Unique(e: Expr, f: Expr, r: seq<Token>, q: seq<Token>)
    requires Written(e) && Written(f) && Follows(r) && Follows(q) && Spelled(e) + r == Spelled(f) + q
    ensures e == f && r == q
    decreases e, 3
  {
    SameHead(e, f, r, q);
    LambdaHead(e);
    LambdaHead(f);
    if e.Lambda? {
      Assoc([LambdaWord], Spelled(e.body), r);
      Assoc([LambdaWord], Spelled(f.body), q);
      Front(LambdaWord, Spelled(e.body) + r, LambdaWord, Spelled(f.body) + q);
      Unique(e.body, f.body, r, q);
    } else if e.IfExp? && f.IfExp? {
      UniqueConditional(e, f, r, q);
    } else if e.IfExp? {
      NotConditional(e, f, r, q);
    } else if f.IfExp? {
      ConditionalIsNot(e, f, r, q);
    } else {
      UniqueClosed(e, f, r, q);
    }
  }

  lemma ConditionalIsNot(e: Expr, f: Expr, r: seq<Token>, q: seq<Token>)
    requires f.IfExp? && Closed(e) && Written(e) && Written(f) && Spelled(e) + r == Spelled(f) + q
    ensures !Follows(r)
    decreases e, 2
  {
    ConditionalFront(Spelled(f.yes), Spelled(f.cond), Spelled(f.no), q);
    var rest := [IfWord] + (Spelled(f.cond) + ([ElseWord] + (Spelled(f.no) + q)));
    UniqueClosed(e, f.yes, r, rest);
  }

  // ---- the pattern -------------------------------------------------------------------------------------

  /** ` if isinstance(` occurs somewhere. */
  predicate HasAnchor(ts: seq<Token>) {
    |ts| >= 2 && ((ts[0] == IfWord && ts[1] == IsInst) || HasAnchor(ts[1..]))
  }

  predicate AnchorAt(ts: seq<Token>, i: nat) { i + 1 < |ts| && ts[i] == IfWord && ts[i + 1] == IsInst }

  lemma {:induction false} AnchorSomewhere(ts: seq<Token>, i: nat)
    requires AnchorAt(ts, i)
    ensures HasAnchor(ts)
  {
    if i > 0 { AnchorSomewhere(ts[1..], i - 1); }
  }

  lemma {:induction false} AnchorAppend(a: seq<Token>, b: seq<Token>)
    requires a != [] && b != []
    ensures HasAnchor(a + b) <==> HasAnchor(a) || HasAnchor(b) || (a[|a| - 1] == IfWord && b[0] == IsInst)
  {
    assert (a + b)[1..] == a[1..] + b;
    if |a| == 1 {
      assert a[1..] + b == b;
    } else {
      AnchorAppend(a[1..], b);
    }
  }

  lemma AnchorOne(t: Token)
    ensures !HasAnchor([t])
  {}

  /** The last word of an expression is no `if`. */
  lemma {:induction false} LastWord(e: Expr)
    ensures Spelled(e)[|Spelled(e)| - 1] != IfWord
  {
    match e
    case IfExp(_, _, no) => LastWord(no);
    case Lambda(body) => LastWord(body);
    case _ =>
  }

  lemma {:induction false} FirstWord(e: Expr)
    requires Written(e)
    ensures Head(e) == IsInst <==> e.Test? || (e.IfExp? && e.yes.Test?)
  {
    if e.IfExp? { assert Head(e) == Head(e.yes); }
  }

  /** The text of a tree shows an inner test exactly when the tree has one. */
  lemma {:induction false} InnerTestShows(e: Expr)
    requires Written(e)
    ensures HasAnchor(Spelled(e)) <==> !NoInnerTest(e)
  {
    match e
    case Call(op, l, r) =>
      InnerTestShows(l);
      InnerTestShows(r);
      AnchorCall(Op(op), Spelled(l), Spelled(r));
    case Test(arg, t) =>
      InnerTestShows(arg);
      AnchorTest(Spelled(arg), t);
    case Paren(inner) =>
      InnerTestShows(inner);
      AnchorAppend([LPar], Spelled(inner));
      AnchorAppend([LPar] + Spelled(inner), [RPar]);
    case IfExp(yes, c, no) =>
      InnerTestShows(yes);
      InnerTestShows(c);
      InnerTestShows(no);
      LastWord(yes);
      LastWord(c);
      FirstWord(c);
      AnchorConditional(Spelled(yes), Spelled(c), Spelled(no));
    case Lambda(body) =>
      InnerTestShows(body);
      AnchorAppend([LambdaWord], Spelled(body));
    case _ =>
  }

  lemma AnchorCall(x: Token, l: seq<Token>, r: seq<Token>)
    requires x.Op? && l != [] && r != []
    ensures HasAnchor([x] + l + [Comma] + r + [RPar]) <==> HasAnchor(l) || HasAnchor(r)
  {
    AnchorAppend([x], l);
    AnchorAppend([x] + l, [Comma]);
    AnchorAppend([x] + l + [Comma], r);
    AnchorAppend([x] + l + [Comma] + r, [RPar]);
  }

  lemma AnchorTest(arg: seq<Token>, t: string)
    requires arg != []
    ensures HasAnchor([IsInst] + arg + [Comma, Type(t), RPar]) <==> HasAnchor(arg)
  {
    AnchorAppend([IsInst], arg);
    AnchorAppend([IsInst] + arg, [Comma]);
    AnchorAppend([IsInst] + arg + [Comma], [Type(t)]);
    AnchorAppend([IsInst] + arg + [Comma] + [Type(t)], [RPar]);
    assert [IsInst] + arg + [Comma] + [Type(t)] + [RPar] == [IsInst] + arg + [Comma, Type(t), RPar];
  }

  lemma AnchorConditional(yes: seq<Token>, c: seq<Token>, no: seq<Token>)
    requires yes != [] && c != [] && no != [] && yes[|yes| - 1] != IfWord && c[|c| - 1] != IfWord
    ensures HasAnchor(yes + [IfWord] + c + [ElseWord] + no) <==>
      HasAnchor(yes) || HasAnchor(c) || HasAnchor(no) || c[0] == IsInst
  {
    AnchorAppend(yes, [IfWord]);
    AnchorAppend(yes + [IfWord], c);
    AnchorAppend(yes + [IfWord] + c, [ElseWord]);
    AnchorAppend(yes + [IfWord] + c + [ElseWord], no);
  }

  /** A word of the characters that the pattern allows in a type. */
  predicate Word(t: Token) { (t.Type? && TypeText(t.text)) || t.Id? || t.Lit? || t == Comma }

  predicate Words(ts: seq<Token>) { forall i :: 0 <= i < |ts| ==> Word(ts[i]) }

  /** The pattern matches the words after `name = ` with its first group ending at `i` and its second at `j`. */
  predicate MatchesAt(ts: seq<Token>, i: nat, j: nat) {
    && 0 < i && i + 2 < j && j + 4 < |ts|
    && ts[i] == IfWord && ts[i + 1] == IsInst && ts[j] == Comma
    && ts[j + 1] != Comma && Words(ts[j + 1..|ts| - 3])
    && ts[|ts| - 3] == RPar && ts[|ts| - 2] == ElseWord && ts[|ts| - 1].Lit? && IsEmpty(ts[|ts| - 1].value)
  }

  /** Both groups are lazy: the match is the first one, by the end of the first group and then of the second. */
  ghost predicate FirstMatch(ts: seq<Token>, i: nat, j: nat) {
    MatchesAt(ts, i, j) && forall k: nat, l: nat :: MatchesAt(ts, k, l) ==> i < k || (i == k && j <= l)
  }

  /** The tree of a line that the pattern takes with equal groups. */
  predicate Taken(e: Expr) {
    Split(e).Some? && Split(e).value.arg == Split(e).value.expr && NoInnerTest(Split(e).value.expr)
  }

  lemma {:induction false} WordsDepth(ts: seq<Token>)
    requires Words(ts)
    ensures Depth(ts) == 0
  {
    if ts != [] {
      forall i | 0 <= i < |ts| - 1 ensures Word(ts[1..][i]) { assert ts[1..][i] == ts[i + 1]; }
      WordsDepth(ts[1..]);
    }
  }

  // ---- what the pattern takes ------------------------------------------------------------------------

  lemma Alone(p: seq<Token>, x: Token, y: Token, r: seq<Token>)
    requires [x] == p + [y] + r
    ensures p == [] && r == [] && x == y
  {
    assert |[x]| == |p| + 1 + |r|;
    assert [x][0] == (p + [y] + r)[|p|];
  }

  lemma IfDepth(yes: Expr, rest: seq<Token>)
    ensures Depth(Spelled(yes) + [IfWord] + rest) == Depth(rest)
  {
    TextBalanced(yes);
    DepthOne(IfWord);
    DepthAppend(Spelled(yes), [IfWord]);
    DepthAppend(Spelled(yes) + [IfWord], rest);
  }

  lemma IfInFront(yes: Expr, c: Expr, p: seq<Token>, r: seq<Token>) returns (rest: seq<Token>)
    requires Closed(yes) && Closed(c)
    requires Spelled(yes) + [IfWord] + Spelled(c) == p + [IfWord] + r && Depth(p) == 0
    ensures Spelled(yes) + [IfWord] == p + [IfWord] + rest && r == rest + Spelled(c)
  {
    var y := Spelled(yes) + [IfWord];
    rest := Where(y, Spelled(c), p, IfWord, r);
    if |p| >= |y| {
      IfDepth(yes, rest);
      DepthBefore(c, rest, IfWord, r);
    }
  }

  lemma IfAfter(yes: Expr, p: seq<Token>, r: seq<Token>)
    requires Closed(yes) && Spelled(yes) + [IfWord] == p + [IfWord] + r && Depth(p) == 0
    ensures p == Spelled(yes) && r == []
  {
    var rest := Where(Spelled(yes), [IfWord], p, IfWord, r);
    if |p| < |Spelled(yes)| { DepthBefore(yes, p, IfWord, rest); }
    Alone(rest, IfWord, IfWord, r);
    assert p == Spelled(yes);
  }

  /** An `if` outside of brackets in a conditional, up to its last part, is its own. */
  lemma OwnIf(yes: Expr, c: Expr, p: seq<Token>, r: seq<Token>)
    requires Closed(yes) && Closed(c)
    requires Spelled(yes) + [IfWord] + Spelled(c) + [ElseWord] == p + [IfWord] + r && Depth(p) == 0
    ensures p == Spelled(yes) && r == Spelled(c) + [ElseWord]
  {
    var whole := Spelled(yes) + [IfWord] + Spelled(c);
    var rest := Where(whole, [ElseWord], p, IfWord, r);
    if |p| >= |whole| { Alone(rest, ElseWord, IfWord, r); }
    var inner := IfInFront(yes, c, p, rest);
    IfAfter(yes, p, inner);
    assert rest == Spelled(c);
  }

  /** An `if` outside of all brackets belongs to a conditional that has been appended to what is before it. */
  lemma {:induction false} SpineAt(v: Expr, p: seq<Token>, r: seq<Token>) returns (e: Expr, c: Expr, n: Expr)
    requires Written(v) && Spelled(v) == p + [IfWord] + r && Depth(p) == 0
    ensures v == Attach(e, c, n) && Spelled(e) == p && r == Spelled(c) + [ElseWord] + Spelled(n)
    ensures Written(e) && Written(c) && Written(n) && Closed(c)
  {
    DepthBefore(v, p, IfWord, r);
    if v.Lambda? {
      var rest := Where([LambdaWord], Spelled(v.body), p, IfWord, r);
      if |p| < 1 { Alone(p, LambdaWord, IfWord, rest); }
      DepthOne(LambdaWord);
      DepthAppend([LambdaWord], rest);
      e, c, n := SpineAt(v.body, rest, r);
      e := Lambda(e);
    } else {
      var front := Spelled(v.yes) + [IfWord] + Spelled(v.cond) + [ElseWord];
      var rest := Where(front, Spelled(v.no), p, IfWord, r);
      if |p| < |front| {
        OwnIf(v.yes, v.cond, p, rest);
        e, c, n := v.yes, v.cond, v.no;
      } else {
        FrontDepth(v.yes, v.cond);
        DepthAppend(front, rest);
        e, c, n := SpineAt(v.no, rest, r);
        e := IfExp(v.yes, v.cond, e);
      }
    }
  }

  lemma FrontDepth(yes: Expr, c: Expr)
    ensures Depth(Spelled(yes) + [IfWord] + Spelled(c) + [ElseWord]) == 0
  {
    IfDepth(yes, Spelled(c));
    TextBalanced(c);
    DepthOne(ElseWord);
    DepthAppend(Spelled(yes) + [IfWord] + Spelled(c), [ElseWord]);
  }

  /** The words of a line with equal groups. */
  function Groups(e: seq<Token>, types: seq<Token>, d: Value): seq<Token> {
    e + [IfWord] + ([IsInst] + e + [Comma] + types + [RPar] + [ElseWord] + [Lit(d)])
  }

  lemma GroupsAt(ts: seq<Token>, i: nat, j: nat)
    requires MatchesAt(ts, i, j) && ts[..i] == ts[i + 2..j]
    ensures ts == Groups(ts[..i], ts[j + 1..|ts| - 3], ts[|ts| - 1].value)
  {
    var n := |ts|;
    assert ts == ts[..i] + [ts[i]] + ([ts[i + 1]] + ts[i + 2..j] + [ts[j]] + ts[j + 1..n - 3]
                                      + [ts[n - 3]] + [ts[n - 2]] + [ts[n - 1]]);
  }

  lemma GroupsDepth(e: seq<Token>, types: seq<Token>, d: Value)
    requires Words(types) && Depth(Groups(e, types, d)) == 0
    ensures Depth(e) == 0
  {
    WordsDepth(types);
    DepthOne(IfWord);
    DepthOne(IsInst);
    DepthOne(Comma);
    DepthOne(RPar);
    DepthOne(ElseWord);
    DepthOne(Lit(d));
    DepthAppend(e, [IfWord]);
    DepthAppend([IsInst], e);
    DepthAppend([IsInst] + e, [Comma]);
    DepthAppend([IsInst] + e + [Comma], types);
    DepthAppend([IsInst] + e + [Comma] + types, [RPar]);
    DepthAppend([IsInst] + e + [Comma] + types + [RPar], [ElseWord]);
    DepthAppend([IsInst] + e + [Comma] + types + [RPar] + [ElseWord], [Lit(d)]);
    DepthAppend(e + [IfWord], [IsInst] + e + [Comma] + types + [RPar] + [ElseWord] + [Lit(d)]);
  }

  lemma GroupsFront(e: seq<Token>, types: seq<Token>, d: Value)
    ensures [IsInst] + e + [Comma] + types + [RPar] + [ElseWord] + [Lit(d)] ==
            [IsInst] + (e + ([Comma] + (types + ([RPar] + ([ElseWord] + [Lit(d)])))))
  {}

  /** One word in front of a bracket that closes. */
  lemma OneWord(t: Token, a: seq<Token>, types: seq<Token>, b: seq<Token>)
    requires Words(types) && types != [] && [t] + ([RPar] + a) == types + ([RPar] + b)
    ensures types == [t] && a == b
  {
    var all := [t] + ([RPar] + a);
    assert all[0] == t && all[1] == RPar;
    assert forall m :: 0 <= m < |types| ==> all[m] == types[m] && Word(all[m]);
    assert types == [types[0]] && (types + ([RPar] + b))[0] == types[0];
    Front(t, [RPar] + a, types[0], [RPar] + b);
    Front(RPar, a, RPar, b);
  }

  /** A line with equal groups is, to Python, a test appended to the expression of the first group, whose argument
      is that expression again. */
  lemma EqualGroups(v: Expr, p: seq<Token>, types: seq<Token>, d: Value) returns (e: Expr, t: string)
    requires Written(v) && Spelled(v) == Groups(p, types, d)
    requires Words(types) && types != [] && types[0] != Comma
    ensures v == Attach(e, Test(e, t), Const(d)) && Spelled(e) == p && types == [Type(t)] && Written(e)
  {
    TextBalanced(v);
    GroupsDepth(p, types, d);
    var r := [IsInst] + p + [Comma] + types + [RPar] + [ElseWord] + [Lit(d)];
    var c, n;
    e, c, n := SpineAt(v, p, r);
    GroupsFront(p, types, d);
    assert r[0] == IsInst && r[0] == Head(c);
    FirstWord(c);
    t := c.typeName;
    var a, b := [ElseWord] + Spelled(n), [ElseWord] + [Lit(d)];
    Assoc(Spelled(c), [ElseWord], Spelled(n));
    TestFront(Spelled(c.arg), t, a);
    Front(IsInst, Spelled(c.arg) + ([Comma] + ([Type(t)] + ([RPar] + a))), IsInst, p + ([Comma] + (types + ([RPar] + b))));
    Unique(c.arg, e, [Comma] + ([Type(t)] + ([RPar] + a)), [Comma] + (types + ([RPar] + b)));
    Front(Comma, [Type(t)] + ([RPar] + a), Comma, types + ([RPar] + b));
    OneWord(Type(t), a, types, b);
    Front(ElseWord, Spelled(n), ElseWord, [Lit(d)]);
    assert Spelled(n) + [] == Spelled(n) && Spelled(Const(d)) + [] == [Lit(d)];
    Unique(n, Const(d), [], []);
  }

  /** The words of such a line. */
  lemma TakenText(v: Expr)
    requires Written(v) && Taken(v)
    ensures var q := Split(v).value;
      Spelled(v) == Groups(Spelled(q.expr), [Type(q.typeName)], q.default) && Written(q.expr) && !HasAnchor(Spelled(q.expr))
  {
    var q := Split(v).value;
    SplitAttaches(v);
    InnerTestShows(q.expr);
    var e, t, d := Spelled(q.expr), q.typeName, Const(q.default);
    AttachText(q.expr, Test(q.expr, t), d);
    assert Spelled(d) == [Lit(q.default)];
    assert Spelled(Test(q.expr, t)) == [IsInst] + e + [Comma] + [Type(t)] + [RPar];
    Assoc(e + [IfWord], Spelled(Test(q.expr, t)) + [ElseWord], Spelled(d));
    Assoc(e + [IfWord], Spelled(Test(q.expr, t)), [ElseWord]);
  }

  /** The positions of the words of such a line. */
  predicate Laid(ts: seq<Token>, e: seq<Token>, t: string, d: Value) {
    var n := |e|;
    && |ts| == 2 * n + 7 && (forall k :: 0 <= k < n ==> ts[k] == e[k]) && ts[n] == IfWord && ts[n + 1] == IsInst
    && (forall k :: n + 2 <= k < 2 * n + 2 ==> ts[k] == e[k - n - 2])
    && ts[2 * n + 2] == Comma && ts[2 * n + 3] == Type(t) && ts[2 * n + 4] == RPar
    && ts[2 * n + 5] == ElseWord && ts[2 * n + 6] == Lit(d)
  }

  lemma GroupsLaid(e: seq<Token>, t: string, d: Value)
    ensures Laid(Groups(e, [Type(t)], d), e, t, d)
  {
    var n, tail := |e|, [IsInst] + e + [Comma] + [Type(t)] + [RPar] + [ElseWord] + [Lit(d)];
    var end := [Comma, Type(t), RPar, ElseWord, Lit(d)];
    assert tail == [IsInst] + e + end;
    assert forall k :: n + 1 <= k < n + 6 ==> tail[k] == end[k - n - 1];
    assert forall k :: 1 <= k < n + 1 ==> tail[k] == e[k - 1];
    assert forall k :: n + 1 <= k < 2 * n + 7 ==> Groups(e, [Type(t)], d)[k] == tail[k - n - 1];
  }

  lemma LaidMatches(ts: seq<Token>, e: seq<Token>, t: string, d: Value)
    requires Laid(ts, e, t, d) && e != [] && TypeText(t) && IsEmpty(d)
    ensures var n := |e|;
      && MatchesAt(ts, n, 2 * n + 2) && ts[..n] == e && ts[n + 2..2 * n + 2] == e
      && ts[2 * n + 3..2 * n + 4] == [Type(t)]
  {
    assert ts[2 * |e| + 3..2 * |e| + 4] == [Type(t)];
  }

  lemma NoEarlierGroup(ts: seq<Token>, e: seq<Token>, t: string, d: Value, i: nat)
    requires Laid(ts, e, t, d) && !HasAnchor(e) && AnchorAt(ts, i)
    ensures i >= |e|
  {
    if i + 1 < |e| { AnchorSomewhere(e, i); }
  }

  lemma SecondGroup(ts: seq<Token>, es: seq<Token>, t: string, d: Value, k: nat)
    requires Laid(ts, es, t, d) && k < |es|
    ensures ts[|es| + 2 + k..2 * |es| + 2] == es[k..]
  {}

  /** After a comma of the first group the type group would contain the bracket that closes behind it. */
  lemma NoShorterGroup(e: Expr, ts: seq<Token>, es: seq<Token>, t: string, d: Value, j: nat)
    requires Laid(ts, es, t, d) && es == Spelled(e) && MatchesAt(ts, |es|, j)
    ensures j >= 2 * |es| + 2
  {
    if j < 2 * |es| + 2 {
      SecondGroup(ts, es, t, d, j - |es| - 2);
      CommaClosed(e, es, j - |es| - 2, ts, j);
    }
  }

  lemma CommaClosed(e: Expr, es: seq<Token>, k: nat, ts: seq<Token>, j: nat)
    requires es == Spelled(e) && k < |es| && j + |es| - k <= |ts| - 3 && ts[j..j + |es| - k] == es[k..]
    ensures ts[j] == Comma ==> !Words(ts[j + 1..|ts| - 3])
  {
    if ts[j] == Comma && Words(ts[j + 1..|ts| - 3]) {
      var r := es[k + 1..];
      assert ts[j + 1..|ts| - 3][..|r|] == ts[j..j + |es| - k][1..] == r;
      assert es[k] == es[k..][0] == ts[j];
      assert es == es[..k] + [Comma] + r;
      DepthBefore(e, es[..k], Comma, r);
      WordsDepth(r);
    }
  }

  /** Such a line has no match with an earlier first or a shorter second group. */
  lemma OnlyMatch(e: Expr, ts: seq<Token>, es: seq<Token>, t: string, d: Value, i: nat, j: nat)
    requires Laid(ts, es, t, d) && es == Spelled(e) && !HasAnchor(es) && MatchesAt(ts, i, j)
    ensures i >= |es| && (i == |es| ==> j >= 2 * |es| + 2)
  {
    NoEarlierGroup(ts, es, t, d, i);
    if i == |es| { NoShorterGroup(e, ts, es, t, d, j); }
  }

  lemma Exactly(ts: seq<Token>, i: nat, j: nat, n: nat, m: nat)
    requires FirstMatch(ts, i, j) && MatchesAt(ts, n, m) && i >= n && (i == n ==> j >= m)
    ensures i == n && j == m
  {}

  /** So its first match is the one with equal groups. */
  lemma LaidTaken(e: Expr, ts: seq<Token>, es: seq<Token>, t: string, d: Value, i: nat, j: nat)
    requires Laid(ts, es, t, d) && es == Spelled(e) && !HasAnchor(es) && TypeText(t) && IsEmpty(d) && FirstMatch(ts, i, j)
    ensures ts[..i] == es == ts[i + 2..j] && ts[j + 1..|ts| - 3] == [Type(t)] && ts[|ts| - 1] == Lit(d)
  {
    LaidMatches(ts, es, t, d);
    OnlyMatch(e, ts, es, t, d, i, j);
    Exactly(ts, i, j, |es|, 2 * |es| + 2);
  }

  lemma SiteLaid(v: Expr, q: Parts)
    requires Written(v) && Taken(v) && Split(v) == Some(q)
    ensures Laid(Spelled(v), Spelled(q.expr), q.typeName, q.default) && !HasAnchor(Spelled(q.expr))
    ensures TypeText(q.typeName) && IsEmpty(q.default)
  {
    TakenText(v);
    GroupsLaid(Spelled(q.expr), q.typeName, q.default);
  }

  lemma TakenIsSite(v: Expr, ts: seq<Token>, i: nat, j: nat)
    requires Written(v) && ts == Spelled(v) && FirstMatch(ts, i, j) && ts[..i] == ts[i + 2..j]
    ensures Taken(v)
  {
    var p, types, d := ts[..i], ts[j + 1..|ts| - 3], ts[|ts| - 1].value;
    GroupsAt(ts, i, j);
    assert types[0] == ts[j + 1];
    var e, t := EqualGroups(v, p, types, d);
    assert Word(types[0]);
    NoEarlierAnchor(ts, i, j, e);
    AppendedIsTaken(e, t, d);
  }

  lemma AppendedIsTaken(e: Expr, t: string, d: Value)
    requires Written(e) && !HasAnchor(Spelled(e)) && TypeText(t) && IsEmpty(d)
    ensures Taken(Attach(e, Test(e, t), Const(d)))
  {
    AttachSplits(e, e, t, d);
    InnerTestShows(e);
  }

  /** The pattern takes a line with equal groups exactly when the tree is that of a site, and its groups are then the
      parts of the site. */
  lemma PatternTakes(v: Expr, ts: seq<Token>, i: nat, j: nat)
    requires Written(v) && ts == Spelled(v) && FirstMatch(ts, i, j)
    ensures ts[..i] == ts[i + 2..j] <==> Taken(v)
    ensures Taken(v) ==> var q := Split(v).value;
      ts[..i] == Spelled(q.expr) && ts[j + 1..|ts| - 3] == [Type(q.typeName)] && ts[|ts| - 1] == Lit(q.default)
  {
    if Taken(v) {
      var q := Split(v).value;
      SiteLaid(v, q);
      LaidTaken(q.expr, ts, Spelled(q.expr), q.typeName, q.default, i, j);
    }
    if ts[..i] == ts[i + 2..j] { TakenIsSite(v, ts, i, j); }
  }

  lemma EarlierMatch(ts: seq<Token>, i: nat, j: nat, k: nat)
    requires MatchesAt(ts, i, j) && AnchorAt(ts[..i], k) && k > 0
    ensures k < i && MatchesAt(ts, k, j)
  {}

  /** The first match has no anchor before it: there the pattern would have matched, with the same end. */
  lemma NoEarlierAnchor(ts: seq<Token>, i: nat, j: nat, e: Expr)
    requires FirstMatch(ts, i, j) && ts[..i] == Spelled(e)
    ensures !HasAnchor(Spelled(e))
  {
    if HasAnchor(Spelled(e)) {
      var k := AnchorPosition(Spelled(e));
      IfNeverFirst(e);
      EarlierMatch(ts, i, j, k);
    }
  }

  lemma {:induction false} AnchorPosition(ts: seq<Token>) returns (k: nat)
    requires HasAnchor(ts)
    ensures AnchorAt(ts, k)
  {
    if ts[0] == IfWord && ts[1] == IsInst {
      k := 0;
    } else {
      k := AnchorPosition(ts[1..]);
      k := k + 1;
    }
  }

  lemma {:induction false} IfNeverFirst(e: Expr)
    ensures Head(e) != IfWord
  {
    if e.IfExp? {
      IfNeverFirst(e.yes);
      assert Head(e) == Head(e.yes);
    }
  }

  /** A site is matched. */
  lemma SiteIsMatched(v: Expr, ts: seq<Token>) returns (i: nat, j: nat)
    requires Written(v) && Taken(v) && ts == Spelled(v)
    ensures MatchesAt(ts, i, j)
  {
    var q := Split(v).value;
    SiteLaid(v, q);
    i, j := LaidHasMatch(ts, Spelled(q.expr), q.typeName, q.default);
  }

  lemma LaidHasMatch(ts: seq<Token>, e: seq<Token>, t: string, d: Value) returns (i: nat, j: nat)
    requires Laid(ts, e, t, d) && e != [] && TypeText(t) && IsEmpty(d)
    ensures MatchesAt(ts, i, j)
  {
    LaidMatches(ts, e, t, d);
    i, j := |e|, 2 * |e| + 2;
  }

  // ---- searching ------------------------------------------------------------------------------------

  /** The shortest second group for a first group. */
  method SecondGroupEnd(ts: seq<Token>, i: nat) returns (end: Option<nat>)
    ensures end.Some? ==> MatchesAt(ts, i, end.value) && forall l: nat :: MatchesAt(ts, i, l) ==> end.value <= l
    ensures end.None? ==> forall l: nat :: !MatchesAt(ts, i, l)
  {
    for j: nat := 0 to |ts|
      invariant forall l: nat :: l < j ==> !MatchesAt(ts, i, l)
    {
      if MatchesAt(ts, i, j) { return Some(j); }
    }
    end := None;
  }

  /** The first match of the pattern. */
  method Search(ts: seq<Token>) returns (found: Option<(nat, nat)>)
    ensures found.Some? ==> FirstMatch(ts, found.value.0, found.value.1)
    ensures found.None? ==> forall i: nat, j: nat :: !MatchesAt(ts, i, j)
  {
    for i: nat := 0 to |ts|
      invariant forall k: nat, l: nat :: k < i ==> !MatchesAt(ts, k, l)
    {
      var end := SecondGroupEnd(ts, i);
      if end.Some? { return Some((i, end.value)); }
    }
    found := None;
  }
}
