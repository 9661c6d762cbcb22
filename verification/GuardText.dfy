/** Programs as the indented lines that the two rewriting scripts read and write. */
module GuardText {
  import opened GuardPattern
  import opened NarrowGuards
  import opened Wrappers

  /** What a line says, apart from its indentation. */
  datatype Kind = Simple(st: Stmt) | IfLine(cond: Expr) | ElseLine | WhileLine(cond: Expr) | TryLine | ExceptLine | PassLine

  datatype Text = Eof | Line(indent: nat, kind: Kind, next: Text)

  /** The lines of a block, followed by the text `tail`. */
  function Print(b: Block, indent: nat, tail: Text): Text
    decreases b, 0
  {
    match b
    case End => tail
    case Then(st, rest) => PrintStmt(st, indent, Print(rest, indent, tail))
  }

  /** An empty suite is written `pass`. */
  function PrintSuite(b: Block, indent: nat, tail: Text): Text
    decreases b, 1
  {
    if b == End then Line(indent, PassLine, tail) else Print(b, indent, tail)
  }

  /** The optional `else` part. */
  function PrintElse(no: Block, indent: nat, tail: Text): Text
    decreases no, 1
  {
    if no == End then tail else Line(indent, ElseLine, Print(no, indent + 1, tail))
  }

  function PrintStmt(st: Stmt, indent: nat, tail: Text): Text
    decreases st, 2
  {
    match st
    case If(c, yes, no) => Line(indent, IfLine(c), PrintSuite(yes, indent + 1, PrintElse(no, indent, tail)))
    case While(c, body) => Line(indent, WhileLine(c), PrintSuite(body, indent + 1, tail))
    case Try(body, handler) =>
      Line(indent, TryLine, PrintSuite(body, indent + 1, Line(indent, ExceptLine, PrintSuite(handler, indent + 1, tail))))
    case _ => Line(indent, Simple(st), tail)
  }

  // ---- rewrite_text of narrow_mapping_guards ------------------------------------------------

  /** `rewrite_line`, line by line. */
  function NarrowLines(t: Text): Text {
    match t
    case Eof => Eof
    case Line(indent, Simple(st), next) =>
      if IsSite(st) then
        Line(indent, Simple(FirstLine(st)), Line(indent, Simple(SecondLine(st)), NarrowLines(next)))
      else Line(indent, Simple(st), NarrowLines(next))
    case Line(indent, kind, next) => Line(indent, kind, NarrowLines(next))
  }

  function SiteCount(t: Text): nat {
    match t
    case Eof => 0
    case Line(_, Simple(st), next) => (if IsSite(st) then 1 else 0) + SiteCount(next)
    case Line(_, _, next) => SiteCount(next)
  }

  /** The line-based rewrite is the rewrite of the statements, at every depth. */
  lemma {:induction false} NarrowPrinted(b: Block, indent: nat, tail: Text)
    ensures NarrowLines(Print(b, indent, tail)) == Print(Narrow(b), indent, NarrowLines(tail))
    decreases b, 1
  {
    match b
    case End =>
    case Then(st, rest) =>
      NarrowPrinted(rest, indent, tail);
      if IsSite(st) {
        var after := Print(Narrow(rest), indent, NarrowLines(tail));
        assert Print(Then(SecondLine(st), Narrow(rest)), indent, NarrowLines(tail)) ==
               Line(indent, Simple(SecondLine(st)), after);
        assert PrintStmt(st, indent, Print(rest, indent, tail)) == Line(indent, Simple(st), Print(rest, indent, tail));
      } else {
        NarrowPrintedStmt(st, indent, Print(rest, indent, tail));
      }
  }

  lemma {:induction false} NarrowPrintedSuite(b: Block, indent: nat, tail: Text)
    ensures NarrowLines(PrintSuite(b, indent, tail)) == PrintSuite(Narrow(b), indent, NarrowLines(tail))
    ensures NarrowLines(PrintElse(b, indent, tail)) == PrintElse(Narrow(b), indent, NarrowLines(tail))
    decreases b, 2
  {
    NarrowPrinted(b, indent, tail);
    NarrowPrinted(b, indent + 1, tail);
    if b.Then? { assert Narrow(b) != End; }
  }

  lemma {:induction false} NarrowPrintedStmt(st: Stmt, indent: nat, tail: Text)
    requires !IsSite(st)
    ensures NarrowLines(PrintStmt(st, indent, tail)) == PrintStmt(NarrowInside(st), indent, NarrowLines(tail))
    decreases st, 0
  {
    match st
    case If(c, yes, no) =>
      NarrowPrintedSuite(yes, indent + 1, PrintElse(no, indent, tail));
      NarrowPrintedSuite(no, indent, tail);
    case While(c, body) =>
      NarrowPrintedSuite(body, indent + 1, tail);
    case Try(body, handler) =>
      NarrowPrintedSuite(body, indent + 1, Line(indent, ExceptLine, PrintSuite(handler, indent + 1, tail)));
      NarrowPrintedSuite(handler, indent + 1, tail);
    case _ =>
  }

  // ---- the words of the lines ----------------------------------------------------------------

  function Targets(more: seq<string>): seq<Token> {
    if more == [] then [] else [Id(more[0]), Eq] + Targets(more[1..])
  }

  /** Each further target with its equals sign, in order. */
  lemma {:induction false} TargetsAre(more: seq<string>, k: nat)
    requires k < |more|
    ensures |Targets(more)| == 2 * |more| && Targets(more)[2 * k] == Id(more[k]) && Targets(more)[2 * k + 1] == Eq
  {
    assert |more| == 1 ==> more[1..] == [];
    if k > 0 { TargetsAre(more[1..], k - 1); } else if |more| > 1 { TargetsAre(more[1..], 0); }
  }

  function StmtWords(st: Stmt): seq<Token> {
    match st
    case Assign(x, e, more) => [Id(x), Eq] + (Targets(more) + Spelled(e))
    case Annotated(x, t, e, more) => [Id(x), Colon, Type(t), Eq] + (Targets(more) + Spelled(e))
    case _ => []
  }

  /** What a line says, word by word. */
  function KindWords(kind: Kind): seq<Token> {
    match kind
    case Simple(st) => StmtWords(st)
    case IfLine(c) => [IfWord] + Spelled(c) + [Colon]
    case ElseLine => [ElseWord, Colon]
    case WhileLine(c) => [Keyword("while")] + Spelled(c) + [Colon]
    case TryLine => [Keyword("try"), Colon]
    case ExceptLine => [Keyword("except"), Colon]
    case PassLine => [Keyword("pass")]
  }

  /** Python has read the line. */
  predicate Read(kind: Kind) { kind.Simple? ==> (kind.st.Assign? || kind.st.Annotated?) && ParsesStmt(kind.st) }

  predicate ReadAll(t: Text) { t == Eof || (Read(t.kind) && ReadAll(t.next)) }

  lemma {:induction false} PrintRead(b: Block, indent: nat, tail: Text)
    requires Parses(b) && ReadAll(tail)
    ensures ReadAll(Print(b, indent, tail))
    decreases b, 1
  {
    if b.Then? {
      PrintRead(b.rest, indent, tail);
      PrintReadStmt(b.first, indent, Print(b.rest, indent, tail));
    }
  }

  lemma {:induction false} PrintReadStmt(st: Stmt, indent: nat, tail: Text)
    requires ParsesStmt(st) && ReadAll(tail)
    ensures ReadAll(PrintStmt(st, indent, tail))
    decreases st, 0
  {
    match st
    case If(c, yes, no) =>
      PrintRead(no, indent + 1, tail);
      PrintReadSuite(yes, indent + 1, PrintElse(no, indent, tail));
    case While(c, body) => PrintReadSuite(body, indent + 1, tail);
    case Try(body, handler) =>
      PrintReadSuite(handler, indent + 1, tail);
      PrintReadSuite(body, indent + 1, Line(indent, ExceptLine, PrintSuite(handler, indent + 1, tail)));
    case _ =>
  }

  lemma {:induction false} PrintReadSuite(b: Block, indent: nat, tail: Text)
    requires Parses(b) && ReadAll(tail)
    ensures ReadAll(PrintSuite(b, indent, tail))
    decreases b, 2
  {
    PrintRead(b, indent, tail);
  }

  // ---- rewrite_line ----------------------------------------------------------------------------

  lemma {:induction false} NoEqInText(e: Expr)
    ensures Eq !in Spelled(e)
  {
    match e
    case Call(_, l, r) => { NoEqInText(l); NoEqInText(r); }
    case Test(arg, _) => NoEqInText(arg);
    case Paren(inner) => NoEqInText(inner);
    case IfExp(yes, c, no) => { NoEqInText(yes); NoEqInText(c); NoEqInText(no); }
    case Lambda(body) => NoEqInText(body);
    case _ =>
  }

  lemma {:induction false} NoIfInTargets(more: seq<string>)
    ensures IfWord !in Targets(more)
  {
    if more != [] { NoIfInTargets(more[1..]); }
  }

  /** Groups of which only the first one holds an equals sign differ. */
  lemma EqInFirst(ts: seq<Token>, front: seq<Token>, e: seq<Token>, i: nat, j: nat)
    requires ts == front + e && |front| > 1 && front[1] == Eq && IfWord !in front && Eq !in e
    requires i + 2 <= j <= |ts| && ts[i] == IfWord
    ensures ts[..i] != ts[i + 2..j]
  {
    var n := |front|;
    assert forall k :: 0 <= k < n ==> ts[k] == front[k];
    assert forall k :: n <= k < |ts| ==> ts[k] == e[k - n];
    assert i >= n;
    assert ts[..i][1] == Eq;
    assert forall k :: i + 2 <= k < j ==> ts[k] != Eq;
    assert j - i - 2 == i ==> ts[i + 2..j][1] == ts[i + 3];
  }

  /** The groups of a chained assignment differ. */
  lemma ChainNotTaken(more: seq<string>, e: Expr, ts: seq<Token>, i: nat, j: nat)
    requires more != [] && ts == Targets(more) + Spelled(e) && MatchesAt(ts, i, j)
    ensures ts[..i] != ts[i + 2..j]
  {
    NoIfInTargets(more);
    NoEqInText(e);
    EqInFirst(ts, Targets(more), Spelled(e), i, j);
  }

  /** The words of the two new lines. */
  function FirstWords(x: string, expr: seq<Token>): seq<Token> {
    [Id(Raw(x)), Colon, Type("object"), Eq] + expr
  }

  function SecondWords(x: string, types: seq<Token>, default: Token): seq<Token> {
    [Id(x), Colon] + types + [Eq, Id(Raw(x)), IfWord, IsInst, Id(Raw(x)), Comma] + types + [RPar, ElseWord, default]
  }

  lemma NewLines(st: Stmt)
    requires IsSite(st)
    ensures var q := SiteParts(st);
      && StmtWords(FirstLine(st)) == FirstWords(st.target, Spelled(q.expr))
      && StmtWords(SecondLine(st)) == SecondWords(st.target, [Type(q.typeName)], Lit(q.default))
  {
    var q := SiteParts(st);
    NoTargets(Spelled(q.expr));
    SecondSpelled(st.target, q.typeName, q.default);
  }

  lemma NoTargets(words: seq<Token>)
    ensures Targets([]) + words == words
  {}

  lemma SecondSpelled(x: string, t: string, d: Value)
    ensures StmtWords(Annotated(x, t, RawGuard(x, t, d))) == SecondWords(x, [Type(t)], Lit(d))
  {
    SpelledRawGuard(x, t, d);
    NoTargets(Spelled(RawGuard(x, t, d)));
    SecondLaid(Id(x), Id(Raw(x)), Type(t), Lit(d));
  }

  lemma SecondLaid(x: Token, raw: Token, t: Token, d: Token)
    ensures [x, Colon, t, Eq] + [raw, IfWord, IsInst, raw, Comma, t, RPar, ElseWord, d] ==
            [x, Colon] + [t] + [Eq, raw, IfWord, IsInst, raw, Comma] + [t] + [RPar, ElseWord, d]
  {}

  lemma SpelledRawGuard(x: string, t: string, d: Value)
    ensures Spelled(RawGuard(x, t, d)) ==
      [Id(Raw(x)), IfWord, IsInst, Id(Raw(x)), Comma, Type(t), RPar, ElseWord, Lit(d)]
  {
    var raw := Var(Raw(x));
    assert Spelled(raw) == [Id(Raw(x))] && Spelled(Const(d)) == [Lit(d)];
    assert Spelled(Test(raw, t)) == [IsInst, Id(Raw(x)), Comma, Type(t), RPar];
  }

  predicate LooksLikeAssign(line: seq<Token>) { |line| >= 2 && line[0].Id? && line[1] == Eq }

  /** The front of the line tells an assignment from everything else. */
  lemma AssignFront(kind: Kind, line: seq<Token>)
    requires Read(kind) && line == KindWords(kind)
    ensures LooksLikeAssign(line) <==> kind.Simple? && kind.st.Assign?
    ensures LooksLikeAssign(line) ==>
      line[0] == Id(kind.st.target) && line[2..] == Targets(kind.st.more) + Spelled(kind.st.value)
  {
    if kind.Simple? && kind.st.Annotated? { assert line[1] == Colon; }
    if kind.Simple? && kind.st.Assign? { assert line[..2] == [Id(kind.st.target), Eq]; }
  }

  lemma ChainDecided(st: Stmt, ts: seq<Token>, i: nat, j: nat)
    requires st.Assign? && st.more != [] && ts == Targets(st.more) + Spelled(st.value) && FirstMatch(ts, i, j)
    ensures ts[..i] != ts[i + 2..j] && !IsSite(st)
  {
    ChainNotTaken(st.more, st.value, ts, i, j);
  }

  lemma SiteIsTaken(st: Stmt, ts: seq<Token>)
    requires st.Assign? && st.more == [] && ts == Targets(st.more) + Spelled(st.value)
    ensures ts == Spelled(st.value) && (IsSite(st) <==> Taken(st.value))
  {
    assert Targets([]) == [];
  }

  /** What the search says about the statement. */
  lemma FoundDecides(st: Stmt, ts: seq<Token>, i: nat, j: nat)
    requires st.Assign? && ParsesStmt(st) && ts == Targets(st.more) + Spelled(st.value) && FirstMatch(ts, i, j)
    ensures ts[..i] == ts[i + 2..j] <==> IsSite(st)
    ensures IsSite(st) ==> var q := SiteParts(st);
      ts[..i] == Spelled(q.expr) && ts[j + 1..|ts| - 3] == [Type(q.typeName)] && ts[|ts| - 1] == Lit(q.default)
  {
    if st.more != [] {
      ChainDecided(st, ts, i, j);
    } else {
      SiteIsTaken(st, ts);
      PatternTakes(st.value, ts, i, j);
    }
  }

  lemma NoneDecides(st: Stmt, ts: seq<Token>)
    requires st.Assign? && ParsesStmt(st) && ts == Targets(st.more) + Spelled(st.value)
    requires forall i: nat, j: nat :: !MatchesAt(ts, i, j)
    ensures !IsSite(st)
  {
    if IsSite(st) {
      SiteIsTaken(st, ts);
      var i, j := SiteIsMatched(st.value, ts);
    }
  }

  /** `rewrite_line`, on the words of a line that Python reads as `kind`: the two new lines, or none. */
  method RewriteLine(line: seq<Token>, ghost kind: Kind) returns (lines: Option<(seq<Token>, seq<Token>)>)
    requires Read(kind) && line == KindWords(kind)
    ensures lines.Some? <==> kind.Simple? && IsSite(kind.st)
    ensures lines.Some? ==> lines.value == (StmtWords(FirstLine(kind.st)), StmtWords(SecondLine(kind.st)))
  {
    AssignFront(kind, line);
    if !LooksLikeAssign(line) { return None; }
    var ts := line[2..];
    var found := Search(ts);
    if found == None {
      NoneDecides(kind.st, ts);
      return None;
    }
    var (i, j) := found.value;
    FoundDecides(kind.st, ts, i, j);
    if ts[..i] != ts[i + 2..j] { return None; }
    NewLines(kind.st);
    var x, types := line[0].name, ts[j + 1..|ts| - 3];
    return Some((FirstWords(x, ts[..i]), SecondWords(x, types, ts[|ts| - 1])));
  }

  // ---- rewrite_text ----------------------------------------------------------------------------

  /** One entry of `text.splitlines()`. */
  datatype Row = Row(indent: nat, words: seq<Token>)

  function Rows(t: Text): seq<Row> {
    if t == Eof then [] else [Row(t.indent, KindWords(t.kind))] + Rows(t.next)
  }

  function SkipLines(t: Text, n: nat): Text { if n == 0 || t == Eof then t else SkipLines(t.next, n - 1) }

  lemma {:induction false} RowAt(t: Text, n: nat)
    requires n < |Rows(t)| && ReadAll(t)
    ensures var rest := SkipLines(t, n);
      && rest != Eof && Rows(t)[n] == Row(rest.indent, KindWords(rest.kind)) && Read(rest.kind)
      && SkipLines(t, n + 1) == rest.next
  {
    if n > 0 { RowAt(t.next, n - 1); }
  }

  lemma {:induction false} SkipAll(t: Text)
    ensures SkipLines(t, |Rows(t)|) == Eof
  {
    if t != Eof { SkipAll(t.next); }
  }

  /** The rows of the rewritten text, one line at a time. */
  lemma NarrowOne(t: Text, rest: seq<Row>)
    requires t != Eof && rest == Rows(NarrowLines(t.next))
    ensures Rows(NarrowLines(t)) ==
      if t.kind.Simple? && IsSite(t.kind.st) then
        [Row(t.indent, StmtWords(FirstLine(t.kind.st))), Row(t.indent, StmtWords(SecondLine(t.kind.st)))] + rest
      else [Row(t.indent, KindWords(t.kind))] + rest
  {
    if t.kind.Simple? && IsSite(t.kind.st) {
      var second := Line(t.indent, Simple(SecondLine(t.kind.st)), NarrowLines(t.next));
      var a, b := Row(t.indent, StmtWords(FirstLine(t.kind.st))), Row(t.indent, StmtWords(SecondLine(t.kind.st)));
      assert Rows(second) == [b] + rest;
      assert [a] + ([b] + rest) == [a, b] + rest;
    }
  }

  lemma Rejoin(out: seq<Row>, more: seq<Row>, rest: seq<Row>)
    ensures out + (more + rest) == (out + more) + rest
  {}

  /** The loop of `rewrite_text` over the words of the lines, with its count of changed sites: it writes the rewritten
      lines of the text that Python reads from them. */
  method RewriteText(rows: seq<Row>, ghost t: Text) returns (out: seq<Row>, changed: nat)
    requires ReadAll(t) && rows == Rows(t)
    ensures out == Rows(NarrowLines(t)) && changed == SiteCount(t)
  {
    out, changed := [], 0;
    for n := 0 to |rows|
      invariant out + Rows(NarrowLines(SkipLines(t, n))) == Rows(NarrowLines(t))
      invariant changed + SiteCount(SkipLines(t, n)) == SiteCount(t)
    {
      ghost var rest := SkipLines(t, n);
      RowAt(t, n);
      ghost var after := Rows(NarrowLines(rest.next));
      NarrowOne(rest, after);
      var row := rows[n];
      var lines := RewriteLine(row.words, rest.kind);
      var more := if lines == None then [row] else [Row(row.indent, lines.value.0), Row(row.indent, lines.value.1)];
      Rejoin(out, more, after);
      out := out + more;
      if lines != None { changed := changed + 1; }
    }
    SkipAll(t);
  }

  /** So the script turns the file of a program into the file of the rewritten program. */
  lemma RewritesPrograms(b: Block)
    requires Parses(b)
    ensures ReadAll(Print(b, 0, Eof)) && NarrowLines(Print(b, 0, Eof)) == Print(Narrow(b), 0, Eof)
  {
    PrintRead(b, 0, Eof);
    NarrowPrinted(b, 0, Eof);
  }
}
