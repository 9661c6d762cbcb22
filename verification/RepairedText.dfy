/** scripts/repair_narrow_annotations.py over the indented lines it really sees. Its pattern does not compare
    indentations, so a match can reach across the end of a block. */
module RepairedText {
  import opened NarrowGuards
  import opened GuardText
  import opened RepairAnnotations

  /** The pattern matches three consecutive lines. */
  predicate Matches(t: Text) {
    match t
    case Line(_, Simple(a), Line(_, Simple(b), Line(_, Simple(c), _))) => IsTriple(a, b, c)
    case _ => false
  }

  /** Of the matches only these are replaced: the two types are the same. */
  predicate Hit(t: Text) {
    match t
    case Line(_, Simple(a), Line(_, Simple(b), Line(_, Simple(c), _))) => Repairable(a, b, c)
    case _ => false
  }

  /** `repair_text`: left to right, without overlaps; both new lines take the first line's
      indentation. */
  function RepairLines(t: Text): Text
    decreases t
  {
    if Matches(t) then
      var a, b, c, rest := t.kind.st, t.next.kind.st, t.next.next.kind.st, t.next.next.next;
      assert t.next.next < t.next;
      if Repairable(a, b, c)
      then Line(t.indent, Simple(First(a)), Line(t.indent, Simple(Second(c)), RepairLines(rest)))
      else Line(t.indent, t.kind, Line(t.next.indent, t.next.kind,
             Line(t.next.next.indent, t.next.next.kind, RepairLines(rest))))
    else if t == Eof then Eof
    else Line(t.indent, t.kind, RepairLines(t.next))
  }

  /** A match that is not replaced is copied, and so is every line at which no match starts. */
  lemma RepairLinesStep(t: Text)
    ensures RepairLines(t) ==
      if t == Eof then Eof
      else if Hit(t) then Line(t.indent, Simple(First(t.kind.st)),
                            Line(t.indent, Simple(Second(t.next.next.kind.st)), RepairLines(t.next.next.next)))
      else Line(t.indent, t.kind, RepairLines(t.next))
  {
    if Matches(t) && !Hit(t) {
      assert !Matches(t.next) && !Matches(t.next.next);
    }
  }

  /** Every match that is replaced lies at one indentation. */
  predicate Aligned(t: Text) {
    t == Eof || ((Hit(t) ==> t.indent == t.next.indent == t.next.next.indent) && Aligned(t.next))
  }

  /** Text that follows a block of the given indentation. */
  predicate Outside(tail: Text, indent: nat) {
    tail == Eof || tail.indent < indent || !tail.kind.Simple?
  }

  predicate Compound(st: Stmt) { st.If? || st.While? || st.Try? }

  lemma {:induction false} RepairKeepsEmptiness(b: Block)
    ensures Repair(b) == End <==> b == End
  {
  }

  lemma OutsideDeeper(rest: Block, indent: nat, tail: Text)
    requires Outside(tail, indent)
    ensures Outside(Print(rest, indent, tail), indent + 1)
  {
  }

  /** On aligned text the line-based repair is the repair of the statements. */
  lemma {:induction false} RepairPrinted(b: Block, indent: nat, tail: Text)
    requires Aligned(Print(b, indent, tail)) && Outside(tail, indent)
    ensures RepairLines(Print(b, indent, tail)) == Print(Repair(b), indent, RepairLines(tail))
    ensures Aligned(tail)
    decreases b, 1
  {
    match b
    case End =>
    case Then(x, rest) =>
      if Compound(x) {
        OutsideDeeper(rest, indent, tail);
        RepairPrintedStmt(x, indent, Print(rest, indent, tail));
        RepairPrinted(rest, indent, tail);
        assert Repair(b) == Then(RepairInside(x), Repair(rest));
      } else {
        RepairPrintedSimple(x, rest, indent, tail);
      }
  }

  lemma PrintSimple(x: Stmt, rest: Block, indent: nat, tail: Text)
    requires !Compound(x)
    ensures Print(Then(x, rest), indent, tail) == Line(indent, Simple(x), Print(rest, indent, tail))
  {
    assert PrintStmt(x, indent, Print(rest, indent, tail)) == Line(indent, Simple(x), Print(rest, indent, tail));
  }

  lemma CompoundHeader(st: Stmt, indent: nat, tail: Text)
    requires Compound(st)
    ensures PrintStmt(st, indent, tail).Line? && !PrintStmt(st, indent, tail).kind.Simple?
  {
  }

  /** The first line after a simple statement: part of the block, or it is no candidate. */
  lemma NextLine(rest: Block, indent: nat, tail: Text)
    requires Outside(tail, indent)
    requires var t := Print(rest, indent, tail); t.Line? && t.kind.Simple? && t.indent == indent
    ensures rest.Then? && !Compound(rest.first)
    ensures Print(rest, indent, tail) == Line(indent, Simple(rest.first), Print(rest.rest, indent, tail))
  {
    if rest.Then? {
      if Compound(rest.first) {
        CompoundHeader(rest.first, indent, Print(rest.rest, indent, tail));
      } else {
        PrintSimple(rest.first, rest.rest, indent, tail);
      }
    }
  }

  /** An aligned match that starts in a block consists of three of its statements. */
  lemma MatchInside(rest: Block, indent: nat, tail: Text)
    requires Outside(tail, indent)
    requires var t := Print(rest, indent, tail);
      && t.Line? && t.kind.Simple? && t.indent == indent
      && t.next.Line? && t.next.kind.Simple? && t.next.indent == indent
    ensures rest.Then? && rest.rest.Then?
    ensures Print(rest, indent, tail) ==
            Line(indent, Simple(rest.first), Line(indent, Simple(rest.rest.first), Print(rest.rest.rest, indent, tail)))
  {
    NextLine(rest, indent, tail);
    NextLine(rest.rest, indent, tail);
  }

  lemma PrintThree(x: Stmt, y: Stmt, z: Stmt, rest: Block, indent: nat, tail: Text)
    requires !Compound(x) && !Compound(y) && !Compound(z)
    ensures Print(Then(x, Then(y, Then(z, rest))), indent, tail) ==
            Line(indent, Simple(x), Line(indent, Simple(y), Line(indent, Simple(z), Print(rest, indent, tail))))
  {
    PrintSimple(x, Then(y, Then(z, rest)), indent, tail);
    PrintTwo(y, z, rest, indent, tail);
  }

  lemma PrintTwo(x: Stmt, y: Stmt, rest: Block, indent: nat, tail: Text)
    requires !Compound(x) && !Compound(y)
    ensures Print(Then(x, Then(y, rest)), indent, tail) ==
            Line(indent, Simple(x), Line(indent, Simple(y), Print(rest, indent, tail)))
  {
    PrintSimple(x, Then(y, rest), indent, tail);
    PrintSimple(y, rest, indent, tail);
  }

  lemma {:induction false} RepairPrintedSimple(x: Stmt, rest: Block, indent: nat, tail: Text)
    requires !Compound(x) && Aligned(Print(Then(x, rest), indent, tail)) && Outside(tail, indent)
    ensures RepairLines(Print(Then(x, rest), indent, tail)) == Print(Repair(Then(x, rest)), indent, RepairLines(tail))
    ensures Aligned(tail)
    decreases Then(x, rest), 0
  {
    var t := Print(Then(x, rest), indent, tail);
    PrintSimple(x, rest, indent, tail);
    RepairLinesStep(t);
    RepairStep(x, rest);
    if Hit(t) {
      MatchInside(rest, indent, tail);
      var y, z, rest3 := rest.first, rest.rest.first, rest.rest.rest;
      PrintTwo(y, z, rest3, indent, tail);
      assert Aligned(t.next) && Aligned(t.next.next) && t.next.next.next == Print(rest3, indent, tail);
      RepairPrinted(rest3, indent, tail);
      PrintTwo(First(x), Second(z), Repair(rest3), indent, RepairLines(tail));
    } else {
      RepairPrinted(rest, indent, tail);
      if Starts(x, rest) { PrintThree(x, rest.first, rest.rest.first, rest.rest.rest, indent, tail); }
      PrintSimple(x, Repair(rest), indent, RepairLines(tail));
    }
  }

  lemma {:induction false} RepairPrintedSuite(b: Block, indent: nat, tail: Text)
    requires Aligned(PrintSuite(b, indent, tail)) && Outside(tail, indent)
    ensures RepairLines(PrintSuite(b, indent, tail)) == PrintSuite(Repair(b), indent, RepairLines(tail))
    ensures Aligned(tail)
    decreases b, 2
  {
    RepairKeepsEmptiness(b);
    if b != End { RepairPrinted(b, indent, tail); }
  }

  lemma {:induction false} RepairPrintedElse(no: Block, indent: nat, tail: Text)
    requires Aligned(PrintElse(no, indent, tail)) && Outside(tail, indent + 1)
    ensures RepairLines(PrintElse(no, indent, tail)) == PrintElse(Repair(no), indent, RepairLines(tail))
    ensures Aligned(tail)
    decreases no, 2
  {
    RepairKeepsEmptiness(no);
    if no != End { RepairPrinted(no, indent + 1, tail); }
  }

  lemma {:induction false} RepairPrintedStmt(st: Stmt, indent: nat, tail: Text)
    requires Compound(st) && Aligned(PrintStmt(st, indent, tail)) && Outside(tail, indent + 1)
    ensures RepairLines(PrintStmt(st, indent, tail)) == PrintStmt(RepairInside(st), indent, RepairLines(tail))
    ensures Aligned(tail)
    decreases st, 0
  {
    match st
    case If(c, yes, no) =>
      RepairPrintedSuite(yes, indent + 1, PrintElse(no, indent, tail));
      RepairPrintedElse(no, indent, tail);
    case While(c, body) =>
      RepairPrintedSuite(body, indent + 1, tail);
    case Try(body, handler) =>
      var after := Line(indent, ExceptLine, PrintSuite(handler, indent + 1, tail));
      RepairPrintedSuite(body, indent + 1, after);
      RepairPrintedSuite(handler, indent + 1, tail);
  }


  // ---- the condition is exact -------------------------------------------------------------------

  function Length(t: Text): nat {
    if t == Eof then 0 else 1 + Length(t.next)
  }

  function Hits(t: Text): nat {
    if t == Eof then 0 else (if Hit(t) then 1 else 0) + Hits(t.next)
  }

  function LevelHits(t: Text): nat {
    if t == Eof then 0
    else (if Hit(t) && t.indent == t.next.indent == t.next.next.indent then 1 else 0) + LevelHits(t.next)
  }

  lemma {:induction false} AlignedCounts(t: Text)
    ensures LevelHits(t) <= Hits(t) && (Aligned(t) <==> LevelHits(t) == Hits(t))
  {
    if t != Eof { AlignedCounts(t.next); }
  }

  /** Every replaced match costs one line. */
  lemma {:induction false} RepairedLength(t: Text)
    ensures Length(RepairLines(t)) + Hits(t) == Length(t)
    decreases t
  {
    RepairLinesStep(t);
    if t != Eof {
      if Hit(t) {
        assert !Hit(t.next) && !Hit(t.next.next);
        assert t.next.next < t.next;
        RepairedLength(t.next.next.next);
        assert Hits(t.next) == Hits(t.next.next) == Hits(t.next.next.next);
        assert Length(t.next) == 2 + Length(t.next.next.next);
      } else {
        RepairedLength(t.next);
      }
    }
  }

  /** The triples of a program, each within one block. */
  function Triples(b: Block): nat {
    match b
    case End => 0
    case Then(x, rest) => (if Starts(x, rest) then 1 else 0) + TriplesIn(x) + Triples(rest)
  }

  function TriplesIn(st: Stmt): nat {
    match st
    case If(_, yes, no) => Triples(yes) + Triples(no)
    case While(_, body) => Triples(body)
    case Try(body, handler) => Triples(body) + Triples(handler)
    case _ => 0
  }

  /** The lines of a block. */
  function Height(b: Block): nat
    decreases b, 0
  {
    match b
    case End => 0
    case Then(st, rest) => HeightIn(st) + Height(rest)
  }

  function HeightIn(st: Stmt): nat
    decreases st, 2
  {
    match st
    case If(_, yes, no) => 1 + SuiteHeight(yes) + (if no == End then 0 else 1 + Height(no))
    case While(_, body) => 1 + SuiteHeight(body)
    case Try(body, handler) => 2 + SuiteHeight(body) + SuiteHeight(handler)
    case _ => 1
  }

  function SuiteHeight(b: Block): nat
    decreases b, 1
  {
    if b == End then 1 else Height(b)
  }

  lemma {:induction false} PrintLength(b: Block, indent: nat, tail: Text)
    ensures Length(Print(b, indent, tail)) == Height(b) + Length(tail)
    decreases b, 1
  {
    match b
    case End =>
    case Then(st, rest) =>
      PrintLengthStmt(st, indent, Print(rest, indent, tail));
      PrintLength(rest, indent, tail);
  }

  lemma {:induction false} PrintLengthStmt(st: Stmt, indent: nat, tail: Text)
    ensures Length(PrintStmt(st, indent, tail)) == HeightIn(st) + Length(tail)
    decreases st, 0
  {
    match st
    case If(c, yes, no) =>
      PrintLengthSuite(yes, indent + 1, PrintElse(no, indent, tail));
      if no != End { PrintLength(no, indent + 1, tail); }
    case While(c, body) => PrintLengthSuite(body, indent + 1, tail);
    case Try(body, handler) =>
      PrintLengthSuite(body, indent + 1, Line(indent, ExceptLine, PrintSuite(handler, indent + 1, tail)));
      PrintLengthSuite(handler, indent + 1, tail);
    case _ =>
  }

  lemma {:induction false} PrintLengthSuite(b: Block, indent: nat, tail: Text)
    ensures Length(PrintSuite(b, indent, tail)) == SuiteHeight(b) + Length(tail)
    decreases b, 2
  {
    if b != End { PrintLength(b, indent, tail); }
  }

  /** Every repaired triple costs one line. */
  lemma {:induction false} RepairHeight(b: Block)
    ensures Height(Repair(b)) + Triples(b) == Height(b)
    decreases b, 1
  {
    match b
    case End =>
    case Then(x, rest) =>
      RepairStep(x, rest);
      if Starts(x, rest) {
        var y, z, rest3 := rest.first, rest.rest.first, rest.rest.rest;
        RepairHeight(rest3);
        assert Triples(rest) == Triples(rest.rest) == Triples(rest3);
        assert Height(rest.rest) == HeightIn(z) + Height(rest3) && Height(rest) == HeightIn(y) + Height(rest.rest);
        assert Height(Then(Second(z), Repair(rest3))) == 1 + Height(Repair(rest3));
      } else {
        RepairHeightIn(x);
        RepairHeight(rest);
      }
  }

  lemma {:induction false} RepairHeightIn(st: Stmt)
    ensures HeightIn(RepairInside(st)) + TriplesIn(st) == HeightIn(st)
    decreases st, 0
  {
    match st
    case If(c, yes, no) =>
      RepairHeight(yes);
      RepairHeight(no);
      RepairKeepsEmptiness(yes);
      RepairKeepsEmptiness(no);
    case While(c, body) =>
      RepairHeight(body);
      RepairKeepsEmptiness(body);
    case Try(body, handler) =>
      RepairHeight(body);
      RepairHeight(handler);
      RepairKeepsEmptiness(body);
      RepairKeepsEmptiness(handler);
    case _ =>
  }

  /** The matches at one indentation are the triples of the program. */
  lemma {:induction false} LevelHitsPrinted(b: Block, indent: nat, tail: Text)
    requires Outside(tail, indent)
    ensures LevelHits(Print(b, indent, tail)) == Triples(b) + LevelHits(tail)
    decreases b, 1
  {
    match b
    case End =>
    case Then(x, rest) =>
      LevelHitsPrinted(rest, indent, tail);
      if Compound(x) {
        OutsideDeeper(rest, indent, tail);
        LevelHitsStmt(x, indent, Print(rest, indent, tail));
      } else {
        var t := Print(b, indent, tail);
        PrintSimple(x, rest, indent, tail);
        if Hit(t) && t.indent == t.next.indent == t.next.next.indent { MatchInside(rest, indent, tail); }
        if Starts(x, rest) { PrintThree(x, rest.first, rest.rest.first, rest.rest.rest, indent, tail); }
      }
  }

  lemma {:induction false} LevelHitsSuite(b: Block, indent: nat, tail: Text)
    requires Outside(tail, indent)
    ensures LevelHits(PrintSuite(b, indent, tail)) == Triples(b) + LevelHits(tail)
    decreases b, 2
  {
    if b != End { LevelHitsPrinted(b, indent, tail); }
  }

  lemma {:induction false} LevelHitsElse(no: Block, indent: nat, tail: Text)
    requires Outside(tail, indent + 1)
    ensures LevelHits(PrintElse(no, indent, tail)) == Triples(no) + LevelHits(tail)
    decreases no, 2
  {
    if no != End { LevelHitsPrinted(no, indent + 1, tail); }
  }

  lemma {:induction false} LevelHitsStmt(st: Stmt, indent: nat, tail: Text)
    requires Compound(st) && Outside(tail, indent + 1)
    ensures LevelHits(PrintStmt(st, indent, tail)) == TriplesIn(st) + LevelHits(tail)
    decreases st, 0
  {
    match st
    case If(c, yes, no) =>
      LevelHitsSuite(yes, indent + 1, PrintElse(no, indent, tail));
      LevelHitsElse(no, indent, tail);
    case While(c, body) =>
      LevelHitsSuite(body, indent + 1, tail);
    case Try(body, handler) =>
      LevelHitsSuite(body, indent + 1, Line(indent, ExceptLine, PrintSuite(handler, indent + 1, tail)));
      LevelHitsSuite(handler, indent + 1, tail);
  }

  // ---- the annotations in the lines ------------------------------------------------------------

  function LineAnnotations(t: Text): multiset<(string, string)> {
    if t == Eof then multiset{}
    else (if t.kind.Simple? then AnnotationsOf(t.kind.st) else multiset{}) + LineAnnotations(t.next)
  }

  /** The annotations on the third lines of the replaced matches. */
  function ClosingLines(t: Text): multiset<(string, string)> {
    if t == Eof then multiset{}
    else
      (if Hit(t) then multiset{(t.kind.st.target, t.next.next.kind.st.typeName)} else multiset{}) + ClosingLines(t.next)
  }

  /** Each replaced match loses that annotation, and the lines lose no other one, wherever the matches lie. */
  lemma {:induction false} LinesDrop(t: Text)
    ensures LineAnnotations(t) == LineAnnotations(RepairLines(t)) + ClosingLines(t)
  {
    if t != Eof {
      RepairLinesStep(t);
      if Hit(t) {
        LinesDrop(t.next.next.next);
        HitDrops(t, RepairLines(t.next.next.next));
      } else {
        LinesDrop(t.next);
      }
    }
  }

  lemma LineAdds(indent: nat, kind: Kind, next: Text)
    ensures LineAnnotations(Line(indent, kind, next)) ==
      (if kind.Simple? then AnnotationsOf(kind.st) else multiset{}) + LineAnnotations(next)
  {}

  lemma HitAnnotations(t: Text)
    requires Hit(t)
    ensures var a, c, rest := t.kind.st, t.next.next.kind.st, t.next.next.next;
      LineAnnotations(t) == multiset{("_raw_" + a.target, "object")} + (multiset{(a.target, c.typeName)} + LineAnnotations(rest))
  {
    LineAdds(t.indent, t.kind, t.next);
    LineAdds(t.next.indent, t.next.kind, t.next.next);
    LineAdds(t.next.next.indent, t.next.next.kind, t.next.next.next);
  }

  lemma HitCloses(t: Text)
    requires Hit(t)
    ensures ClosingLines(t) == multiset{(t.kind.st.target, t.next.next.kind.st.typeName)} + ClosingLines(t.next.next.next)
  {
    assert ClosingLines(t.next.next) == ClosingLines(t.next.next.next);
    assert ClosingLines(t.next) == ClosingLines(t.next.next);
  }

  lemma HitDrops(t: Text, fixed: Text)
    requires Hit(t)
    requires var rest := t.next.next.next; LineAnnotations(rest) == LineAnnotations(fixed) + ClosingLines(rest)
    ensures var a, c := t.kind.st, t.next.next.kind.st;
      LineAnnotations(t) ==
        LineAnnotations(Line(t.indent, Simple(First(a)), Line(t.indent, Simple(Second(c)), fixed))) + ClosingLines(t)
  {
    var a, c, rest := t.kind.st, t.next.next.kind.st, t.next.next.next;
    var second := Line(t.indent, Simple(Second(c)), fixed);
    HitAnnotations(t);
    HitCloses(t);
    LineAdds(t.indent, Simple(First(a)), second);
    LineAdds(t.indent, Simple(Second(c)), fixed);
    Regroup(multiset{("_raw_" + a.target, "object")}, multiset{(a.target, c.typeName)},
            LineAnnotations(rest), LineAnnotations(fixed), ClosingLines(rest));
  }

  lemma {:induction false} AnnotationsPrinted(b: Block, indent: nat, tail: Text)
    ensures LineAnnotations(Print(b, indent, tail)) == Annotations(b) + LineAnnotations(tail)
    decreases b, 1
  {
    if b.Then? {
      AnnotationsPrinted(b.rest, indent, tail);
      AnnotationsPrintedStmt(b.first, indent, Print(b.rest, indent, tail));
    }
  }

  lemma {:induction false} AnnotationsPrintedSuite(b: Block, indent: nat, tail: Text)
    ensures LineAnnotations(PrintSuite(b, indent, tail)) == Annotations(b) + LineAnnotations(tail)
    decreases b, 2
  {
    if b != End { AnnotationsPrinted(b, indent, tail); }
  }

  lemma {:induction false} AnnotationsPrintedStmt(st: Stmt, indent: nat, tail: Text)
    ensures LineAnnotations(PrintStmt(st, indent, tail)) == AnnotationsOf(st) + LineAnnotations(tail)
    decreases st, 0
  {
    match st
    case If(c, yes, no) =>
      var after := PrintElse(no, indent, tail);
      LineAdds(indent, IfLine(c), PrintSuite(yes, indent + 1, after));
      AnnotationsPrintedSuite(yes, indent + 1, after);
      AnnotationsPrintedElse(no, indent, tail);
      SumAssoc(Annotations(yes), Annotations(no), LineAnnotations(tail));
    case While(c, body) =>
      LineAdds(indent, WhileLine(c), PrintSuite(body, indent + 1, tail));
      AnnotationsPrintedSuite(body, indent + 1, tail);
    case Try(body, handler) =>
      var after := PrintSuite(handler, indent + 1, tail);
      LineAdds(indent, TryLine, PrintSuite(body, indent + 1, Line(indent, ExceptLine, after)));
      LineAdds(indent, ExceptLine, after);
      AnnotationsPrintedSuite(body, indent + 1, Line(indent, ExceptLine, after));
      AnnotationsPrintedSuite(handler, indent + 1, tail);
      SumAssoc(Annotations(body), Annotations(handler), LineAnnotations(tail));
    case _ => LineAdds(indent, Simple(st), tail);
  }

  lemma SumAssoc(a: multiset<(string, string)>, b: multiset<(string, string)>, c: multiset<(string, string)>)
    ensures a + (b + c) == a + b + c
  {}

  lemma {:induction false} AnnotationsPrintedElse(no: Block, indent: nat, tail: Text)
    ensures LineAnnotations(PrintElse(no, indent, tail)) == Annotations(no) + LineAnnotations(tail)
    decreases no, 2
  {
    if no != End {
      LineAdds(indent, ElseLine, Print(no, indent + 1, tail));
      AnnotationsPrinted(no, indent + 1, tail);
    }
  }

  // ---- a whole file ------------------------------------------------------------------------------

  /** The script writes the repaired program exactly when every match that it replaces lies at one indentation. In any
      case the file loses the closing annotation of each replaced match, and no other one. */
  lemma RepairText(b: Block)
    ensures RepairLines(Print(b, 0, Eof)) == Print(Repair(b), 0, Eof) <==> Aligned(Print(b, 0, Eof))
    ensures var t := Print(b, 0, Eof); Annotations(b) == LineAnnotations(RepairLines(t)) + ClosingLines(t)
  {
    var t := Print(b, 0, Eof);
    LinesDrop(t);
    AnnotationsPrinted(b, 0, Eof);
    if Aligned(t) {
      RepairPrinted(b, 0, Eof);
    } else {
      AlignedCounts(t);
      RepairedLength(t);
      LevelHitsPrinted(b, 0, Eof);
      RepairHeight(b);
      PrintLength(b, 0, Eof);
      PrintLength(Repair(b), 0, Eof);
    }
  }

  /** Then it keeps the meaning of a program that compiles, in all runs in which the tests of its repaired triples
      cannot raise, exactly when no replaced match starts with a chained assignment. */
  lemma RepairTextMeaning(p: Program)
    requires Compiles(p) && Aligned(Print(p.body, 0, Eof))
    ensures RepairLines(Print(p.body, 0, Eof)) == Print(RepairProgram(p).body, 0, Eof)
    ensures (forall sem, fuel: nat, s :: Testable(sem, RepairedTypes(p.body)) ==>
               Run(sem, fuel, RepairProgram(p), s) == Run(sem, fuel, p, s))
      <==> !ChainedTriple(p.body)
  {
    RepairText(p.body);
    RepairMeaning(p);
  }

  /** Both scripts over the file of a program: they write the narrowed and repaired program exactly when the matches
      in the narrowed file lie at one indentation each. If narrowing alone keeps the meaning, the two then keep it,
      in all runs in which the tests of the repaired triples cannot raise, exactly when no replaced match starts
      with a chained assignment. */
  lemma BothScripts(p: Program)
    requires Compiles(p)
    ensures var file := NarrowLines(Print(p.body, 0, Eof)); var q := RepairProgram(NarrowProgram(p));
      && (RepairLines(file) == Print(q.body, 0, Eof) <==> Aligned(file))
      && (SameMeaning(Temporaries(p), {}, p, NarrowProgram(p)) ==>
            (SameMeaning(Temporaries(p), RepairedTypes(Narrow(p.body)), p, q) <==> !ChainedTriple(Narrow(p.body))))
  {
    RewritesPrograms(p.body);
    RepairText(Narrow(p.body));
    if SameMeaning(Temporaries(p), {}, p, NarrowProgram(p)) { NarrowThenRepair(p); }
  }

  // ---- what the script makes of any program -----------------------------------------------------

  /** The first `k` statements removed. */
  function Drop(b: Block, k: nat): (r: Block)
    ensures r == b || r < b
  {
    if k == 0 || b == End then b else Drop(b.rest, k - 1)
  }

  function Size(b: Block): nat {
    match b
    case End => 0
    case Then(_, rest) => 1 + Size(rest)
  }

  function Two(sts: seq<Stmt>): seq<Stmt> { if |sts| > 2 then sts[..2] else sts }

  /** The simple statements on the next two lines: of the block, and then of what follows it. */
  function Upcoming(b: Block, ahead: seq<Stmt>): seq<Stmt> {
    match b
    case End => Two(ahead)
    case Then(x, rest) => if Compound(x) then [] else Two([x] + Upcoming(rest, ahead))
  }

  /** The block as the script leaves it, and how many of the statements after it have been taken into it. */
  function Reach(b: Block, ahead: seq<Stmt>): (r: (Block, nat))
    ensures r.1 <= |ahead| && r.1 <= 2
    ensures r.0 == End <==> b == End
    decreases b, 1
  {
    match b
    case End => (End, 0)
    case Then(x, rest) =>
      var next := Upcoming(rest, ahead);
      UpcomingFits(rest, ahead);
      if Compound(x) then
        var (y, k) := ReachIn(x, next);
        if k <= Size(rest) then
          var (r, more) := Reach(Drop(rest, k), ahead);
          (Then(y, r), more)
        else (Then(y, End), k - Size(rest))
      else if |next| == 2 && Repairable(x, next[0], next[1]) then
        if 2 <= Size(rest) then
          var (r, more) := Reach(Drop(rest, 2), ahead);
          (Then(First(x), Then(Second(next[1]), r)), more)
        else (Then(First(x), Then(Second(next[1]), End)), 2 - Size(rest))
      else
        var (r, more) := Reach(rest, ahead);
        (Then(x, r), more)
  }

  function ReachIn(st: Stmt, ahead: seq<Stmt>): (r: (Stmt, nat))
    ensures r.1 <= |ahead| && r.1 <= 2
    ensures Compound(r.0) <==> Compound(st)
    decreases st, 0
  {
    match st
    case If(c, yes, no) =>
      if no == End then
        var (y, k) := Reach(yes, ahead);
        (If(c, y, End), k)
      else
        var (n, k) := Reach(no, ahead);
        (If(c, Reach(yes, []).0, n), k)
    case While(c, body) =>
      var (y, k) := Reach(body, ahead);
      (While(c, y), k)
    case Try(body, handler) =>
      var (h, k) := Reach(handler, ahead);
      (Try(Reach(body, []).0, h), k)
    case _ => (st, 0)
  }

  lemma {:induction false} UpcomingFits(b: Block, ahead: seq<Stmt>)
    ensures |Upcoming(b, ahead)| <= 2 && |Upcoming(b, ahead)| <= Size(b) + |ahead|
  {
    if b.Then? { UpcomingFits(b.rest, ahead); }
  }

  /** The simple statements on the next two lines of a text. */
  function Peek(t: Text): seq<Stmt> {
    match t
    case Line(_, Simple(a), Line(_, Simple(b), _)) => [a, b]
    case Line(_, Simple(a), _) => [a]
    case _ => []
  }

  function Skip(t: Text, k: nat): Text { if k == 0 || t == Eof then t else Skip(t.next, k - 1) }

  lemma {:induction false} PeekPrinted(b: Block, indent: nat, tail: Text)
    ensures Peek(Print(b, indent, tail)) == Upcoming(b, Peek(tail))
  {
    if b.Then? {
      if Compound(b.first) {
        CompoundHeader(b.first, indent, Print(b.rest, indent, tail));
      } else {
        PrintSimple(b.first, b.rest, indent, tail);
        PeekPrinted(b.rest, indent, tail);
      }
    }
  }

  /** Skipping lines of a block that are simple statements skips the statements. */
  lemma {:induction false} SkipPrinted(b: Block, indent: nat, tail: Text, k: nat)
    requires k <= |Upcoming(b, Peek(tail))|
    ensures Skip(Print(b, indent, tail), k) ==
      if k <= Size(b) then Print(Drop(b, k), indent, tail) else Skip(tail, k - Size(b))
    ensures k > Size(b) ==> k - Size(b) <= |Peek(tail)|
  {
    UpcomingFits(b, Peek(tail));
    if k > 0 && b.Then? {
      PrintSimple(b.first, b.rest, indent, tail);
      SkipPrinted(b.rest, indent, tail, k - 1);
    }
  }

  /** For every program, aligned or not, the lines that the script writes are those of the program that `Reach`
      computes; what follows a block loses the lines that were taken into it. */
  lemma {:induction false} ReachPrinted(b: Block, indent: nat, tail: Text)
    ensures var (r, k) := Reach(b, Peek(tail));
      RepairLines(Print(b, indent, tail)) == Print(r, indent, RepairLines(Skip(tail, k)))
    decreases b, 1
  {
    match b
    case End =>
    case Then(x, rest) =>
      var next := Upcoming(rest, Peek(tail));
      PeekPrinted(rest, indent, tail);
      UpcomingFits(rest, Peek(tail));
      if Compound(x) {
        var k := ReachIn(x, next).1;
        SkipPrinted(rest, indent, tail, k);
        ReachPrintedStmt(x, indent, Print(rest, indent, tail));
        if k <= Size(rest) { ReachPrinted(Drop(rest, k), indent, tail); }
      } else {
        ReachPrintedSimple(x, rest, indent, tail);
      }
  }

  lemma {:induction false} ReachPrintedSimple(x: Stmt, rest: Block, indent: nat, tail: Text)
    requires !Compound(x)
    ensures var (r, k) := Reach(Then(x, rest), Peek(tail));
      RepairLines(Print(Then(x, rest), indent, tail)) == Print(r, indent, RepairLines(Skip(tail, k)))
    decreases Then(x, rest), 0
  {
    var t, next := Print(Then(x, rest), indent, tail), Upcoming(rest, Peek(tail));
    PeekPrinted(rest, indent, tail);
    UpcomingFits(rest, Peek(tail));
    PrintSimple(x, rest, indent, tail);
    RepairLinesStep(t);
    if |next| == 2 && Repairable(x, next[0], next[1]) {
      SkipPrinted(rest, indent, tail, 2);
      assert Skip(t.next, 2) == Skip(t.next.next, 1) == t.next.next.next;
      if 2 <= Size(rest) {
        ReachPrinted(Drop(rest, 2), indent, tail);
        var (r, k) := Reach(Drop(rest, 2), Peek(tail));
        PrintTwo(First(x), Second(next[1]), r, indent, RepairLines(Skip(tail, k)));
      } else {
        PrintTwo(First(x), Second(next[1]), End, indent, RepairLines(Skip(tail, 2 - Size(rest))));
      }
    } else {
      ReachPrinted(rest, indent, tail);
      var (r, k) := Reach(rest, Peek(tail));
      PrintSimple(x, r, indent, RepairLines(Skip(tail, k)));
    }
  }

  lemma {:induction false} ReachPrintedSuite(b: Block, indent: nat, tail: Text)
    ensures var (r, k) := Reach(b, Peek(tail));
      RepairLines(PrintSuite(b, indent, tail)) == PrintSuite(r, indent, RepairLines(Skip(tail, k)))
    decreases b, 2
  {
    if b != End { ReachPrinted(b, indent, tail); }
  }

  lemma HeaderKept(indent: nat, kind: Kind, rest: Text)
    requires !kind.Simple?
    ensures RepairLines(Line(indent, kind, rest)) == Line(indent, kind, RepairLines(rest))
  {}

  lemma {:induction false} ReachPrintedStmt(st: Stmt, indent: nat, tail: Text)
    requires Compound(st)
    ensures var (r, k) := ReachIn(st, Peek(tail));
      RepairLines(PrintStmt(st, indent, tail)) == PrintStmt(r, indent, RepairLines(Skip(tail, k)))
    decreases st, 1
  {
    match st
    case If(c, yes, no) =>
      if no == End { ReachPrintedSuite(yes, indent + 1, tail); } else { ReachPrintedElse(c, yes, no, indent, tail); }
    case While(c, body) =>
      ReachPrintedSuite(body, indent + 1, tail);
    case Try(body, handler) =>
      ReachPrintedTry(body, handler, indent, tail);
  }

  lemma {:induction false} ReachPrintedElse(c: Expr, yes: Block, no: Block, indent: nat, tail: Text)
    requires no != End
    ensures var (n, k) := Reach(no, Peek(tail)); var y := Reach(yes, []).0;
      RepairLines(PrintStmt(If(c, yes, no), indent, tail))
        == PrintStmt(If(c, y, n), indent, RepairLines(Skip(tail, k)))
    decreases If(c, yes, no), 0
  {
    var after := PrintElse(no, indent, tail);
    HeaderKept(indent, IfLine(c), PrintSuite(yes, indent + 1, after));
    ReachPrintedSuite(yes, indent + 1, after);
    HeaderKept(indent, ElseLine, Print(no, indent + 1, tail));
    ReachPrinted(no, indent + 1, tail);
  }

  lemma {:induction false} ReachPrintedTry(body: Block, handler: Block, indent: nat, tail: Text)
    ensures var (h, k) := Reach(handler, Peek(tail)); var y := Reach(body, []).0;
      RepairLines(PrintStmt(Try(body, handler), indent, tail))
        == PrintStmt(Try(y, h), indent, RepairLines(Skip(tail, k)))
    decreases Try(body, handler), 0
  {
    var after := PrintSuite(handler, indent + 1, tail);
    HeaderKept(indent, TryLine, PrintSuite(body, indent + 1, Line(indent, ExceptLine, after)));
    HeaderKept(indent, ExceptLine, after);
    ReachPrintedSuite(body, indent + 1, Line(indent, ExceptLine, after));
    ReachPrintedSuite(handler, indent + 1, tail);
  }

  /** A whole file. */
  lemma ReachText(b: Block)
    ensures RepairLines(Print(b, 0, Eof)) == Print(Reach(b, []).0, 0, Eof)
  {
    ReachPrinted(b, 0, Eof);
  }
}
