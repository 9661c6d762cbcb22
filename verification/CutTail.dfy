/** A tail that has lost the last deciding line of its output, or the line end before that line: then only its first
    line, which is cut off or joined to the one before, can decide. */
module CutTail {
  import opened BackendOutput
  import opened OutputTail
  import opened Wrappers

  // ---- the lines of the end of a text ------------------------------------------------------------

  /** `end` has the last lines of `all`, except for its first one. */
  ghost predicate EndOf(all: seq<string>, end: seq<string>) {
    0 < |end| <= |all| && end[1..] == all[|all| - |end| + 1..]
  }

  lemma {:induction false} LinesOfEnd(head: string, end: string)
    ensures EndOf(Lines(head + end), Lines(end))
    decreases |head|
  {
    var text := head + end;
    if head == "" {
      assert text == end;
    } else if head[0] == '\n' {
      assert text[1..] == head[1..] + end;
      LinesOfEnd(head[1..], end);
      LastOfMore("", Lines(text[1..]), Lines(end));
    } else if head[0] == '\r' && |text| > 1 && text[1] == '\n' {
      LinesOfEndReturn(head, end);
    } else {
      assert text[1..] == head[1..] + end;
      LinesOfEnd(head[1..], end);
      LastOfLonger(head[0], Lines(text[1..]), Lines(end));
    }
  }

  lemma {:induction false} LinesOfEndReturn(head: string, end: string)
    requires head != "" && head[0] == '\r' && |head + end| > 1 && (head + end)[1] == '\n'
    ensures EndOf(Lines(head + end), Lines(end))
    decreases |head|, 0
  {
    var text := head + end;
    if |head| == 1 {
      assert end[0] == '\n' && text[2..] == end[1..];
    } else {
      assert text[2..] == head[2..] + end;
      LinesOfEnd(head[2..], end);
      LastOfMore("", Lines(text[2..]), Lines(end));
    }
  }

  lemma LastOfMore(line: string, lines: seq<string>, end: seq<string>)
    requires EndOf(lines, end)
    ensures EndOf([line] + lines, end)
  {}

  lemma LastOfLonger(c: char, lines: seq<string>, end: seq<string>)
    requires EndOf(lines, end)
    ensures EndOf([[c] + lines[0]] + lines[1..], end)
  {}

  ghost predicate OnlyFirstDecides(judge: Judgement, lines: seq<string>) {
    forall i :: 1 <= i < |lines| ==> !Decides(judge(lines[i]))
  }

  lemma EndOnlyFirst(judge: Judgement, all: seq<string>, end: seq<string>)
    requires EndOf(all, end) && OnlyFirstDecides(judge, all)
    ensures OnlyFirstDecides(judge, end)
  {
    forall i | 1 <= i < |end| ensures !Decides(judge(end[i])) {
      assert end[i] == end[1..][i - 1] == all[|all| - |end| + i];
    }
  }

  lemma LastCharsOnlyFirst(judge: Judgement, text: string, n: nat)
    requires |text| >= n && OnlyFirstDecides(judge, Lines(text))
    ensures OnlyFirstDecides(judge, Lines(LastChars(text, n)))
  {
    var head, end := text[..|text| - n], LastChars(text, n);
    assert text == head + end;
    LinesOfEnd(head, end);
    EndOnlyFirst(judge, Lines(text), Lines(end));
  }

  // ---- the lines in the tail ---------------------------------------------------------------------

  predicate Long(line: string) { |line| >= MAX_TAIL_CHARS }

  /** The last long line from `s` on, or else line `s`. */
  function LastLong(lines: seq<string>, s: nat, n: nat): (m: nat)
    requires s < n <= |lines|
    ensures s <= m < n && (m > s ==> Long(lines[m]))
    ensures forall i :: m < i < n ==> !Long(lines[i])
  {
    if n == s + 1 || Long(lines[n - 1]) then n - 1 else LastLong(lines, s, n - 1)
  }

  /** From line `m` on the log does not fit into the tail, and all that is left whole is of no account. */
  ghost predicate Loses(judge: Judgement, lines: seq<string>, newline: string, m: nat)
    requires m < |lines|
  {
    && |Entry(lines[m], newline) + Join(lines[m + 1..], newline)| >= MAX_TAIL_CHARS
    && (forall i :: m < i < |lines| ==> !Long(lines[i]))
    && (forall i :: m + 1 < i < |lines| ==> !Decides(judge(lines[i])))
    && (m + 1 < |lines| && !Long(lines[m]) ==> !Decides(judge(lines[m + 1])))
  }

  lemma LostFrom(judge: Judgement, lines: seq<string>, newline: string) returns (m: nat)
    requires !TailHolds(judge, lines, newline)
    ensures m < |lines| && Loses(judge, lines, newline, m)
  {
    var s := Start(judge, lines);
    assert lines[|lines|..] == [];
    var l := LastLong(lines, s, |lines|);
    if Long(lines[l]) {
      m := l;
    } else if |Join(lines[s..], newline)| > MAX_TAIL_CHARS {
      m := s;
      assert lines[s..][1..] == lines[s + 1..];
    } else {
      m := s - 1;
    }
  }

  lemma LogFrom(judge: Judgement, lines: seq<string>, newline: string, m: nat)
    requires CapturedAt(judge, lines) == 0 && m < |lines| && forall i :: m < i < |lines| ==> !Long(lines[i])
    ensures Log(judge, lines, newline)
      == Log(judge, lines[..m], newline) + (Entry(lines[m], newline) + Join(lines[m + 1..], newline))
  {
    var early, line, rest := lines[..m], lines[m], lines[m + 1..];
    assert !Captures(judge, line);
    NoneCapturedIn(judge, lines, m + 1);
    ShortRest(lines, m);
    UncapturedTailIsWhole(judge, rest, newline);
    assert lines == early + [line] + rest;
    LogParts(judge, early, line, rest, newline);
  }

  lemma ShortRest(lines: seq<string>, m: nat)
    requires m < |lines| && forall i :: m < i < |lines| ==> !Long(lines[i])
    ensures forall l :: l in lines[m + 1..] ==> |l| < MAX_TAIL_CHARS
  {
    forall l | l in lines[m + 1..] ensures |l| < MAX_TAIL_CHARS {
      var i :| 0 <= i < |lines[m + 1..]| && lines[m + 1..][i] == l;
      assert lines[m + 1 + i] == l;
    }
  }

  lemma LogParts(judge: Judgement, early: seq<string>, line: string, rest: seq<string>, newline: string)
    requires !Captures(judge, line)
    ensures Log(judge, early + [line] + rest, newline)
      == Log(judge, early, newline) + (Entry(line, newline) + Log(judge, rest, newline))
  {
    LogAppend(judge, early + [line], rest, newline);
    LogSnoc(judge, early, line, newline);
    Regroup(Log(judge, early, newline), Entry(line, newline), Log(judge, rest, newline));
  }

  lemma LinesFromShort(line: string, rest: seq<string>, newline: string)
    requires OneLine(line) && (forall l :: l in rest ==> OneLine(l)) && (newline == "\n" || newline == "\r\n")
    ensures Lines(line + newline + Join(rest, newline)) == [line] + (rest + [""])
  {
    LinesOfPrefixed(line, newline, Join(rest, newline));
    LinesOfJoin(rest, newline);
  }

  lemma Rejoin(a: string, b: string, c: string, d: string)
    ensures a + (b + c + d) == a + b + c + d
  {}

  lemma LinesFromLong(line: string, rest: seq<string>, newline: string)
    requires OneLine(line) && (forall l :: l in rest ==> OneLine(l)) && (newline == "\n" || newline == "\r\n")
    ensures Lines(line + Join(rest, newline)) ==
      if rest == [] then [line] else [line + rest[0]] + (rest[1..] + [""])
  {
    if rest == [] {
      LinesOfPrefixed(line, newline, "");
      assert line + Join(rest, newline) == line;
    } else {
      assert rest[0] in rest && forall l :: l in rest[1..] ==> l in rest;
      LinesFromShort(line + rest[0], rest[1..], newline);
      Rejoin(line, rest[0], newline, Join(rest[1..], newline));
    }
  }

  lemma NoneDecidesBehind(judge: Judgement, first: string, rest: seq<string>)
    requires judge("") == NotEnvelope && forall i :: 0 <= i < |rest| ==> !Decides(judge(rest[i]))
    ensures OnlyFirstDecides(judge, [first] + (rest + [""]))
  {}

  lemma OnlyFirstFrom(judge: Judgement, lines: seq<string>, newline: string, m: nat)
    requires (forall l :: l in lines ==> OneLine(l)) && (newline == "\n" || newline == "\r\n")
    requires m < |lines| && Loses(judge, lines, newline, m) && judge("") == NotEnvelope
    ensures OnlyFirstDecides(judge, Lines(Entry(lines[m], newline) + Join(lines[m + 1..], newline)))
  {
    var line, rest := lines[m], lines[m + 1..];
    assert forall i :: 0 <= i < |rest| ==> rest[i] == lines[m + 1 + i];
    if !Long(line) {
      LinesFromShort(line, rest, newline);
      NoneDecidesBehind(judge, line, rest);
    } else {
      LinesFromLong(line, rest, newline);
      if rest != [] { NoneDecidesBehind(judge, line + rest[0], rest[1..]); }
    }
  }

  /** When nothing was captured, and the tail does not hold the output from its last deciding line on. */
  lemma TailOnlyFirst(judge: Judgement, lines: seq<string>, newline: string)
    requires (forall l :: l in lines ==> OneLine(l)) && (newline == "\n" || newline == "\r\n")
    requires CapturedAt(judge, lines) == 0 && !TailHolds(judge, lines, newline) && judge("") == NotEnvelope
    ensures OnlyFirstDecides(judge, Lines(LastChars(Log(judge, lines, newline), MAX_TAIL_CHARS)))
  {
    var m := LostFrom(judge, lines, newline);
    var end := Entry(lines[m], newline) + Join(lines[m + 1..], newline);
    LogFrom(judge, lines, newline, m);
    LastCharsOfEnd(Log(judge, lines[..m], newline), end, MAX_TAIL_CHARS);
    OnlyFirstFrom(judge, lines, newline, m);
    LastCharsOnlyFirst(judge, end, MAX_TAIL_CHARS);
  }

  /** What its first line says, or else what the legacy parser finds in it. */
  ghost function FirstSays(judge: Judgement, legacy: Parser, tail: string): Outcome {
    var first := judge(Lines(tail)[0]);
    if Decides(first) then Say(first)
    else if HasEnvelope(judge, Lines(tail)) then Extracted(None)
    else Extracted(legacy(tail))
  }

  lemma SaidByFirst(judge: Judgement, legacy: Parser, tail: string)
    requires OnlyFirstDecides(judge, Lines(tail))
    ensures Batch(judge, legacy, tail) == FirstSays(judge, legacy, tail)
  {
    var lines := Lines(tail);
    var k := Deciding(judge, lines);
    assert k <= 1;
    if Decides(judge(lines[0])) { assert k == 1; }
  }

  /** Then only the first line of the tail decides. */
  lemma CutTailDecides(judge: Judgement, parse: Parser, legacy: Parser, lines: seq<string>, newline: string)
    requires Judging(judge, parse) && LegacyTrims(legacy)
    requires (forall l :: l in lines ==> OneLine(l)) && (newline == "\n" || newline == "\r\n")
    requires CapturedAt(judge, lines) == 0 && !TailHolds(judge, lines, newline)
    ensures Batch(judge, legacy, TailText(judge, lines, newline))
      == FirstSays(judge, legacy, LastChars(Log(judge, lines, newline), MAX_TAIL_CHARS))
  {
    var tail := LastChars(Log(judge, lines, newline), MAX_TAIL_CHARS);
    EmptyLineJudged(judge, parse, "");
    TailOnlyFirst(judge, lines, newline);
    SaidByFirst(judge, legacy, tail);
    TrimKeepsBatch(judge, parse, legacy, tail);
  }
}
