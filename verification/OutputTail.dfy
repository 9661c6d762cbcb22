/** The bounded tail of an output (SmsWorkbench.Contracts/BackendOutputCapture.cs:35-47): what the parser finds in it
    when nothing was captured, against what it finds in the whole output. */
module OutputTail {
  import opened BackendOutput
  import opened Wrappers

  // ---- trimming ------------------------------------------------------------------------------

  lemma {:induction false} TrimStartSnoc(s: string, c: char)
    requires White(c)
    ensures TrimStart(s + [c]) == if TrimStart(s) == "" then "" else TrimStart(s) + [c]
  {
    if |s| > 0 && White(s[0]) {
      assert (s + [c])[1..] == s[1..] + [c];
      TrimStartSnoc(s[1..], c);
    } else if |s| == 0 {
      assert s + [c] == [c] && [c][1..] == "";
    }
  }

  /** White space around a line makes no difference to the trimmed line. */
  lemma TrimIgnores(s: string, c: char)
    requires White(c)
    ensures Trim(s + [c]) == Trim(s) && Trim([c] + s) == Trim(s)
  {
    TrimStartSnoc(s, c);
    var t := TrimStart(s);
    assert t != "" ==> (t + [c])[..|t|] == t;
    assert ([c] + s)[1..] == s;
  }

  // ---- the envelopes of an output ------------------------------------------------------------

  /** The judgements of the envelope lines, in order. */
  function Envelopes(judge: Judgement, lines: seq<string>): seq<Verdict> {
    if lines == [] then []
    else
      var v := judge(lines[|lines| - 1]);
      Envelopes(judge, lines[..|lines| - 1]) + if v == NotEnvelope then [] else [v]
  }

  function SaidByLast(verdicts: seq<Verdict>): Outcome {
    if verdicts == [] then Extracted(None)
    else
      var v := verdicts[|verdicts| - 1];
      if Decides(v) then Say(v) else SaidByLast(verdicts[..|verdicts| - 1])
  }

  lemma DecidingBefore(judge: Judgement, lines: seq<string>, init: seq<string>)
    requires lines != [] && init == lines[..|lines| - 1] && !Decides(judge(lines[|lines| - 1]))
    ensures Deciding(judge, lines) == Deciding(judge, init) && Decided(judge, lines) == Decided(judge, init)
  {
    var k, j := Deciding(judge, lines), Deciding(judge, init);
    assert k > 0 ==> Decides(judge(init[k - 1]));
    assert j > 0 ==> Decides(judge(lines[j - 1]));
  }

  lemma HasEnvelopeSnoc(judge: Judgement, lines: seq<string>, init: seq<string>)
    requires lines != [] && init == lines[..|lines| - 1]
    ensures HasEnvelope(judge, lines) <==> HasEnvelope(judge, init) || judge(lines[|lines| - 1]) != NotEnvelope
  {
    if i :| 0 <= i < |lines| && !judge(lines[i]).NotEnvelope? {
      assert i < |init| ==> init[i] == lines[i];
    }
    if i :| 0 <= i < |init| && !judge(init[i]).NotEnvelope? { assert lines[i] == init[i]; }
  }

  lemma DecidedSnoc(judge: Judgement, lines: seq<string>, init: seq<string>)
    requires lines != [] && init == lines[..|lines| - 1]
    ensures var v := judge(lines[|lines| - 1]);
      Decided(judge, lines) == if Decides(v) then Say(v) else Decided(judge, init)
  {
    if !Decides(judge(lines[|lines| - 1])) { DecidingBefore(judge, lines, init); }
  }

  lemma EnvelopesSnoc(judge: Judgement, lines: seq<string>, init: seq<string>)
    requires lines != [] && init == lines[..|lines| - 1]
    ensures var v, before := judge(lines[|lines| - 1]), Envelopes(judge, init);
      && Envelopes(judge, lines) == (if v == NotEnvelope then before else before + [v])
      && SaidByLast(Envelopes(judge, lines)) == if Decides(v) then Say(v) else SaidByLast(before)
  {
    var v, before := judge(lines[|lines| - 1]), Envelopes(judge, init);
    assert before + [] == before && (before + [v])[..|before|] == before;
  }

  /** The batch parse depends on the text through these only, and on the legacy parser. */
  lemma {:induction false} DecidedByEnvelopes(judge: Judgement, lines: seq<string>)
    ensures HasEnvelope(judge, lines) <==> Envelopes(judge, lines) != []
    ensures Decided(judge, lines) == SaidByLast(Envelopes(judge, lines))
  {
    if lines != [] {
      var init, v := lines[..|lines| - 1], judge(lines[|lines| - 1]);
      DecidedByEnvelopes(judge, init);
      HasEnvelopeSnoc(judge, lines, init);
      DecidedSnoc(judge, lines, init);
      EnvelopesSnoc(judge, lines, init);
    }
  }

  lemma {:induction false} EnvelopesAppend(judge: Judgement, a: seq<string>, b: seq<string>)
    ensures Envelopes(judge, a + b) == Envelopes(judge, a) + Envelopes(judge, b)
  {
    if b == [] {
      assert a + b == a;
    } else {
      assert (a + b)[..|a + b| - 1] == a + b[..|b| - 1];
      EnvelopesAppend(judge, a, b[..|b| - 1]);
    }
  }

  lemma EnvelopesSingle(judge: Judgement, line: string)
    ensures Envelopes(judge, [line]) == if judge(line) == NotEnvelope then [] else [judge(line)]
  {
    assert [line][..0] == [];
  }

  // ---- white space around an output ----------------------------------------------------------

  /** The lines after one more character. */
  function SnocLines(lines: seq<string>, c: char): seq<string>
    requires lines != []
  {
    var init, last := lines[..|lines| - 1], lines[|lines| - 1];
    if c != '\n' then init + [last + [c]]
    else if |last| > 0 && last[|last| - 1] == '\r' then init + [last[..|last| - 1], ""]
    else lines + [""]
  }

  lemma LinesEmpty(text: string)
    ensures Lines(text) == [""] <==> text == ""
  {}

  lemma {:induction false} LinesSnoc(text: string, c: char)
    ensures Lines(text + [c]) == SnocLines(Lines(text), c)
    decreases |text|
  {
    var longer := text + [c];
    if text == "" {
      assert longer == [c] && longer[1..] == "" && "" + [c] == [c] && [c] + "" == [c];
      SnocSingle("", c);
    } else if text[0] == '\n' {
      assert longer[1..] == text[1..] + [c];
      LinesSnoc(text[1..], c);
      SnocBehind("", Lines(text[1..]), c);
    } else if text[0] == '\r' && |text| > 1 && text[1] == '\n' {
      assert longer[2..] == text[2..] + [c];
      LinesSnoc(text[2..], c);
      SnocBehind("", Lines(text[2..]), c);
    } else if text == "\r" && c == '\n' {
      assert longer[2..] == "" && text[1..] == "";
    } else {
      assert longer[1..] == text[1..] + [c];
      LinesSnoc(text[1..], c);
      LinesEmpty(text[1..]);
      SnocInFirst(text[0], Lines(text[1..]), c);
    }
  }

  lemma SnocBehind(line: string, lines: seq<string>, c: char)
    requires lines != []
    ensures SnocLines([line] + lines, c) == [line] + SnocLines(lines, c)
  {
    assert ([line] + lines)[..|lines|] == [line] + lines[..|lines| - 1];
  }

  lemma SnocInFirst(x: char, rest: seq<string>, c: char)
    requires rest != [] && !(x == '\r' && c == '\n' && rest == [""])
    ensures var longer := SnocLines(rest, c);
      SnocLines([[x] + rest[0]] + rest[1..], c) == [[x] + longer[0]] + longer[1..]
  {
    var lines := [[x] + rest[0]] + rest[1..];
    if |rest| == 1 {
      assert lines == [[x] + rest[0]] && rest == [rest[0]];
      SnocSingle([x] + rest[0], c);
      SnocSingle(rest[0], c);
      assert [x] + rest[0] + [c] == [x] + (rest[0] + [c]);
      if |rest[0]| > 0 { assert ([x] + rest[0])[..|rest[0]|] == [x] + rest[0][..|rest[0]| - 1]; }
    } else {
      assert rest == [rest[0]] + rest[1..];
      SnocBehind(rest[0], rest[1..], c);
      SnocBehind([x] + rest[0], rest[1..], c);
    }
  }

  lemma SnocSingle(line: string, c: char)
    ensures SnocLines([line], c) ==
      if c != '\n' then [line + [c]]
      else if |line| > 0 && line[|line| - 1] == '\r' then [line[..|line| - 1], ""]
      else [line, ""]
  {
    assert [line][..0] == [];
  }

  /** The lines may end in one that is judged like the last one, and in blank lines. */
  lemma SameEnd(judge: Judgement, init: seq<string>, a: string, b: string)
    requires judge(a) == judge(b) && judge("") == NotEnvelope
    ensures Envelopes(judge, init + [a]) == Envelopes(judge, init + [b]) == Envelopes(judge, init + [b, ""])
  {
    EnvelopesAppend(judge, init, [a]);
    EnvelopesAppend(judge, init, [b]);
    EnvelopesSingle(judge, a);
    EnvelopesSingle(judge, b);
    EnvelopesSingle(judge, "");
    EnvelopesAppend(judge, init + [b], [""]);
    assert init + [b, ""] == (init + [b]) + [""];
  }

  lemma SnocKeepsEnvelopes(judge: Judgement, parse: Parser, lines: seq<string>, c: char)
    requires Judging(judge, parse) && White(c) && lines != []
    ensures Envelopes(judge, SnocLines(lines, c)) == Envelopes(judge, lines)
  {
    var init, last := lines[..|lines| - 1], lines[|lines| - 1];
    assert lines == init + [last];
    EmptyLineJudged(judge, parse, "");
    if c != '\n' {
      TrimIgnores(last, c);
      SameTrimmed(judge, parse, last, last + [c]);
      SameEnd(judge, init, last, last + [c]);
    } else if |last| > 0 && last[|last| - 1] == '\r' {
      ReturnIgnored(judge, parse, last);
      SameEnd(judge, init, last, last[..|last| - 1]);
    } else {
      SameEnd(judge, init, last, last);
      Behind(init, last, "");
    }
  }

  lemma Behind(init: seq<string>, a: string, b: string)
    ensures (init + [a]) + [b] == init + [a, b]
  {}

  lemma ReturnIgnored(judge: Judgement, parse: Parser, line: string)
    requires Judging(judge, parse) && |line| > 0 && line[|line| - 1] == '\r'
    ensures judge(line) == judge(line[..|line| - 1])
  {
    TrimIgnores(line[..|line| - 1], '\r');
    assert line == line[..|line| - 1] + ['\r'];
    SameTrimmed(judge, parse, line, line[..|line| - 1]);
  }

  /** The first line may be one that is judged like it. */
  lemma SameStart(judge: Judgement, lines: seq<string>, a: string)
    requires lines != [] && judge(a) == judge(lines[0])
    ensures Envelopes(judge, [a] + lines[1..]) == Envelopes(judge, lines)
  {
    EnvelopesSingle(judge, lines[0]);
    EnvelopesSingle(judge, a);
    EnvelopesAppend(judge, [lines[0]], lines[1..]);
    EnvelopesAppend(judge, [a], lines[1..]);
    assert lines == [lines[0]] + lines[1..];
  }

  lemma ConsKeepsEnvelopes(judge: Judgement, parse: Parser, text: string)
    requires Judging(judge, parse) && text != "" && White(text[0])
    ensures Envelopes(judge, Lines(text)) == Envelopes(judge, Lines(text[1..]))
  {
    EmptyLineJudged(judge, parse, "");
    EnvelopesSingle(judge, "");
    if text[0] == '\n' {
      EnvelopesAppend(judge, [""], Lines(text[1..]));
    } else if text[0] == '\r' && |text| > 1 && text[1] == '\n' {
      assert text[1..][1..] == text[2..];
    } else {
      var rest := Lines(text[1..]);
      TrimIgnores(rest[0], text[0]);
      SameTrimmed(judge, parse, rest[0], [text[0]] + rest[0]);
      SameStart(judge, rest, [text[0]] + rest[0]);
    }
  }

  lemma {:induction false} TrimStartKeepsEnvelopes(judge: Judgement, parse: Parser, text: string)
    requires Judging(judge, parse)
    ensures Envelopes(judge, Lines(TrimStart(text))) == Envelopes(judge, Lines(text))
  {
    if |text| > 0 && White(text[0]) {
      TrimStartKeepsEnvelopes(judge, parse, text[1..]);
      ConsKeepsEnvelopes(judge, parse, text);
    }
  }

  lemma {:induction false} TrimEndKeepsEnvelopes(judge: Judgement, parse: Parser, text: string)
    requires Judging(judge, parse)
    ensures Envelopes(judge, Lines(TrimEnd(text))) == Envelopes(judge, Lines(text))
  {
    if |text| > 0 && White(text[|text| - 1]) {
      var init := text[..|text| - 1];
      TrimEndKeepsEnvelopes(judge, parse, init);
      assert text == init + [text[|text| - 1]];
      LinesSnoc(init, text[|text| - 1]);
      SnocKeepsEnvelopes(judge, parse, Lines(init), text[|text| - 1]);
    }
  }

  /** The legacy parser trims the text first. */
  ghost predicate LegacyTrims(legacy: Parser) {
    forall text {:trigger Trim(text)} :: legacy(Trim(text)) == legacy(text)
  }

  /** Trimming an output changes nothing for the batch parse, wherever its lines end. */
  lemma TrimKeepsBatch(judge: Judgement, parse: Parser, legacy: Parser, text: string)
    requires Judging(judge, parse) && LegacyTrims(legacy)
    ensures Batch(judge, legacy, Trim(text)) == Batch(judge, legacy, text)
  {
    TrimStartKeepsEnvelopes(judge, parse, text);
    TrimEndKeepsEnvelopes(judge, parse, TrimStart(text));
    DecidedByEnvelopes(judge, Lines(text));
    DecidedByEnvelopes(judge, Lines(Trim(text)));
  }

  function Nothing(text: string): Option<Json> { None }

  /** What the last deciding line of a text says. */
  function DecidedIn(judge: Judgement, text: string): Outcome { Decided(judge, Lines(text)) }

  lemma DecidedByBatch(judge: Judgement, text: string)
    ensures Batch(judge, Nothing, text) == DecidedIn(judge, text)
    ensures DecidedIn(judge, text) == SaidByLast(Envelopes(judge, Lines(text)))
  {
    DecidedByEnvelopes(judge, Lines(text));
  }

  // ---- the bounded tail ----------------------------------------------------------------------

  lemma InFirstOfMany(x: char, lines: seq<string>, more: seq<string>)
    requires |lines| > 1
    ensures var all := lines[..|lines| - 1] + more; var longer := [[x] + lines[0]] + lines[1..];
      [[x] + all[0]] + all[1..] == longer[..|longer| - 1] + more
  {}

  lemma BehindFirst(line: string, lines: seq<string>, more: seq<string>)
    requires lines != []
    ensures ([line] + lines)[..|lines|] + more == [line] + (lines[..|lines| - 1] + more)
  {}

  lemma {:induction false} LinesAfterNewline(head: string, rest: string)
    requires head == "" || head[|head| - 1] == '\n'
    ensures head != "" ==> |Lines(head)| > 1
    ensures var lines := Lines(head); Lines(head + rest) == lines[..|lines| - 1] + Lines(rest)
    decreases |head|
  {
    var text := head + rest;
    if head == "" {
      assert text == rest;
    } else if head[0] == '\n' {
      assert text[1..] == head[1..] + rest;
      LinesAfterNewline(head[1..], rest);
      BehindFirst("", Lines(head[1..]), Lines(rest));
    } else if head[0] == '\r' && |head| > 1 && head[1] == '\n' {
      assert text[2..] == head[2..] + rest;
      LinesAfterNewline(head[2..], rest);
      BehindFirst("", Lines(head[2..]), Lines(rest));
    } else {
      assert text[1..] == head[1..] + rest && text[1] == head[1];
      LinesAfterNewline(head[1..], rest);
      InFirstOfMany(head[0], Lines(head[1..]), Lines(rest));
    }
  }

  function Added(judge: Judgement, line: string, newline: string): string {
    if Captures(judge, line) then "" else Entry(line, newline)
  }

  lemma LogSnoc(judge: Judgement, lines: seq<string>, line: string, newline: string)
    ensures Log(judge, lines + [line], newline) == Log(judge, lines, newline) + Added(judge, line, newline)
  {
    assert (lines + [line])[..|lines|] == lines;
  }

  lemma Regroup(a: string, b: string, c: string)
    ensures (a + b) + c == a + (b + c)
  {}

  lemma {:induction false} LogAppend(judge: Judgement, a: seq<string>, b: seq<string>, newline: string)
    ensures Log(judge, a + b, newline) == Log(judge, a, newline) + Log(judge, b, newline)
  {
    if b == [] {
      assert a + b == a;
    } else {
      var init, last := b[..|b| - 1], b[|b| - 1];
      assert b == init + [last] && a + b == (a + init) + [last];
      LogAppend(judge, a, init, newline);
      LogSnoc(judge, a + init, last, newline);
      LogSnoc(judge, init, last, newline);
      Regroup(Log(judge, a, newline), Log(judge, init, newline), Added(judge, last, newline));
    }
  }

  lemma {:induction false} JoinIsLonger(lines: seq<string>, newline: string)
    requires newline != ""
    ensures forall l :: l in lines ==> |l| < |Join(lines, newline)|
  {
    if lines != [] { JoinIsLonger(lines[1..], newline); }
  }

  /** Where the part of the output starts on which the batch parse depends. */
  function Start(judge: Judgement, lines: seq<string>): (s: nat)
    ensures s <= |lines|
  {
    var k := Deciding(judge, lines);
    if k == 0 then 0 else k - 1
  }

  /** That part fits into the tail, and does not follow a line so long that it comes without a line end. */
  predicate TailHolds(judge: Judgement, lines: seq<string>, newline: string) {
    var s := Start(judge, lines);
    |Join(lines[s..], newline)| <= MAX_TAIL_CHARS && (s > 0 ==> |lines[s - 1]| < MAX_TAIL_CHARS)
  }

  lemma NoneCapturedIn(judge: Judgement, lines: seq<string>, s: nat)
    requires CapturedAt(judge, lines) == 0 && s <= |lines|
    ensures Streamed(judge, lines[s..]) == None
  {
    var part := lines[s..];
    forall i | 0 <= i < |part| ensures !Captures(judge, part[i]) { assert part[i] == lines[s + i]; }
    assert CapturedAt(judge, part) == 0;
    StreamedBy(judge, part);
  }

  lemma LogFromStart(judge: Judgement, lines: seq<string>, newline: string)
    requires newline == "\n" || newline == "\r\n"
    requires CapturedAt(judge, lines) == 0 && TailHolds(judge, lines, newline)
    ensures var s := Start(judge, lines);
      Log(judge, lines, newline) == Log(judge, lines[..s], newline) + Join(lines[s..], newline)
  {
    var s := Start(judge, lines);
    var part := lines[s..];
    assert lines == lines[..s] + part;
    LogAppend(judge, lines[..s], part, newline);
    JoinIsLonger(part, newline);
    NoneCapturedIn(judge, lines, s);
    UncapturedTailIsWhole(judge, part, newline);
  }

  predicate EndsLine(s: string) { s == "" || s[|s| - 1] == '\n' }

  lemma EarlierEndsLine(judge: Judgement, lines: seq<string>, newline: string)
    requires newline == "\n" || newline == "\r\n"
    requires CapturedAt(judge, lines) == 0 && TailHolds(judge, lines, newline)
    ensures EndsLine(Log(judge, lines[..Start(judge, lines)], newline))
    ensures Start(judge, lines) == 0 ==> Log(judge, lines[..Start(judge, lines)], newline) == ""
  {
    var s := Start(judge, lines);
    if s > 0 {
      assert lines[..s][s - 1] == lines[s - 1];
      EndsInNewline(judge, lines[..s], newline);
    }
  }

  /** Then the tail is a text that ends a line, or nothing, followed by that part. */
  lemma TailSplits(judge: Judgement, lines: seq<string>, newline: string) returns (head: string)
    requires newline == "\n" || newline == "\r\n"
    requires CapturedAt(judge, lines) == 0 && TailHolds(judge, lines, newline)
    ensures EndsLine(head)
    ensures Start(judge, lines) == 0 ==> head == ""
    ensures LastChars(Log(judge, lines, newline), MAX_TAIL_CHARS) == head + Join(lines[Start(judge, lines)..], newline)
  {
    LogFromStart(judge, lines, newline);
    EarlierEndsLine(judge, lines, newline);
    var s := Start(judge, lines);
    head := LastCharsOf(Log(judge, lines[..s], newline), Join(lines[s..], newline), MAX_TAIL_CHARS);
  }

  lemma LastCharsOf(earlier: string, later: string, n: nat) returns (head: string)
    requires |later| <= n && EndsLine(earlier)
    ensures EndsLine(head) && (earlier == "" ==> head == "")
    ensures LastChars(earlier + later, n) == head + later
  {
    var skip := if |earlier| + |later| > n then |earlier| + |later| - n else 0;
    head := earlier[skip..];
    assert (earlier + later)[skip..] == head + later;
    assert head != "" ==> head[|head| - 1] == earlier[|earlier| - 1];
  }

  lemma EndsInNewline(judge: Judgement, lines: seq<string>, newline: string)
    requires newline == "\n" || newline == "\r\n"
    requires lines != [] && !Captures(judge, lines[|lines| - 1]) && |lines[|lines| - 1]| < MAX_TAIL_CHARS
    ensures EndsLine(Log(judge, lines, newline))
  {
    var init, last := lines[..|lines| - 1], lines[|lines| - 1];
    assert lines == init + [last];
    LogSnoc(judge, init, last, newline);
    LastOfAppended(Log(judge, init, newline) + last, newline);
    Regroup(Log(judge, init, newline), last, newline);
  }

  lemma LastOfAppended(s: string, t: string)
    requires t != ""
    ensures (s + t)[|s + t| - 1] == t[|t| - 1]
  {}

  lemma {:induction false} SaidByLastOf(a: seq<Verdict>, b: seq<Verdict>)
    requires exists v :: v in b && Decides(v)
    ensures SaidByLast(a + b) == SaidByLast(b)
  {
    var init, last := b[..|b| - 1], b[|b| - 1];
    assert b == init + [last] && (a + b)[..|a + b| - 1] == a + init;
    if !Decides(last) { SaidByLastOf(a, init); }
  }

  lemma EndEnvelopes(judge: Judgement, before: seq<string>, part: seq<string>)
    requires judge("") == NotEnvelope
    ensures Envelopes(judge, before + (part + [""])) == Envelopes(judge, before) + Envelopes(judge, part)
  {
    EnvelopesAppend(judge, before, part + [""]);
    EnvelopesAppend(judge, part, [""]);
    EnvelopesSingle(judge, "");
  }

  lemma FirstDecides(judge: Judgement, part: seq<string>)
    requires part != [] && Decides(judge(part[0]))
    ensures exists v :: v in Envelopes(judge, part) && Decides(v)
  {
    EnvelopesAppend(judge, [part[0]], part[1..]);
    EnvelopesSingle(judge, part[0]);
    assert part == [part[0]] + part[1..];
    assert Envelopes(judge, part)[0] == judge(part[0]);
  }

  /** An output that ends in lines of which the first decides is parsed like these lines. */
  lemma EndDecides(judge: Judgement, legacy: Parser, text: string, before: seq<string>, part: seq<string>)
    requires part != [] && Decides(judge(part[0])) && judge("") == NotEnvelope
    requires Lines(text) == before + (part + [""])
    ensures Batch(judge, legacy, text) == SaidByLast(Envelopes(judge, part))
  {
    var lines, early, late := Lines(text), Envelopes(judge, before), Envelopes(judge, part);
    EndEnvelopes(judge, before, part);
    FirstDecides(judge, part);
    assert early + late != [];
    SaidByLastOf(early, late);
    DecidedByEnvelopes(judge, lines);
  }

  lemma SplitAt(lines: seq<string>, s: nat, line: string)
    requires s <= |lines|
    ensures lines + [line] == lines[..s] + (lines[s..] + [line])
  {}

  lemma EndOfTail(judge: Judgement, legacy: Parser, head: string, part: seq<string>, newline: string)
    requires (forall l :: l in part ==> OneLine(l)) && (newline == "\n" || newline == "\r\n")
    requires EndsLine(head)
    requires part != [] && Decides(judge(part[0])) && judge("") == NotEnvelope
    ensures Batch(judge, legacy, head + Join(part, newline)) == SaidByLast(Envelopes(judge, part))
  {
    var cut := Lines(head);
    LinesAfterNewline(head, Join(part, newline));
    LinesOfJoin(part, newline);
    EndDecides(judge, legacy, head + Join(part, newline), cut[..|cut| - 1], part);
  }

  lemma EndOfOutput(judge: Judgement, legacy: Parser, lines: seq<string>, newline: string, s: nat)
    requires (forall l :: l in lines ==> OneLine(l)) && (newline == "\n" || newline == "\r\n")
    requires s < |lines| && Decides(judge(lines[s])) && judge("") == NotEnvelope
    ensures Batch(judge, legacy, Join(lines, newline)) == SaidByLast(Envelopes(judge, lines[s..]))
  {
    LinesOfJoin(lines, newline);
    SplitAt(lines, s, "");
    EndDecides(judge, legacy, Join(lines, newline), lines[..s], lines[s..]);
  }

  /** The text of a stream that is parsed after exit. */
  function TailText(judge: Judgement, lines: seq<string>, newline: string): string {
    Trim(LastChars(Log(judge, lines, newline), MAX_TAIL_CHARS))
  }

  /** When nothing was captured, parsing the tail gives what parsing the whole output gives. */
  lemma TailDecides(judge: Judgement, parse: Parser, legacy: Parser, lines: seq<string>, newline: string)
    requires Judging(judge, parse) && LegacyTrims(legacy)
    requires (forall l :: l in lines ==> OneLine(l)) && (newline == "\n" || newline == "\r\n")
    requires CapturedAt(judge, lines) == 0 && TailHolds(judge, lines, newline)
    ensures Batch(judge, legacy, TailText(judge, lines, newline)) == Batch(judge, legacy, Join(lines, newline))
  {
    var head := TailSplits(judge, lines, newline);
    var s := Start(judge, lines);
    TrimKeepsBatch(judge, parse, legacy, head + Join(lines[s..], newline));
    if Deciding(judge, lines) == 0 {
      assert lines[s..] == lines && head + Join(lines, newline) == Join(lines, newline);
    } else {
      EmptyLineJudged(judge, parse, "");
      EndOfTail(judge, legacy, head, lines[s..], newline);
      EndOfOutput(judge, legacy, lines, newline, s);
    }
  }
}
