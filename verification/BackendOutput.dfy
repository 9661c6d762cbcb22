/** The output of a backend process: SmsWorkbench.Contracts/BackendOutputCapture.cs keeps a bounded tail and
    captures result envelopes line by line, BackendJsonProtocol.cs scans a whole output backwards.

    JSON parsing and the legacy parser are parameters; strings are sequences of characters. */
module BackendOutput {
  import opened Wrappers

  const MAX_TAIL_CHARS: nat := 262144
  const PREFIX: string := "@@SMSWORKBENCH_V2@@"

  /** `number` is the 32-bit integer a JSON number denotes, if it denotes one. */
  datatype Json = Null | Bool(value: bool) | Number(number: Option<int>) | Str(text: string) | Array(items: seq<Json>)
    | Object(fields: map<string, Json>)

  type Parser = string -> Option<Json>

  // ---- texts ---------------------------------------------------------------------------------

  predicate White(c: char) {
    || '\t' <= c <= '\r' || c == ' ' || c == '\U{85}' || c == '\U{A0}' || c == '\U{1680}' || '\U{2000}' <= c <= '\U{200A}'
    || c == '\U{2028}' || c == '\U{2029}' || c == '\U{202F}' || c == '\U{205F}' || c == '\U{3000}'
  }

  function TrimStart(s: string): string {
    if |s| > 0 && White(s[0]) then TrimStart(s[1..]) else s
  }

  function TrimEnd(s: string): string {
    if |s| > 0 && White(s[|s| - 1]) then TrimEnd(s[..|s| - 1]) else s
  }

  function Trim(s: string): string { TrimEnd(TrimStart(s)) }

  lemma {:induction false} TrimStartIs(s: string) returns (a: string)
    ensures s == a + TrimStart(s) && (forall c :: c in a ==> White(c))
    ensures TrimStart(s) != "" ==> !White(TrimStart(s)[0])
  {
    a := "";
    if |s| > 0 && White(s[0]) {
      a := TrimStartIs(s[1..]);
      assert s == [s[0]] + s[1..];
      a := [s[0]] + a;
    }
  }

  lemma {:induction false} TrimEndIs(s: string) returns (b: string)
    ensures s == TrimEnd(s) + b && (forall c :: c in b ==> White(c))
    ensures TrimEnd(s) != "" ==> !White(TrimEnd(s)[|TrimEnd(s)| - 1])
  {
    b := "";
    if |s| > 0 && White(s[|s| - 1]) {
      b := TrimEndIs(s[..|s| - 1]);
      assert s == s[..|s| - 1] + [s[|s| - 1]];
      b := b + [s[|s| - 1]];
    }
  }

  /** Trimming takes white space off both ends, and all of it. */
  lemma TrimIs(s: string) returns (a: string, b: string)
    ensures s == a + Trim(s) + b && (forall c :: c in a + b ==> White(c))
    ensures Trim(s) != "" ==> !White(Trim(s)[0]) && !White(Trim(s)[|Trim(s)| - 1])
  {
    a := TrimStartIs(s);
    b := TrimEndIs(TrimStart(s));
    assert a + (Trim(s) + b) == a + Trim(s) + b;
  }

  lemma {:induction false} TrimEndKeepsPrefix(s: string)
    requires PREFIX <= s
    ensures PREFIX <= TrimEnd(s)
    decreases |s|
  {
    if White(s[|s| - 1]) {
      assert s[18] == PREFIX[18] == '@';
      TrimEndKeepsPrefix(s[..|s| - 1]);
    }
  }

  /** Trimming does not touch the prefix of a line that starts with it. */
  lemma TrimKeepsPrefix(s: string)
    requires PREFIX <= s
    ensures PREFIX <= Trim(s)
  {
    assert s[0] == PREFIX[0] == '@';
    TrimEndKeepsPrefix(s);
  }

  /** Splitting at "\r\n" and "\n". */
  function Lines(text: string): (lines: seq<string>)
    ensures lines != []
  {
    if text == "" then [""]
    else if text[0] == '\n' then [""] + Lines(text[1..])
    else if text[0] == '\r' && |text| > 1 && text[1] == '\n' then [""] + Lines(text[2..])
    else
      var rest := Lines(text[1..]);
      [[text[0]] + rest[0]] + rest[1..]
  }

  /** A line as a line reader returns it. */
  predicate OneLine(line: string) {
    '\n' !in line && '\r' !in line
  }

  function Join(lines: seq<string>, newline: string): string {
    if lines == [] then "" else lines[0] + newline + Join(lines[1..], newline)
  }

  lemma LinesOfNewline(newline: string, rest: string)
    requires newline == "\n" || newline == "\r\n"
    ensures Lines(newline + rest) == [""] + Lines(rest)
  {
    assert (newline + rest)[|newline|..] == rest;
  }

  lemma LinesCons(c: char, text: string)
    requires c != '\n' && c != '\r'
    ensures Lines([c] + text) == [[c] + Lines(text)[0]] + Lines(text)[1..]
  {
    assert ([c] + text)[1..] == text;
  }

  lemma {:induction false} LinesOfPrefixed(line: string, newline: string, rest: string)
    requires OneLine(line) && (newline == "\n" || newline == "\r\n")
    ensures Lines(line + newline + rest) == [line] + Lines(rest)
    ensures Lines(line) == [line]
  {
    if line == "" {
      LinesOfNewline(newline, rest);
      assert line + newline + rest == newline + rest;
    } else {
      var c, more := line[0], line[1..];
      LinesOfPrefixed(more, newline, rest);
      assert c in line && line == [c] + more;
      LinesCons(c, more);
      LinesCons(c, more + newline + rest);
      assert line + newline + rest == [c] + (more + newline + rest);
      assert ([more] + Lines(rest))[1..] == Lines(rest);
    }
  }

  /** Joining lines and splitting them again is harmless. */
  lemma {:induction false} LinesOfJoin(lines: seq<string>, newline: string)
    requires (forall l :: l in lines ==> OneLine(l)) && (newline == "\n" || newline == "\r\n")
    ensures Lines(Join(lines, newline)) == lines + [""]
  {
    if lines != [] {
      LinesOfJoin(lines[1..], newline);
      LinesOfPrefixed(lines[0], newline, Join(lines[1..], newline));
      assert lines == [lines[0]] + lines[1..];
    }
  }

  // ---- one line ------------------------------------------------------------------------------

  /** What a trimmed line is to the protocol. `Malformed` makes the JSON parser raise; `BadShape` makes a
      property access raise, because the envelope is not an object or a string field holds something else. */
  datatype Verdict = NotEnvelope | Malformed | BadShape | Mismatch | OtherType | Result(payload: Json)

  predicate Stringlike(j: Json) { j.Str? || j.Null? }

  /** The checks on a parsed envelope, in the order in which they are made. */
  function JudgeRoot(root: Json): (v: Verdict)
    ensures v != NotEnvelope
  {
    if !root.Object? then BadShape
    else
      var f := root.fields;
      var versionOk := "version" in f && f["version"] == Number(Some(2));
      if "schema" in f && !Stringlike(f["schema"]) then BadShape
      else if !versionOk || "schema" !in f || f["schema"] != Str("smsworkbench.ipc.v2") then Mismatch
      else if "type" in f && !Stringlike(f["type"]) then BadShape
      else if "type" in f && f["type"] == Str("result") && "payload" in f then Result(f["payload"])
      else OtherType
  }

  function Judge(parse: Parser, line: string): (v: Verdict)
    ensures v == NotEnvelope <==> !(PREFIX <= line)
  {
    if !(PREFIX <= line) then NotEnvelope
    else match parse(line[|PREFIX|..])
      case None => Malformed
      case Some(root) => JudgeRoot(root)
  }

  // ---- what an envelope says -------------------------------------------------------------------

  predicate IsEnvelope(line: string) { PREFIX <= Trim(line) }

  /** The JSON behind the prefix. */
  function JsonOf(parse: Parser, line: string): Option<Json>
    requires IsEnvelope(line)
  {
    parse(Trim(line)[|PREFIX|..])
  }

  /** An object with version 2 and the schema of the protocol. */
  predicate IsV2(j: Json) {
    && j.Object? && "version" in j.fields && "schema" in j.fields
    && j.fields["version"] == Number(Some(2)) && j.fields["schema"] == Str("smsworkbench.ipc.v2")
  }

  /** Such an object of type "result", with a payload. */
  predicate IsResult(j: Json) {
    IsV2(j) && "type" in j.fields && j.fields["type"] == Str("result") && "payload" in j.fields
  }

  /** One of another type, or without a type or a payload. */
  predicate IsEvent(j: Json) {
    && IsV2(j) && !IsResult(j)
    && ("type" in j.fields ==> j.fields["type"] == Null || j.fields["type"].Str?)
  }

  /** An object with another version or schema, or without one. */
  predicate IsForeign(j: Json) {
    && j.Object? && !IsV2(j)
    && ("schema" in j.fields ==> j.fields["schema"] == Null || j.fields["schema"].Str?)
  }

  /** Everything else makes a property access raise: no object, or a schema or type that is not a string. */
  lemma JudgedAs(parse: Parser, line: string)
    ensures var v := Judge(parse, Trim(line));
      if !IsEnvelope(line) then v == NotEnvelope
      else match JsonOf(parse, line)
        case None => v == Malformed
        case Some(j) =>
          && (v.Result? <==> IsResult(j)) && (v.Result? ==> v.payload == j.fields["payload"])
          && (v == OtherType <==> IsEvent(j)) && (v == Mismatch <==> IsForeign(j))
          && (v == BadShape <==> !IsResult(j) && !IsEvent(j) && !IsForeign(j))
  {}

  /** How a whole line is judged. The scans below only depend on these judgements. */
  type Judgement = string -> Verdict

  /** Lines are trimmed first. */
  predicate Judges(judge: Judgement, parse: Parser, line: string) { judge(line) == Judge(parse, Trim(line)) }

  ghost predicate Judging(judge: Judgement, parse: Parser) {
    forall line :: Judges(judge, parse, line)
  }

  /** A line that starts with the prefix is judged to be an envelope: trimming does not hide it. An empty line
      is not. */
  ghost predicate FlushIsJudged(judge: Judgement) {
    forall line {:trigger judge(line)} :: PREFIX <= line ==> judge(line) != NotEnvelope
  }

  lemma PrefixIsJudged(judge: Judgement, parse: Parser)
    requires Judging(judge, parse)
    ensures FlushIsJudged(judge)
  {
    forall line: string {:trigger judge(line)} | PREFIX <= line ensures judge(line) != NotEnvelope {
      assert Judges(judge, parse, line);
      TrimKeepsPrefix(line);
    }
  }

  /** White space around a line plays no part. */
  lemma SameTrimmed(judge: Judgement, parse: Parser, a: string, b: string)
    requires Judging(judge, parse) && Trim(a) == Trim(b)
    ensures judge(a) == judge(b)
  {
    assert Judges(judge, parse, a) && Judges(judge, parse, b);
  }

  lemma EmptyLineJudged(judge: Judgement, parse: Parser, line: string)
    requires Judging(judge, parse) && line == ""
    ensures judge(line) == NotEnvelope
  {
    assert Judges(judge, parse, line) && Trim(line) == line;
  }

  /** The backward scan ends at such a line. */
  predicate Decides(v: Verdict) { v.Result? || v.Malformed? || v.BadShape? }

  // ---- the whole output ----------------------------------------------------------------------

  datatype Outcome = Extracted(payload: Option<Json>) | JsonError | InvalidOperation

  /** The number of lines up to and including the last one that decides. */
  function Deciding(judge: Judgement, lines: seq<string>): (k: nat)
    ensures k <= |lines|
    ensures k > 0 ==> Decides(judge(lines[k - 1]))
    ensures forall i :: k <= i < |lines| ==> !Decides(judge(lines[i]))
  {
    LastDeciding(judge, lines, |lines|)
  }

  function LastDeciding(judge: Judgement, lines: seq<string>, n: nat): (k: nat)
    requires n <= |lines|
    ensures k <= n
    ensures k > 0 ==> Decides(judge(lines[k - 1]))
    ensures forall i :: k <= i < n ==> !Decides(judge(lines[i]))
  {
    if n == 0 || Decides(judge(lines[n - 1])) then n else LastDeciding(judge, lines, n - 1)
  }

  ghost predicate HasEnvelope(judge: Judgement, lines: seq<string>) {
    exists i :: 0 <= i < |lines| && !judge(lines[i]).NotEnvelope?
  }

  function Say(v: Verdict): Outcome {
    match v
    case Result(payload) => Extracted(Some(payload))
    case Malformed => JsonError
    case _ => InvalidOperation
  }

  /** What the last of the first `k` lines says; without one there is no payload. */
  function SaidBy(judge: Judgement, lines: seq<string>, k: nat): Outcome
    requires k <= |lines|
  {
    if k == 0 then Extracted(None) else Say(judge(lines[k - 1]))
  }

  function Decided(judge: Judgement, lines: seq<string>): Outcome { SaidBy(judge, lines, Deciding(judge, lines)) }

  /** A present but unusable envelope gives no payload; only an output without any envelope is left to the
      legacy parser. */
  ghost function Batch(judge: Judgement, legacy: Parser, text: string): Outcome {
    if HasEnvelope(judge, Lines(text)) then Decided(judge, Lines(text)) else Extracted(legacy(text))
  }

  ghost predicate HasMismatch(judge: Judgement, lines: seq<string>) {
    exists i :: 0 <= i < |lines| && judge(lines[i]).Mismatch?
  }

  /** The backward scan over the lines. `warned` says whether the mismatch warning was given. */
  method ScanBack(judge: Judgement, lines: seq<string>) returns (outcome: Outcome, sawEnvelope: bool, warned: bool)
    ensures outcome == Decided(judge, lines)
    ensures Deciding(judge, lines) > 0 || HasEnvelope(judge, lines) <==> sawEnvelope
    ensures warned <==> Deciding(judge, lines) == 0 && HasMismatch(judge, lines)
  {
    sawEnvelope := false;
    var sawEnvelopeMismatch := false;
    var index := |lines|;
    while index > 0
      invariant 0 <= index <= |lines|
      invariant forall i :: index <= i < |lines| ==> !Decides(judge(lines[i]))
      invariant sawEnvelope <==> exists i :: index <= i < |lines| && !judge(lines[i]).NotEnvelope?
      invariant sawEnvelopeMismatch <==> exists i :: index <= i < |lines| && judge(lines[i]).Mismatch?
    {
      index := index - 1;
      match judge(lines[index]) {
        case NotEnvelope =>
        case Malformed => return JsonError, true, false;
        case BadShape => return InvalidOperation, true, false;
        case Mismatch => sawEnvelope, sawEnvelopeMismatch := true, true;
        case OtherType => sawEnvelope := true;
        case Result(payload) => return Extracted(Some(payload)), true, false;
      }
    }
    return Extracted(None), sawEnvelope, sawEnvelopeMismatch;
  }

  /** The scan goes past this line. */
  predicate Passed(parse: Parser, line: string) {
    IsEnvelope(line) ==> var j := JsonOf(parse, line); j.Some? && (IsEvent(j.value) || IsForeign(j.value))
  }

  /** The scan stops at line `k`. */
  ghost predicate StopsAt(parse: Parser, lines: seq<string>, k: nat) {
    k < |lines| && !Passed(parse, lines[k]) && forall i :: k < i < |lines| ==> Passed(parse, lines[i])
  }

  /** What comes of that line: its JSON does not parse, or it is a result, or it raises. */
  ghost predicate Yields(parse: Parser, line: string, outcome: Outcome) {
    IsEnvelope(line) &&
    match JsonOf(parse, line)
    case None => outcome == JsonError
    case Some(j) => outcome == if IsResult(j) then Extracted(Some(j.fields["payload"])) else InvalidOperation
  }

  ghost predicate IsForeignLine(parse: Parser, line: string) {
    IsEnvelope(line) && JsonOf(parse, line).Some? && IsForeign(JsonOf(parse, line).value)
  }

  ghost predicate SomeForeign(parse: Parser, lines: seq<string>) {
    exists i :: 0 <= i < |lines| && IsForeignLine(parse, lines[i])
  }

  ghost predicate SomeEnvelope(lines: seq<string>) { exists i :: 0 <= i < |lines| && IsEnvelope(lines[i]) }

  ghost predicate AllPassed(parse: Parser, lines: seq<string>) {
    forall i :: 0 <= i < |lines| ==> Passed(parse, lines[i])
  }

  lemma LineJudged(judge: Judgement, parse: Parser, line: string)
    requires Judging(judge, parse)
    ensures judge(line).NotEnvelope? <==> !IsEnvelope(line)
    ensures Decides(judge(line)) <==> !Passed(parse, line)
    ensures Decides(judge(line)) ==> Yields(parse, line, Say(judge(line)))
    ensures judge(line).Mismatch? <==> IsForeignLine(parse, line)
  {
    assert Judges(judge, parse, line);
    JudgedAs(parse, line);
  }

  /** What the judgements come to. */
  lemma StopDecides(judge: Judgement, parse: Parser, lines: seq<string>, k: nat)
    requires Judging(judge, parse) && StopsAt(parse, lines, k)
    ensures Deciding(judge, lines) == k + 1
  {
    var d := Deciding(judge, lines);
    StopsHere(judge, parse, lines[k]);
    if d > k + 1 { StopsHere(judge, parse, lines[d - 1]); }
  }

  lemma StopsHere(judge: Judgement, parse: Parser, line: string)
    requires Judging(judge, parse)
    ensures Decides(judge(line)) <==> !Passed(parse, line)
  {
    LineJudged(judge, parse, line);
  }

  lemma NoneStops(judge: Judgement, parse: Parser, lines: seq<string>)
    requires Judging(judge, parse) && AllPassed(parse, lines)
    ensures Deciding(judge, lines) == 0
  {
    var d := Deciding(judge, lines);
    if d > 0 { LineJudged(judge, parse, lines[d - 1]); }
  }

  lemma EnvelopesFound(judge: Judgement, parse: Parser, lines: seq<string>)
    requires Judging(judge, parse)
    ensures HasEnvelope(judge, lines) <==> SomeEnvelope(lines)
    ensures HasMismatch(judge, lines) <==> SomeForeign(parse, lines)
  {
    forall i | 0 <= i < |lines|
      ensures judge(lines[i]).NotEnvelope? <==> !IsEnvelope(lines[i])
      ensures judge(lines[i]).Mismatch? <==> IsForeignLine(parse, lines[i])
    {
      LineJudged(judge, parse, lines[i]);
    }
  }

  /** The last line at which the scan stops decides, and nothing is warned of; when there is none, envelopes give no
      payload, with a warning when one is foreign, and a text without any is left to the legacy parser. */
  ghost predicate ReadsAs(parse: Parser, legacy: Parser, text: string, outcome: Outcome, warned: bool) {
    var lines := Lines(text);
    && (forall k: nat :: StopsAt(parse, lines, k) ==> Yields(parse, lines[k], outcome) && !warned)
    && (AllPassed(parse, lines) ==>
          && outcome == (if SomeEnvelope(lines) then Extracted(None) else Extracted(legacy(text)))
          && (warned <==> SomeForeign(parse, lines)))
  }

  lemma BatchReadsAs(judge: Judgement, parse: Parser, legacy: Parser, text: string, warned: bool)
    requires Judging(judge, parse)
    requires warned <==> Deciding(judge, Lines(text)) == 0 && HasMismatch(judge, Lines(text))
    ensures ReadsAs(parse, legacy, text, Batch(judge, legacy, text), warned)
  {
    var lines := Lines(text);
    EnvelopesFound(judge, parse, lines);
    forall k: nat | StopsAt(parse, lines, k) ensures Yields(parse, lines[k], Batch(judge, legacy, text)) && !warned {
      StopDecides(judge, parse, lines, k);
      LineJudged(judge, parse, lines[k]);
      assert SomeEnvelope(lines);
    }
    if AllPassed(parse, lines) { NoneStops(judge, parse, lines); }
  }

  /** `ExtractPayload` */
  method ExtractPayload(judge: Judgement, ghost parse: Parser, legacy: Parser, text: string)
    returns (outcome: Outcome, warned: bool)
    requires Judging(judge, parse)
    ensures outcome == Batch(judge, legacy, text)
    ensures warned <==> Deciding(judge, Lines(text)) == 0 && HasMismatch(judge, Lines(text))
    ensures ReadsAs(parse, legacy, text, outcome, warned)
  {
    var lines := Lines(text);
    var sawEnvelope: bool;
    outcome, sawEnvelope, warned := ScanBack(judge, lines);
    if !sawEnvelope { outcome := Extracted(legacy(text)); }
    BatchReadsAs(judge, parse, legacy, text, warned);
  }

  // ---- line by line --------------------------------------------------------------------------

  /** Only a line that starts with the prefix before trimming is tried. */
  predicate Flush(line: string) { PREFIX <= line }

  predicate Captures(judge: Judgement, line: string) { Flush(line) && judge(line).Result? }

  predicate Raises(judge: Judgement, line: string) { Flush(line) && judge(line).BadShape? }

  /** The payload of the last captured line. */
  function Streamed(judge: Judgement, lines: seq<string>): Option<Json> {
    if lines == [] then None
    else
      var last := lines[|lines| - 1];
      if Captures(judge, last) then Some(judge(last).payload) else Streamed(judge, lines[..|lines| - 1])
  }

  /** The number of lines before the first one that raises. */
  function Reached(judge: Judgement, lines: seq<string>): (n: nat)
    ensures n <= |lines|
    ensures forall i :: 0 <= i < n ==> !Raises(judge, lines[i])
    ensures n < |lines| ==> Raises(judge, lines[n])
  {
    FirstRaising(judge, lines, 0)
  }

  function FirstRaising(judge: Judgement, lines: seq<string>, i: nat): (n: nat)
    requires i <= |lines|
    ensures i <= n <= |lines|
    ensures forall j :: i <= j < n ==> !Raises(judge, lines[j])
    ensures n < |lines| ==> Raises(judge, lines[n])
    decreases |lines| - i
  {
    if i == |lines| || Raises(judge, lines[i]) then i else FirstRaising(judge, lines, i + 1)
  }

  /** What the reader loop yields: the exception of the first line that raises, or the captured payload. */
  function StreamOutcome(judge: Judgement, lines: seq<string>): Outcome {
    if Reached(judge, lines) < |lines| then InvalidOperation else Extracted(Streamed(judge, lines))
  }

  /** What an appended line adds to the log: an oversized line comes without a line end. */
  function Entry(line: string, newline: string): string {
    if |line| >= MAX_TAIL_CHARS then line else line + newline
  }

  /** The log of the lines that were not captured. */
  function Log(judge: Judgement, lines: seq<string>, newline: string): string {
    if lines == [] then ""
    else
      var last := lines[|lines| - 1];
      var before := Log(judge, lines[..|lines| - 1], newline);
      if Captures(judge, last) then before else before + Entry(last, newline)
  }

  function LastChars(s: string, n: nat): (t: string)
    ensures |t| == if |s| < n then |s| else n
  {
    if |s| < n then s else s[|s| - n..]
  }

  /** Cutting before or after appending makes no difference to the end of a text. */
  lemma LastCharsAppend(s: string, t: string, n: nat)
    ensures LastChars(s + t, n) == LastChars(LastChars(s, n) + t, n)
  {
    if |s| >= n {
      var skip := |s| - n;
      var end := s[skip..];
      DropOfAppend(s, t, skip);
      DropTwice(s + t, skip, |t|);
      assert |end + t| - n == |t|;
      assert LastChars(end + t, n) == (end + t)[|t|..];
    } else {
      assert LastChars(s, n) == s;
    }
  }

  lemma LastCharsOfEnd(s: string, t: string, n: nat)
    requires |t| >= n
    ensures LastChars(s + t, n) == LastChars(t, n)
  {
    assert (s + t)[|s|..] == t;
    DropTwice(s + t, |s|, |t| - n);
  }

  lemma DropOfAppend(s: string, t: string, i: nat)
    requires i <= |s|
    ensures (s + t)[i..] == s[i..] + t
  {}

  lemma DropTwice(s: string, i: nat, j: nat)
    requires i + j <= |s|
    ensures s[i..][j..] == s[i + j..]
  {}

  lemma OneMore(judge: Judgement, lines: seq<string>, read: nat, newline: string)
    requires read < |lines|
    ensures var line := lines[read];
      && Streamed(judge, lines[..read + 1])
        == (if Captures(judge, line) then Some(judge(line).payload) else Streamed(judge, lines[..read]))
      && Log(judge, lines[..read + 1], newline)
        == if Captures(judge, line) then Log(judge, lines[..read], newline)
           else Log(judge, lines[..read], newline) + Entry(line, newline)
  {
    assert lines[..read + 1][..read] == lines[..read];
  }

  lemma ReachedNext(judge: Judgement, lines: seq<string>, read: nat)
    requires read < |lines| && read <= Reached(judge, lines)
    ensures if Raises(judge, lines[read]) then read == Reached(judge, lines) else read < Reached(judge, lines)
  {}

  datatype Attempt = Captured | Rejected | Raised

  class Capture {
    const judge: Judgement
    ghost const parse: Parser
    const legacy: Parser
    const newline: string
    var tail: string
    var payload: Option<Json>
    ghost var log: string

    /** The tail is the end of everything appended so far. */
    ghost predicate Valid()
      reads this
    {
      Judging(judge, parse) && FlushIsJudged(judge) &&
      tail == LastChars(log, MAX_TAIL_CHARS)
    }

    constructor (judge: Judgement, ghost parse: Parser, legacy: Parser, newline: string)
      requires Judging(judge, parse)
      ensures Valid() && this.judge == judge && this.parse == parse && this.legacy == legacy && this.newline == newline
      ensures payload == None && log == ""
    {
      this.judge, this.parse, this.legacy, this.newline := judge, parse, legacy, newline;
      tail, payload, log := "", None, "";
      PrefixIsJudged(judge, parse);
    }

    method Append(line: string)
      requires Valid()
      modifies `tail, `log
      ensures Valid() && log == old(log) + Entry(line, newline)
      ensures tail == if |log| <= 262144 then log else log[|log| - 262144..]
    {
      log := log + Entry(line, newline);
      if |line| >= MAX_TAIL_CHARS {
        LastCharsOfEnd(old(log), line, MAX_TAIL_CHARS);
        tail := line[|line| - MAX_TAIL_CHARS..];
        return;
      }
      LastCharsAppend(old(log), line + newline, MAX_TAIL_CHARS);
      tail := tail + (line + newline);
      if |tail| > MAX_TAIL_CHARS {
        tail := tail[|tail| - MAX_TAIL_CHARS..];
      }
    }

    /** A result is captured, JSON that makes a property access raise raises, and any other line goes to the tail. */
    ghost predicate ReadLine(line: string, attempt: Attempt, before: Option<Json>)
      reads this
    {
      IsEnvelope(line) &&
      match JsonOf(parse, line)
      case None => attempt == Rejected && payload == before
      case Some(j) =>
        if IsResult(j) then attempt == Captured && payload == Some(j.fields["payload"])
        else payload == before && attempt == if IsEvent(j) || IsForeign(j) then Rejected else Raised
    }

    method TryCaptureEnvelope(line: string) returns (attempt: Attempt)
      requires OneLine(line) && Judging(judge, parse) && FlushIsJudged(judge)
      modifies `payload
      ensures attempt == if Captures(judge, line) then Captured else if Raises(judge, line) then Raised else Rejected
      ensures payload == if Captures(judge, line) then Some(judge(line).payload) else old(payload)
      ensures if PREFIX <= line then ReadLine(line, attempt, old(payload)) else attempt == Rejected && payload == old(payload)
    {
      if !(PREFIX <= line) { return Rejected; }
      assert Judges(judge, parse, line);
      JudgedAs(parse, line);
      LinesOfPrefixed(line, "\n", "");
      var outcome, _ := ExtractPayload(judge, parse, legacy, line);
      assert Lines(line)[0] == line;
      match outcome {
        case JsonError => return Rejected;
        case InvalidOperation => return Raised;
        case Extracted(found) =>
          if found == None { return Rejected; }
          payload := found;
          return Captured;
      }
    }

    /** One pass of the reader loop: a line that is not captured goes to the tail. */
    method TakeLine(line: string) returns (attempt: Attempt)
      requires Valid() && OneLine(line)
      modifies this
      ensures Valid() && (attempt == Raised <==> Raises(judge, line))
      ensures payload == if Captures(judge, line) then Some(judge(line).payload) else old(payload)
      ensures attempt != Raised ==> log == if Captures(judge, line) then old(log) else old(log) + Entry(line, newline)
      ensures attempt == Raised ==> log == old(log)
    {
      attempt := TryCaptureEnvelope(line);
      if attempt == Rejected { Append(line); }
    }

    /** The reader loop. It stops at an envelope of bad shape,
        whose exception nothing catches. */
    method Pump(lines: seq<string>) returns (read: nat)
      requires Valid() && payload == None && log == "" && forall l :: l in lines ==> OneLine(l)
      modifies this
      ensures Valid() && read == Reached(judge, lines)
      ensures payload == Streamed(judge, lines[..read]) && log == Log(judge, lines[..read], newline)
      ensures StreamOutcome(judge, lines) == if read < |lines| then InvalidOperation else Extracted(payload)
    {
      read := 0;
      while read < |lines|
        invariant Valid() && read <= Reached(judge, lines)
        invariant payload == Streamed(judge, lines[..read]) && log == Log(judge, lines[..read], newline)
      {
        OneMore(judge, lines, read, newline);
        ReachedNext(judge, lines, read);
        var attempt := TakeLine(lines[read]);
        if attempt == Raised { return; }
        read := read + 1;
      }
      assert lines[..|lines|] == lines;
    }
  }

  // ---- streaming against batch ---------------------------------------------------------------

  /** The number of lines up to and including the last captured one. */
  function CapturedAt(judge: Judgement, lines: seq<string>): (k: nat)
    ensures k <= |lines|
    ensures k > 0 ==> Captures(judge, lines[k - 1])
    ensures forall i :: k <= i < |lines| ==> !Captures(judge, lines[i])
  {
    LastCaptured(judge, lines, |lines|)
  }

  function LastCaptured(judge: Judgement, lines: seq<string>, n: nat): (k: nat)
    requires n <= |lines|
    ensures k <= n
    ensures k > 0 ==> Captures(judge, lines[k - 1])
    ensures forall i :: k <= i < n ==> !Captures(judge, lines[i])
  {
    if n == 0 || Captures(judge, lines[n - 1]) then n else LastCaptured(judge, lines, n - 1)
  }

  /** That line gives the captured payload. */
  lemma {:induction false} StreamedBy(judge: Judgement, lines: seq<string>)
    ensures var k := CapturedAt(judge, lines);
      Streamed(judge, lines) == if k == 0 then None else Some(judge(lines[k - 1]).payload)
  {
    if lines != [] && !Captures(judge, lines[|lines| - 1]) {
      var init := lines[..|lines| - 1];
      StreamedBy(judge, init);
      CapturedBefore(judge, lines, init);
    }
  }

  lemma CapturedBefore(judge: Judgement, lines: seq<string>, init: seq<string>)
    requires lines != [] && init == lines[..|lines| - 1] && !Captures(judge, lines[|lines| - 1])
    ensures CapturedAt(judge, lines) == CapturedAt(judge, init)
  {
    var k, j := CapturedAt(judge, lines), CapturedAt(judge, init);
    assert k > 0 ==> Captures(judge, init[k - 1]);
    assert j > 0 ==> Captures(judge, lines[j - 1]);
  }

  /** The number of lines up to and including the one that fixes what streaming yields. */
  function StreamSource(judge: Judgement, lines: seq<string>): (s: nat)
    ensures s <= |lines|
  {
    var r := Reached(judge, lines);
    if r < |lines| then r + 1 else CapturedAt(judge, lines)
  }

  /** The two go by the same line, and then yield the same, if and only if no line decides, or the last one that
      does is a flush result and no line raises, or it is the first line that raises. */
  lemma SameLineIff(judge: Judgement, lines: seq<string>)
    ensures var k, r := Deciding(judge, lines), Reached(judge, lines);
      StreamSource(judge, lines) == k
      <==> (k == 0 || (r == |lines| && Captures(judge, lines[k - 1])) || r == k - 1)
    ensures StreamSource(judge, lines) <= Deciding(judge, lines)
    ensures StreamSource(judge, lines) == Deciding(judge, lines) ==> StreamOutcome(judge, lines) == Decided(judge, lines)
  {
    StreamedBy(judge, lines);
    var c, d, r := CapturedAt(judge, lines), Deciding(judge, lines), Reached(judge, lines);
    assert c > 0 ==> Decides(judge(lines[c - 1]));
    assert r < |lines| ==> Decides(judge(lines[r]));
  }

  lemma BatchOfJoin(judge: Judgement, legacy: Parser, lines: seq<string>, newline: string)
    requires (forall l :: l in lines ==> OneLine(l)) && (newline == "\n" || newline == "\r\n")
    requires judge("") == NotEnvelope
    ensures Batch(judge, legacy, Join(lines, newline)) ==
      if HasEnvelope(judge, lines) then Decided(judge, lines) else Extracted(legacy(Join(lines, newline)))
  {
    LinesOfJoin(lines, newline);
    EmptyLineIsNeutral(judge, lines);
  }

  lemma EmptyLineIsNeutral(judge: Judgement, lines: seq<string>)
    requires judge("") == NotEnvelope
    ensures Deciding(judge, lines + [""]) == Deciding(judge, lines)
    ensures HasEnvelope(judge, lines + [""]) <==> HasEnvelope(judge, lines)
    ensures Decided(judge, lines + [""]) == Decided(judge, lines)
  {
    var all := lines + [""];
    assert forall i :: 0 <= i < |lines| ==> all[i] == lines[i];
    var k, j := Deciding(judge, all), Deciding(judge, lines);
    assert k > 0 ==> Decides(judge(lines[k - 1]));
    assert j > 0 ==> Decides(judge(all[j - 1]));
    if i :| 0 <= i < |lines| && !judge(lines[i]).NotEnvelope? { assert all[i] == lines[i]; }
    if i :| 0 <= i < |all| && !judge(all[i]).NotEnvelope? { assert all[i] == lines[i]; }
  }

  /** When both yield the same: if some line raises, the last deciding line has a bad shape as well; otherwise no
      line decides, or the last one that does is a flush result, or a result that repeats the captured payload. */
  predicate SameYield(judge: Judgement, lines: seq<string>) {
    var k, c := Deciding(judge, lines), CapturedAt(judge, lines);
    if Reached(judge, lines) < |lines| then k > 0 && judge(lines[k - 1]).BadShape?
    else k == 0 || (c > 0 && judge(lines[k - 1]).Result? && judge(lines[c - 1]).payload == judge(lines[k - 1]).payload)
  }

  lemma SameYieldIff(judge: Judgement, lines: seq<string>)
    ensures StreamOutcome(judge, lines) == Decided(judge, lines) <==> SameYield(judge, lines)
    ensures !HasEnvelope(judge, lines) ==> StreamOutcome(judge, lines) == Extracted(None)
  {
    StreamedBy(judge, lines);
    var k, c, r := Deciding(judge, lines), CapturedAt(judge, lines), Reached(judge, lines);
    assert c > 0 ==> Decides(judge(lines[c - 1]));
    assert r < |lines| ==> Decides(judge(lines[r]));
  }

  /** Streaming yields what the batch parse of the joined output does exactly then; without any envelope, exactly
      when the legacy parser finds nothing. */
  lemma StreamingAgreesIff(judge: Judgement, legacy: Parser, lines: seq<string>, newline: string)
    requires (forall l :: l in lines ==> OneLine(l)) && (newline == "\n" || newline == "\r\n")
    requires judge("") == NotEnvelope
    ensures StreamOutcome(judge, lines) == Batch(judge, legacy, Join(lines, newline)) <==>
      if HasEnvelope(judge, lines) then SameYield(judge, lines) else legacy(Join(lines, newline)) == None
  {
    BatchOfJoin(judge, legacy, lines, newline);
    SameYieldIff(judge, lines);
  }

  lemma Sources(judge: Judgement, lines: seq<string>)
    ensures var k, s := Deciding(judge, lines), StreamSource(judge, lines);
      && s <= k && StreamOutcome(judge, lines) == SaidBy(judge, lines, s)
      && (s < k && Captures(judge, lines[k - 1]) ==> s > 0 && Raises(judge, lines[s - 1]))
  {
    StreamedBy(judge, lines);
    SameLineIff(judge, lines);
  }

  /** What the two yield, with an envelope present, in every case: each what its line says. The line of the batch
      parse is the later one when they differ, and it can be a flush result only when streaming raised. */
  lemma StreamingAgrees(judge: Judgement, legacy: Parser, lines: seq<string>, newline: string)
    requires (forall l :: l in lines ==> OneLine(l)) && (newline == "\n" || newline == "\r\n")
    requires judge("") == NotEnvelope && HasEnvelope(judge, lines)
    ensures var k, s := Deciding(judge, lines), StreamSource(judge, lines);
      && s <= k && StreamOutcome(judge, lines) == SaidBy(judge, lines, s)
      && Batch(judge, legacy, Join(lines, newline)) == SaidBy(judge, lines, k)
      && (s < k && Captures(judge, lines[k - 1]) ==> s > 0 && Raises(judge, lines[s - 1]))
  {
    BatchOfJoin(judge, legacy, lines, newline);
    Sources(judge, lines);
  }

  /** An envelope that is a JSON array stops the reader loop, and the result behind it is never read, although the
      batch parse finds it. */
  lemma ShapeStopsStreaming(judge: Judgement, parse: Parser, legacy: Parser, line: string, result: string, newline: string)
    requires Judging(judge, parse) && (newline == "\n" || newline == "\r\n")
    requires line == PREFIX + "[]" && parse("[]") == Some(Array([]))
    requires OneLine(result) && Captures(judge, result)
    ensures StreamOutcome(judge, [line, result]) == InvalidOperation
    ensures CapturedAt(judge, [line, result]) == Deciding(judge, [line, result]) == 2
    ensures Batch(judge, legacy, Join([line, result], newline)) == Extracted(Some(judge(result).payload))
  {
    ArrayLine(judge, parse, line);
    EmptyLineJudged(judge, parse, "");
    TwoLines(judge, line, result);
    BatchOfJoin(judge, legacy, [line, result], newline);
  }

  lemma TwoLines(judge: Judgement, line: string, result: string)
    requires Raises(judge, line) && Captures(judge, result)
    ensures var lines := [line, result];
      && Reached(judge, lines) == 0 && CapturedAt(judge, lines) == Deciding(judge, lines) == 2
      && HasEnvelope(judge, lines) && Decided(judge, lines) == Extracted(Some(judge(result).payload))
  {
    assert [line, result][0] == line && [line, result][1] == result;
  }

  lemma ArrayLine(judge: Judgement, parse: Parser, line: string)
    requires Judging(judge, parse) && line == PREFIX + "[]" && parse("[]") == Some(Array([]))
    ensures OneLine(line) && Raises(judge, line)
  {
    assert line[0] == PREFIX[0] == '@' && line[|line| - 1] == "[]"[1] == ']';
    assert Judges(judge, parse, line) && Trim(line) == line && line[|PREFIX|..] == "[]";
    forall i | 0 <= i < |line| ensures line[i] != '\n' && line[i] != '\r' {
      assert line[i] == if i < |PREFIX| then PREFIX[i] else "[]"[i - |PREFIX|];
    }
  }

  /** In particular it agrees when every envelope line starts flush and is well formed. */
  lemma WellFormedOutputsAgree(judge: Judgement, legacy: Parser, lines: seq<string>, newline: string)
    requires (forall l :: l in lines ==> OneLine(l)) && (newline == "\n" || newline == "\r\n")
    requires judge("") == NotEnvelope && HasEnvelope(judge, lines)
    requires forall l :: l in lines && !judge(l).NotEnvelope? ==> Flush(l) && !judge(l).Malformed? && !judge(l).BadShape?
    ensures StreamOutcome(judge, lines) == Batch(judge, legacy, Join(lines, newline)) == Extracted(Streamed(judge, lines))
  {
    StreamingAgrees(judge, legacy, lines, newline);
    var k, r := Deciding(judge, lines), Reached(judge, lines);
    var s := StreamSource(judge, lines);
    assert r == |lines|;
    assert s > 0 ==> lines[s - 1] in lines;
    if k > 0 { assert lines[k - 1] in lines; }
  }

  lemma {:induction false} JoinSnoc(lines: seq<string>, line: string, newline: string)
    ensures Join(lines + [line], newline) == Join(lines, newline) + (line + newline)
  {
    if lines != [] {
      assert (lines + [line])[1..] == lines[1..] + [line];
      JoinSnoc(lines[1..], line, newline);
    } else {
      assert Join([line], newline) == line + newline + Join([], newline);
    }
  }

  /** When nothing was captured and nothing was cut off, the tail the caller parses after exit is the whole
      joined output. */
  lemma {:induction false} UncapturedTailIsWhole(judge: Judgement, lines: seq<string>, newline: string)
    requires Streamed(judge, lines) == None && forall l :: l in lines ==> |l| < MAX_TAIL_CHARS
    ensures Log(judge, lines, newline) == Join(lines, newline)
    ensures |Join(lines, newline)| <= MAX_TAIL_CHARS ==>
      LastChars(Log(judge, lines, newline), MAX_TAIL_CHARS) == Join(lines, newline)
  {
    if lines != [] {
      var init, last := lines[..|lines| - 1], lines[|lines| - 1];
      UncapturedTailIsWhole(judge, init, newline);
      JoinSnoc(init, last, newline);
      assert init + [last] == lines;
    }
    var s := Join(lines, newline);
    if |s| == MAX_TAIL_CHARS { assert s[|s| - MAX_TAIL_CHARS..] == s; }
  }
}
