/** What the client reports for a finished backend process (SmsWorkbench/Interop/PythonBackendClient.cs:87-132): the
    captured payload, or what the parser finds in the two tails, against a parse of the whole output. */
module ClientOutput {
  import opened BackendOutput
  import opened CutTail
  import opened OutputTail
  import opened Wrappers

  // ---- the client ----------------------------------------------------------------------------

  function Caught(outcome: Outcome): Outcome { if outcome == JsonError then Extracted(None) else outcome }

  predicate Stops(judge: Judgement, lines: seq<string>) { Reached(judge, lines) < |lines| }

  /** What the parser finds in the text of the output, or else, when there is text on the error stream, in both
      together. A malformed envelope found then is no payload. */
  ghost function Parsed(judge: Judgement, legacy: Parser, text: string, error: string, newline: string): Outcome {
    var first := Batch(judge, legacy, text);
    Caught(if first == Extracted(None) && Trim(error) != "" then Batch(judge, legacy, text + newline + error) else first)
  }

  method ParseTails(judge: Judgement, ghost parse: Parser, legacy: Parser, text: string, error: string, newline: string)
    returns (outcome: Outcome)
    requires Judging(judge, parse)
    ensures outcome == Parsed(judge, legacy, text, error, newline)
  {
    var warned: bool;
    outcome, warned := ExtractPayload(judge, parse, legacy, text);
    if outcome == Extracted(None) && Trim(error) != "" {
      outcome, warned := ExtractPayload(judge, parse, legacy, text + newline + error);
    }
    outcome := Caught(outcome);
  }

  /** The two streams have a capture each, and an exception of either reader ends the call. The payload captured on
      the output is reported, or else what is found in the two tails. What was captured on the error stream is never
      read. */
  ghost function ClientOutcome(judge: Judgement, legacy: Parser, redact: string -> string, lines: seq<string>,
                               errors: seq<string>, newline: string): Outcome
  {
    if Stops(judge, lines) || Stops(judge, errors) then InvalidOperation
    else if Streamed(judge, lines).Some? then Extracted(Streamed(judge, lines))
    else Parsed(judge, legacy, TailText(judge, lines, newline), redact(TailText(judge, errors, newline)), newline)
  }

  method Receive(judge: Judgement, ghost parse: Parser, legacy: Parser, redact: string -> string, lines: seq<string>,
                 errors: seq<string>, newline: string) returns (outcome: Outcome)
    requires Judging(judge, parse)
    requires (forall l :: l in lines ==> OneLine(l)) && (forall l :: l in errors ==> OneLine(l))
    ensures outcome == ClientOutcome(judge, legacy, redact, lines, errors, newline)
  {
    var payload, output := ReadAll(judge, parse, legacy, lines, newline);
    var ignored, error := ReadAll(judge, parse, legacy, errors, newline);
    if output.None? || error.None? { return InvalidOperation; }
    if payload.Some? { return Extracted(payload); }
    outcome := ParseTails(judge, parse, legacy, output.value, redact(error.value), newline);
  }

  /** A capture for one stream, and what it holds when its reader has ended; no text when the reader raised. */
  method ReadAll(judge: Judgement, ghost parse: Parser, legacy: Parser, lines: seq<string>, newline: string)
    returns (payload: Option<Json>, text: Option<string>)
    requires Judging(judge, parse) && forall l :: l in lines ==> OneLine(l)
    ensures text == if Stops(judge, lines) then None else Some(TailText(judge, lines, newline))
    ensures !Stops(judge, lines) ==> payload == Streamed(judge, lines)
  {
    var capture := new Capture(judge, parse, legacy, newline);
    var read := capture.Pump(lines);
    if read < |lines| { return None, None; }
    assert lines[..read] == lines;
    return capture.payload, Some(Trim(capture.tail));
  }

  // ---- the output --------------------------------------------------------------------------------

  /** If some line of either stream raises, the last deciding line of the output has a bad shape as well; otherwise
      nothing was captured, or the last deciding line is a result that repeats the captured payload, as the captured
      line itself does. */
  predicate SameReceived(judge: Judgement, lines: seq<string>, errors: seq<string>) {
    var k, c := Deciding(judge, lines), CapturedAt(judge, lines);
    if Stops(judge, lines) || Stops(judge, errors) then k > 0 && judge(lines[k - 1]).BadShape?
    else c == 0 || (k > 0 && judge(lines[k - 1]).Result? && judge(lines[c - 1]).payload == judge(lines[k - 1]).payload)
  }

  lemma SameReceivedIff(judge: Judgement, lines: seq<string>, errors: seq<string>)
    ensures Stops(judge, lines) || Stops(judge, errors) ==>
      (InvalidOperation == Caught(Decided(judge, lines)) <==> SameReceived(judge, lines, errors))
    ensures !Stops(judge, lines) && !Stops(judge, errors) && CapturedAt(judge, lines) > 0 ==>
      && HasEnvelope(judge, lines)
      && (Extracted(Streamed(judge, lines)) == Caught(Decided(judge, lines)) <==> SameReceived(judge, lines, errors))
    ensures Stops(judge, lines) ==> HasEnvelope(judge, lines)
  {
    StreamedBy(judge, lines);
    var k, c, r := Deciding(judge, lines), CapturedAt(judge, lines), Reached(judge, lines);
    assert c > 0 ==> Decides(judge(lines[c - 1]));
    assert r < |lines| ==> Decides(judge(lines[r]));
  }

  /** A parse of the whole output, with a malformed envelope counting as no payload. */
  ghost function Whole(judge: Judgement, legacy: Parser, lines: seq<string>, newline: string): Outcome {
    Caught(Batch(judge, legacy, Join(lines, newline)))
  }

  /** The tail is parsed when nothing was captured: it is as good as the whole output, or only its first line counts. */
  lemma ClientSays(judge: Judgement, parse: Parser, legacy: Parser, lines: seq<string>, error: string, newline: string)
    requires Judging(judge, parse) && LegacyTrims(legacy)
    requires (forall l :: l in lines ==> OneLine(l)) && (newline == "\n" || newline == "\r\n")
    requires CapturedAt(judge, lines) == 0
    requires Batch(judge, legacy, TailText(judge, lines, newline)) != Extracted(None) || Trim(error) == ""
    ensures Parsed(judge, legacy, TailText(judge, lines, newline), error, newline) ==
      if TailHolds(judge, lines, newline) then Whole(judge, legacy, lines, newline)
      else Caught(FirstSays(judge, legacy, LastChars(Log(judge, lines, newline), MAX_TAIL_CHARS)))
  {
    if TailHolds(judge, lines, newline) {
      TailDecides(judge, parse, legacy, lines, newline);
    } else {
      CutTailDecides(judge, parse, legacy, lines, newline);
    }
  }

  /** With an envelope in the output, the batch parse is what the last deciding line says. */
  lemma WholeDecided(judge: Judgement, parse: Parser, legacy: Parser, lines: seq<string>, newline: string)
    requires Judging(judge, parse)
    requires (forall l :: l in lines ==> OneLine(l)) && (newline == "\n" || newline == "\r\n")
    ensures HasEnvelope(judge, lines) ==> Whole(judge, legacy, lines, newline) == Caught(Decided(judge, lines))
    ensures !HasEnvelope(judge, lines) ==> Whole(judge, legacy, lines, newline).Extracted? && Deciding(judge, lines) == 0
  {
    EmptyLineJudged(judge, parse, "");
    BatchOfJoin(judge, legacy, lines, newline);
  }

  /** Nothing was captured, and the tail has lost the line that decides, or the line end before it. */
  predicate LosesLine(judge: Judgement, lines: seq<string>, errors: seq<string>, newline: string) {
    !Stops(judge, lines) && !Stops(judge, errors) && CapturedAt(judge, lines) == 0 && !TailHolds(judge, lines, newline)
  }

  /** When the client reports what a parse of the whole output would give. A captured payload wins over a later
      malformed or indented envelope; an uncaptured line that decides is lost when the tail is too short for it, and
      then only the first line of the tail counts. Nothing else makes a difference. The error stream only matters when
      its reader raises, or nothing is found in the tail. */
  lemma ClientIff(judge: Judgement, parse: Parser, legacy: Parser, redact: string -> string, lines: seq<string>,
                  errors: seq<string>, newline: string)
    requires Judging(judge, parse) && LegacyTrims(legacy)
    requires (forall l :: l in lines ==> OneLine(l)) && (newline == "\n" || newline == "\r\n")
    requires Batch(judge, legacy, TailText(judge, lines, newline)) != Extracted(None)
      || Trim(redact(TailText(judge, errors, newline))) == ""
    ensures ClientOutcome(judge, legacy, redact, lines, errors, newline) == Whole(judge, legacy, lines, newline) <==>
      if LosesLine(judge, lines, errors, newline)
      then Whole(judge, legacy, lines, newline)
        == Caught(FirstSays(judge, legacy, LastChars(Log(judge, lines, newline), MAX_TAIL_CHARS)))
      else SameReceived(judge, lines, errors)
  {
    WholeDecided(judge, parse, legacy, lines, newline);
    SameReceivedIff(judge, lines, errors);
    StreamedBy(judge, lines);
    if CapturedAt(judge, lines) == 0 {
      ClientSays(judge, parse, legacy, lines, redact(TailText(judge, errors, newline)), newline);
    }
  }

  /** A result that starts indented and does not fit into the tail is lost, when what is left of it is no envelope. */
  lemma LongResultIsLost(judge: Judgement, parse: Parser, legacy: Parser, redact: string -> string, line: string,
                         newline: string)
    requires Judging(judge, parse) && LegacyTrims(legacy) && redact("") == "" && (newline == "\n" || newline == "\r\n")
    requires OneLine(line) && judge(line).Result? && !Flush(line) && |line| >= MAX_TAIL_CHARS
    requires judge(line[|line| - MAX_TAIL_CHARS..]) == NotEnvelope && legacy(line[|line| - MAX_TAIL_CHARS..]) == None
    ensures ClientOutcome(judge, legacy, redact, [line], [], newline) == Extracted(None)
    ensures Whole(judge, legacy, [line], newline) == Extracted(Some(judge(line).payload))
  {
    var tail := line[|line| - MAX_TAIL_CHARS..];
    IndentedLine(judge, line, newline);
    CutTailDecides(judge, parse, legacy, [line], newline);
    OneLineText(judge, legacy, tail);
    WholeDecided(judge, parse, legacy, [line], newline);
    NothingRead(judge, newline);
  }

  lemma IndentedLine(judge: Judgement, line: string, newline: string)
    requires judge(line).Result? && !Flush(line) && |line| >= MAX_TAIL_CHARS && newline != ""
    ensures Log(judge, [line], newline) == line && LastChars(line, MAX_TAIL_CHARS) == line[|line| - MAX_TAIL_CHARS..]
    ensures !Stops(judge, [line]) && Streamed(judge, [line]) == None && CapturedAt(judge, [line]) == 0
    ensures HasEnvelope(judge, [line]) && Decided(judge, [line]) == Extracted(Some(judge(line).payload))
    ensures !TailHolds(judge, [line], newline)
  {
    assert [line][..0] == [] && [line][0] == line && "" + line == line;
    assert Start(judge, [line]) == 0 && [line][0..] == [line] && |Join([line], newline)| > |line|;
  }

  lemma OneLineText(judge: Judgement, legacy: Parser, text: string)
    requires OneLine(text) && judge(text) == NotEnvelope && legacy(text) == None
    ensures FirstSays(judge, legacy, text) == Extracted(None)
  {
    LinesOfPrefixed(text, "\n", "");
  }

  lemma NothingRead(judge: Judgement, newline: string)
    ensures !Stops(judge, []) && Streamed(judge, []) == None && TailText(judge, [], newline) == ""
  {}

  // ---- the error stream --------------------------------------------------------------------------

  /** The lines that go to the tail. */
  function Uncaptured(judge: Judgement, lines: seq<string>): (rest: seq<string>)
    ensures forall l :: l in rest ==> l in lines && !Captures(judge, l)
  {
    if lines == [] then []
    else
      var last, before := lines[|lines| - 1], Uncaptured(judge, lines[..|lines| - 1]);
      if Captures(judge, last) then before else before + [last]
  }

  lemma {:induction false} UncapturedLog(judge: Judgement, lines: seq<string>, newline: string)
    ensures Log(judge, Uncaptured(judge, lines), newline) == Log(judge, lines, newline)
  {
    if lines != [] {
      var init, last := lines[..|lines| - 1], lines[|lines| - 1];
      UncapturedLog(judge, init, newline);
      if !Captures(judge, last) { LogSnoc(judge, Uncaptured(judge, init), last, newline); }
    }
  }

  /** Among them the last deciding line is the same, unless it was captured. */
  lemma {:induction false} UncapturedDecides(judge: Judgement, lines: seq<string>)
    requires var k := Deciding(judge, lines); k > 0 && !Captures(judge, lines[k - 1])
    ensures Deciding(judge, Uncaptured(judge, lines)) > 0
    ensures Decided(judge, Uncaptured(judge, lines)) == Decided(judge, lines)
  {
    var init, last := lines[..|lines| - 1], lines[|lines| - 1];
    var rest := Uncaptured(judge, init) + [last];
    assert Captures(judge, last) ==> Decides(judge(last));
    assert Uncaptured(judge, lines) == rest && rest[|rest| - 1] == last;
    if !Decides(judge(last)) {
      DecidingBefore(judge, lines, init);
      UncapturedDecides(judge, init);
      assert rest[..|rest| - 1] == Uncaptured(judge, init);
      DecidingBefore(judge, rest, Uncaptured(judge, init));
    }
  }

  lemma BlankDecidesNothing(judge: Judgement, parse: Parser, text: string)
    requires Judging(judge, parse) && Trim(text) == ""
    ensures DecidedIn(judge, text) == Extracted(None) && !HasEnvelope(judge, Lines(text))
  {
    TrimStartKeepsEnvelopes(judge, parse, text);
    TrimEndKeepsEnvelopes(judge, parse, TrimStart(text));
    EmptyLineJudged(judge, parse, "");
    EnvelopesSingle(judge, "");
    DecidedByEnvelopes(judge, Lines(text));
  }

  lemma {:induction false} SaidByLastBehind(a: seq<Verdict>, b: seq<Verdict>)
    requires SaidByLast(a) == Extracted(None)
    ensures SaidByLast(a + b) == SaidByLast(b)
  {
    if b == [] {
      assert a + b == a;
    } else {
      assert (a + b)[..|a + b| - 1] == a + b[..|b| - 1];
      SaidByLastBehind(a, b[..|b| - 1]);
    }
  }

  lemma EmptyEnd(judge: Judgement, lines: seq<string>)
    requires judge("") == NotEnvelope && lines != [] && lines[|lines| - 1] == ""
    ensures Envelopes(judge, lines[..|lines| - 1]) == Envelopes(judge, lines)
  {}

  lemma LineFeedKeepsEnvelopes(judge: Judgement, parse: Parser, text: string)
    requires Judging(judge, parse)
    ensures var lines := Lines(text + ['\n']); Envelopes(judge, lines[..|lines| - 1]) == Envelopes(judge, Lines(text))
  {
    LinesSnoc(text, '\n');
    SnocKeepsEnvelopes(judge, parse, Lines(text), '\n');
    EmptyLineJudged(judge, parse, "");
    EmptyEnd(judge, Lines(text + ['\n']));
  }

  lemma NewlineKeepsEnvelopes(judge: Judgement, parse: Parser, text: string, newline: string)
    requires Judging(judge, parse) && (newline == "\n" || newline == "\r\n")
    ensures var lines := Lines(text + newline); Envelopes(judge, lines[..|lines| - 1]) == Envelopes(judge, Lines(text))
  {
    if newline == "\n" {
      LineFeedKeepsEnvelopes(judge, parse, text);
    } else {
      ReturnKeepsEnvelopes(judge, parse, text);
      LineFeedKeepsEnvelopes(judge, parse, text + ['\r']);
      Regroup(text, ['\r'], ['\n']);
      assert ['\r'] + ['\n'] == newline;
    }
  }

  lemma ReturnKeepsEnvelopes(judge: Judgement, parse: Parser, text: string)
    requires Judging(judge, parse)
    ensures Envelopes(judge, Lines(text + ['\r'])) == Envelopes(judge, Lines(text))
  {
    LinesSnoc(text, '\r');
    SnocKeepsEnvelopes(judge, parse, Lines(text), '\r');
  }

  /** The envelopes of two texts put together with a line end are those of the one and then those of the other. */
  lemma EnvelopesOfBoth(judge: Judgement, parse: Parser, text: string, error: string, newline: string)
    requires Judging(judge, parse) && (newline == "\n" || newline == "\r\n")
    ensures Envelopes(judge, Lines(text + newline + error))
      == Envelopes(judge, Lines(text)) + Envelopes(judge, Lines(error))
  {
    var lines := Lines(text + newline);
    LastOfAppended(text, newline);
    LinesAfterNewline(text + newline, error);
    EnvelopesAppend(judge, lines[..|lines| - 1], Lines(error));
    NewlineKeepsEnvelopes(judge, parse, text, newline);
  }

  /** When the output gives no payload, the last deciding line of the redacted error text decides. */
  lemma ErrorsDecide(judge: Judgement, parse: Parser, legacy: Parser, text: string, error: string, newline: string)
    requires Judging(judge, parse) && (newline == "\n" || newline == "\r\n")
    requires Batch(judge, legacy, text) == Extracted(None)
    ensures Batch(judge, legacy, text + newline + error) ==
      if HasEnvelope(judge, Lines(text)) || HasEnvelope(judge, Lines(error)) then DecidedIn(judge, error)
      else Extracted(legacy(text + newline + error))
  {
    var both := text + newline + error;
    EnvelopesOfBoth(judge, parse, text, error, newline);
    DecidedByEnvelopes(judge, Lines(text));
    DecidedByEnvelopes(judge, Lines(error));
    DecidedByEnvelopes(judge, Lines(both));
    SaidByLastBehind(Envelopes(judge, Lines(text)), Envelopes(judge, Lines(error)));
  }

  /** Nothing on the output: no exception, no captured payload, and nothing found in its tail. */
  ghost predicate OutputSilent(judge: Judgement, legacy: Parser, lines: seq<string>, newline: string) {
    && !Stops(judge, lines) && Streamed(judge, lines) == None
    && Batch(judge, legacy, TailText(judge, lines, newline)) == Extracted(None)
  }

  /** Redaction leaves the envelope lines of a text as they are. */
  ghost predicate KeepsEnvelopes(judge: Judgement, redact: string -> string, text: string) {
    Envelopes(judge, Lines(redact(text))) == Envelopes(judge, Lines(text))
  }

  /** The last deciding line of the error text is reported then, or else what the legacy parser finds in both. */
  ghost function Reported(judge: Judgement, legacy: Parser, text: string, error: string, newline: string): Outcome {
    if HasEnvelope(judge, Lines(text)) || HasEnvelope(judge, Lines(error)) then Caught(DecidedIn(judge, error))
    else if Trim(error) == "" then Extracted(None)
    else Extracted(legacy(text + newline + error))
  }

  lemma SilentOutput(judge: Judgement, parse: Parser, legacy: Parser, redact: string -> string, lines: seq<string>,
                     errors: seq<string>, newline: string)
    requires Judging(judge, parse) && (newline == "\n" || newline == "\r\n")
    requires OutputSilent(judge, legacy, lines, newline) && !Stops(judge, errors)
    ensures ClientOutcome(judge, legacy, redact, lines, errors, newline)
      == Reported(judge, legacy, TailText(judge, lines, newline), redact(TailText(judge, errors, newline)), newline)
  {
    var text, error := TailText(judge, lines, newline), redact(TailText(judge, errors, newline));
    ErrorsDecide(judge, parse, legacy, text, error, newline);
    if Trim(error) == "" { BlankDecidesNothing(judge, parse, error); }
  }

  /** The tail of the error stream decides as its uncaptured lines do, while it holds them. */
  lemma ErrorTail(judge: Judgement, parse: Parser, redact: string -> string, errors: seq<string>, newline: string)
    requires Judging(judge, parse) && (forall l :: l in errors ==> OneLine(l)) && (newline == "\n" || newline == "\r\n")
    requires TailHolds(judge, Uncaptured(judge, errors), newline)
    requires KeepsEnvelopes(judge, redact, TailText(judge, errors, newline))
    ensures DecidedIn(judge, redact(TailText(judge, errors, newline))) == Decided(judge, Uncaptured(judge, errors))
  {
    var rest, text := Uncaptured(judge, errors), TailText(judge, errors, newline);
    UncapturedLog(judge, errors, newline);
    TailDecides(judge, parse, Nothing, rest, newline);
    DecidedByBatch(judge, text);
    DecidedByBatch(judge, redact(text));
    DecidedByBatch(judge, Join(rest, newline));
    EmptyLineJudged(judge, parse, "");
    LinesOfJoin(rest, newline);
    EmptyLineIsNeutral(judge, rest);
  }

  lemma NoneWithoutEnvelope(judge: Judgement, lines: seq<string>)
    ensures Deciding(judge, lines) > 0 ==> HasEnvelope(judge, lines)
    ensures Deciding(judge, lines) > 0 <==> Decided(judge, lines) != Extracted(None)
  {}

  /** What the uncaptured error lines say, or else what the legacy parser finds in what is left of both streams. */
  ghost function FromErrors(judge: Judgement, legacy: Parser, text: string, error: string, newline: string,
                            rest: seq<string>): Outcome
  {
    if Deciding(judge, rest) > 0 then Caught(Decided(judge, rest))
    else if HasEnvelope(judge, Lines(text)) || HasEnvelope(judge, Lines(error)) || Trim(error) == "" then Extracted(None)
    else Extracted(legacy(text + newline + error))
  }

  lemma ReportedFromErrors(judge: Judgement, legacy: Parser, text: string, error: string, newline: string,
                           rest: seq<string>)
    requires DecidedIn(judge, error) == Decided(judge, rest)
    ensures Reported(judge, legacy, text, error, newline) == FromErrors(judge, legacy, text, error, newline, rest)
  {
    NoneWithoutEnvelope(judge, rest);
    NoneWithoutEnvelope(judge, Lines(error));
  }

  /** When the output is silent, the uncaptured lines of the error stream decide. */
  lemma ErrorStreamSays(judge: Judgement, parse: Parser, legacy: Parser, redact: string -> string, lines: seq<string>,
                        errors: seq<string>, newline: string)
    requires Judging(judge, parse) && (forall l :: l in errors ==> OneLine(l)) && (newline == "\n" || newline == "\r\n")
    requires OutputSilent(judge, legacy, lines, newline) && !Stops(judge, errors)
    requires TailHolds(judge, Uncaptured(judge, errors), newline)
    requires KeepsEnvelopes(judge, redact, TailText(judge, errors, newline))
    ensures var text, error := TailText(judge, lines, newline), redact(TailText(judge, errors, newline));
      ClientOutcome(judge, legacy, redact, lines, errors, newline)
        == FromErrors(judge, legacy, text, error, newline, Uncaptured(judge, errors))
  {
    var text, error := TailText(judge, lines, newline), redact(TailText(judge, errors, newline));
    ErrorTail(judge, parse, redact, errors, newline);
    SilentOutput(judge, parse, legacy, redact, lines, errors, newline);
    ReportedFromErrors(judge, legacy, text, error, newline, Uncaptured(judge, errors));
  }

  lemma FromErrorsIff(judge: Judgement, legacy: Parser, text: string, error: string, newline: string,
                      rest: seq<string>, wanted: Outcome)
    requires wanted.Extracted? && wanted.payload.Some? && legacy(text + newline + error) == None
    ensures FromErrors(judge, legacy, text, error, newline, rest) == wanted <==> Decided(judge, rest) == wanted
  {
    NoneWithoutEnvelope(judge, rest);
  }

  lemma ResultDecided(judge: Judgement, lines: seq<string>)
    requires var k := Deciding(judge, lines); k > 0 && judge(lines[k - 1]).Result?
    ensures Decided(judge, lines).Extracted? && Decided(judge, lines).payload.Some?
  {}

  /** A result that is the last deciding line of the error stream is found exactly when the uncaptured error lines say
      the same: always when it is indented, and when it starts flush, so that it is captured, only if an indented
      result repeats it. */
  lemma ErrorStreamIff(judge: Judgement, parse: Parser, legacy: Parser, redact: string -> string, lines: seq<string>,
                       errors: seq<string>, newline: string)
    requires Judging(judge, parse) && (forall l :: l in errors ==> OneLine(l)) && (newline == "\n" || newline == "\r\n")
    requires OutputSilent(judge, legacy, lines, newline) && !Stops(judge, errors)
    requires TailHolds(judge, Uncaptured(judge, errors), newline)
    requires KeepsEnvelopes(judge, redact, TailText(judge, errors, newline))
    requires var k := Deciding(judge, errors); k > 0 && judge(errors[k - 1]).Result?
    requires legacy(TailText(judge, lines, newline) + newline + redact(TailText(judge, errors, newline))) == None
    ensures var outcome := ClientOutcome(judge, legacy, redact, lines, errors, newline);
      && (outcome == Decided(judge, errors) <==> Decided(judge, Uncaptured(judge, errors)) == Decided(judge, errors))
      && (!Captures(judge, errors[Deciding(judge, errors) - 1]) ==> outcome == Decided(judge, errors))
  {
    var text, error := TailText(judge, lines, newline), redact(TailText(judge, errors, newline));
    ErrorStreamSays(judge, parse, legacy, redact, lines, errors, newline);
    ResultDecided(judge, errors);
    FromErrorsIff(judge, legacy, text, error, newline, Uncaptured(judge, errors), Decided(judge, errors));
    if !Captures(judge, errors[Deciding(judge, errors) - 1]) { UncapturedDecides(judge, errors); }
  }

  /** A result that is the only line written is not found on the error stream when it starts flush, although it is
      found on the output. */
  lemma FlushErrorIsLost(judge: Judgement, parse: Parser, legacy: Parser, redact: string -> string, result: string,
                         newline: string)
    requires Judging(judge, parse) && legacy("") == None && redact("") == ""
    requires Captures(judge, result)
    ensures ClientOutcome(judge, legacy, redact, [], [result], newline) == Extracted(None)
    ensures ClientOutcome(judge, legacy, redact, [result], [], newline) == Extracted(Some(judge(result).payload))
  {
    EmptyLineJudged(judge, parse, "");
    assert [result][..0] == [];
    assert Log(judge, [result], newline) == "" && Streamed(judge, [result]) == Some(judge(result).payload);
    assert TailText(judge, [result], newline) == TailText(judge, [], newline) == "";
  }
}
