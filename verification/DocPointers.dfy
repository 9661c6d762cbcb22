/** `file.py:NNN` pointers in documentation: scripts/refresh_doc_symbol_lines.py rewrites their line numbers from
    the symbols they name, and scripts/docs_consistency_scan.py checks them.

    A line is given by the tokens the regular expressions find in it. `lookup` says on which line a file, as it
    is written in a pointer, defines a symbol; it knows nothing about files that are not Python, cannot be
    found or do not define the symbol. */
module DocPointers {
  import opened Ordering
  import opened Wrappers
  import opened Splice

  /** `Name` is a backticked name, `plain` if it is undotted and not a call; `Ref` is `file:NNN` and `Bare` is the
      shorthand `:NNN` for the file named last on the line. */
  datatype Token = Text(text: string) | Name(symbol: string, plain: bool, call: bool) | Ref(file: string, digits: string)
    | Bare(digits: string)

  type Tokens = seq<Token>

  /** A table row is known by its first two cells. */
  datatype Line = Prose(tokens: Tokens) | Row(first: Tokens, second: Tokens, rest: string)

  type Lookup = (string, string) -> Option<nat>

  predicate IsRef(t: Token) { t.Ref? || t.Bare? }

  // ---- numbers --------------------------------------------------------------------------------

  predicate IsDigit(c: char) { '0' <= c <= '9' }

  function DigitValue(c: char): nat
    requires IsDigit(c)
  {
    (c as int) - ('0' as int)
  }

  function DigitChar(n: nat): (c: char)
    requires n < 10
    ensures IsDigit(c) && DigitValue(c) == n
  {
    (('0' as int) + n) as char
  }

  predicate Numeral(s: string) { s != "" && forall i :: 0 <= i < |s| ==> IsDigit(s[i]) }

  /** `int(s)`: leading zeros do not matter. */
  function Number(s: string): nat
    requires forall i :: 0 <= i < |s| ==> IsDigit(s[i])
  {
    if |s| == 0 then 0 else Number(s[..|s| - 1]) * 10 + DigitValue(s[|s| - 1])
  }

  /** `str(n)` */
  function Decimal(n: nat): (s: string)
    ensures Numeral(s) && Number(s) == n
  {
    if n < 10 then
      var s := [DigitChar(n)];
      assert s[..0] == "";
      s
    else
      var init, last := Decimal(n / 10), DigitChar(n % 10);
      assert (init + [last])[..|init|] == init;
      init + [last]
  }

  // ---- which symbol and which file a pointer belongs to ---------------------------------------

  /** The file of the pointer at `i`: its own, or the one named last before it. */
  function FileAt(tokens: Tokens, i: nat): Option<string>
    requires i < |tokens|
  {
    if tokens[i].Ref? then Some(tokens[i].file) else if i == 0 then None else FileAt(tokens, i - 1)
  }

  /** The last name or pointer before `i`. */
  function EventBefore(tokens: Tokens, i: nat): Option<Token>
    requires i <= |tokens|
  {
    if i == 0 then None else if tokens[i - 1].Text? then EventBefore(tokens, i - 1) else Some(tokens[i - 1])
  }

  function Rank(tokens: Tokens, i: nat): (r: nat)
    requires i <= |tokens|
    ensures r <= i
  {
    if i == 0 then 0 else Rank(tokens, i - 1) + if IsRef(tokens[i - 1]) then 1 else 0
  }

  function Symbols(tokens: Tokens): seq<string> {
    if tokens == [] then []
    else (if tokens[0].Name? && tokens[0].plain then [tokens[0].symbol] else []) + Symbols(tokens[1..])
  }

  predicate RowPaired(first: Tokens, second: Tokens) {
    Symbols(first) != [] && |Symbols(first)| == Rank(second, |second|)
  }

  /** In a sentence a pointer belongs to the name right before it, with no other pointer in between. */
  function ProseClaim(tokens: Tokens, i: nat): Option<string>
    requires i < |tokens|
  {
    NameIn(EventBefore(tokens, i))
  }

  function NameIn(event: Option<Token>): Option<string> {
    match event
    case Some(Name(symbol, _, _)) => Some(symbol)
    case _ => None
  }

  lemma {:induction false} RankBelow(tokens: Tokens, i: nat, n: nat)
    requires i < n <= |tokens| && IsRef(tokens[i])
    ensures Rank(tokens, i) < Rank(tokens, n)
  {
    if i < n - 1 { RankBelow(tokens, i, n - 1); }
  }

  /** In a table row symbols and pointers are matched by position, if there are equally many. */
  function RowClaim(first: Tokens, second: Tokens, i: nat): Option<string>
    requires i < |second| && IsRef(second[i])
  {
    RankBelow(second, i, |second|);
    if RowPaired(first, second) then Some(Symbols(first)[Rank(second, i)]) else None
  }

  /** The symbols of the pointers of a line, by token position. */
  type Claims = seq<Option<string>>

  function ClaimsOf(line: Line): (c: Claims)
    ensures |c| == |Pointers(line)|
  {
    match line
    case Prose(tokens) => seq(|tokens|, i requires 0 <= i < |tokens| => if IsRef(tokens[i]) then ProseClaim(tokens, i) else None)
    case Row(first, second, _) =>
      seq(|second|, i requires 0 <= i < |second| => if IsRef(second[i]) then RowClaim(first, second, i) else None)
  }

  /** The tokens whose pointers are considered. */
  function Pointers(line: Line): Tokens {
    match line
    case Prose(tokens) => tokens
    case Row(_, second, _) => second
  }

  /** The line on which the symbol of the pointer at `i` is defined now. */
  function Actual(lookup: Lookup, tokens: Tokens, claims: Claims, i: nat): Option<nat>
    requires i < |tokens| == |claims|
  {
    match (claims[i], FileAt(tokens, i))
    case (Some(symbol), Some(file)) => lookup(file, symbol)
    case _ => None
  }

  predicate Lexed(tokens: Tokens) {
    forall t :: t in tokens && IsRef(t) ==> Numeral(t.digits)
  }

  /** The pointer at `i` is guarded and its number is wrong. */
  predicate Drifted(lookup: Lookup, tokens: Tokens, claims: Claims, i: nat)
    requires i < |tokens| == |claims| && Lexed(tokens)
  {
    IsRef(tokens[i]) && (assert tokens[i] in tokens; true) &&
    match Actual(lookup, tokens, claims, i)
    case Some(actual) => actual != Number(tokens[i].digits)
    case None => false
  }

  function Fixed(lookup: Lookup, tokens: Tokens, claims: Claims, i: nat): Token
    requires i < |tokens| == |claims| && Lexed(tokens)
  {
    if Drifted(lookup, tokens, claims, i) then tokens[i].(digits := Decimal(Actual(lookup, tokens, claims, i).value))
    else tokens[i]
  }

  function FixAll(lookup: Lookup, tokens: Tokens, claims: Claims): (r: Tokens)
    requires |tokens| == |claims| && Lexed(tokens)
    ensures |r| == |tokens|
  {
    seq(|tokens|, i requires 0 <= i < |tokens| => Fixed(lookup, tokens, claims, i))
  }

  /** The line after the refresh. */
  function Refresh(lookup: Lookup, line: Line): Line
    requires Lexed(Pointers(line))
  {
    var fixed := FixAll(lookup, Pointers(line), ClaimsOf(line));
    match line
    case Prose(_) => Prose(fixed)
    case Row(first, _, rest) => Row(first, fixed, rest)
  }

  // ---- what the refresh does to one pointer, without the functions above ----------------------

  /** The last name or pointer before `i` is at `j`. */
  ghost predicate RightBefore(tokens: Tokens, j: nat, i: nat) {
    j < i <= |tokens| && !tokens[j].Text? && forall k :: j < k < i ==> tokens[k].Text?
  }

  lemma {:induction false} EventIs(tokens: Tokens, i: nat, t: Token)
    requires i <= |tokens|
    ensures EventBefore(tokens, i) == Some(t) <==> exists j: nat :: RightBefore(tokens, j, i) && tokens[j] == t
  {
    if i > 0 {
      EventIs(tokens, i - 1, t);
      if tokens[i - 1].Text? {
        if j: nat :| RightBefore(tokens, j, i) && tokens[j] == t { assert RightBefore(tokens, j, i - 1); }
        if j: nat :| RightBefore(tokens, j, i - 1) && tokens[j] == t { assert RightBefore(tokens, j, i); }
      } else {
        assert RightBefore(tokens, i - 1, i);
      }
    }
  }

  /** The last pointer up to `i` that names its file is at `j`. */
  ghost predicate NamesFile(tokens: Tokens, j: nat, i: nat) {
    j <= i < |tokens| && tokens[j].Ref? && forall k :: j < k <= i ==> !tokens[k].Ref?
  }

  lemma {:induction false} FileIs(tokens: Tokens, i: nat, file: string)
    requires i < |tokens|
    ensures FileAt(tokens, i) == Some(file) <==> exists j: nat :: NamesFile(tokens, j, i) && tokens[j].file == file
  {
    if tokens[i].Ref? {
      assert NamesFile(tokens, i, i);
    } else if i > 0 {
      FileIs(tokens, i - 1, file);
      if j: nat :| NamesFile(tokens, j, i) && tokens[j].file == file { assert NamesFile(tokens, j, i - 1); }
      if j: nat :| NamesFile(tokens, j, i - 1) && tokens[j].file == file { assert NamesFile(tokens, j, i); }
    }
  }

  ghost function PointersBefore(tokens: Tokens, i: nat): set<nat> { set j: nat | j < i && j < |tokens| && IsRef(tokens[j]) }

  predicate IsPlain(t: Token) { t.Name? && t.plain }

  ghost function NamesBefore(tokens: Tokens, i: nat): set<nat> { set j: nat | j < i && j < |tokens| && IsPlain(tokens[j]) }

  lemma {:induction false} RankIs(tokens: Tokens, i: nat)
    requires i <= |tokens|
    ensures Rank(tokens, i) == |PointersBefore(tokens, i)|
  {
    if i > 0 {
      RankIs(tokens, i - 1);
      assert PointersBefore(tokens, i) ==
        PointersBefore(tokens, i - 1) + if IsRef(tokens[i - 1]) then {i - 1} else {};
    }
  }

  /** The name at `j` is the one with number `n`. */
  ghost predicate Numbered(tokens: Tokens, j: nat, n: nat) {
    j < |tokens| && IsPlain(tokens[j]) && |NamesBefore(tokens, j)| == n
  }

  lemma {:induction false} SymbolsSplit(tokens: Tokens, t: Token)
    ensures Symbols(tokens + [t]) == Symbols(tokens) + if IsPlain(t) then [t.symbol] else []
  {
    if tokens == [] {
      assert tokens + [t] == [t];
    } else {
      SymbolsSplit(tokens[1..], t);
      assert (tokens + [t])[1..] == tokens[1..] + [t];
    }
  }

  lemma {:induction false} SymbolsCount(tokens: Tokens)
    ensures |Symbols(tokens)| == |NamesBefore(tokens, |tokens|)|
  {
    if tokens != [] {
      var k := |tokens| - 1;
      assert tokens == tokens[..k] + [tokens[k]];
      SymbolsCount(tokens[..k]);
      SymbolsSplit(tokens[..k], tokens[k]);
      SameNames(tokens, k, k);
      NextName(tokens, k);
    }
  }

  lemma NextName(tokens: Tokens, k: nat)
    requires k < |tokens|
    ensures |NamesBefore(tokens, k + 1)| == |NamesBefore(tokens, k)| + if IsPlain(tokens[k]) then 1 else 0
  {
    if IsPlain(tokens[k]) {
      assert NamesBefore(tokens, k + 1) == NamesBefore(tokens, k) + {k};
    } else {
      assert NamesBefore(tokens, k + 1) == NamesBefore(tokens, k);
    }
  }

  lemma SameNames(tokens: Tokens, k: nat, j: nat)
    requires j <= k <= |tokens|
    ensures NamesBefore(tokens[..k], j) == NamesBefore(tokens, j)
  {}

  lemma NumberedBelow(tokens: Tokens, k: nat, j: nat, n: nat)
    requires j < k <= |tokens|
    ensures Numbered(tokens, j, n) <==> Numbered(tokens[..k], j, n)
  {
    SameNames(tokens, k, j);
  }

  lemma {:induction false} SymbolsAre(tokens: Tokens, n: nat, symbol: string)
    ensures n < |Symbols(tokens)| && Symbols(tokens)[n] == symbol <==>
            exists j: nat :: Numbered(tokens, j, n) && tokens[j].symbol == symbol
  {
    if tokens != [] {
      var k := |tokens| - 1;
      var init := tokens[..k];
      assert tokens == init + [tokens[k]];
      SymbolsAre(init, n, symbol);
      SymbolsSplit(init, tokens[k]);
      SymbolsCount(init);
      SameNames(tokens, k, k);
      if j: nat :| Numbered(tokens, j, n) && tokens[j].symbol == symbol {
        if j < k {
          NumberedBelow(tokens, k, j, n);
          assert init[j].symbol == symbol;
        }
      }
      if n < |Symbols(init)| && Symbols(init)[n] == symbol {
        var j: nat :| Numbered(init, j, n) && init[j].symbol == symbol;
        NumberedBelow(tokens, k, j, n);
        assert tokens[j].symbol == symbol;
      }
      if n == |Symbols(init)| && IsPlain(tokens[k]) { assert Numbered(tokens, k, n); }
    }
  }

  /** The symbol of the pointer at `i` of a line: in a sentence that of the name right before it, in a row that of the
      name with the same number, if the cells hold equally many. */
  ghost predicate BelongsTo(line: Line, i: nat, symbol: string) {
    match line
    case Prose(tokens) =>
      i < |tokens| && IsRef(tokens[i])
      && exists j: nat :: RightBefore(tokens, j, i) && tokens[j].Name? && tokens[j].symbol == symbol
    case Row(first, second, _) =>
      i < |second| && IsRef(second[i]) && |NamesBefore(first, |first|)| == |PointersBefore(second, |second|)|
      && exists j: nat :: Numbered(first, j, |PointersBefore(second, i)|) && first[j].symbol == symbol
  }

  lemma ClaimsAre(line: Line, i: nat, symbol: string)
    requires i < |Pointers(line)|
    ensures ClaimsOf(line)[i] == Some(symbol) <==> BelongsTo(line, i, symbol)
  {
    match line {
      case Prose(tokens) => ProseClaimIs(tokens, i, symbol);
      case Row(first, second, rest) =>
        if IsRef(second[i]) { RowClaimIs(first, second, rest, i, symbol); }
    }
  }

  lemma ProseClaimIs(tokens: Tokens, i: nat, symbol: string)
    requires i < |tokens|
    ensures ProseClaim(tokens, i) == Some(symbol) <==>
            exists j: nat :: RightBefore(tokens, j, i) && tokens[j].Name? && tokens[j].symbol == symbol
  {
    var event := EventBefore(tokens, i);
    if j: nat :| RightBefore(tokens, j, i) && tokens[j].Name? && tokens[j].symbol == symbol {
      EventIs(tokens, i, tokens[j]);
    }
    if event.Some? { EventIs(tokens, i, event.value); }
  }

  lemma RowClaimIs(first: Tokens, second: Tokens, rest: string, i: nat, symbol: string)
    requires i < |second| && IsRef(second[i])
    ensures RowClaim(first, second, i) == Some(symbol) <==> BelongsTo(Row(first, second, rest), i, symbol)
  {
    RankBelow(second, i, |second|);
    RankIs(second, i);
    RankIs(second, |second|);
    SymbolsCount(first);
    SymbolsAre(first, Rank(second, i), symbol);
  }

  /** The pointer at `i` is guarded and should say `n`. */
  ghost predicate ShouldSay(lookup: Lookup, line: Line, i: nat, n: nat) {
    exists symbol, j: nat :: BelongsTo(line, i, symbol) && NamesFile(Pointers(line), j, i)
      && lookup(Pointers(line)[j].file, symbol) == Some(n)
  }

  lemma ActualIs(lookup: Lookup, line: Line, i: nat, n: nat)
    requires i < |Pointers(line)|
    ensures Actual(lookup, Pointers(line), ClaimsOf(line), i) == Some(n) <==> ShouldSay(lookup, line, i, n)
  {
    var tokens, claims := Pointers(line), ClaimsOf(line);
    if Actual(lookup, tokens, claims, i) == Some(n) {
      ClaimsAre(line, i, claims[i].value);
      FileIs(tokens, i, FileAt(tokens, i).value);
    }
    if symbol, j: nat :| BelongsTo(line, i, symbol) && NamesFile(tokens, j, i) && lookup(tokens[j].file, symbol) == Some(n) {
      ClaimsAre(line, i, symbol);
      FileIs(tokens, i, tokens[j].file);
    }
  }

  /** A guarded pointer comes to say the line of its symbol, and is left as it is written when it says it already; every
      other token stays. */
  lemma RefreshIs(lookup: Lookup, line: Line, i: nat)
    requires Lexed(Pointers(line)) && i < |Pointers(line)|
    ensures var t, t' := Pointers(line)[i], Pointers(Refresh(lookup, line))[i];
      && (forall n: nat :: ShouldSay(lookup, line, i, n) ==>
            && IsRef(t) && IsRef(t') && Numeral(t'.digits) && Number(t'.digits) == n
            && t' == t.(digits := t'.digits) && (Numeral(t.digits) && Number(t.digits) == n ==> t' == t))
      && ((forall n: nat :: !ShouldSay(lookup, line, i, n)) ==> t' == t)
  {
    var tokens, claims := Pointers(line), ClaimsOf(line);
    assert tokens[i] in tokens;
    var actual := Actual(lookup, tokens, claims, i);
    forall n: nat | ShouldSay(lookup, line, i, n) ensures actual == Some(n) && IsRef(tokens[i]) { ActualIs(lookup, line, i, n); }
    if actual.Some? { ActualIs(lookup, line, i, actual.value); }
  }

  /** Line numbers are written without leading zeros. */
  lemma {:induction false} DecimalIsShort(n: nat)
    ensures Decimal(n)[0] == '0' ==> n == 0 && Decimal(n) == "0"
  {
    if n >= 10 { DecimalIsShort(n / 10); }
  }

  // ---- only digits change, and only once ------------------------------------------------------

  predicate SameToken(t: Token, t': Token) {
    if IsRef(t) then IsRef(t') && t'.(digits := t.digits) == t else t' == t
  }

  /** Two token lists that differ at most in the numbers of their pointers. */
  ghost predicate SameShape(a: Tokens, b: Tokens) {
    |a| == |b| && forall i :: 0 <= i < |a| ==> SameToken(a[i], b[i])
  }

  lemma {:induction false} SameShapeSameFile(a: Tokens, b: Tokens, i: nat)
    requires SameShape(a, b) && i < |a|
    ensures FileAt(a, i) == FileAt(b, i)
  {
    assert SameToken(a[i], b[i]);
    if i > 0 { SameShapeSameFile(a, b, i - 1); }
  }

  lemma {:induction false} SameShapeSameEvents(a: Tokens, b: Tokens, i: nat)
    requires SameShape(a, b) && i <= |a|
    ensures Rank(a, i) == Rank(b, i)
    ensures match (EventBefore(a, i), EventBefore(b, i))
      case (None, None) => true
      case (Some(t), Some(t')) => SameToken(t, t')
      case _ => false
  {
    if i > 0 {
      assert SameToken(a[i - 1], b[i - 1]);
      SameShapeSameEvents(a, b, i - 1);
    }
  }

  predicate SameLines(line: Line, line': Line) {
    match (line, line')
    case (Prose(a), Prose(b)) => |a| == |b| && forall i :: 0 <= i < |a| ==> SameToken(a[i], b[i])
    case (Row(f, a, r), Row(f', b, r')) => f == f' && r == r' && |a| == |b| && forall i :: 0 <= i < |a| ==> SameToken(a[i], b[i])
    case _ => false
  }

  /** Line numbers play no part in attributing pointers to symbols. */
  lemma SameShapeSameClaims(line: Line, line': Line)
    requires SameLines(line, line')
    ensures ClaimsOf(line) == ClaimsOf(line')
  {
    var a, b := Pointers(line), Pointers(line');
    assert SameShape(a, b);
    SameShapeSameEvents(a, b, |a|);
    forall i | 0 <= i < |a| ensures ClaimsOf(line)[i] == ClaimsOf(line')[i] {
      assert SameToken(a[i], b[i]);
      SameShapeSameEvents(a, b, i);
    }
  }

  /** The refresh changes nothing but numbers of pointers. */
  lemma OnlyNumbersChange(lookup: Lookup, line: Line)
    requires Lexed(Pointers(line))
    ensures SameLines(line, Refresh(lookup, line)) && Lexed(Pointers(Refresh(lookup, line)))
  {
    var tokens, fixed := Pointers(line), Pointers(Refresh(lookup, line));
    forall t | t in fixed && IsRef(t) ensures Numeral(t.digits) {
      var i :| 0 <= i < |fixed| && fixed[i] == t;
      assert tokens[i] in tokens;
    }
  }

  /** After a refresh no pointer is drifted, so a second refresh does nothing. */
  lemma NoDriftAfterRefresh(lookup: Lookup, line: Line)
    requires Lexed(Pointers(line))
    ensures var line' := Refresh(lookup, line);
      && Lexed(Pointers(line'))
      && (forall i :: 0 <= i < |Pointers(line')| ==> !Drifted(lookup, Pointers(line'), ClaimsOf(line'), i))
      && Refresh(lookup, line') == line'
  {
    OnlyNumbersChange(lookup, line);
    var line' := Refresh(lookup, line);
    var tokens, tokens', claims := Pointers(line), Pointers(line'), ClaimsOf(line);
    SameShapeSameClaims(line, line');
    assert SameShape(tokens, tokens');
    forall i | 0 <= i < |tokens'| ensures !Drifted(lookup, tokens', claims, i) {
      SameShapeSameFile(tokens, tokens', i);
      assert tokens'[i] == Fixed(lookup, tokens, claims, i);
    }
    assert FixAll(lookup, tokens', claims) == tokens';
  }

  // ---- the text -------------------------------------------------------------------------------

  function Head(t: Token): string
    requires IsRef(t)
  {
    if t.Ref? then "`" + t.file + ":" else "`:"
  }

  function Shown(t: Token): string {
    match t
    case Text(text) => text
    case Name(symbol, _, call) => if call then "`" + symbol + "()`" else "`" + symbol + "`"
    case Ref(_, digits) => Head(t) + digits + "`"
    case Bare(digits) => Head(t) + digits + "`"
  }

  /** The text of the first `n` tokens. */
  function ShowFirst(tokens: Tokens, n: nat): string
    requires n <= |tokens|
  {
    if n == 0 then "" else ShowFirst(tokens, n - 1) + Shown(tokens[n - 1])
  }

  function ShowAll(tokens: Tokens): string { ShowFirst(tokens, |tokens|) }

  function Show(line: Line): string {
    match line
    case Prose(tokens) => ShowAll(tokens)
    case Row(first, second, rest) => ("|" + ShowAll(first) + "|") + ShowAll(second) + ("|" + rest)
  }

  /** The text of a line, token by token: pointers and names in backticks, among what lies between them. */
  lemma TextOf(tokens: Tokens, i: nat)
    requires i < |tokens|
    ensures ShowFirst(tokens, 0) == "" && ShowAll(tokens) == ShowFirst(tokens, |tokens|)
    ensures ShowFirst(tokens, i + 1) == ShowFirst(tokens, i) + match tokens[i]
      case Text(text) => text
      case Name(symbol, _, call) => if call then "`" + symbol + "()`" else "`" + symbol + "`"
      case Ref(file, digits) => "`" + file + ":" + digits + "`"
      case Bare(digits) => "`:" + digits + "`"
  {}

  lemma CellsOf(tokens: Tokens, first: Tokens, rest: string)
    ensures Show(Prose(tokens)) == ShowAll(tokens)
    ensures Show(Row(first, tokens, rest)) == "|" + ShowAll(first) + "|" + ShowAll(tokens) + ("|" + rest)
  {}

  /** Where the number of a pointer that starts at `offset` is replaced. */
  function TokenEdits(t: Token, f: Token, offset: nat): seq<Edit> {
    if IsRef(t) && IsRef(f) && f != t then
      [Edit(offset + |Head(t)|, offset + |Head(t)| + |t.digits|, f.digits)]
    else []
  }

  /** The edits turn `source` into `target`. */
  ghost predicate Turns(edits: seq<Edit>, source: string, target: string) {
    InOrder(edits, 0, |source|) && Substitute(source, edits, 0) == target
  }

  ghost function Turning(source: string, target: string): iset<seq<Edit>> {
    iset edits | Turns(edits, source, target)
  }

  /** Appending a number between two unchanged texts, with its edit. */
  lemma TurnsNumber(edits: seq<Edit>, source: string, target: string, head: string, was: string, now: string, tail: string)
    requires Turns(edits, source, target) && was != ""
    ensures Turns(edits + [Edit(|source| + |head|, |source| + |head| + |was|, now)],
                  source + (head + was + tail), target + (head + now + tail))
  {
    SubstituteExtend(source, edits, 0, head);
    SubstituteReplace(source + head, edits, 0, was, now);
    SubstituteExtend(source + head + was, edits + [Edit(|source + head|, |source + head| + |was|, now)], 0, tail);
    Flatten(source, head, was, tail);
    Flatten(target, head, now, tail);
  }

  lemma Flatten(a: string, b: string, c: string, d: string)
    ensures a + (b + c + d) == a + b + c + d
  {}

  /** The next token, with the edit of its number if it has one. */
  lemma TurnsNext(edits: seq<Edit>, source: string, target: string, t: Token, f: Token)
    requires Turns(edits, source, target) && SameToken(t, f) && (IsRef(t) ==> t.digits != "")
    ensures Turns(edits + TokenEdits(t, f, |source|), source + Shown(t), target + Shown(f))
  {
    if f == t {
      assert edits + TokenEdits(t, f, |source|) == edits;
      SubstituteExtend(source, edits, 0, Shown(t));
    } else {
      assert Head(f) == Head(t);
      TurnsNumber(edits, source, target, Head(t), t.digits, f.digits, "`");
    }
  }

  // ---- the rewriter ---------------------------------------------------------------------------

  /** The edit of one pointer that starts at `offset`, if its number is wrong. */
  function PointerChange(lookup: Lookup, t: Token, file: Option<string>, symbol: Option<string>, offset: nat): seq<Edit>
    requires IsRef(t) ==> Numeral(t.digits)
  {
    if !IsRef(t) || symbol == None || file == None then []
    else match lookup(file.value, symbol.value)
      case None => []
      case Some(actual) =>
        if actual == Number(t.digits) then []
        else [Edit(offset + |Head(t)|, offset + |Head(t)| + |t.digits|, Decimal(actual))]
  }

  /** The change of the pointer at `i` is the edit that the refreshed tokens call for. */
  lemma ChangeIsEdit(lookup: Lookup, tokens: Tokens, claims: Claims, i: nat, offset: nat)
    requires i < |tokens| == |claims| && Lexed(tokens)
    ensures IsRef(tokens[i]) ==> Numeral(tokens[i].digits)
    ensures SameToken(tokens[i], FixAll(lookup, tokens, claims)[i])
    ensures TokenEdits(tokens[i], FixAll(lookup, tokens, claims)[i], offset) ==
      PointerChange(lookup, tokens[i], FileAt(tokens, i), claims[i], offset)
  {
    assert tokens[i] in tokens;
  }

  /** The first `i` tokens of a text that begins with `start` have been treated; the next one starts at
      `offset`. */
  ghost predicate Treated(lookup: Lookup, tokens: Tokens, claims: Claims, start: string, i: nat, edits: seq<Edit>, offset: nat)
    requires i <= |tokens| == |claims| && Lexed(tokens)
  {
    && offset == |start + ShowFirst(tokens, i)|
    && edits in Turning(start + ShowFirst(tokens, i), start + ShowFirst(FixAll(lookup, tokens, claims), i))
  }

  lemma Advance(lookup: Lookup, tokens: Tokens, claims: Claims, start: string, i: nat, edits: seq<Edit>, offset: nat)
    requires i < |tokens| == |claims| && Lexed(tokens) && Treated(lookup, tokens, claims, start, i, edits, offset)
    ensures IsRef(tokens[i]) ==> Numeral(tokens[i].digits)
    ensures Treated(lookup, tokens, claims, start, i + 1,
                    edits + PointerChange(lookup, tokens[i], FileAt(tokens, i), claims[i], offset), offset + |Shown(tokens[i])|)
  {
    var fixed := FixAll(lookup, tokens, claims);
    ChangeIsEdit(lookup, tokens, claims, i, offset);
    TurnsNext(edits, start + ShowFirst(tokens, i), start + ShowFirst(fixed, i), tokens[i], fixed[i]);
    AfterStart(start, tokens, i);
    AfterStart(start, fixed, i);
  }

  lemma TreatedNone(lookup: Lookup, tokens: Tokens, claims: Claims, start: string)
    requires |tokens| == |claims| && Lexed(tokens)
    ensures Treated(lookup, tokens, claims, start, 0, [], |start|)
  {}

  lemma TreatedAll(lookup: Lookup, tokens: Tokens, claims: Claims, start: string, edits: seq<Edit>, offset: nat)
    requires |tokens| == |claims| && Lexed(tokens) && Treated(lookup, tokens, claims, start, |tokens|, edits, offset)
    ensures Turns(edits, start + ShowAll(tokens), start + ShowAll(FixAll(lookup, tokens, claims)))
  {
  }

  /** The file named last in the first `i` tokens. */
  function FileBefore(tokens: Tokens, i: nat): Option<string>
    requires i <= |tokens|
  {
    if i == 0 then None else FileAt(tokens, i - 1)
  }

  lemma AfterStart(start: string, tokens: Tokens, i: nat)
    requires i < |tokens|
    ensures start + ShowFirst(tokens, i) + Shown(tokens[i]) == start + ShowFirst(tokens, i + 1)
  {}

  /** The names and pointers of a sentence in order: each pointer with the event before it. */
  method ProseClaims(tokens: Tokens) returns (claims: Claims)
    ensures claims == ClaimsOf(Prose(tokens))
  {
    claims := [];
    var previous: Option<Token> := None;
    for i := 0 to |tokens|
      invariant |claims| == i && previous == EventBefore(tokens, i)
      invariant forall j :: 0 <= j < i ==> claims[j] == if IsRef(tokens[j]) then ProseClaim(tokens, j) else None
    {
      claims := claims + [if IsRef(tokens[i]) then NameIn(previous) else None];
      if !tokens[i].Text? { previous := Some(tokens[i]); }
    }
  }

  /** The symbols of the first cell and the pointers of the second, zipped. */
  method RowClaims(row: Line) returns (claims: Claims)
    requires row.Row?
    ensures claims == ClaimsOf(row)
  {
    var symbols, tokens := Symbols(row.first), row.second;
    var paired := symbols != [] && |symbols| == Rank(tokens, |tokens|);
    claims := [];
    var k := 0;
    for i := 0 to |tokens|
      invariant |claims| == i && k == Rank(tokens, i)
      invariant forall j :: 0 <= j < i ==> claims[j] == if IsRef(tokens[j]) then RowClaim(row.first, tokens, j) else None
    {
      if IsRef(tokens[i]) {
        RankBelow(tokens, i, |tokens|);
        claims := claims + [if paired then Some(symbols[k]) else None];
        k := k + 1;
      } else {
        claims := claims + [None];
      }
    }
  }

  /** The edits of a text that begins with `start`, in one pass that remembers the last file. */
  method CollectEdits(lookup: Lookup, tokens: Tokens, claims: Claims, start: string) returns (edits: seq<Edit>)
    requires |tokens| == |claims| && Lexed(tokens)
    ensures Turns(edits, start + ShowAll(tokens), start + ShowAll(FixAll(lookup, tokens, claims)))
  {
    edits := [];
    var lastFile: Option<string> := None;
    var offset: nat := |start|;
    TreatedNone(lookup, tokens, claims, start);
    for i := 0 to |tokens|
      invariant Treated(lookup, tokens, claims, start, i, edits, offset) && lastFile == FileBefore(tokens, i)
    {
      var t := tokens[i];
      if t.Ref? { lastFile := Some(t.file); }
      Advance(lookup, tokens, claims, start, i, edits, offset);
      edits := edits + PointerChange(lookup, t, lastFile, claims[i], offset);
      offset := offset + |Shown(t)|;
    }
    TreatedAll(lookup, tokens, claims, start, edits, offset);
  }

  lemma InOrderDistinct(edits: seq<Edit>, limit: nat)
    requires InOrder(edits, 0, limit)
    ensures NoDuplicates(edits)
  {
    InOrderAscending(edits, 0, limit);
    EditOrderTotal();
    NoDuplicatesIff(edits);
  }

  /** `_rewrite` on one line: splicing the edits gives the text of the refreshed line. */
  method RewriteLine(lookup: Lookup, line: Line) returns (text: string, changes: nat)
    requires Lexed(Pointers(line))
    ensures text == Show(Refresh(lookup, line))
    ensures changes == 0 ==> text == Show(line)
  {
    var edits: seq<Edit>;
    match line {
      case Prose(tokens) =>
        var claims := ProseClaims(tokens);
        edits := CollectEdits(lookup, tokens, claims, "");
        assert "" + ShowAll(tokens) == Show(line);
      case Row(first, second, rest) =>
        var cell := "|" + ShowAll(first) + "|";
        var claims := RowClaims(line);
        edits := CollectEdits(lookup, second, claims, cell);
        SubstituteExtend(cell + ShowAll(second), edits, 0, "|" + rest);
    }
    InOrderDistinct(edits, |Show(line)|);
    text := ApplyEdits(Show(line), edits, edits);
    changes := |edits|;
  }

  // ---- the checker ----------------------------------------------------------------------------

  /** What `check_symbol_tables` must report: the drifted pointers of table rows. */
  ghost predicate Fails(lookup: Lookup, doc: seq<Line>, n: nat, i: nat)
    requires forall l :: l in doc ==> Lexed(Pointers(l))
  {
    n < |doc| && doc[n].Row? && i < |doc[n].second| && (assert doc[n] in doc; true)
    && Drifted(lookup, doc[n].second, ClaimsOf(doc[n]), i)
  }

  /** `check_symbol_tables` on one row: the pointers, resolved with the shorthand state, zipped with the
      symbols. */
  method CheckRow(lookup: Lookup, row: Line) returns (failing: seq<nat>)
    requires row.Row? && Lexed(row.second)
    ensures forall i: nat :: i in failing <==> i < |row.second| && Drifted(lookup, row.second, ClaimsOf(row), i)
  {
    failing := [];
    var symbols, tokens := Symbols(row.first), row.second;
    if symbols == [] || |symbols| != Rank(tokens, |tokens|) { return; }
    var lastFile: Option<string> := None;
    var k := 0;
    for i := 0 to |tokens|
      invariant lastFile == (if i == 0 then None else FileAt(tokens, i - 1)) && k == Rank(tokens, i)
      invariant forall j: nat :: j in failing <==> j < i && Drifted(lookup, tokens, ClaimsOf(row), j)
    {
      var t := tokens[i];
      if t.Ref? { lastFile := Some(t.file); }
      if IsRef(t) {
        assert t in tokens;
        RankBelow(tokens, i, |tokens|);
        assert lastFile == FileAt(tokens, i) && ClaimsOf(row)[i] == Some(symbols[k]);
        if lastFile.Some? {
          var actual := lookup(lastFile.value, symbols[k]);
          if actual.Some? && actual.value != Number(t.digits) { failing := failing + [i]; }
        }
        k := k + 1;
      }
    }
  }

  method CheckSymbolTables(lookup: Lookup, doc: seq<Line>) returns (failures: seq<(nat, nat)>)
    requires forall l :: l in doc ==> Lexed(Pointers(l))
    ensures forall n: nat, i: nat :: (n, i) in failures <==> Fails(lookup, doc, n, i)
  {
    failures := [];
    for n := 0 to |doc|
      invariant forall m: nat, i: nat :: (m, i) in failures <==> m < n && Fails(lookup, doc, m, i)
    {
      assert doc[n] in doc;
      if doc[n].Row? {
        var failing := CheckRow(lookup, doc[n]);
        for k := 0 to |failing|
          invariant forall m: nat, i: nat :: (m, i) in failures <==>
            (m < n && Fails(lookup, doc, m, i)) || (m == n && i in failing[..k])
        {
          failures := failures + [(n, failing[k])];
          assert failing[..k + 1] == failing[..k] + [failing[k]];
        }
        assert failing[..|failing|] == failing;
      }
    }
  }

  function RefreshAll(lookup: Lookup, doc: seq<Line>): (r: seq<Line>)
    requires forall l :: l in doc ==> Lexed(Pointers(l))
    ensures |r| == |doc|
  {
    seq(|doc|, n requires 0 <= n < |doc| => (assert doc[n] in doc; Refresh(lookup, doc[n])))
  }

  /** After `--apply` the independent checker finds nothing, and a second refresh finds no drift. */
  lemma GateGreenAfterApply(lookup: Lookup, doc: seq<Line>)
    requires forall l :: l in doc ==> Lexed(Pointers(l))
    ensures forall l :: l in RefreshAll(lookup, doc) ==> Lexed(Pointers(l))
    ensures forall n: nat, i: nat :: !Fails(lookup, RefreshAll(lookup, doc), n, i)
    ensures RefreshAll(lookup, RefreshAll(lookup, doc)) == RefreshAll(lookup, doc)
  {
    var current := RefreshAll(lookup, doc);
    forall n | 0 <= n < |doc|
      ensures Lexed(Pointers(current[n])) && Refresh(lookup, current[n]) == current[n]
      ensures forall i :: 0 <= i < |Pointers(current[n])| ==> !Drifted(lookup, Pointers(current[n]), ClaimsOf(current[n]), i)
    {
      assert doc[n] in doc;
      NoDriftAfterRefresh(lookup, doc[n]);
    }
  }

  /** And before it the checker reports exactly what the refresh will change in table rows. */
  lemma FailsIffChanged(lookup: Lookup, doc: seq<Line>, n: nat)
    requires forall l :: l in doc ==> Lexed(Pointers(l))
    requires n < |doc| && doc[n].Row?
    ensures (exists i: nat :: Fails(lookup, doc, n, i)) <==> RefreshAll(lookup, doc)[n] != doc[n]
  {
    assert doc[n] in doc;
    var tokens, claims := doc[n].second, ClaimsOf(doc[n]);
    var fixed := FixAll(lookup, tokens, claims);
    if i: nat :| Fails(lookup, doc, n, i) {
      assert fixed[i].digits != tokens[i].digits;
    } else {
      forall i: nat | i < |tokens| ensures fixed[i] == tokens[i] { assert !Fails(lookup, doc, n, i); }
      assert fixed == tokens;
    }
  }
}
