/** Text edits applied right to left, as module_move.py and refresh_doc_symbol_lines.py do:
    `for start, end, text in sorted(edits, reverse=True)`. */
module Splice {
  import opened Ordering
  import opened Wrappers

  datatype Edit = Edit(start: nat, end: nat, text: string)

  /** Python's order on the triples. */
  predicate EditLess(a: Edit, b: Edit) {
    a.start < b.start || (a.start == b.start && (a.end < b.end || (a.end == b.end && StringLess(a.text, b.text))))
  }

  lemma EditOrderTotal()
    ensures StrictTotal(EditLess)
  {
    NamesTotallyOrdered();
  }

  /** The edits are in ascending order, do not overlap and lie between `pos` and `limit`. */
  predicate InOrder(edits: seq<Edit>, pos: nat, limit: nat) {
    if edits == [] then pos <= limit
    else pos <= edits[0].start < edits[0].end && InOrder(edits[1..], edits[0].end, limit)
  }

  /** Simultaneous substitution: every edit refers to the original text. */
  function Substitute(source: string, edits: seq<Edit>, pos: nat): string
    requires InOrder(edits, pos, |source|)
  {
    InOrderBounds(edits, pos, |source|);
    if edits == [] then source[pos..]
    else source[pos..edits[0].start] + edits[0].text + Substitute(source, edits[1..], edits[0].end)
  }

  lemma {:induction false} InOrderBounds(edits: seq<Edit>, pos: nat, limit: nat)
    requires InOrder(edits, pos, limit)
    ensures pos <= limit && forall e :: e in edits ==> pos <= e.start < e.end <= limit
  {
    if edits != [] {
      InOrderBounds(edits[1..], edits[0].end, limit);
      assert edits == [edits[0]] + edits[1..];
    }
  }

  lemma {:induction false} InOrderAscending(edits: seq<Edit>, pos: nat, limit: nat)
    requires InOrder(edits, pos, limit)
    ensures Ascending(edits, EditLess)
  {
    if edits != [] {
      InOrderBounds(edits[1..], edits[0].end, limit);
      InOrderAscending(edits[1..], edits[0].end, limit);
      forall i, j | 0 <= i < j < |edits| ensures EditLess(edits[i], edits[j]) {
        assert edits[j] == edits[1..][j - 1] && edits[j] in edits[1..];
        if i > 0 { assert edits[i] == edits[1..][i - 1]; }
      }
    }
  }

  lemma {:induction false} InOrderInit(edits: seq<Edit>, pos: nat, limit: nat)
    requires InOrder(edits, pos, limit) && edits != []
    ensures var e := edits[|edits| - 1]; e.end <= limit && InOrder(edits[..|edits| - 1], pos, e.start)
  {
    if |edits| > 1 {
      InOrderInit(edits[1..], edits[0].end, limit);
      assert edits[1..][..|edits| - 2] == edits[..|edits| - 1][1..];
    } else {
      InOrderBounds(edits, pos, limit);
    }
  }

  lemma {:induction false} InOrderWiden(edits: seq<Edit>, pos: nat, limit: nat, limit': nat)
    requires InOrder(edits, pos, limit) && limit <= limit'
    ensures InOrder(edits, pos, limit')
  {
    if edits != [] { InOrderWiden(edits[1..], edits[0].end, limit, limit'); }
  }

  /** Substituting in a text whose tail was already rewritten. */
  lemma {:induction false} SubstituteLast(source: string, edits: seq<Edit>, pos: nat)
    requires InOrder(edits, pos, |source|) && edits != []
    ensures var e := edits[|edits| - 1]; var init := edits[..|edits| - 1];
      && e.start < e.end <= |source| && InOrder(init, pos, e.start)
      && InOrder(init, pos, |source[..e.start] + e.text + source[e.end..]|)
      && Substitute(source, edits, pos) == Substitute(source[..e.start] + e.text + source[e.end..], init, pos)
  {
    var e, init := edits[|edits| - 1], edits[..|edits| - 1];
    InOrderInit(edits, pos, |source|);
    InOrderBounds(edits, pos, |source|);
    var source' := source[..e.start] + e.text + source[e.end..];
    InOrderWiden(init, pos, e.start, |source'|);
    InOrderBounds(init, pos, e.start);
    if |edits| == 1 {
      assert source'[pos..] == source[pos..e.start] + e.text + source[e.end..];
    } else {
      var rest := edits[1..];
      assert rest[|rest| - 1] == e && rest[..|rest| - 1] == init[1..];
      SubstituteLast(source, rest, edits[0].end);
      assert edits[0] in init;
      assert source'[pos..edits[0].start] == source[pos..edits[0].start];
    }
  }

  /** Sorting finds the ascending order. */
  lemma SortIsAscending(edits: seq<Edit>, ascending: seq<Edit>, limit: nat)
    requires InOrder(ascending, 0, limit)
    requires NoDuplicates(edits) && forall e :: e in edits <==> e in ascending
    ensures Sort(edits, EditLess) == ascending
  {
    EditOrderTotal();
    SortAscending(edits, EditLess);
    InOrderAscending(ascending, 0, limit);
    AscendingUnique(Sort(edits, EditLess), ascending, EditLess);
  }

  /** The splicing loop, started from any order of a non-overlapping edit list, performs the
      simultaneous substitution. */
  method ApplyEdits(source: string, edits: seq<Edit>, ghost ascending: seq<Edit>) returns (result: string)
    requires InOrder(ascending, 0, |source|)
    requires NoDuplicates(edits) && forall e :: e in edits <==> e in ascending
    ensures result == Substitute(source, ascending, 0)
  {
    var sorted := Sort(edits, EditLess);
    SortIsAscending(edits, ascending, |source|);
    result := SpliceBackwards(source, sorted);
  }

  method SpliceBackwards(source: string, sorted: seq<Edit>) returns (result: string)
    requires InOrder(sorted, 0, |source|)
    ensures result == Substitute(source, sorted, 0)
  {
    assert sorted[..|sorted|] == sorted;
    result := source;
    var k := |sorted|;
    while k > 0
      invariant 0 <= k <= |sorted| && InOrder(sorted[..k], 0, |result|)
      invariant Substitute(result, sorted[..k], 0) == Substitute(source, sorted, 0)
    {
      var e := sorted[k - 1];
      InOrderBounds(sorted[..k], 0, |result|);
      SubstituteLast(result, sorted[..k], 0);
      assert sorted[..k][..k - 1] == sorted[..k - 1] && sorted[..k][k - 1] == e;
      result := result[..e.start] + e.text + result[e.end..];
      k := k - 1;
    }
  }

  // ---- texts built up from left to right ----------------------------------------------------

  lemma Slices(s: string, t: string, a: nat, b: nat)
    requires a <= b <= |s|
    ensures (s + t)[a..b] == s[a..b] && (s + t)[a..] == s[a..] + t
  {}

  lemma Regroup(a: string, b: string, c: string, d: string)
    ensures a + b + c + d == a + b + (c + d)
  {}

  /** Text after the last edit is carried over. */
  lemma {:induction false} SubstituteExtend(source: string, edits: seq<Edit>, pos: nat, more: string)
    requires InOrder(edits, pos, |source|)
    ensures InOrder(edits, pos, |source + more|)
    ensures Substitute(source + more, edits, pos) == Substitute(source, edits, pos) + more
  {
    InOrderWiden(edits, pos, |source|, |source + more|);
    InOrderBounds(edits, pos, |source|);
    if edits == [] {
      Slices(source, more, pos, |source|);
    } else {
      var e := edits[0];
      assert e in edits;
      SubstituteExtend(source, edits[1..], e.end, more);
      Slices(source, more, pos, e.start);
      Regroup(source[pos..e.start], e.text, Substitute(source, edits[1..], e.end), more);
    }
  }

  lemma ReplaceEnd(source: string, pos: nat, gone: string, text: string)
    requires pos <= |source| && gone != ""
    ensures var e := Edit(|source|, |source| + |gone|, text);
      && InOrder([e], pos, |source + gone|) && Substitute(source + gone, [e], pos) == Substitute(source, [], pos) + text
  {
    var e := Edit(|source|, |source| + |gone|, text);
    assert [e][1..] == [];
    Slices(source, gone, pos, |source|);
    assert (source + gone)[e.end..] == "" && source[pos..] == source[pos..|source|];
    assert Substitute(source + gone, [e], pos) == (source + gone)[pos..e.start] + text + (source + gone)[e.end..];
  }

  /** Text after the last edit, with an edit of its own. */
  lemma {:induction false} SubstituteReplace(source: string, edits: seq<Edit>, pos: nat, gone: string, text: string)
    requires InOrder(edits, pos, |source|) && gone != ""
    ensures var e := Edit(|source|, |source| + |gone|, text);
      && InOrder(edits + [e], pos, |source + gone|)
      && Substitute(source + gone, edits + [e], pos) == Substitute(source, edits, pos) + text
  {
    var last := Edit(|source|, |source| + |gone|, text);
    InOrderBounds(edits, pos, |source|);
    if edits == [] {
      assert edits + [last] == [last];
      ReplaceEnd(source, pos, gone, text);
    } else {
      var e := edits[0];
      assert e in edits;
      assert (edits + [last])[1..] == edits[1..] + [last];
      SubstituteReplace(source, edits[1..], e.end, gone, text);
      Slices(source, gone, pos, e.start);
      Regroup(source[pos..e.start], e.text, Substitute(source, edits[1..], e.end), text);
    }
  }
}
