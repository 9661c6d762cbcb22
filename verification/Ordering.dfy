/** Strict total orders, lexicographic order on sequences, and the sort that Python's
    `sorted` performs.  Dotted module names are sequences of segments. */
module Ordering {

  /** A dotted Python name, split at its dots. */
  type Name = seq<string>

  ghost predicate StrictTotal<T(!new)>(lt: (T, T) -> bool) {
    && (forall x :: !lt(x, x))
    && (forall x, y :: x != y ==> lt(x, y) || lt(y, x))
    && (forall x, y, z :: lt(x, y) && lt(y, z) ==> lt(x, z))
  }

  predicate LexLess<T(==)>(lt: (T, T) -> bool, a: seq<T>, b: seq<T>) {
    b != [] && (a == [] || lt(a[0], b[0]) || (a[0] == b[0] && LexLess(lt, a[1..], b[1..])))
  }

  predicate CharLess(a: char, b: char) { a < b }

  predicate StringLess(a: string, b: string) { LexLess(CharLess, a, b) }

  predicate NameLess(a: Name, b: Name) { LexLess(StringLess, a, b) }

  /** Either `a` is a proper beginning of `b`, or the first difference decides. */
  ghost predicate ComesFirst<T(!new)>(lt: (T, T) -> bool, a: seq<T>, b: seq<T>) {
    a < b || exists k: nat :: DiffersAt(a, b, k) && lt(a[k], b[k])
  }

  ghost predicate DiffersAt<T(!new)>(a: seq<T>, b: seq<T>, k: nat) {
    k < |a| && k < |b| && a[..k] == b[..k] && a[k] != b[k]
  }

  lemma {:induction false} LexIs<T(!new)>(lt: (T, T) -> bool, a: seq<T>, b: seq<T>)
    requires StrictTotal(lt)
    ensures LexLess(lt, a, b) <==> ComesFirst(lt, a, b)
  {
    if a != [] && b != [] {
      if a[0] != b[0] {
        if lt(a[0], b[0]) { assert DiffersAt(a, b, 0); }
      } else {
        LexIs(lt, a[1..], b[1..]);
        if ComesFirst(lt, a[1..], b[1..]) { AfterTheHead(lt, a, b); }
        BehindTheHead(lt, a, b);
      }
    }
  }

  lemma AfterTheHead<T(!new)>(lt: (T, T) -> bool, a: seq<T>, b: seq<T>)
    requires a != [] && b != [] && a[0] == b[0] && ComesFirst(lt, a[1..], b[1..])
    ensures ComesFirst(lt, a, b)
  {
    if a[1..] < b[1..] {
      assert a == [a[0]] + a[1..] && b == [a[0]] + b[1..];
    } else {
      var k: nat :| DiffersAt(a[1..], b[1..], k) && lt(a[1..][k], b[1..][k]);
      assert a[..k + 1] == [a[0]] + a[1..][..k] && b[..k + 1] == [a[0]] + b[1..][..k];
      assert DiffersAt(a, b, k + 1);
    }
  }

  lemma BehindTheHead<T(!new)>(lt: (T, T) -> bool, a: seq<T>, b: seq<T>)
    requires a != [] && b != [] && a[0] == b[0]
    ensures ComesFirst(lt, a, b) ==> ComesFirst(lt, a[1..], b[1..])
  {
    if k: nat :| DiffersAt(a, b, k) && lt(a[k], b[k]) {
      assert a[1..][..k - 1] == a[..k][1..] && b[1..][..k - 1] == b[..k][1..];
      assert DiffersAt(a[1..], b[1..], k - 1);
    }
  }

  /** Module names are compared as Python compares lists of strings: a beginning comes first, else the first
      different segment decides, and in a segment the first different character. */
  lemma NamesAreCompared(a: Name, b: Name, s: string, t: string)
    ensures StringLess(s, t) <==> s < t || exists k: nat :: DiffersAt(s, t, k) && s[k] < t[k]
    ensures NameLess(a, b) <==> a < b || exists k: nat :: DiffersAt(a, b, k) && StringLess(a[k], b[k])
  {
    NamesTotallyOrdered();
    LexIs(CharLess, s, t);
    LexIs(StringLess, a, b);
  }

  lemma LexIrreflexive<T(!new)>(lt: (T, T) -> bool, a: seq<T>)
    requires StrictTotal(lt)
    ensures !LexLess(lt, a, a)
  {
  }

  lemma {:induction false} LexConnected<T(!new)>(lt: (T, T) -> bool, a: seq<T>, b: seq<T>)
    requires StrictTotal(lt) && a != b
    ensures LexLess(lt, a, b) || LexLess(lt, b, a)
  {
    if a != [] && b != [] && a[0] == b[0] {
      assert a == [a[0]] + a[1..] && b == [b[0]] + b[1..];
      LexConnected(lt, a[1..], b[1..]);
    }
  }

  lemma {:induction false} LexTransitive<T(!new)>(lt: (T, T) -> bool, a: seq<T>, b: seq<T>, c: seq<T>)
    requires StrictTotal(lt) && LexLess(lt, a, b) && LexLess(lt, b, c)
    ensures LexLess(lt, a, c)
  {
    if a != [] && a[0] == b[0] == c[0] {
      LexTransitive(lt, a[1..], b[1..], c[1..]);
    }
  }

  lemma LexStrictTotal<T(!new)>(lt: (T, T) -> bool)
    requires StrictTotal(lt)
    ensures StrictTotal((a: seq<T>, b: seq<T>) => LexLess(lt, a, b))
  {
    forall a: seq<T> ensures !LexLess(lt, a, a) { LexIrreflexive(lt, a); }
    forall a: seq<T>, b: seq<T> | a != b ensures LexLess(lt, a, b) || LexLess(lt, b, a) {
      LexConnected(lt, a, b);
    }
    forall a: seq<T>, b: seq<T>, c: seq<T> | LexLess(lt, a, b) && LexLess(lt, b, c)
      ensures LexLess(lt, a, c)
    {
      LexTransitive(lt, a, b, c);
    }
  }

  /** Module names, as Python compares them, are totally ordered. */
  lemma NamesTotallyOrdered()
    ensures StrictTotal(StringLess) && StrictTotal(NameLess)
  {
    LexStrictTotal(CharLess);
    assert StrictTotal(StringLess) by {
      var f := (a: string, b: string) => LexLess(CharLess, a, b);
      assert StrictTotal(f);
      forall x, y ensures StringLess(x, y) == f(x, y) {}
      forall x, y, z | StringLess(x, y) && StringLess(y, z) ensures StringLess(x, z) {
        assert f(x, y) && f(y, z);
      }
    }
    LexStrictTotal(StringLess);
    var f := (a: Name, b: Name) => LexLess(StringLess, a, b);
    assert StrictTotal(f);
    forall x, y ensures NameLess(x, y) == f(x, y) {}
    forall x, y, z | NameLess(x, y) && NameLess(y, z) ensures NameLess(x, z) {
      assert f(x, y) && f(y, z);
    }
  }

  ghost function Elements<T>(s: seq<T>): set<T> {
    set x | x in s
  }

  /** No element occurs twice: there are as many elements as positions. */
  ghost predicate NoDuplicates<T>(s: seq<T>) {
    |Elements(s)| == |s|
  }

  lemma {:induction false} FewerElements<T>(s: seq<T>)
    ensures |Elements(s)| <= |s|
  {
    if s != [] {
      FewerElements(s[1..]);
      assert s == [s[0]] + s[1..];
      assert Elements(s) == Elements(s[1..]) + {s[0]};
    }
  }

  ghost predicate Distinct<T>(s: seq<T>) {
    forall i, j :: 0 <= i < j < |s| ==> s[i] != s[j]
  }

  lemma DistinctStep<T>(s: seq<T>)
    requires s != []
    ensures Distinct(s) <==> s[0] !in s[1..] && Distinct(s[1..])
  {
    var t := s[1..];
    assert forall i :: 0 <= i < |t| ==> t[i] == s[i + 1];
    if s[0] !in t && Distinct(t) {
      forall i, j | 0 <= i < j < |s| ensures s[i] != s[j] {
        assert s[j] == t[j - 1] && (i > 0 ==> s[i] == t[i - 1]);
      }
    }
  }

  lemma {:induction false} NoDuplicatesIff<T>(s: seq<T>)
    ensures NoDuplicates(s) <==> Distinct(s)
  {
    if s != [] {
      var t := s[1..];
      assert s == [s[0]] + t;
      assert Elements(s) == Elements(t) + {s[0]};
      FewerElements(t);
      NoDuplicatesIff(t);
      DistinctStep(s);
      assert s[0] in t <==> s[0] in Elements(t);
    }
  }

  lemma NoDuplicatesAppend<T>(s: seq<T>, x: T)
    requires NoDuplicates(s) && x !in s
    ensures NoDuplicates(s + [x])
  {
    assert Elements(s + [x]) == Elements(s) + {x};
  }

  ghost predicate Ascending<T>(s: seq<T>, lt: (T, T) -> bool) {
    forall i, j :: 0 <= i < j < |s| ==> lt(s[i], s[j])
  }

  function Insert<T>(x: T, s: seq<T>, lt: (T, T) -> bool): (r: seq<T>)
    ensures |r| == |s| + 1
    ensures multiset(r) == multiset(s) + multiset{x}
  {
    if s == [] then [x]
    else if lt(s[0], x) then
      assert s == [s[0]] + s[1..];
      [s[0]] + Insert(x, s[1..], lt)
    else [x] + s
  }

  /** `sorted(s)`: the same elements in order. */
  function Sort<T>(s: seq<T>, lt: (T, T) -> bool): (r: seq<T>)
    ensures |r| == |s|
    ensures multiset(r) == multiset(s)
  {
    if s == [] then []
    else
      assert s == [s[0]] + s[1..];
      Insert(s[0], Sort(s[1..], lt), lt)
  }

  lemma SameElements<T>(a: seq<T>, b: seq<T>)
    requires multiset(a) == multiset(b)
    ensures forall x :: x in a <==> x in b
  {
    forall x ensures x in a <==> x in b {
      assert x in a <==> x in multiset(a);
      assert x in b <==> x in multiset(b);
    }
  }

  ghost predicate Precedes<T>(x: T, s: seq<T>, lt: (T, T) -> bool) {
    forall i :: 0 <= i < |s| ==> lt(x, s[i])
  }

  lemma {:induction false} InsertPrecedes<T>(y: T, x: T, s: seq<T>, lt: (T, T) -> bool)
    requires Precedes(y, s, lt) && lt(y, x)
    ensures Precedes(y, Insert(x, s, lt), lt)
  {
    if s != [] && lt(s[0], x) { InsertPrecedes(y, x, s[1..], lt); }
  }

  lemma AscendingCons<T>(x: T, s: seq<T>, lt: (T, T) -> bool)
    requires Ascending(s, lt) && Precedes(x, s, lt)
    ensures Ascending([x] + s, lt)
  {}

  lemma {:induction false} InsertAscending<T(!new)>(x: T, s: seq<T>, lt: (T, T) -> bool)
    requires StrictTotal(lt) && Ascending(s, lt) && x !in s
    ensures Ascending(Insert(x, s, lt), lt)
  {
    if s != [] && lt(s[0], x) {
      InsertAscending(x, s[1..], lt);
      InsertPrecedes(s[0], x, s[1..], lt);
      AscendingCons(s[0], Insert(x, s[1..], lt), lt);
    } else {
      if s != [] { assert lt(x, s[0]); }
      AscendingCons(x, s, lt);
    }
  }

  lemma {:induction false} SortAscending<T(!new)>(s: seq<T>, lt: (T, T) -> bool)
    requires StrictTotal(lt) && NoDuplicates(s)
    ensures Ascending(Sort(s, lt), lt)
    ensures forall x :: x in Sort(s, lt) <==> x in s
  {
    SameElements(Sort(s, lt), s);
    NoDuplicatesIff(s);
    if s != [] {
      NoDuplicatesIff(s[1..]);
      SortAscending(s[1..], lt);
      assert s[0] !in s[1..];
      InsertAscending(s[0], Sort(s[1..], lt), lt);
    }
  }

  lemma Inhabited<T>(s: seq<T>)
    ensures s == [] || exists x :: x in s
  {
    if s != [] { assert s[0] in s; }
  }

  /** An ascending list is determined by its elements. */
  lemma {:induction false} AscendingUnique<T(!new)>(a: seq<T>, b: seq<T>, lt: (T, T) -> bool)
    requires StrictTotal(lt) && Ascending(a, lt) && Ascending(b, lt)
    requires forall x :: x in a <==> x in b
    ensures a == b
  {
    if a == [] || b == [] {
      Inhabited(a);
      Inhabited(b);
    } else {
      assert a[0] == b[0] by {
        assert a[0] in b && b[0] in a;
        var i :| 0 <= i < |b| && b[i] == a[0];
        var j :| 0 <= j < |a| && a[j] == b[0];
      }
      forall x ensures x in a[1..] <==> x in b[1..] {
        if x in a[1..] {
          var i :| 0 <= i < |a[1..]| && a[1..][i] == x;
          assert lt(a[0], a[i + 1]);
          assert x in a && x != b[0];
        }
        if x in b[1..] {
          var i :| 0 <= i < |b[1..]| && b[1..][i] == x;
          assert lt(b[0], b[i + 1]);
          assert x in b && x != a[0];
        }
      }
      AscendingUnique(a[1..], b[1..], lt);
      assert a == [a[0]] + a[1..] && b == [b[0]] + b[1..];
    }
  }
}
