/** The module-level import graph of scripts/dependency_graph.py and what its cycle report
    must say about it.  `T` is the type of module names. */
module ImportGraph {
  import opened Ordering

  /** `modules` lists the dictionary's keys and `edges[m]` one module's target set, each in
      an arbitrary enumeration order. */
  datatype Graph<T> = Graph(modules: seq<T>, edges: map<T, seq<T>>)

  ghost predicate Edge<T>(g: Graph<T>, u: T, v: T) {
    u in g.edges && v in g.edges[u]
  }

  /** What `build` guarantees: every end of an edge is an indexed module. */
  ghost predicate WellFormed<T(!new)>(g: Graph<T>) {
    && NoDuplicates(g.modules)
    && (forall u :: u in g.edges ==> u in g.modules && NoDuplicates(g.edges[u]))
    && (forall u, v :: Edge(g, u, v) ==> v in g.modules)
  }

  ghost predicate NoSelfEdges<T(!new)>(g: Graph<T>) {
    forall u :: !Edge(g, u, u)
  }

  /** `sorted(graph.edges.get(node, ()))` */
  function Targets<T(==)>(g: Graph<T>, lt: (T, T) -> bool, u: T): seq<T> {
    if u in g.edges then Sort(g.edges[u], lt) else []
  }

  lemma TargetsAreEdges<T(!new)>(g: Graph<T>, lt: (T, T) -> bool, u: T)
    requires WellFormed(g) && StrictTotal(lt)
    ensures forall v :: v in Targets(g, lt, u) <==> Edge(g, u, v)
    ensures NoDuplicates(Targets(g, lt, u))
  {
    if u in g.edges {
      SortAscending(g.edges[u], lt);
      assert Elements(Targets(g, lt, u)) == Elements(g.edges[u]);
    }
  }

  // ---- paths and components --------------------------------------------------------

  ghost predicate Walk<T>(g: Graph<T>, p: seq<T>) {
    p != [] && (|p| == 1 || (Edge(g, p[0], p[1]) && Walk(g, p[1..])))
  }

  ghost predicate WalkFromTo<T>(g: Graph<T>, p: seq<T>, u: T, v: T) {
    Walk(g, p) && p[0] == u && p[|p| - 1] == v
  }

  ghost predicate Reach<T(!new)>(g: Graph<T>, u: T, v: T) {
    exists p :: WalkFromTo(g, p, u, v)
  }

  ghost predicate Mutual<T(!new)>(g: Graph<T>, u: T, v: T) {
    Reach(g, u, v) && Reach(g, v, u)
  }

  /** `v` lies on a cycle: some edge out of it leads back to it. */
  ghost predicate OnCycle<T(!new)>(g: Graph<T>, v: T) {
    exists w :: Edge(g, v, w) && Reach(g, w, v)
  }

  lemma ReachSelf<T(!new)>(g: Graph<T>, u: T)
    ensures Reach(g, u, u)
  {
    assert WalkFromTo(g, [u], u, u);
  }

  lemma ReachEdge<T(!new)>(g: Graph<T>, u: T, v: T)
    requires Edge(g, u, v)
    ensures Reach(g, u, v)
  {
    assert WalkFromTo(g, [u, v], u, v);
  }

  lemma {:induction false} WalkAppend<T(!new)>(g: Graph<T>, p: seq<T>, q: seq<T>)
    requires Walk(g, p) && Walk(g, q) && p[|p| - 1] == q[0]
    ensures Walk(g, p + q[1..])
  {
    if |p| == 1 {
      assert p + q[1..] == q;
    } else {
      WalkAppend(g, p[1..], q);
      assert (p + q[1..])[1..] == p[1..] + q[1..];
    }
  }

  lemma ReachTrans<T(!new)>(g: Graph<T>, u: T, v: T, w: T)
    requires Reach(g, u, v) && Reach(g, v, w)
    ensures Reach(g, u, w)
  {
    var p :| WalkFromTo(g, p, u, v);
    var q :| WalkFromTo(g, q, v, w);
    WalkAppend(g, p, q);
    var r := p + q[1..];
    assert r[|r| - 1] == w;
    assert WalkFromTo(g, r, u, w);
  }

  ghost predicate ClosedUnderEdges<T(!new)>(g: Graph<T>, s: set<T>) {
    forall u, v :: u in s && Edge(g, u, v) ==> v in s
  }

  /** A walk never leaves a set that is closed under edges. */
  lemma {:induction false} ReachStaysInside<T(!new)>(g: Graph<T>, s: set<T>, u: T, v: T)
    requires ClosedUnderEdges(g, s) && u in s && Reach(g, u, v)
    ensures v in s
  {
    var p :| WalkFromTo(g, p, u, v);
    WalkStaysInside(g, s, p);
  }

  lemma {:induction false} WalkStaysInside<T(!new)>(g: Graph<T>, s: set<T>, p: seq<T>)
    requires ClosedUnderEdges(g, s) && Walk(g, p) && p[0] in s
    ensures p[|p| - 1] in s
  {
    if |p| > 1 {
      WalkStaysInside(g, s, p[1..]);
    }
  }

  /** A non-trivial walk starts with an edge. */
  lemma FirstEdge<T(!new)>(g: Graph<T>, u: T, v: T) returns (w: T)
    requires Reach(g, u, v) && u != v
    ensures Edge(g, u, w) && Reach(g, w, v)
  {
    var p :| WalkFromTo(g, p, u, v);
    w := p[1];
    assert WalkFromTo(g, p[1..], w, v);
  }

  // ---- the report ------------------------------------------------------------------

  /** `c` lists a strongly connected component: its members are exactly the modules
      mutually reachable with any one of them. */
  ghost predicate IsComponent<T(!new)>(g: Graph<T>, c: seq<T>) {
    && c != []
    && (forall u :: u in c ==> u in g.modules)
    && (forall u, v :: u in c ==> (v in c <==> Mutual(g, u, v)))
  }

  /** The order of `components.sort`: larger first, then by the member lists. */
  predicate BySize<T(==)>(lt: (T, T) -> bool, a: seq<T>, b: seq<T>) {
    |a| > |b| || (|a| == |b| && LexLess(lt, a, b))
  }

  function SizeOrder<T(==)>(lt: (T, T) -> bool): (seq<T>, seq<T>) -> bool {
    (a, b) => BySize(lt, a, b)
  }

  lemma SizeOrderTotal<T(!new)>(lt: (T, T) -> bool)
    requires StrictTotal(lt)
    ensures StrictTotal(SizeOrder(lt))
  {
    LexStrictTotal(lt);
    var f := (a: seq<T>, b: seq<T>) => LexLess(lt, a, b);
    var h := SizeOrder(lt);
    forall a, b ensures h(a, b) <==> |a| > |b| || (|a| == |b| && f(a, b)) {}
    forall a, b, c | h(a, b) && h(b, c) ensures h(a, c) {
      if |a| == |c| {
        assert f(a, b) && f(b, c);
      }
    }
  }

  /** What the cycle report must contain: every component of more than one module, exactly
      once, members and components in the documented order. */
  ghost predicate IsReport<T(!new)>(g: Graph<T>, lt: (T, T) -> bool, r: seq<seq<T>>) {
    && Ascending(r, SizeOrder(lt))
    && (forall c :: c in r ==> |c| > 1 && Ascending(c, lt) && IsComponent(g, c))
    && (forall u, v :: u in g.modules && v in g.modules && u != v && Mutual(g, u, v)
          ==> exists c :: c in r && u in c)
  }

  /** Larger components come first, and components of one size by their smallest modules. */
  lemma LargerFirst<T(!new)>(g: Graph<T>, lt: (T, T) -> bool, r: seq<seq<T>>, i: nat, j: nat)
    requires StrictTotal(lt) && IsReport(g, lt, r) && i < j < |r|
    ensures |r[i]| >= |r[j]| > 1
    ensures |r[i]| == |r[j]| ==> lt(r[i][0], r[j][0])
    ensures forall x :: x in r[i] ==> x == r[i][0] || lt(r[i][0], x)
  {
    assert SizeOrder(lt)(r[i], r[j]) && r[i] in r && r[j] in r;
    if r[i][0] == r[j][0] {
      assert r[i][0] in r[i];
      ComponentsDisjoint(g, lt, r, i, j, r[i][0]);
    }
  }

  /** The rendered document is byte-stable: a graph has only one report, whatever order its
      dictionaries enumerate in. */
  lemma ReportUnique<T(!new)>(g: Graph<T>, h: Graph<T>, lt: (T, T) -> bool, r: seq<seq<T>>, s: seq<seq<T>>)
    requires StrictTotal(lt) && IsReport(g, lt, r) && IsReport(h, lt, s)
    requires forall m :: m in g.modules <==> m in h.modules
    requires forall u, v :: Edge(g, u, v) <==> Edge(h, u, v)
    ensures r == s
  {
    SizeOrderTotal(lt);
    SameReach(g, h);
    forall c ensures c in r <==> c in s {
      if c in r { ReportIncludes(g, h, lt, r, s, c); }
      if c in s { ReportIncludes(h, g, lt, s, r, c); }
    }
    AscendingUnique(r, s, SizeOrder(lt));
  }

  lemma {:induction false} SameWalk<T(!new)>(g: Graph<T>, h: Graph<T>, p: seq<T>)
    requires Walk(g, p) && forall u, v :: Edge(g, u, v) <==> Edge(h, u, v)
    ensures Walk(h, p)
  {
    if |p| > 1 { SameWalk(g, h, p[1..]); }
  }

  lemma SameReach<T(!new)>(g: Graph<T>, h: Graph<T>)
    requires forall u, v :: Edge(g, u, v) <==> Edge(h, u, v)
    ensures forall u, v :: Reach(g, u, v) <==> Reach(h, u, v)
  {
    forall u, v ensures Reach(g, u, v) <==> Reach(h, u, v) {
      if Reach(g, u, v) {
        var p :| WalkFromTo(g, p, u, v);
        SameWalk(g, h, p);
        assert WalkFromTo(h, p, u, v);
      }
      if Reach(h, u, v) {
        var p :| WalkFromTo(h, p, u, v);
        SameWalk(h, g, p);
        assert WalkFromTo(g, p, u, v);
      }
    }
  }

  lemma ReportIncludes<T(!new)>(g: Graph<T>, h: Graph<T>, lt: (T, T) -> bool, r: seq<seq<T>>, s: seq<seq<T>>, c: seq<T>)
    requires StrictTotal(lt) && IsReport(g, lt, r) && IsReport(h, lt, s) && c in r
    requires forall m :: m in g.modules <==> m in h.modules
    requires forall u, v :: Reach(g, u, v) <==> Reach(h, u, v)
    ensures c in s
  {
    var u, v := c[0], c[1];
    assert u in c && v in c && lt(u, v);
    assert Mutual(h, u, v);
    var d :| d in s && u in d;
    forall x ensures x in c <==> x in d {
      assert x in c <==> Mutual(g, u, x);
      assert x in d <==> Mutual(h, u, x);
    }
    AscendingUnique(c, d, lt);
  }

  // ---- the cycle totals ------------------------------------------------------------

  /** With no self edges, being on a cycle is sharing a component with another module. */
  lemma OnCycleIffShared<T(!new)>(g: Graph<T>, v: T)
    requires NoSelfEdges(g) && WellFormed(g)
    ensures OnCycle(g, v) <==> exists u :: u in g.modules && u != v && Mutual(g, u, v)
  {
    if OnCycle(g, v) {
      var w :| Edge(g, v, w) && Reach(g, w, v);
      ReachEdge(g, v, w);
      assert w in g.modules && w != v && Mutual(g, w, v);
    }
    if u :| u in g.modules && u != v && Mutual(g, u, v) {
      var w := FirstEdge(g, v, u);
      ReachTrans(g, w, u, v);
    }
  }

  /** `sum(len(component) for component in components)` */
  function InCycle<T>(r: seq<seq<T>>): nat {
    if r == [] then 0 else |r[0]| + InCycle(r[1..])
  }

  ghost function Members<T(!new)>(r: seq<seq<T>>): (s: set<T>)
    ensures forall x :: x in s <==> exists c :: c in r && x in c
  {
    if r == [] then {}
    else
      assert r == [r[0]] + r[1..];
      (set x | x in r[0]) + Members(r[1..])
  }

  lemma {:induction false} MemberCount<T(!new)>(r: seq<seq<T>>)
    requires forall c :: c in r ==> NoDuplicates(c)
    requires forall i, j, x :: 0 <= i < j < |r| && x in r[i] ==> x !in r[j]
    ensures |Members(r)| == InCycle(r)
  {
    if r != [] {
      assert r[0] in r;
      forall i, j, x | 0 <= i < j < |r[1..]| && x in r[1..][i] ensures x !in r[1..][j] {
        assert x in r[i + 1];
      }
      forall c | c in r[1..] ensures NoDuplicates(c) { assert c in r; }
      MemberCount(r[1..]);
      var head := Elements(r[0]);
      forall x, j | x in head && 0 <= j < |r[1..]| ensures x !in r[1..][j] {
        assert x in r[0];
      }
      assert head !! Members(r[1..]);
      assert Members(r) == head + Members(r[1..]);
    }
  }

  lemma MembersOnCycle<T(!new)>(g: Graph<T>, lt: (T, T) -> bool, r: seq<seq<T>>, v: T)
    requires WellFormed(g) && NoSelfEdges(g) && StrictTotal(lt) && IsReport(g, lt, r)
    ensures v in Members(r) <==> v in g.modules && OnCycle(g, v)
  {
    OnCycleIffShared(g, v);
    if v in Members(r) {
      var c :| c in r && v in c;
      var u := if c[0] == v then c[1] else c[0];
      assert lt(c[0], c[1]);
      assert u in c && u != v && Mutual(g, u, v);
    }
    if v in g.modules && OnCycle(g, v) {
      var u :| u in g.modules && u != v && Mutual(g, u, v);
      assert Mutual(g, v, u);
    }
  }

  /** No module is listed in two components. */
  lemma ComponentsDisjoint<T(!new)>(g: Graph<T>, lt: (T, T) -> bool, r: seq<seq<T>>, i: nat, j: nat, x: T)
    requires StrictTotal(lt) && IsReport(g, lt, r) && i < j < |r| && x in r[i]
    ensures x !in r[j]
  {
    SizeOrderTotal(lt);
    assert SizeOrder(lt)(r[i], r[j]);
    if x in r[j] {
      assert r[i] in r && r[j] in r;
      forall y ensures y in r[i] <==> y in r[j] {
        assert y in r[i] <==> Mutual(g, x, y);
        assert y in r[j] <==> Mutual(g, x, y);
      }
      AscendingUnique(r[i], r[j], lt);
    }
  }

  lemma AscendingDistinct<T(!new)>(c: seq<T>, lt: (T, T) -> bool)
    requires StrictTotal(lt) && Ascending(c, lt)
    ensures NoDuplicates(c)
  {
    NoDuplicatesIff(c);
    forall i, j | 0 <= i < j < |c| ensures c[i] != c[j] { assert lt(c[i], c[j]); }
  }

  /** The "Modules inside a cycle" total is exact: it counts the modules that lie on a
      cycle, and the component lists hold precisely those. */
  lemma CycleTotalExact<T(!new)>(g: Graph<T>, lt: (T, T) -> bool, r: seq<seq<T>>)
    requires WellFormed(g) && NoSelfEdges(g) && StrictTotal(lt) && IsReport(g, lt, r)
    ensures Members(r) == set v | v in g.modules && OnCycle(g, v)
    ensures InCycle(r) == |set v | v in g.modules && OnCycle(g, v)|
  {
    forall v ensures v in Members(r) <==> v in g.modules && OnCycle(g, v) {
      MembersOnCycle(g, lt, r, v);
    }
    forall i, j, x | 0 <= i < j < |r| && x in r[i] ensures x !in r[j] {
      ComponentsDisjoint(g, lt, r, i, j, x);
    }
    forall c | c in r ensures NoDuplicates(c) {
      AscendingDistinct(c, lt);
    }
    MemberCount(r);
  }
}
