/** `strongly_connected` of scripts/dependency_graph.py: Tarjan's algorithm with an explicit
    work stack. */
module Tarjan {
  import opened Ordering
  import opened ImportGraph

  /** A snapshot of the traversal: `open` is the Tarjan stack as a set, `active` the modules
      whose targets are still being scanned and `scanned` the edges examined so far. */
  datatype Dfs<T> = Dfs(index: map<T, nat>, low: map<T, nat>, open: set<T>, active: set<T>, scanned: set<(T, T)>,
                        counter: nat) {
    /** Modules whose component has been popped. */
    ghost function Done(): set<T> { index.Keys - open }
  }

  // ---- the invariant ---------------------------------------------------------------

  ghost predicate Numbered<T(!new)>(g: Graph<T>, s: Dfs<T>) {
    && s.low.Keys == s.index.Keys
    && s.active <= s.open <= s.index.Keys
    && (forall v :: v in s.index ==> v in g.modules && s.index[v] < s.counter)
    && (forall u, v {:trigger Tied(s.index, u, v)} :: Tied(s.index, u, v) ==> u == v)
  }

  ghost predicate Tied<T>(index: map<T, nat>, u: T, v: T) {
    u in index && v in index && index[u] == index[v]
  }

  /** Scanned edges lead to visited modules, and finished modules are fully scanned. */
  ghost predicate Explored<T(!new)>(g: Graph<T>, s: Dfs<T>) {
    && (forall v, t {:trigger (v, t) in s.scanned} ::
          (v, t) in s.scanned ==> v in s.index && t in s.index && Edge(g, v, t))
    && (forall v, t {:trigger Edge(g, v, t)} ::
          v in s.index && v !in s.active && Edge(g, v, t) ==> (v, t) in s.scanned)
  }

  /** An active module reaches everything above it on the stack... */
  ghost predicate Downward<T(!new)>(g: Graph<T>, s: Dfs<T>)
    requires Numbered(g, s)
  {
    forall x, y {:trigger Reach(g, x, y)} ::
      x in s.active && y in s.open && s.index[x] <= s.index[y] ==> Reach(g, x, y)
  }

  /** ...and a finished one reaches something below itself. */
  ghost predicate Upward<T(!new)>(g: Graph<T>, s: Dfs<T>)
    requires Numbered(g, s)
  {
    forall z {:trigger ReachesBelow(g, s, z)} :: z in s.open && z !in s.active ==> ReachesBelow(g, s, z)
  }

  ghost predicate ReachesBelow<T(!new)>(g: Graph<T>, s: Dfs<T>, z: T)
    requires Numbered(g, s) && z in s.open
  {
    exists w :: w in s.open && s.index[w] < s.index[z] && Reach(g, z, w)
  }

  ghost predicate ReachesAt<T(!new)>(g: Graph<T>, s: Dfs<T>, x: T, i: nat)
    requires Numbered(g, s)
  {
    exists w :: w in s.open && s.index[w] == i && Reach(g, x, w)
  }

  /** `low[x]` is the index of a stacked module that `x` reaches... */
  ghost predicate LowSound<T(!new)>(g: Graph<T>, s: Dfs<T>)
    requires Numbered(g, s)
  {
    forall x {:trigger ReachesAt(g, s, x, s.low[x])} ::
      x in s.active ==> s.low[x] <= s.index[x] && ReachesAt(g, s, x, s.low[x])
  }

  ghost predicate Hidden<T>(s: Dfs<T>, x: T, z: T)
    requires s.active <= s.open <= s.index.Keys && x in s.index && z in s.index
  {
    exists y :: y in s.active && s.index[x] < s.index[y] <= s.index[z]
  }

  /** ...and is at most the index of every stacked target scanned from `x` itself... */
  ghost predicate LowDirect<T(!new)>(g: Graph<T>, s: Dfs<T>)
    requires Numbered(g, s)
  {
    forall x, t {:trigger (x, t) in s.scanned} ::
      x in s.active && (x, t) in s.scanned && t in s.open ==> s.low[x] <= s.index[t]
  }

  /** ...and from the finished modules directly above it. */
  ghost predicate LowSpanning<T(!new)>(g: Graph<T>, s: Dfs<T>)
    requires Numbered(g, s)
  {
    forall x, z, t {:trigger Spans(g, s, x, z, t)} ::
      Spans(g, s, x, z, t) ==> s.low[x] <= s.index[t] || Hidden(s, x, z)
  }

  /** `z` is finished, lies above the active `x`, and has an edge to the stacked `t`. */
  ghost predicate Spans<T(!new)>(g: Graph<T>, s: Dfs<T>, x: T, z: T, t: T)
    requires Numbered(g, s)
  {
    && x in s.active && z in s.open && z !in s.active && t in s.open
    && s.index[x] <= s.index[z] && (z, t) in s.scanned
  }

  ghost predicate Inv<T(!new)>(g: Graph<T>, s: Dfs<T>) {
    && Numbered(g, s)
    && Explored(g, s)
    && ClosedUnderEdges(g, s.Done())
    && Downward(g, s)
    && Upward(g, s)
    && LowSound(g, s)
    && LowDirect(g, s)
    && LowSpanning(g, s)
  }

  ghost predicate Topmost<T>(s: Dfs<T>, n: T) {
    && n in s.active && s.active <= s.index.Keys
    && forall y :: y in s.active ==> s.index[y] <= s.index[n]
  }

  // ---- visiting a module -----------------------------------------------------------

  ghost function Visit<T>(s: Dfs<T>, v: T, via: set<(T, T)>): Dfs<T> {
    Dfs(s.index[v := s.counter], s.low[v := s.counter], s.open + {v}, s.active + {v}, s.scanned + via, s.counter + 1)
  }

  /** A module is visited as the root of a new tree, or from the innermost active module. */
  ghost predicate MayVisit<T(!new)>(g: Graph<T>, s: Dfs<T>, v: T, via: set<(T, T)>) {
    && v in g.modules && v !in s.index
    && ((via == {} && s.open == {}) || exists n :: Topmost(s, n) && Edge(g, n, v) && via == {(n, v)})
  }

  lemma VisitKeeps<T(!new)>(g: Graph<T>, s: Dfs<T>, v: T, via: set<(T, T)>)
    requires WellFormed(g) && Inv(g, s) && MayVisit(g, s, v, via)
    ensures Inv(g, Visit(s, v, via))
  {
    var s' := Visit(s, v, via);
    VisitNumbered(g, s, v, via);
    assert s'.Done() == s.Done();
    VisitExplored(g, s, v, via);
    VisitDownward(g, s, v, via);
    VisitUpward(g, s, v, via);
    VisitLowSound(g, s, v, via);
    VisitLowDirect(g, s, v, via);
    VisitLowSpanning(g, s, v, via);
  }

  lemma VisitNumbered<T(!new)>(g: Graph<T>, s: Dfs<T>, v: T, via: set<(T, T)>)
    requires Numbered(g, s) && v in g.modules && v !in s.index
    ensures Numbered(g, Visit(s, v, via))
  {
    var s' := Visit(s, v, via);
    forall a, b | Tied(s'.index, a, b) ensures a == b {
      if a != v && b != v { assert Tied(s.index, a, b); }
    }
  }

  lemma VisitExplored<T(!new)>(g: Graph<T>, s: Dfs<T>, v: T, via: set<(T, T)>)
    requires Numbered(g, s) && Explored(g, s) && MayVisit(g, s, v, via)
    ensures Explored(g, Visit(s, v, via))
  {
  }

  lemma VisitUpward<T(!new)>(g: Graph<T>, s: Dfs<T>, v: T, via: set<(T, T)>)
    requires Numbered(g, s) && Upward(g, s) && v !in s.index && Numbered(g, Visit(s, v, via))
    ensures Upward(g, Visit(s, v, via))
  {
    var s' := Visit(s, v, via);
    forall z | z in s'.open && z !in s'.active ensures ReachesBelow(g, s', z) {
      assert ReachesBelow(g, s, z);
      var w :| w in s.open && s.index[w] < s.index[z] && Reach(g, z, w);
      assert w in s'.open && s'.index[w] < s'.index[z];
    }
  }

  lemma VisitLowSound<T(!new)>(g: Graph<T>, s: Dfs<T>, v: T, via: set<(T, T)>)
    requires Numbered(g, s) && LowSound(g, s) && v !in s.index && Numbered(g, Visit(s, v, via))
    ensures LowSound(g, Visit(s, v, via))
  {
    var s' := Visit(s, v, via);
    forall x | x in s'.active ensures s'.low[x] <= s'.index[x] && ReachesAt(g, s', x, s'.low[x]) {
      if x == v {
        ReachSelf(g, v);
      } else {
        assert ReachesAt(g, s, x, s.low[x]);
        var w :| w in s.open && s.index[w] == s.low[x] && Reach(g, x, w);
        assert w in s'.open && s'.index[w] == s'.low[x];
      }
    }
  }

  lemma VisitDownward<T(!new)>(g: Graph<T>, s: Dfs<T>, v: T, via: set<(T, T)>)
    requires WellFormed(g) && Inv(g, s) && MayVisit(g, s, v, via)
    requires Numbered(g, Visit(s, v, via))
    ensures Downward(g, Visit(s, v, via))
  {
    var s' := Visit(s, v, via);
    forall x, y | x in s'.active && y in s'.open && s'.index[x] <= s'.index[y] ensures Reach(g, x, y) {
      if x == v {
        ReachSelf(g, v);
      } else if y == v {
        var n :| Topmost(s, n) && Edge(g, n, v) && via == {(n, v)};
        assert s.index[x] <= s.index[n];
        ReachEdge(g, n, v);
        ReachTrans(g, x, n, v);
      }
    }
  }

  lemma VisitLowDirect<T(!new)>(g: Graph<T>, s: Dfs<T>, v: T, via: set<(T, T)>)
    requires Numbered(g, s) && Explored(g, s) && LowSound(g, s) && LowDirect(g, s)
    requires MayVisit(g, s, v, via) && Numbered(g, Visit(s, v, via))
    ensures LowDirect(g, Visit(s, v, via))
  {
    var s' := Visit(s, v, via);
    forall x, t | x in s'.active && (x, t) in s'.scanned && t in s'.open ensures s'.low[x] <= s'.index[t] {
      if x != v { assert ReachesAt(g, s, x, s.low[x]); }
    }
  }

  lemma VisitLowSpanning<T(!new)>(g: Graph<T>, s: Dfs<T>, v: T, via: set<(T, T)>)
    requires Numbered(g, s) && LowSpanning(g, s) && v !in s.index && Numbered(g, Visit(s, v, via))
    requires forall x, t :: (x, t) in s.scanned ==> x in s.index && t in s.index
    requires forall x, t :: (x, t) in via ==> x in s.active
    ensures LowSpanning(g, Visit(s, v, via))
  {
    var s' := Visit(s, v, via);
    forall x, z, t | Spans(g, s', x, z, t) ensures s'.low[x] <= s'.index[t] || Hidden(s', x, z) {
      assert (z, t) in s.scanned;
      assert x != v && z != v && t != v;
      assert s'.index[x] == s.index[x] && s'.index[z] == s.index[z];
      assert Spans(g, s, x, z, t);
      HiddenStays(s, s', x, z);
    }
  }

  lemma HiddenStays<T(!new)>(s: Dfs<T>, s': Dfs<T>, x: T, z: T)
    requires s.active <= s.open <= s.index.Keys && x in s.index && z in s.index && s.active <= s'.active
    requires s'.active <= s'.open <= s'.index.Keys
    requires forall v :: v in s.index ==> v in s'.index && s'.index[v] == s.index[v]
    ensures Hidden(s, x, z) ==> Hidden(s', x, z)
  {
    if Hidden(s, x, z) {
      var y :| y in s.active && s.index[x] < s.index[y] <= s.index[z];
      assert y in s'.active && s'.index[x] < s'.index[y] <= s'.index[z];
    }
  }

  // ---- scanning a target that has already been visited --------------------------------

  function Min(a: nat, b: nat): nat { if a < b then a else b }

  ghost function Scan<T>(s: Dfs<T>, n: T, t: T): Dfs<T>
    requires n in s.low && t in s.index
  {
    s.(scanned := s.scanned + {(n, t)},
       low := if t in s.open then s.low[n := Min(s.low[n], s.index[t])] else s.low)
  }

  lemma ScanKeeps<T(!new)>(g: Graph<T>, s: Dfs<T>, n: T, t: T)
    requires Inv(g, s) && n in s.active && Edge(g, n, t) && t in s.index
    ensures Inv(g, Scan(s, n, t))
  {
    var s' := Scan(s, n, t);
    assert Numbered(g, s');
    assert s'.Done() == s.Done();
    forall z | z in s'.open && z !in s'.active ensures ReachesBelow(g, s', z) {
      assert ReachesBelow(g, s, z);
    }
    ScanLowSound(g, s, n, t);
    ScanLowSpanning(g, s, n, t);
  }

  lemma ScanLowSound<T(!new)>(g: Graph<T>, s: Dfs<T>, n: T, t: T)
    requires Numbered(g, s) && LowSound(g, s) && n in s.active && Edge(g, n, t) && t in s.index
    requires Numbered(g, Scan(s, n, t))
    ensures LowSound(g, Scan(s, n, t))
  {
    var s' := Scan(s, n, t);
    ReachEdge(g, n, t);
    forall x | x in s'.active ensures s'.low[x] <= s'.index[x] && ReachesAt(g, s', x, s'.low[x]) {
      assert ReachesAt(g, s, x, s.low[x]);
    }
  }

  lemma ScanLowSpanning<T(!new)>(g: Graph<T>, s: Dfs<T>, n: T, t: T)
    requires Numbered(g, s) && LowSpanning(g, s) && n in s.active && t in s.index
    requires Numbered(g, Scan(s, n, t))
    ensures LowSpanning(g, Scan(s, n, t))
  {
    var s' := Scan(s, n, t);
    forall x, z, u | Spans(g, s', x, z, u) ensures s'.low[x] <= s'.index[u] || Hidden(s', x, z) {
      assert (z, u) != (n, t);
      assert Spans(g, s, x, z, u);
      assert s'.low[x] <= s.low[x];
      HiddenStays(s, s', x, z);
    }
  }

  // ---- leaving a module ---------------------------------------------------------------

  ghost predicate FullyScanned<T(!new)>(g: Graph<T>, s: Dfs<T>, n: T) {
    forall t :: Edge(g, n, t) ==> (n, t) in s.scanned
  }

  /** The innermost module `n` is finished; `parent` is the next one, if any. */
  ghost predicate MayLeave<T(!new)>(g: Graph<T>, s: Dfs<T>, n: T, parent: set<T>) {
    && Topmost(s, n) && FullyScanned(g, s, n)
    && (if s.active == {n} then parent == {}
        else exists p :: parent == {p} && p != n && Topmost(s.(active := s.active - {n}), p))
  }

  ghost function Lowered<T>(s: Dfs<T>, n: T, parent: set<T>): map<T, nat>
    requires n in s.low
  {
    map v | v in s.low :: if v in parent then Min(s.low[v], s.low[n]) else s.low[v]
  }

  /** `low[n] < index[n]`: the module stays on the stack. */
  ghost function Retreat<T>(s: Dfs<T>, n: T, parent: set<T>): Dfs<T>
    requires n in s.low
  {
    s.(active := s.active - {n}, low := Lowered(s, n, parent))
  }

  lemma RetreatKeeps<T(!new)>(g: Graph<T>, s: Dfs<T>, n: T, parent: set<T>)
    requires Inv(g, s) && MayLeave(g, s, n, parent) && s.low[n] < s.index[n]
    ensures Inv(g, Retreat(s, n, parent))
  {
    var s' := Retreat(s, n, parent);
    assert Numbered(g, s');
    assert s'.Done() == s.Done();
    RetreatUpward(g, s, n, parent);
    RetreatLowSound(g, s, n, parent);
    RetreatLowSpanning(g, s, n, parent);
  }

  lemma RetreatUpward<T(!new)>(g: Graph<T>, s: Dfs<T>, n: T, parent: set<T>)
    requires Numbered(g, s) && Upward(g, s) && LowSound(g, s) && n in s.active && s.low[n] < s.index[n]
    requires Numbered(g, Retreat(s, n, parent))
    ensures Upward(g, Retreat(s, n, parent))
  {
    var s' := Retreat(s, n, parent);
    forall z | z in s'.open && z !in s'.active ensures ReachesBelow(g, s', z) {
      if z == n {
        assert ReachesAt(g, s, n, s.low[n]);
      } else {
        assert ReachesBelow(g, s, z);
      }
    }
  }

  lemma RetreatLowSound<T(!new)>(g: Graph<T>, s: Dfs<T>, n: T, parent: set<T>)
    requires Numbered(g, s) && Downward(g, s) && LowSound(g, s) && MayLeave(g, s, n, parent)
    requires Numbered(g, Retreat(s, n, parent))
    ensures LowSound(g, Retreat(s, n, parent))
  {
    var s' := Retreat(s, n, parent);
    assert ReachesAt(g, s, n, s.low[n]);
    forall x | x in s'.active ensures s'.low[x] <= s'.index[x] && ReachesAt(g, s', x, s'.low[x]) {
      assert ReachesAt(g, s, x, s.low[x]);
      if s'.low[x] != s.low[x] {
        var w :| w in s.open && s.index[w] == s.low[n] && Reach(g, n, w);
        assert Reach(g, x, n);
        ReachTrans(g, x, n, w);
        assert w in s'.open;
      }
    }
  }

  lemma RetreatLowSpanning<T(!new)>(g: Graph<T>, s: Dfs<T>, n: T, parent: set<T>)
    requires Numbered(g, s) && LowDirect(g, s) && LowSpanning(g, s) && MayLeave(g, s, n, parent)
    requires Numbered(g, Retreat(s, n, parent))
    ensures LowSpanning(g, Retreat(s, n, parent))
  {
    var s' := Retreat(s, n, parent);
    forall x, z, t | Spans(g, s', x, z, t) ensures s'.low[x] <= s'.index[t] || Hidden(s', x, z) {
      if s.index[n] <= s.index[z] {
        RetreatSpanAbove(g, s, n, parent, x, z, t);
      } else {
        assert Spans(g, s, x, z, t);
        if Hidden(s, x, z) {
          var y :| y in s.active && s.index[x] < s.index[y] <= s.index[z];
          assert y in s'.active && s'.index[x] < s'.index[y] <= s'.index[z];
        }
      }
    }
  }

  /** What lay above the module just left is now accounted for by its parent. */
  lemma RetreatSpanAbove<T(!new)>(g: Graph<T>, s: Dfs<T>, n: T, parent: set<T>, x: T, z: T, t: T)
    requires Numbered(g, s) && LowDirect(g, s) && LowSpanning(g, s) && MayLeave(g, s, n, parent)
    requires Numbered(g, Retreat(s, n, parent)) && Spans(g, Retreat(s, n, parent), x, z, t)
    requires s.index[n] <= s.index[z]
    ensures var s' := Retreat(s, n, parent); s'.low[x] <= s'.index[t] || Hidden(s', x, z)
  {
    var s' := Retreat(s, n, parent);
    assert s.low[n] <= s.index[t] by {
      if z != n {
        assert Spans(g, s, n, z, t);
        assert !Hidden(s, n, z);
      }
    }
    var p :| parent == {p} && p != n && Topmost(s.(active := s.active - {n}), p);
    if x != p {
      assert !Tied(s.index, x, p);
      assert p in s'.active && s'.index[x] < s'.index[p] <= s'.index[z];
    }
  }

  /** `low[n] == index[n]`: everything from `n` upwards is popped. */
  ghost function Above<T>(s: Dfs<T>, n: T): set<T>
    requires s.open <= s.index.Keys && n in s.index
  {
    set z | z in s.open && s.index[n] <= s.index[z]
  }

  ghost function Close<T>(s: Dfs<T>, n: T): Dfs<T>
    requires s.open <= s.index.Keys && n in s.index
  {
    s.(active := s.active - {n}, open := s.open - Above(s, n))
  }

  lemma OnlyTopmostActiveAbove<T(!new)>(g: Graph<T>, s: Dfs<T>, n: T, z: T)
    requires Numbered(g, s) && Topmost(s, n) && z in Above(s, n) && z != n
    ensures z !in s.active && s.index[n] < s.index[z]
  {
    assert !Tied(s.index, z, n);
  }

  /** The popped modules together with the earlier components are closed under edges. */
  lemma AboveClosed<T(!new)>(g: Graph<T>, s: Dfs<T>, n: T)
    requires Inv(g, s) && Topmost(s, n) && FullyScanned(g, s, n) && s.low[n] == s.index[n]
    ensures ClosedUnderEdges(g, s.Done() + Above(s, n))
  {
    forall u, v | u in s.Done() + Above(s, n) && Edge(g, u, v) ensures v in s.Done() + Above(s, n) {
      if u in Above(s, n) {
        if u != n { OnlyTopmostActiveAbove(g, s, n, u); }
        assert (u, v) in s.scanned;
        if v in s.open {
          assert s.low[n] <= s.index[v] by {
            if u != n { assert Spans(g, s, n, u, v); }
          }
        }
      }
    }
  }

  /** Every popped module climbs back down to `n`. */
  lemma {:induction false} AboveReturns<T(!new)>(g: Graph<T>, s: Dfs<T>, n: T, z: T)
    requires Inv(g, s) && Topmost(s, n) && FullyScanned(g, s, n) && s.low[n] == s.index[n]
    requires z in Above(s, n)
    ensures Reach(g, z, n)
    decreases s.index[z]
  {
    if z == n {
      ReachSelf(g, n);
    } else {
      OnlyTopmostActiveAbove(g, s, n, z);
      assert ReachesBelow(g, s, z);
      var w :| w in s.open && s.index[w] < s.index[z] && Reach(g, z, w);
      AboveClosed(g, s, n);
      ReachStaysInside(g, s.Done() + Above(s, n), z, w);
      AboveReturns(g, s, n, w);
      ReachTrans(g, z, w, n);
    }
  }

  /** The popped modules are exactly those mutually reachable with any one of them. */
  lemma AboveIsComponent<T(!new)>(g: Graph<T>, s: Dfs<T>, n: T, u: T, v: T)
    requires Inv(g, s) && Topmost(s, n) && FullyScanned(g, s, n) && s.low[n] == s.index[n]
    requires u in Above(s, n)
    ensures v in Above(s, n) <==> Mutual(g, u, v)
  {
    AboveReturns(g, s, n, u);
    assert Reach(g, n, u);
    if v in Above(s, n) {
      AboveReturns(g, s, n, v);
      ReachTrans(g, u, n, v);
      ReachTrans(g, v, n, u);
    }
    if Mutual(g, u, v) {
      AboveClosed(g, s, n);
      ReachStaysInside(g, s.Done() + Above(s, n), u, v);
      if v in s.Done() {
        ReachStaysInside(g, s.Done(), v, u);
      }
    }
  }

  lemma CloseKeeps<T(!new)>(g: Graph<T>, s: Dfs<T>, n: T)
    requires Inv(g, s) && Topmost(s, n) && FullyScanned(g, s, n) && s.low[n] == s.index[n]
    ensures Inv(g, Close(s, n))
    ensures Close(s, n).Done() == s.Done() + Above(s, n)
  {
    var s' := Close(s, n);
    AboveClosed(g, s, n);
    assert s'.Done() == s.Done() + Above(s, n);
    forall z | z in Above(s, n) && z != n ensures z !in s.active {
      OnlyTopmostActiveAbove(g, s, n, z);
    }
    assert Numbered(g, s');
    forall z | z in s'.open && z !in s'.active ensures ReachesBelow(g, s', z) {
      assert ReachesBelow(g, s, z);
      var w :| w in s.open && s.index[w] < s.index[z] && Reach(g, z, w);
      assert w in s'.open;
    }
    forall x | x in s'.active ensures s'.low[x] <= s'.index[x] && ReachesAt(g, s', x, s'.low[x]) {
      assert ReachesAt(g, s, x, s.low[x]);
      var w :| w in s.open && s.index[w] == s.low[x] && Reach(g, x, w);
      assert w in s'.open;
    }
    forall x, z, t | Spans(g, s', x, z, t) ensures s'.low[x] <= s'.index[t] || Hidden(s', x, z) {
      assert Spans(g, s, x, z, t);
      if Hidden(s, x, z) {
        var y :| y in s.active && s.index[x] < s.index[y] <= s.index[z];
        assert y in s'.active;
      }
    }
  }

  /** Between roots the Tarjan stack is empty. */
  lemma {:induction false} NothingLeftOpen<T(!new)>(g: Graph<T>, s: Dfs<T>, z: T)
    requires Inv(g, s) && s.active == {} && z in s.open
    ensures false
    decreases s.index[z]
  {
    assert ReachesBelow(g, s, z);
    var w :| w in s.open && s.index[w] < s.index[z] && Reach(g, z, w);
    NothingLeftOpen(g, s, w);
  }

  // ---- the work stack ------------------------------------------------------------------

  /** One work item: a module and the offset of its next target.  Offset 0 marks a module
      that has not been visited yet. */
  datatype Frame<T> = Frame(node: T, next: nat)

  ghost predicate HasFrame<T>(fr: seq<Frame<T>>, v: T) {
    exists i :: 0 <= i < |fr| && fr[i].node == v
  }

  ghost predicate FrameOk<T(!new)>(g: Graph<T>, lt: (T, T) -> bool, s: Dfs<T>, f: Frame<T>) {
    && f.next <= |Targets(g, lt, f.node)|
    && forall t {:trigger (f.node, t) in s.scanned} {:trigger t in Targets(g, lt, f.node)[..f.next]} ::
         (f.node, t) in s.scanned <==> t in Targets(g, lt, f.node)[..f.next]
  }

  /** The frames are the active modules, innermost last, each scanned up to its offset. */
  ghost predicate Framed<T(!new)>(g: Graph<T>, lt: (T, T) -> bool, s: Dfs<T>, fr: seq<Frame<T>>) {
    && (forall v :: v in s.active <==> HasFrame(fr, v))
    && (forall i :: 0 <= i < |fr| ==> fr[i].node in s.index && FrameOk(g, lt, s, fr[i]))
    && (forall i, j :: 0 <= i < j < |fr| ==> s.index[fr[i].node] < s.index[fr[j].node])
  }

  /** `stack` lists `open` in visiting order. */
  ghost predicate Stacked<T(!new)>(s: Dfs<T>, stack: seq<T>) {
    && (forall v :: v in s.open <==> v in stack)
    && (forall v :: v in stack ==> v in s.index)
    && (forall i, j :: 0 <= i < j < |stack| ==> s.index[stack[i]] < s.index[stack[j]])
  }

  lemma HasFrameAppend<T(!new)>(fr: seq<Frame<T>>, f: Frame<T>)
    ensures forall v :: HasFrame(fr + [f], v) <==> HasFrame(fr, v) || v == f.node
  {
    var b := fr + [f];
    forall v ensures HasFrame(b, v) <==> HasFrame(fr, v) || v == f.node {
      if HasFrame(fr, v) {
        var i :| 0 <= i < |fr| && fr[i].node == v;
        assert b[i].node == v;
      }
      assert b[|fr|].node == f.node;
    }
  }

  lemma FramedTop<T(!new)>(g: Graph<T>, lt: (T, T) -> bool, s: Dfs<T>, fr: seq<Frame<T>>, n: T, k: nat)
    requires Numbered(g, s) && Framed(g, lt, s, fr + [Frame(n, k)])
    ensures Topmost(s, n) && FrameOk(g, lt, s, Frame(n, k))
    ensures forall v :: v in s.active - {n} <==> HasFrame(fr, v)
    ensures forall i :: 0 <= i < |fr| ==> fr[i].node != n
  {
    HasFrameAppend(fr, Frame(n, k));
    var b := fr + [Frame(n, k)];
    assert b[|fr|] == Frame(n, k);
    forall i | 0 <= i < |fr| ensures fr[i].node != n && fr[i].node in s.index && s.index[fr[i].node] < s.index[n] {
      assert b[i] == fr[i];
    }
    assert forall v :: HasFrame(fr, v) ==> v != n;
    forall y | y in s.active ensures s.index[y] <= s.index[n] {
      assert HasFrame(b, y);
    }
  }

  lemma FramedVisit<T(!new)>(g: Graph<T>, lt: (T, T) -> bool, s: Dfs<T>, fr: seq<Frame<T>>, v: T)
    requires Numbered(g, s) && Framed(g, lt, s, fr) && v !in s.index
    requires forall x, t :: (x, t) in s.scanned ==> x in s.index
    ensures Framed(g, lt, Visit(s, v, {}), fr + [Frame(v, 0)])
  {
    var s', b := Visit(s, v, {}), fr + [Frame(v, 0)];
    HasFrameAppend(fr, Frame(v, 0));
    forall i | 0 <= i < |b| ensures b[i].node in s'.index && FrameOk(g, lt, s', b[i]) {
      if i < |fr| { assert b[i] == fr[i] && FrameOk(g, lt, s, fr[i]); }
    }
  }

  lemma FramedScan<T(!new)>(g: Graph<T>, lt: (T, T) -> bool, s: Dfs<T>, fr: seq<Frame<T>>, n: T, k: nat, t: T, s': Dfs<T>)
    requires WellFormed(g) && StrictTotal(lt) && Numbered(g, s) && Framed(g, lt, s, fr + [Frame(n, k)])
    requires k < |Targets(g, lt, n)| && Targets(g, lt, n)[k] == t
    requires s'.index == s.index && s'.active == s.active && s'.scanned == s.scanned + {(n, t)}
    ensures (n, t) !in s.scanned && Edge(g, n, t)
    ensures Framed(g, lt, s', fr + [Frame(n, k + 1)])
  {
    FramedTop(g, lt, s, fr, n, k);
    FrameAdvances(g, lt, s, n, k, t, s');
    var a, b := fr + [Frame(n, k)], fr + [Frame(n, k + 1)];
    HasFrameAppend(fr, Frame(n, k));
    HasFrameAppend(fr, Frame(n, k + 1));
    forall i | 0 <= i < |fr| ensures FrameOk(g, lt, s', fr[i]) {
      assert a[i] == fr[i];
      FrameElsewhere(g, lt, s, fr[i], n, t, s');
    }
    SameNodes(s.index, a, b);
  }

  lemma FrameElsewhere<T(!new)>(g: Graph<T>, lt: (T, T) -> bool, s: Dfs<T>, f: Frame<T>, n: T, t: T, s': Dfs<T>)
    requires FrameOk(g, lt, s, f) && f.node != n && s'.scanned == s.scanned + {(n, t)}
    ensures FrameOk(g, lt, s', f)
  {
    assert forall u :: (f.node, u) in s'.scanned <==> (f.node, u) in s.scanned;
  }

  lemma SameNodes<T>(index: map<T, nat>, a: seq<Frame<T>>, b: seq<Frame<T>>)
    requires |a| == |b| && forall i :: 0 <= i < |a| ==> a[i].node == b[i].node && a[i].node in index
    requires forall i, j :: 0 <= i < j < |a| ==> index[a[i].node] < index[a[j].node]
    ensures forall i, j :: 0 <= i < j < |b| ==> index[b[i].node] < index[b[j].node]
  {}

  lemma FrameAdvances<T(!new)>(g: Graph<T>, lt: (T, T) -> bool, s: Dfs<T>, n: T, k: nat, t: T, s': Dfs<T>)
    requires WellFormed(g) && StrictTotal(lt) && FrameOk(g, lt, s, Frame(n, k))
    requires k < |Targets(g, lt, n)| && Targets(g, lt, n)[k] == t && s'.scanned == s.scanned + {(n, t)}
    ensures (n, t) !in s.scanned && Edge(g, n, t) && FrameOk(g, lt, s', Frame(n, k + 1))
  {
    TargetsAreEdges(g, lt, n);
    NextTarget(Targets(g, lt, n), k);
  }

  lemma NextTarget<T>(ts: seq<T>, k: nat)
    requires k < |ts| && NoDuplicates(ts)
    ensures ts[k] in ts && ts[k] !in ts[..k] && ts[..k + 1] == ts[..k] + [ts[k]]
  {
    NoDuplicatesIff(ts);
  }

  ghost function Parent<T>(fr: seq<Frame<T>>): set<T> {
    if fr == [] then {} else {fr[|fr| - 1].node}
  }

  lemma FullyScannedTop<T(!new)>(g: Graph<T>, lt: (T, T) -> bool, s: Dfs<T>, n: T, k: nat)
    requires WellFormed(g) && StrictTotal(lt) && FrameOk(g, lt, s, Frame(n, k)) && k == |Targets(g, lt, n)|
    ensures FullyScanned(g, s, n)
  {
    TargetsAreEdges(g, lt, n);
    var ts := Targets(g, lt, n);
    assert ts[..k] == ts;
    forall t | Edge(g, n, t) ensures (n, t) in s.scanned { assert t in ts; }
  }

  lemma FramedDrop<T(!new)>(g: Graph<T>, lt: (T, T) -> bool, s: Dfs<T>, fr: seq<Frame<T>>, n: T, k: nat, s': Dfs<T>)
    requires Numbered(g, s) && Framed(g, lt, s, fr + [Frame(n, k)])
    requires s'.index == s.index && s'.scanned == s.scanned && s'.active == s.active - {n}
    ensures Framed(g, lt, s', fr)
  {
    FramedTop(g, lt, s, fr, n, k);
    var b := fr + [Frame(n, k)];
    forall i | 0 <= i < |fr| ensures fr[i].node in s'.index && FrameOk(g, lt, s', fr[i]) {
      assert b[i] == fr[i] && FrameOk(g, lt, s, b[i]);
    }
    assert forall i :: 0 <= i < |fr| ==> b[i] == fr[i];
  }

  lemma FramedLeave<T(!new)>(g: Graph<T>, lt: (T, T) -> bool, s: Dfs<T>, fr: seq<Frame<T>>, n: T, k: nat)
    requires WellFormed(g) && StrictTotal(lt) && Numbered(g, s) && Framed(g, lt, s, fr + [Frame(n, k)])
    requires k == |Targets(g, lt, n)|
    ensures MayLeave(g, s, n, Parent(fr))
  {
    FramedTop(g, lt, s, fr, n, k);
    FullyScannedTop(g, lt, s, n, k);
    var s1 := s.(active := s.active - {n});
    if fr == [] {
      assert s.active == {n};
    } else {
      FramedDrop(g, lt, s, fr, n, k, s1);
      FramedTopmost(g, lt, s1, fr);
      assert Parent(fr) == {fr[|fr| - 1].node};
    }
  }

  lemma FramedTopmost<T(!new)>(g: Graph<T>, lt: (T, T) -> bool, s: Dfs<T>, fr: seq<Frame<T>>)
    requires s.active <= s.index.Keys && Framed(g, lt, s, fr) && fr != []
    ensures Topmost(s, fr[|fr| - 1].node)
  {
    assert HasFrame(fr, fr[|fr| - 1].node);
    forall y | y in s.active ensures s.index[y] <= s.index[fr[|fr| - 1].node] {
      assert HasFrame(fr, y);
    }
  }

  // ---- the components found so far --------------------------------------------------------

  ghost predicate Reported<T(!new)>(g: Graph<T>, lt: (T, T) -> bool, done: set<T>, components: seq<seq<T>>) {
    && NoDuplicates(components)
    && (forall c :: c in components ==> |c| > 1 && Ascending(c, lt) && IsComponent(g, c))
    && (forall c, v :: c in components && v in c ==> v in done)
    && (forall u, v :: u in done && v in g.modules && u != v && Mutual(g, u, v) ==> exists c :: c in components && u in c)
  }

  /** What may have been visited for good when these components have been found. */
  ghost function Reports<T(!new)>(g: Graph<T>, lt: (T, T) -> bool, components: seq<seq<T>>): iset<set<T>> {
    iset done | Reported(g, lt, done, components)
  }

  lemma PoppedIsComponent<T(!new)>(g: Graph<T>, s: Dfs<T>, n: T, c: seq<T>)
    requires Inv(g, s) && Topmost(s, n) && FullyScanned(g, s, n) && s.low[n] == s.index[n]
    requires forall v :: v in c <==> v in Above(s, n)
    ensures IsComponent(g, c)
  {
    assert n in c;
    forall u, v | u in c ensures v in c <==> Mutual(g, u, v) {
      AboveIsComponent(g, s, n, u, v);
    }
  }

  lemma ReportedGrows<T(!new)>(g: Graph<T>, lt: (T, T) -> bool, done: set<T>, above: set<T>, components: seq<seq<T>>, c: seq<T>)
    requires Reported(g, lt, done, components) && done !! above
    requires c != [] && (forall v :: v in c <==> v in above) && Ascending(c, lt) && IsComponent(g, c)
    ensures Reported(g, lt, done + above, if |c| > 1 then components + [c] else components)
  {
    var r := if |c| > 1 then components + [c] else components;
    assert c[0] in c;
    forall d | d in components ensures d != c {
      assert forall v :: v in d ==> v in done;
    }
    NoDuplicatesAppend(components, c);
    forall u, v | u in done + above && v in g.modules && u != v && Mutual(g, u, v) ensures exists d :: d in r && u in d {
      if u in done {
        var d :| d in components && u in d;
        assert d in r;
      } else {
        assert u in c && v in c;
        var i :| 0 <= i < |c| && c[i] == u;
        var j :| 0 <= j < |c| && c[j] == v;
        assert i != j;
        assert c in r;
      }
    }
  }

  lemma ReportedClose<T(!new)>(g: Graph<T>, lt: (T, T) -> bool, s: Dfs<T>, n: T, components: seq<seq<T>>, popped: seq<T>)
    requires StrictTotal(lt) && Inv(g, s) && Topmost(s, n) && FullyScanned(g, s, n) && s.low[n] == s.index[n]
    requires Reported(g, lt, s.Done(), components)
    requires NoDuplicates(popped) && forall v :: v in popped <==> v in Above(s, n)
    ensures Reported(g, lt, s.Done() + Above(s, n),
                     if |popped| > 1 then components + [Sort(popped, lt)] else components)
  {
    SortAscending(popped, lt);
    assert n in popped;
    PoppedIsComponent(g, s, n, Sort(popped, lt));
    ReportedGrows(g, lt, s.Done(), Above(s, n), components, Sort(popped, lt));
  }

  // ---- the algorithm ---------------------------------------------------------------------

  /** The local variables of the traversal. */
  datatype Vars<T> = Vars(index: map<T, nat>, low: map<T, nat>, onStack: set<T>, stack: seq<T>, counter: nat)

  /** The first visit of a module. */
  function Enter<T>(r: Vars<T>, v: T): Vars<T> {
    Vars(r.index[v := r.counter], r.low[v := r.counter], r.onStack + {v}, r.stack + [v], r.counter + 1)
  }

  ghost predicate Matches<T(!new)>(s: Dfs<T>, r: Vars<T>) {
    && s.index == r.index && s.low == r.low && s.open == r.onStack && s.counter == r.counter
    && Stacked(s, r.stack)
  }

  /** The frames `fr` have all been visited. */
  ghost predicate Running<T(!new)>(g: Graph<T>, lt: (T, T) -> bool, s: Dfs<T>, fr: seq<Frame<T>>, r: Vars<T>) {
    && Inv(g, s) && Framed(g, lt, s, fr) && Matches(s, r)
    && forall i :: 0 <= i < |fr| - 1 ==> fr[i].next > 0
  }

  /** The states in which the variables are `r` and the frames `fr` are all visited. */
  ghost function Runs<T(!new)>(g: Graph<T>, lt: (T, T) -> bool, fr: seq<Frame<T>>, r: Vars<T>): iset<Dfs<T>> {
    iset s | Running(g, lt, s, fr, r)
  }

  /** Between two pops: the top work item may still be waiting for its first visit, and `s`
      is the state once that visit has been carried out. */
  ghost predicate Between<T(!new)>(g: Graph<T>, lt: (T, T) -> bool, s: Dfs<T>, work: seq<Frame<T>>, r: Vars<T>) {
    if work != [] && work[|work| - 1].next == 0 then
      var t := work[|work| - 1].node;
      t !in r.index && Running(g, lt, s, work, Enter(r, t))
    else
      Running(g, lt, s, work, r)
  }

  /** The examined edges, in order, without repetition. */
  ghost predicate Traced<T(!new)>(s: Dfs<T>, examined: seq<(T, T)>) {
    NoDuplicates(examined) && Elements(examined) == s.scanned
  }

  ghost function Waits<T(!new)>(g: Graph<T>, lt: (T, T) -> bool, work: seq<Frame<T>>, r: Vars<T>): iset<Dfs<T>> {
    iset s | Between(g, lt, s, work, r)
  }

  lemma StartRoot<T(!new)>(g: Graph<T>, lt: (T, T) -> bool, s: Dfs<T>, r: Vars<T>, v: T)
    requires WellFormed(g) && s in Runs(g, lt, [], r) && r.stack == [] && v in g.modules && v !in r.index
    ensures Visit(s, v, {}) in Waits(g, lt, [Frame(v, 0)], r)
    ensures Visit(s, v, {}).Done() == s.Done()
  {
    RootInv(g, s, v);
    FramedVisit(g, lt, s, [], v);
    assert [] + [Frame(v, 0)] == [Frame(v, 0)];
    DescendStacked(s, r.stack, v, {});
    DescendWaits(g, lt, Visit(s, v, {}), [Frame(v, 0)], v, r);
  }

  lemma RootInv<T(!new)>(g: Graph<T>, s: Dfs<T>, v: T)
    requires WellFormed(g) && Inv(g, s) && s.open == {} && v in g.modules && v !in s.index
    ensures Inv(g, Visit(s, v, {})) && Visit(s, v, {}).Done() == s.Done()
  {
    VisitKeeps(g, s, v, {});
  }

  lemma DescendFramed<T(!new)>(g: Graph<T>, lt: (T, T) -> bool, s: Dfs<T>, fr: seq<Frame<T>>, n: T, k: nat, v: T)
    requires WellFormed(g) && StrictTotal(lt) && Numbered(g, s) && Explored(g, s) && Framed(g, lt, s, fr + [Frame(n, k)])
    requires k < |Targets(g, lt, n)| && Targets(g, lt, n)[k] == v && v !in s.index
    ensures (n, v) !in s.scanned && Edge(g, n, v) && Topmost(s, n)
    ensures Framed(g, lt, Visit(s, v, {(n, v)}), fr + [Frame(n, k + 1), Frame(v, 0)])
  {
    var s1 := s.(scanned := s.scanned + {(n, v)});
    FramedTop(g, lt, s, fr, n, k);
    FramedScan(g, lt, s, fr, n, k, v, s1);
    FramedVisit(g, lt, s1, fr + [Frame(n, k + 1)], v);
    assert fr + [Frame(n, k + 1), Frame(v, 0)] == fr + [Frame(n, k + 1)] + [Frame(v, 0)];
    assert Visit(s, v, {(n, v)}) == Visit(s1, v, {});
  }

  lemma Descend<T(!new)>(g: Graph<T>, lt: (T, T) -> bool, s: Dfs<T>, fr: seq<Frame<T>>, n: T, k: nat, v: T, r: Vars<T>)
    requires WellFormed(g) && StrictTotal(lt) && s in Runs(g, lt, fr + [Frame(n, k)], r)
    requires k < |Targets(g, lt, n)| && Targets(g, lt, n)[k] == v && v !in r.index
    ensures (n, v) !in s.scanned && v in g.modules
    ensures Visit(s, v, {(n, v)}) in Waits(g, lt, fr + [Frame(n, k + 1), Frame(v, 0)], r)
    ensures Visit(s, v, {(n, v)}).Done() == s.Done()
  {
    DescendFramed(g, lt, s, fr, n, k, v);
    DescendInv(g, s, n, v);
    DescendStacked(s, r.stack, v, {(n, v)});
    DescendOffsets(fr, n, k, v);
    DescendWaits(g, lt, Visit(s, v, {(n, v)}), fr + [Frame(n, k + 1), Frame(v, 0)], v, r);
  }

  lemma DescendWaits<T(!new)>(g: Graph<T>, lt: (T, T) -> bool, t: Dfs<T>, work: seq<Frame<T>>, v: T, r: Vars<T>)
    requires Inv(g, t) && Framed(g, lt, t, work) && v !in r.index && Matches(t, Enter(r, v))
    requires work != [] && work[|work| - 1] == Frame(v, 0) && forall i :: 0 <= i < |work| - 1 ==> work[i].next > 0
    ensures t in Waits(g, lt, work, r)
  {}

  lemma DescendInv<T(!new)>(g: Graph<T>, s: Dfs<T>, n: T, v: T)
    requires WellFormed(g) && Inv(g, s) && Topmost(s, n) && Edge(g, n, v) && v !in s.index
    ensures Inv(g, Visit(s, v, {(n, v)})) && v in g.modules
    ensures Visit(s, v, {(n, v)}).Done() == s.Done()
  {
    VisitKeeps(g, s, v, {(n, v)});
  }

  lemma DescendOffsets<T>(fr: seq<Frame<T>>, n: T, k: nat, v: T)
    requires forall i :: 0 <= i < |fr + [Frame(n, k)]| - 1 ==> (fr + [Frame(n, k)])[i].next > 0
    ensures var b := fr + [Frame(n, k + 1), Frame(v, 0)]; forall i :: 0 <= i < |b| - 1 ==> b[i].next > 0
  {
    var a, b := fr + [Frame(n, k)], fr + [Frame(n, k + 1), Frame(v, 0)];
    assert forall i :: 0 <= i < |fr| ==> b[i] == a[i];
  }

  lemma DescendStacked<T(!new)>(s: Dfs<T>, stack: seq<T>, v: T, via: set<(T, T)>)
    requires Stacked(s, stack) && v !in s.index && forall u :: u in s.index ==> s.index[u] < s.counter
    ensures Stacked(Visit(s, v, via), stack + [v])
  {
  }

  lemma TracedStep<T(!new)>(s: Dfs<T>, s': Dfs<T>, examined: seq<(T, T)>, e: (T, T))
    requires Traced(s, examined) && e !in s.scanned && s'.scanned == s.scanned + {e}
    ensures Traced(s', examined + [e])
  {
    NoDuplicatesAppend(examined, e);
    assert Elements(examined + [e]) == Elements(examined) + {e};
  }

  lemma ScanStep<T(!new)>(g: Graph<T>, lt: (T, T) -> bool, s: Dfs<T>, fr: seq<Frame<T>>, n: T, k: nat, t: T, r: Vars<T>,
                          low: map<T, nat>, examined: seq<(T, T)>)
    requires WellFormed(g) && StrictTotal(lt) && s in Runs(g, lt, fr + [Frame(n, k)], r)
    requires k < |Targets(g, lt, n)| && Targets(g, lt, n)[k] == t && t in r.index
    requires n in r.low && low == (if t in r.onStack then r.low[n := Min(r.low[n], r.index[t])] else r.low)
    requires Traced(s, examined)
    ensures Scan(s, n, t) in Runs(g, lt, fr + [Frame(n, k + 1)], r.(low := low))
    ensures Traced(Scan(s, n, t), examined + [(n, t)])
  {
    FramedTop(g, lt, s, fr, n, k);
    var s' := Scan(s, n, t);
    FramedScan(g, lt, s, fr, n, k, t, s');
    ScanKeeps(g, s, n, t);
    var a, b := fr + [Frame(n, k)], fr + [Frame(n, k + 1)];
    assert forall i :: 0 <= i < |fr| ==> b[i] == a[i];
    assert Stacked(s', r.stack) && low == s'.low;
    TracedStep(s, s', examined, (n, t));
  }

  lemma TopIsNumbered<T(!new)>(g: Graph<T>, lt: (T, T) -> bool, s: Dfs<T>, fr: seq<Frame<T>>, n: T, k: nat, r: Vars<T>)
    requires s in Runs(g, lt, fr + [Frame(n, k)], r)
    ensures n in r.low && n in r.index && n in r.stack && n in s.low
    ensures fr != [] ==> fr[|fr| - 1].node in r.low
  {
    FramedTop(g, lt, s, fr, n, k);
    if fr != [] { assert HasFrame(fr, fr[|fr| - 1].node); }
  }

  /** Its body for a target that has been visited. */
  method ScanOne<T(==, !new)>(g: Graph<T>, lt: (T, T) -> bool, r: Vars<T>, ghost rest: seq<Frame<T>>, node: T,
                              ghost offset: nat, target: T, ghost s: Dfs<T>, ghost examined: seq<(T, T)>)
    returns (low: map<T, nat>, ghost s': Dfs<T>, ghost examined': seq<(T, T)>)
    requires WellFormed(g) && StrictTotal(lt) && s in Runs(g, lt, rest + [Frame(node, offset)], r)
    requires offset < |Targets(g, lt, node)| && Targets(g, lt, node)[offset] == target && target in r.index
    requires Traced(s, examined)
    ensures s' in Runs(g, lt, rest + [Frame(node, offset + 1)], r.(low := low))
    ensures Traced(s', examined') && s'.index == s.index && s'.open == s.open
  {
    TopIsNumbered(g, lt, s, rest, node, offset, r);
    low := r.low;
    if target in r.onStack {
      low := low[node := Min(low[node], r.index[target])];
    }
    ScanStep(g, lt, s, rest, node, offset, target, r, low, examined);
    s', examined' := Scan(s, node, target), examined + [(node, target)];
  }

  /** The `for offset in range(position, len(targets))` loop, up to its `break`: it stops at
      the first unvisited target. */
  method ScanTargets<T(==, !new)>(g: Graph<T>, lt: (T, T) -> bool, r: Vars<T>, ghost rest: seq<Frame<T>>, node: T,
                                  position: nat, ghost s: Dfs<T>, ghost examined: seq<(T, T)>)
    returns (offset: nat, low: map<T, nat>, ghost s': Dfs<T>, ghost examined': seq<(T, T)>)
    requires WellFormed(g) && StrictTotal(lt) && s in Runs(g, lt, rest + [Frame(node, position)], r)
    requires position <= |Targets(g, lt, node)| && Traced(s, examined)
    ensures s' in Runs(g, lt, rest + [Frame(node, offset)], r.(low := low))
    ensures Traced(s', examined') && s'.index == s.index && s'.open == s.open
    ensures offset <= |Targets(g, lt, node)|
    ensures offset < |Targets(g, lt, node)| ==> Targets(g, lt, node)[offset] !in r.index
  {
    var targets := Targets(g, lt, node);
    low, s', examined' := r.low, s, examined;
    offset := position;
    while offset < |targets|
      invariant offset <= |targets|
      invariant s' in Runs(g, lt, rest + [Frame(node, offset)], r.(low := low))
      invariant Traced(s', examined') && s'.index == s.index && s'.open == s.open
    {
      var target := targets[offset];
      if target !in r.index {
        return;
      }
      low, s', examined' := ScanOne(g, lt, r.(low := low), rest, node, offset, target, s', examined');
      offset := offset + 1;
    }
  }

  /** The `while True` loop that pops one component off the stack. */
  method PopComponent<T(==, !new)>(stack: seq<T>, onStack: set<T>, node: T)
    returns (stack': seq<T>, onStack': set<T>, component: seq<T>)
    requires node in stack && NoDuplicates(stack) && forall v :: v in onStack <==> v in stack
    ensures |stack'| < |stack| && stack' == stack[..|stack'|] && stack[|stack'|] == node
    ensures forall v :: v in onStack' <==> v in stack'
    ensures NoDuplicates(component) && forall v :: v in component <==> v in stack && v !in stack'
  {
    stack', onStack', component := stack, onStack, [];
    while true
      invariant |stack'| <= |stack| && stack' == stack[..|stack'|] && node in stack'
      invariant forall v :: v in onStack' <==> v in stack'
      invariant NoDuplicates(component) && forall v :: v in component <==> v in stack && v !in stack'
      decreases |stack'|
    {
      var member := stack'[|stack'| - 1];
      NoDuplicatesIff(stack);
      NoDuplicatesAppend(component, member);
      assert member in stack';
      assert member !in stack'[..|stack'| - 1];
      assert forall v :: v in stack' <==> v == member || v in stack'[..|stack'| - 1];
      stack', onStack' := stack'[..|stack'| - 1], onStack' - {member};
      component := component + [member];
      if member == node { return; }
    }
  }

  lemma StackedPrefix<T(!new)>(s: Dfs<T>, stack: seq<T>, stack': seq<T>, n: T)
    requires s.open <= s.index.Keys && n in s.index && Stacked(s, stack)
    requires |stack'| < |stack| && stack' == stack[..|stack'|] && stack[|stack'|] == n
    ensures forall v :: v in Above(s, n) <==> v in stack && v !in stack'
    ensures Stacked(Close(s, n), stack')
  {
    forall v | v in stack ensures v in stack' <==> s.index[v] < s.index[n] {
      var i :| 0 <= i < |stack| && stack[i] == v;
      if i < |stack'| { assert stack'[i] == v; }
      if v in stack' {
        var j :| 0 <= j < |stack'| && stack'[j] == v;
        assert stack[j] == v;
      }
    }
    assert forall v :: v in stack' ==> v in stack;
  }

  lemma LeaveClosed<T(!new)>(g: Graph<T>, lt: (T, T) -> bool, s: Dfs<T>, fr: seq<Frame<T>>, n: T, r: Vars<T>, r': Vars<T>)
    requires WellFormed(g) && StrictTotal(lt) && s in Runs(g, lt, fr + [Frame(n, |Targets(g, lt, n)|)], r)
    requires n in r.low && r.low[n] == r.index[n]
    requires r'.index == r.index && r'.low == r.low && r'.counter == r.counter
    requires |r'.stack| < |r.stack| && r'.stack == r.stack[..|r'.stack|] && r.stack[|r'.stack|] == n
    requires forall v :: v in r'.onStack <==> v in r'.stack
    ensures s.open <= s.index.Keys && n in s.index
    ensures Close(s, n) in Runs(g, lt, fr, r')
  {
    var k := |Targets(g, lt, n)|;
    FramedTop(g, lt, s, fr, n, k);
    FullyScannedTop(g, lt, s, n, k);
    StackedPrefix(s, r.stack, r'.stack, n);
    CloseKeeps(g, s, n);
    FramedDrop(g, lt, s, fr, n, k, Close(s, n));
    DropOffsets(fr, Frame(n, k));
    assert r'.onStack == Close(s, n).open;
  }

  lemma DropOffsets<T>(fr: seq<Frame<T>>, f: Frame<T>)
    requires forall i :: 0 <= i < |fr + [f]| - 1 ==> (fr + [f])[i].next > 0
    ensures forall i :: 0 <= i < |fr| ==> fr[i].next > 0
  {
    assert forall i :: 0 <= i < |fr| ==> fr[i] == (fr + [f])[i];
  }

  lemma LeaveReported<T(!new)>(g: Graph<T>, lt: (T, T) -> bool, s: Dfs<T>, fr: seq<Frame<T>>, n: T, r: Vars<T>,
                               stack': seq<T>, component: seq<T>, components: seq<seq<T>>)
    requires WellFormed(g) && StrictTotal(lt) && s in Runs(g, lt, fr + [Frame(n, |Targets(g, lt, n)|)], r)
    requires n in r.low && r.low[n] == r.index[n] && Reported(g, lt, s.Done(), components)
    requires |stack'| < |r.stack| && stack' == r.stack[..|stack'|] && r.stack[|stack'|] == n
    requires NoDuplicates(component) && forall v :: v in component <==> v in r.stack && v !in stack'
    ensures s.open <= s.index.Keys && n in s.index
    ensures Reported(g, lt, Close(s, n).Done(),
                     if |component| > 1 then components + [Sort(component, lt)] else components)
  {
    var k := |Targets(g, lt, n)|;
    FramedTop(g, lt, s, fr, n, k);
    FullyScannedTop(g, lt, s, n, k);
    StackedPrefix(s, r.stack, stack', n);
    CloseKeeps(g, s, n);
    ReportedClose(g, lt, s, n, components, component);
  }

  /** In the popping case the update of the parent's low value changes nothing. */
  lemma ParentUnaffected<T(!new)>(g: Graph<T>, lt: (T, T) -> bool, s: Dfs<T>, fr: seq<Frame<T>>, n: T, k: nat, r: Vars<T>)
    requires s in Runs(g, lt, fr + [Frame(n, k)], r) && fr != []
    requires n in r.low && r.low[n] == r.index[n]
    ensures var p := fr[|fr| - 1].node; p in r.low && r.low[p := Min(r.low[p], r.low[n])] == r.low
  {
    FramedTop(g, lt, s, fr, n, k);
    var p := fr[|fr| - 1].node;
    assert HasFrame(fr, p);
    assert ReachesAt(g, s, p, s.low[p]);
  }

  lemma LeaveRetreated<T(!new)>(g: Graph<T>, lt: (T, T) -> bool, s: Dfs<T>, fr: seq<Frame<T>>, n: T, r: Vars<T>,
                                low: map<T, nat>)
    requires WellFormed(g) && StrictTotal(lt) && s in Runs(g, lt, fr + [Frame(n, |Targets(g, lt, n)|)], r)
    requires n in r.low && r.low[n] != r.index[n] && (fr != [] ==> fr[|fr| - 1].node in r.low)
    requires low == if fr == [] then r.low else
                      var p := fr[|fr| - 1].node; r.low[p := Min(r.low[p], r.low[n])]
    ensures n in s.low && Retreat(s, n, Parent(fr)) in Runs(g, lt, fr, r.(low := low))
    ensures Retreat(s, n, Parent(fr)).Done() == s.Done()
  {
    var k := |Targets(g, lt, n)|;
    FramedTop(g, lt, s, fr, n, k);
    FramedLeave(g, lt, s, fr, n, k);
    assert ReachesAt(g, s, n, s.low[n]);
    RetreatKeeps(g, s, n, Parent(fr));
    FramedDrop(g, lt, s, fr, n, k, Retreat(s, n, Parent(fr)));
    DropOffsets(fr, Frame(n, k));
    LoweredIsUpdate(s, n, fr);
    RetreatMatches(s, n, Parent(fr), r, low);
  }

  lemma RetreatMatches<T(!new)>(s: Dfs<T>, n: T, parent: set<T>, r: Vars<T>, low: map<T, nat>)
    requires Matches(s, r) && n in s.low && low == Lowered(s, n, parent)
    ensures Matches(Retreat(s, n, parent), r.(low := low)) && Retreat(s, n, parent).Done() == s.Done()
  {}

  lemma LoweredIsUpdate<T(!new)>(s: Dfs<T>, n: T, fr: seq<Frame<T>>)
    requires n in s.low && (fr != [] ==> fr[|fr| - 1].node in s.low)
    ensures Lowered(s, n, Parent(fr)) ==
            if fr == [] then s.low else var p := fr[|fr| - 1].node; s.low[p := Min(s.low[p], s.low[n])]
  {
  }

  /** The end of the loop body: the component on top of the stack is popped if `node` is
      its root, and the parent's low value is updated. */
  method Leave<T(==, !new)>(g: Graph<T>, lt: (T, T) -> bool, r: Vars<T>, work: seq<Frame<T>>, node: T, ghost s: Dfs<T>,
                            components: seq<seq<T>>)
    returns (r': Vars<T>, components': seq<seq<T>>, ghost s': Dfs<T>)
    requires WellFormed(g) && StrictTotal(lt)
    requires s in Runs(g, lt, work + [Frame(node, |Targets(g, lt, node)|)], r)
    requires s.Done() in Reports(g, lt, components)
    ensures s' in Runs(g, lt, work, r') && s'.index == s.index && s'.scanned == s.scanned
    ensures s'.Done() in Reports(g, lt, components')
  {
    TopIsNumbered(g, lt, s, work, node, |Targets(g, lt, node)|, r);
    r', components' := r, components;
    if r.low[node] == r.index[node] {
      StackIsDistinct(s, r);
      var stack, onStack, component := PopComponent(r.stack, r.onStack, node);
      r' := r.(stack := stack, onStack := onStack);
      if |component| > 1 {
        components' := components + [Sort(component, lt)];
      }
      LeaveClosed(g, lt, s, work, node, r, r');
      LeaveReported(g, lt, s, work, node, r, stack, component, components);
      s' := Close(s, node);
      if work != [] {
        ParentUnaffected(g, lt, s, work, node, |Targets(g, lt, node)|, r);
      }
    } else {
      s' := Retreat(s, node, Parent(work));
    }
    if work != [] {
      var parent := work[|work| - 1].node;
      r' := r'.(low := r'.low[parent := Min(r'.low[parent], r'.low[node])]);
    }
    if r.low[node] != r.index[node] {
      LeaveRetreated(g, lt, s, work, node, r, r'.low);
    }
  }

  lemma StackIsDistinct<T(!new)>(s: Dfs<T>, r: Vars<T>)
    requires Matches(s, r)
    ensures NoDuplicates(r.stack) && forall v :: v in r.onStack <==> v in r.stack
  {
    NoDuplicatesIff(r.stack);
  }

  lemma Resume<T(!new)>(g: Graph<T>, lt: (T, T) -> bool, s: Dfs<T>, work: seq<Frame<T>>, r: Vars<T>)
    requires WellFormed(g) && work != [] && s in Waits(g, lt, work, r)
    ensures var f := work[|work| - 1];
      && f.next <= |Targets(g, lt, f.node)|
      && s in Runs(g, lt, work[..|work| - 1] + [Frame(f.node, f.next)], if f.next == 0 then Enter(r, f.node) else r)
  {
    var f := work[|work| - 1];
    assert work == work[..|work| - 1] + [Frame(f.node, f.next)];
    assert FrameOk(g, lt, s, work[|work| - 1]);
  }

  lemma RootsLeaveNothing<T(!new)>(g: Graph<T>, lt: (T, T) -> bool, s: Dfs<T>, r: Vars<T>)
    requires s in Runs(g, lt, [], r)
    ensures r.stack == [] && r.onStack == {} && s.active == {} && s.Done() == s.index.Keys
  {
    assert forall v: T :: !HasFrame([], v);
    assert s.active == {};
    if z :| z in s.open { NothingLeftOpen(g, s, z); }
    Inhabited(r.stack);
  }

  /** When every module has been visited the component list is the report... */
  lemma FinishedReport<T(!new)>(g: Graph<T>, lt: (T, T) -> bool, done: set<T>, components: seq<seq<T>>)
    requires StrictTotal(lt) && Reported(g, lt, done, components) && done == Elements(g.modules)
    ensures IsReport(g, lt, Sort(components, SizeOrder(lt)))
  {
    SizeOrderTotal(lt);
    SortAscending(components, SizeOrder(lt));
  }

  /** ...and every edge has been examined. */
  lemma Finished<T(!new)>(g: Graph<T>, lt: (T, T) -> bool, s: Dfs<T>, r: Vars<T>, components: seq<seq<T>>,
                          examined: seq<(T, T)>)
    requires WellFormed(g) && StrictTotal(lt) && s in Runs(g, lt, [], r)
    requires Reported(g, lt, s.Done(), components) && Traced(s, examined)
    requires Elements(Sort(g.modules, lt)) <= s.index.Keys
    ensures IsReport(g, lt, Sort(components, SizeOrder(lt)))
    ensures |s.index| == |g.modules|
    ensures forall u, v :: (u, v) in examined <==> Edge(g, u, v)
  {
    RootsLeaveNothing(g, lt, s, r);
    SameElements(Sort(g.modules, lt), g.modules);
    assert Elements(Sort(g.modules, lt)) == Elements(g.modules);
    assert s.index.Keys == Elements(g.modules);
    FinishedReport(g, lt, s.Done(), components);
    EdgesExamined(g, s, examined);
  }

  lemma EdgesExamined<T(!new)>(g: Graph<T>, s: Dfs<T>, examined: seq<(T, T)>)
    requires WellFormed(g) && Explored(g, s) && s.active == {} && Traced(s, examined)
    requires s.index.Keys == Elements(g.modules)
    ensures forall u, v :: (u, v) in examined <==> Edge(g, u, v)
  {
    forall u, v ensures (u, v) in examined <==> Edge(g, u, v) {
      assert (u, v) in examined <==> (u, v) in Elements(examined);
      if Edge(g, u, v) { assert u in Elements(g.modules); }
    }
  }

  lemma VisitGrows<T(!new)>(g: Graph<T>, s: Dfs<T>, v: T, n: T)
    requires v in g.modules && v !in s.index
    ensures var s' := Visit(s, v, {(n, v)});
      s.index.Keys < s'.index.Keys && |s'.index| == |s.index| + 1 && s'.scanned == s.scanned + {(n, v)}
      && Elements(g.modules) - s'.index.Keys < Elements(g.modules) - s.index.Keys
  {
    assert Visit(s, v, {(n, v)}).index.Keys == s.index.Keys + {v};
    FewerLeft(Elements(g.modules), s.index.Keys, v);
  }

  lemma FewerLeft<T>(all: set<T>, seen: set<T>, v: T)
    requires v in all && v !in seen
    ensures all - (seen + {v}) < all - seen && seen < seen + {v}
  {
    assert v in all - seen;
  }

  /** One pass of the `while work` loop. */
  method Step<T(==, !new)>(g: Graph<T>, lt: (T, T) -> bool, r: Vars<T>, work: seq<Frame<T>>, components: seq<seq<T>>,
                           ghost s: Dfs<T>, ghost examined: seq<(T, T)>)
    returns (r': Vars<T>, work': seq<Frame<T>>, components': seq<seq<T>>, ghost s': Dfs<T>, ghost examined': seq<(T, T)>)
    requires WellFormed(g) && StrictTotal(lt) && work != [] && s in Waits(g, lt, work, r)
    requires s.Done() in Reports(g, lt, components) && Traced(s, examined)
    ensures s' in Waits(g, lt, work', r')
    ensures s'.Done() in Reports(g, lt, components') && Traced(s', examined')
    ensures if |work'| < |work| then s'.index == s.index && |work'| == |work| - 1
            else |work'| == |work| + 1 && s.index.Keys < s'.index.Keys && |s'.index| == |s.index| + 1
                 && Elements(g.modules) - s'.index.Keys < Elements(g.modules) - s.index.Keys
  {
    var Frame(node, position) := work[|work| - 1];
    Resume(g, lt, s, work, r);
    var rest := work[..|work| - 1];
    r' := if position == 0 then Enter(r, node) else r;
    var offset, low;
    offset, low, s', examined' := ScanTargets(g, lt, r', rest, node, position, s, examined);
    r' := r'.(low := low);
    assert s'.Done() == s.Done();
    var targets := Targets(g, lt, node);
    if offset < |targets| {
      var target := targets[offset];
      Descend(g, lt, s', rest, node, offset, target, r');
      VisitGrows(g, s', target, node);
      TracedStep(s', Visit(s', target, {(node, target)}), examined', (node, target));
      s', examined' := Visit(s', target, {(node, target)}), examined' + [(node, target)];
      work', components' := rest + [Frame(node, offset + 1), Frame(target, 0)], components;
    } else {
      assert offset == |targets|;
      r', components', s' := Leave(g, lt, r', rest, node, s', components);
      work' := rest;
    }
  }

  /** The `while work` loop: every work item, and every module visited on the way, is popped, the latter twice. */
  method Drain<T(==, !new)>(g: Graph<T>, lt: (T, T) -> bool, r: Vars<T>, work: seq<Frame<T>>, components: seq<seq<T>>,
                            ghost s: Dfs<T>, ghost examined: seq<(T, T)>)
    returns (r': Vars<T>, components': seq<seq<T>>, ghost s': Dfs<T>, ghost examined': seq<(T, T)>, ghost pops: nat)
    requires WellFormed(g) && StrictTotal(lt) && s in Waits(g, lt, work, r)
    requires s.Done() in Reports(g, lt, components) && Traced(s, examined)
    ensures s' in Waits(g, lt, [], r')
    ensures s'.Done() in Reports(g, lt, components') && Traced(s', examined')
    ensures s.index.Keys <= s'.index.Keys && pops == |work| + 2 * (|s'.index| - |s.index|)
  {
    var todo := work;
    r', components', s', examined', pops := r, components, s, examined, 0;
    while todo != []
      invariant s' in Waits(g, lt, todo, r') && s.index.Keys <= s'.index.Keys
      invariant s'.Done() in Reports(g, lt, components') && Traced(s', examined')
      invariant pops + |todo| == |work| + 2 * (|s'.index| - |s.index|)
      decreases Elements(g.modules) - s'.index.Keys, |todo|
    {
      r', todo, components', s', examined' := Step(g, lt, r', todo, components', s', examined');
      pops := pops + 1;
    }
  }

  lemma FirstVisit<T(!new)>(s: Dfs<T>, v: T)
    requires v !in s.index
    ensures var first := Visit(s, v, {}).index; first.Keys == s.index.Keys + {v} && |first| == |s.index| + 1
  {}

  /** One root: a tree of k modules takes 2k - 1 pops. */
  method ExploreFrom<T(==, !new)>(g: Graph<T>, lt: (T, T) -> bool, r: Vars<T>, start: T, components: seq<seq<T>>,
                                  ghost s: Dfs<T>, ghost examined: seq<(T, T)>)
    returns (r': Vars<T>, components': seq<seq<T>>, ghost s': Dfs<T>, ghost examined': seq<(T, T)>, ghost pops: nat)
    requires WellFormed(g) && StrictTotal(lt) && s in Runs(g, lt, [], r) && r.stack == []
    requires start in g.modules && start !in r.index
    requires s.Done() in Reports(g, lt, components) && Traced(s, examined)
    ensures s' in Runs(g, lt, [], r') && r'.index == s'.index
    ensures s'.Done() in Reports(g, lt, components') && Traced(s', examined')
    ensures r.index.Keys + {start} <= r'.index.Keys
    ensures pops + 1 == 2 * (|s'.index| - |s.index|)
  {
    StartRoot(g, lt, s, r, start);
    ghost var first := Visit(s, start, {});
    FirstVisit(s, start);
    r', components', s', examined', pops := Drain(g, lt, r, [Frame(start, 0)], components, first, examined);
    WaitsDone(g, lt, s', r');
  }

  lemma WaitsDone<T(!new)>(g: Graph<T>, lt: (T, T) -> bool, s: Dfs<T>, r: Vars<T>)
    requires s in Waits(g, lt, [], r)
    ensures s in Runs(g, lt, [], r) && r.index == s.index
  {}

  /** The loop over the start modules. A root's tree takes one pop less than two per module. */
  method ExploreAll<T(==, !new)>(g: Graph<T>, lt: (T, T) -> bool, starts: seq<T>)
    returns (r: Vars<T>, components: seq<seq<T>>, ghost s: Dfs<T>,
             ghost pops: nat, ghost roots: nat, ghost examined: seq<(T, T)>)
    requires WellFormed(g) && StrictTotal(lt) && forall v :: v in starts ==> v in g.modules
    ensures s in Runs(g, lt, [], r) && Elements(starts) <= s.index.Keys
    ensures s.Done() in Reports(g, lt, components) && Traced(s, examined)
    ensures pops + roots == 2 * |s.index|
  {
    r := Vars(map[], map[], {}, [], 0);
    components, pops, roots, examined := [], 0, 0, [];
    s := Dfs(map[], map[], {}, {}, {}, 0);
    InitialState(g, lt, s, r);
    for i := 0 to |starts|
      invariant s in Runs(g, lt, [], r) && r.index == s.index
      invariant Elements(starts[..i]) <= r.index.Keys
      invariant s.Done() in Reports(g, lt, components) && Traced(s, examined)
      invariant pops + roots == 2 * |s.index|
    {
      var start := starts[i];
      ElementsPrefix(starts, i);
      if start in r.index { continue; }
      RootsLeaveNothing(g, lt, s, r);
      ghost var more;
      r, components, s, examined, more := ExploreFrom(g, lt, r, start, components, s, examined);
      pops, roots := pops + more, roots + 1;
    }
    assert starts[..|starts|] == starts;
  }

  /** The traversal together with its cost: every module is visited once, every edge is
      examined once, and each module costs two pops except that a root costs one. */
  method StronglyConnected<T(==, !new)>(g: Graph<T>, lt: (T, T) -> bool)
    returns (components: seq<seq<T>>, ghost pops: nat, ghost roots: nat, ghost examined: seq<(T, T)>)
    requires WellFormed(g) && StrictTotal(lt)
    ensures IsReport(g, lt, components)
    ensures pops + roots == 2 * |g.modules|
    ensures NoDuplicates(examined)
    ensures forall u, v :: (u, v) in examined <==> Edge(g, u, v)
  {
    var starts := Sort(g.modules, lt);
    SameElements(starts, g.modules);
    var r: Vars<T>;
    ghost var s: Dfs<T>;
    r, components, s, pops, roots, examined := ExploreAll(g, lt, starts);
    Finished(g, lt, s, r, components, examined);
    components := Sort(components, SizeOrder(lt));
  }

  lemma ElementsPrefix<T>(s: seq<T>, i: nat)
    requires i < |s|
    ensures s[i] in s && Elements(s[..i + 1]) == Elements(s[..i]) + {s[i]}
  {
    assert s[..i + 1] == s[..i] + [s[i]];
  }

  lemma InitialState<T(!new)>(g: Graph<T>, lt: (T, T) -> bool, s: Dfs<T>, r: Vars<T>)
    requires s == Dfs(map[], map[], {}, {}, {}, 0) && r == Vars(map[], map[], {}, [], 0)
    ensures s in Runs(g, lt, [], r) && Reported(g, lt, s.Done(), []) && Traced(s, [])
  {
    assert s.Done() == {};
    assert forall v: T :: !HasFrame([], v);
    assert Numbered(g, s);
    assert Elements<seq<T>>([]) == {};
    assert Elements<(T, T)>([]) == {};
  }

  /** The cycle totals that `render` prints, for module names in Python's order. */
  method CycleTotals(g: Graph<Name>) returns (cycles: nat, inCycle: nat)
    requires WellFormed(g) && NoSelfEdges(g)
    ensures inCycle == |set v | v in g.modules && OnCycle(g, v)|
    ensures exists r :: IsReport(g, NameLess, r) && cycles == |r|
  {
    NamesTotallyOrdered();
    var components, _, _, _ := StronglyConnected(g, NameLess);
    CycleTotalExact(g, NameLess, components);
    cycles := |components|;
    inCycle := 0;
    for i := 0 to |components|
      invariant inCycle + InCycle(components[i..]) == InCycle(components)
    {
      inCycle := inCycle + |components[i]|;
    }
  }
}
