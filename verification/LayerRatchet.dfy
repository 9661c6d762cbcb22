/** The directory-pair analysis and the layer check of scripts/import_layer_ratchet.py.

    First part: deleting the "minority" edges is a cheapest way to end all mutual dependence between
    directories. Second part: when the layer check reports nothing, import cycles cannot cross layers. */
module LayerRatchet {
  import opened Ordering
  import opened Wrappers
  import Graphs = ImportGraph

  /** A resolved module-scope import statement. */
  datatype Import = Import(sourceDir: string, targetDir: string, source: Name, target: Name, line: nat)

  // ---- mutual directory pairs ---------------------------------------------------------------

  type Pair = (string, string)

  function Direction(e: Import): Pair { (e.sourceDir, e.targetDir) }

  function Reverse(d: Pair): Pair { (d.1, d.0) }

  predicate PairLess(p: Pair, q: Pair) {
    StringLess(p.0, q.0) || (p.0 == q.0 && StringLess(p.1, q.1))
  }

  lemma PairsTotallyOrdered()
    ensures StrictTotal(StringLess) && StrictTotal(PairLess)
  {
    NamesTotallyOrdered();
  }

  /** The statements, by position, that point in one direction. */
  function At(edges: seq<Import>, d: Pair): set<nat> {
    set i: nat | i < |edges| && Direction(edges[i]) == d
  }

  /** Both directions carry an edge; the pair is listed in order. */
  predicate IsMutual(edges: seq<Import>, p: Pair) {
    StringLess(p.0, p.1) && At(edges, p) != {} && At(edges, Reverse(p)) != {}
  }

  /** When the statements at `deleted` are gone, no two directories import each other any more. */
  ghost predicate IsCut(edges: seq<Import>, deleted: set<nat>) {
    forall p: Pair :: p.0 != p.1 ==> At(edges, p) <= deleted || At(edges, Reverse(p)) <= deleted
  }

  function Size(edges: seq<Import>, directions: seq<Pair>): nat {
    if directions == [] then 0 else |At(edges, directions[0])| + Size(edges, directions[1..])
  }

  /** Distinct directions are disjoint, so a set that covers them is at least as large as their sum. */
  lemma {:induction false} CoverSize(edges: seq<Import>, directions: seq<Pair>, cover: set<nat>)
    requires NoDuplicates(directions) && forall d :: d in directions ==> At(edges, d) <= cover
    ensures Size(edges, directions) <= |cover|
    ensures (forall i :: i in cover ==> i < |edges| && Direction(edges[i]) in directions) ==>
      Size(edges, directions) == |cover|
  {
    NoDuplicatesIff(directions);
    if directions == [] {
      assert (forall i :: i in cover ==> i < |edges| && Direction(edges[i]) in directions) ==> cover == {};
    } else {
      var d, rest := directions[0], directions[1..];
      NoDuplicatesIff(rest);
      assert directions == [d] + rest;
      assert cover == At(edges, d) + (cover - At(edges, d));
      forall x | x in rest ensures At(edges, x) <= cover - At(edges, d) { assert x in directions; }
      CoverSize(edges, rest, cover - At(edges, d));
    }
  }

  /** `mutual_pairs`. */
  method MutualPairs(edges: seq<Import>) returns (pairs: seq<Pair>)
    ensures Ascending(pairs, PairLess) && NoDuplicates(pairs)
    ensures forall p :: p in pairs <==> IsMutual(edges, p)
  {
    PairsTotallyOrdered();
    var directed: set<Pair> := {};
    for i := 0 to |edges|
      invariant forall d :: d in directed <==> exists k :: 0 <= k < i && Direction(edges[k]) == d
    {
      directed := directed + {Direction(edges[i])};
    }
    assert forall d :: d in directed <==> At(edges, d) != {} by {
      forall k | 0 <= k < |edges| ensures At(edges, Direction(edges[k])) != {} {
        assert k in At(edges, Direction(edges[k]));
      }
    }
    var todo := directed;
    var found: seq<Pair> := [];
    while todo != {}
      invariant todo <= directed && NoDuplicates(found)
      invariant forall p :: p in found <==> p in directed - todo && StringLess(p.0, p.1) && Reverse(p) in directed
    {
      var d :| d in todo;
      todo := todo - {d};
      if StringLess(d.0, d.1) && Reverse(d) in directed {
        NoDuplicatesAppend(found, d);
        found := found + [d];
      }
    }
    pairs := Sort(found, PairLess);
    SortAscending(found, PairLess);
    assert Elements(pairs) == Elements(found);
  }

  /** The weaker direction of a pair; on a tie, the one back to the directory listed first. */
  function Loser(edges: seq<Import>, p: Pair): Pair {
    if |At(edges, p)| >= |At(edges, Reverse(p))| then Reverse(p) else p
  }

  predicate OrderedPairs(pairs: seq<Pair>) {
    forall p :: p in pairs ==> StringLess(p.0, p.1)
  }

  /** `directions` takes one direction of each pair. */
  predicate OneOfEach(pairs: seq<Pair>, directions: seq<Pair>) {
    |directions| == |pairs| &&
    forall i :: 0 <= i < |pairs| ==> directions[i] == pairs[i] || directions[i] == Reverse(pairs[i])
  }

  lemma OneOfEachDistinct(pairs: seq<Pair>, directions: seq<Pair>)
    requires NoDuplicates(pairs) && OrderedPairs(pairs) && OneOfEach(pairs, directions)
    ensures NoDuplicates(directions)
  {
    PairsTotallyOrdered();
    NoDuplicatesIff(pairs);
    forall i, j | 0 <= i < j < |directions| ensures directions[i] != directions[j] {
      assert pairs[i] in pairs && pairs[j] in pairs;
      assert !(StringLess(pairs[i].0, pairs[i].1) && StringLess(pairs[i].1, pairs[i].0));
    }
    NoDuplicatesIff(directions);
  }

  lemma {:induction false} SizeMonotone(edges: seq<Import>, ds: seq<Pair>, es: seq<Pair>)
    requires |ds| == |es| && forall i :: 0 <= i < |ds| ==> |At(edges, ds[i])| <= |At(edges, es[i])|
    ensures Size(edges, ds) <= Size(edges, es)
  {
    if ds != [] { SizeMonotone(edges, ds[1..], es[1..]); }
  }

  /** Whatever its direction, the statement points the weaker way across a mutual pair. */
  predicate InMinority(edges: seq<Import>, e: Import) {
    var d := Direction(e);
    || (IsMutual(edges, d) && Loser(edges, d) == d)
    || (IsMutual(edges, Reverse(d)) && Loser(edges, Reverse(d)) == d)
  }

  function Minority(edges: seq<Import>): set<nat> {
    set i: nat | i < |edges| && InMinority(edges, edges[i])
  }

  lemma MinorityIsCut(edges: seq<Import>)
    ensures IsCut(edges, Minority(edges))
  {
    PairsTotallyOrdered();
    forall q: Pair | q.0 != q.1
      ensures At(edges, q) <= Minority(edges) || At(edges, Reverse(q)) <= Minority(edges)
    {
      var p := if StringLess(q.0, q.1) then q else Reverse(q);
      assert Reverse(Reverse(q)) == q;
      if IsMutual(edges, p) {
        assert At(edges, Loser(edges, p)) <= Minority(edges);
      }
    }
  }

  lemma MinoritySize(edges: seq<Import>, pairs: seq<Pair>, losers: seq<Pair>)
    requires NoDuplicates(pairs) && forall p :: p in pairs <==> IsMutual(edges, p)
    requires |losers| == |pairs| && forall i :: 0 <= i < |pairs| ==> losers[i] == Loser(edges, pairs[i])
    ensures |Minority(edges)| == Size(edges, losers)
  {
    OneOfEachDistinct(pairs, losers);
    MinorityListed(edges, pairs, losers);
    CoverSize(edges, losers, Minority(edges));
  }

  function Gone(edges: seq<Import>, p: Pair, deleted: set<nat>): Pair {
    if At(edges, p) <= deleted then p else Reverse(p)
  }

  /** A cut deletes one direction of every mutual pair completely. */
  lemma CutSize(edges: seq<Import>, pairs: seq<Pair>, gone: seq<Pair>, deleted: set<nat>)
    requires NoDuplicates(pairs) && OrderedPairs(pairs) && IsCut(edges, deleted)
    requires |gone| == |pairs| && forall i :: 0 <= i < |pairs| ==> gone[i] == Gone(edges, pairs[i], deleted)
    ensures Size(edges, gone) <= |deleted|
  {
    OneOfEachDistinct(pairs, gone);
    forall d | d in gone ensures At(edges, d) <= deleted {
      var k :| 0 <= k < |gone| && gone[k] == d;
      NotItself(pairs, k);
      assert At(edges, pairs[k]) <= deleted || At(edges, Reverse(pairs[k])) <= deleted;
    }
    CoverSize(edges, gone, deleted);
  }

  lemma NotItself(pairs: seq<Pair>, k: nat)
    requires OrderedPairs(pairs) && k < |pairs|
    ensures pairs[k].0 != pairs[k].1
  {
    PairsTotallyOrdered();
    assert pairs[k] in pairs;
  }

  /** Deleting the minority edges ends all mutual dependence, and nothing smaller does. */
  lemma MinorityIsMinimumCut(edges: seq<Import>, pairs: seq<Pair>, deleted: set<nat>)
    requires NoDuplicates(pairs) && forall p :: p in pairs <==> IsMutual(edges, p)
    ensures IsCut(edges, Minority(edges))
    ensures IsCut(edges, deleted) ==> |Minority(edges)| <= |deleted|
  {
    MinorityIsCut(edges);
    if IsCut(edges, deleted) {
      var losers := seq(|pairs|, i requires 0 <= i < |pairs| => Loser(edges, pairs[i]));
      var gone := seq(|pairs|, i requires 0 <= i < |pairs| => Gone(edges, pairs[i], deleted));
      MinoritySize(edges, pairs, losers);
      CutSize(edges, pairs, gone, deleted);
      SizeMonotone(edges, losers, gone);
    }
  }

  /** `out` are the statements at the distinct positions `picked`. */
  ghost predicate Picks(edges: seq<Import>, out: seq<Import>, picked: seq<nat>) {
    NoDuplicates(picked) && |picked| == |out| &&
    forall k :: 0 <= k < |out| ==> picked[k] < |edges| && out[k] == edges[picked[k]]
  }

  lemma PicksConcat(edges: seq<Import>, out: seq<Import>, picked: seq<nat>, out': seq<Import>, picked': seq<nat>)
    requires Picks(edges, out, picked) && Picks(edges, out', picked') && Elements(picked) !! Elements(picked')
    ensures Picks(edges, out + out', picked + picked')
    ensures Elements(picked + picked') == Elements(picked) + Elements(picked')
  {
    var all: seq<nat> := picked + picked';
    assert Elements(all) == Elements(picked) + Elements(picked');
    forall k | 0 <= k < |all| ensures all[k] < |edges| && (out + out')[k] == edges[all[k]] {
      if k < |picked| { assert all[k] == picked[k]; } else { assert all[k] == picked'[k - |picked|]; }
    }
  }

  method Pointing(edges: seq<Import>, d: Pair) returns (out: seq<Import>, ghost picked: seq<nat>)
    ensures Picks(edges, out, picked) && Elements(picked) == At(edges, d)
  {
    out, picked := [], [];
    for i := 0 to |edges|
      invariant Picks(edges, out, picked)
      invariant forall k: nat :: k in picked <==> k < i && Direction(edges[k]) == d
    {
      if Direction(edges[i]) == d {
        NoDuplicatesAppend<nat>(picked, i);
        out, picked := out + [edges[i]], picked + [i];
      }
    }
  }

  /** The positions of the statements that point in one of the directions. */
  function Along(edges: seq<Import>, directions: seq<Pair>): set<nat> {
    set i: nat | i < |edges| && Direction(edges[i]) in directions
  }

  lemma AlongNext(edges: seq<Import>, directions: seq<Pair>, n: nat)
    requires NoDuplicates(directions) && n < |directions|
    ensures Along(edges, directions[..n + 1]) == Along(edges, directions[..n]) + At(edges, directions[n])
    ensures Along(edges, directions[..n]) !! At(edges, directions[n])
  {
    NoDuplicatesIff(directions);
    assert directions[..n + 1] == directions[..n] + [directions[n]];
    assert directions[n] !in directions[..n];
  }

  /** The statement crosses a pair of directories that import each other, and fewer statements cross it its way, or
      equally many and it points back to the directory that comes first. */
  ghost predicate CrossesWeakly(edges: seq<Import>, e: Import) {
    var there, back := |At(edges, (e.sourceDir, e.targetDir))|, |At(edges, (e.targetDir, e.sourceDir))|;
    && e.sourceDir != e.targetDir && there > 0 && back > 0
    && (there < back || (there == back && StringLess(e.targetDir, e.sourceDir)))
  }

  lemma MinorityCrosses(edges: seq<Import>, e: Import)
    requires e in edges
    ensures InMinority(edges, e) <==> CrossesWeakly(edges, e)
  {
    PairsTotallyOrdered();
    var i :| 0 <= i < |edges| && edges[i] == e;
    assert i in At(edges, Direction(e));
    assert Reverse(Reverse(Direction(e))) == Direction(e);
    assert !(StringLess(e.sourceDir, e.targetDir) && StringLess(e.targetDir, e.sourceDir));
  }

  lemma PickedCross(edges: seq<Import>, out: seq<Import>, picked: seq<nat>)
    requires Picks(edges, out, picked) && Elements(picked) == Minority(edges)
    ensures forall e :: e in out <==> e in edges && CrossesWeakly(edges, e)
  {
    forall e ensures e in out <==> e in edges && CrossesWeakly(edges, e) {
      if e in out {
        var k :| 0 <= k < |out| && out[k] == e;
        assert picked[k] in Elements(picked);
        MinorityCrosses(edges, e);
      }
      if e in edges && CrossesWeakly(edges, e) {
        MinorityCrosses(edges, e);
        var i :| 0 <= i < |edges| && edges[i] == e;
        assert i in Elements(picked);
        var k :| 0 <= k < |picked| && picked[k] == i;
        assert out[k] == e;
      }
    }
  }

  /** `minority_edges`: for each mutual pair in turn, the statements of its weaker direction. They are a
      minimum cut of the mutual dependences. */
  method MinorityEdges(edges: seq<Import>) returns (out: seq<Import>, ghost picked: seq<nat>)
    ensures Picks(edges, out, picked) && Elements(picked) == Minority(edges)
    ensures forall e :: e in out <==> e in edges && CrossesWeakly(edges, e)
    ensures IsCut(edges, Elements(picked))
    ensures forall deleted :: IsCut(edges, deleted) ==> |out| <= |deleted|
  {
    var pairs := MutualPairs(edges);
    ghost var losers := seq(|pairs|, i requires 0 <= i < |pairs| => Loser(edges, pairs[i]));
    OneOfEachDistinct(pairs, losers);
    MinorityListed(edges, pairs, losers);
    out, picked := [], [];
    for n := 0 to |pairs|
      invariant Picks(edges, out, picked) && Elements(picked) == Along(edges, losers[..n])
    {
      var found, at := Pointing(edges, Loser(edges, pairs[n]));
      AlongNext(edges, losers, n);
      PicksConcat(edges, out, picked, found, at);
      out, picked := out + found, picked + at;
      assert Elements(picked) == Along(edges, losers[..n + 1]);
    }
    assert losers[..|pairs|] == losers;
    PickedCross(edges, out, picked);
    MinorityIsMinimumCut(edges, pairs, {});
    forall deleted | IsCut(edges, deleted) ensures |out| <= |deleted| {
      MinorityIsMinimumCut(edges, pairs, deleted);
    }
  }

  lemma MinorityListed(edges: seq<Import>, pairs: seq<Pair>, losers: seq<Pair>)
    requires forall p :: p in pairs <==> IsMutual(edges, p)
    requires |losers| == |pairs| && forall i :: 0 <= i < |pairs| ==> losers[i] == Loser(edges, pairs[i])
    ensures Minority(edges) == Along(edges, losers)
  {
    forall i | i in Minority(edges) ensures Direction(edges[i]) in losers {
      var d := Direction(edges[i]);
      var p := if IsMutual(edges, d) && Loser(edges, d) == d then d else Reverse(d);
      assert p in pairs;
      var k :| 0 <= k < |pairs| && pairs[k] == p;
      assert losers[k] == d;
    }
    forall i: nat | i < |edges| && Direction(edges[i]) in losers ensures i in Minority(edges) {
      var k :| 0 <= k < |losers| && losers[k] == Direction(edges[i]);
      assert pairs[k] in pairs && Reverse(Reverse(pairs[k])) == pairs[k];
    }
  }

  // ---- pair counts ------------------------------------------------------------------------

  lemma CountNext(edges: seq<Import>, i: nat, d: Pair)
    requires i < |edges|
    ensures |At(edges[..i + 1], d)| == |At(edges[..i], d)| + if Direction(edges[i]) == d then 1 else 0
    ensures At(edges[..i + 1], d) != {} <==> At(edges[..i], d) != {} || Direction(edges[i]) == d
  {
    forall k: nat ensures k in At(edges[..i + 1], d) <==> k in At(edges[..i], d) || (k == i && Direction(edges[i]) == d) {
      if k < i { assert edges[..i + 1][k] == edges[..i][k] == edges[k]; }
    }
    if Direction(edges[i]) == d { assert At(edges[..i + 1], d) == At(edges[..i], d) + {i}; }
    else { assert At(edges[..i + 1], d) == At(edges[..i], d); }
  }

  /** The counter over the directions of all statements. */
  ghost predicate Counts(edges: seq<Import>, counts: map<Pair, nat>) {
    && (forall d :: d in counts <==> At(edges, d) != {})
    && (forall d :: d in counts ==> counts[d] == |At(edges, d)|)
  }

  method CountDirections(edges: seq<Import>) returns (counts: map<Pair, nat>)
    ensures Counts(edges, counts)
  {
    counts := map[];
    for i := 0 to |edges|
      invariant Counts(edges[..i], counts)
    {
      var e := Direction(edges[i]);
      ghost var before := counts;
      counts := counts[e := (if e in counts then counts[e] else 0) + 1];
      forall d
        ensures (d in counts <==> At(edges[..i + 1], d) != {}) && (d in counts ==> counts[d] == |At(edges[..i + 1], d)|)
      {
        CountNext(edges, i, d);
        assert d in before <==> At(edges[..i], d) != {};
      }
    }
    assert edges[..|edges|] == edges;
  }

  /** `pair_counts`: one entry per direction that occurs, in sorted order. */
  method PairCounts(edges: seq<Import>) returns (counts: map<Pair, nat>, order: seq<Pair>)
    ensures Counts(edges, counts) && Ascending(order, PairLess)
    ensures forall d :: d in counts <==> d in order
    ensures Size(edges, order) == |edges|
  {
    counts := CountDirections(edges);
    var keys := counts.Keys;
    var found: seq<Pair> := [];
    while keys != {}
      invariant keys <= counts.Keys && NoDuplicates(found)
      invariant forall d :: d in found <==> d in counts.Keys - keys
    {
      var d :| d in keys;
      keys := keys - {d};
      NoDuplicatesAppend(found, d);
      found := found + [d];
    }
    PairsTotallyOrdered();
    order := Sort(found, PairLess);
    SortAscending(found, PairLess);
    assert Elements(order) == Elements(found);
    AllCounted(edges, order);
  }

  /** The pair counts add up to the number of statements. */
  lemma AllCounted(edges: seq<Import>, order: seq<Pair>)
    requires NoDuplicates(order) && forall d :: At(edges, d) != {} ==> d in order
    ensures Size(edges, order) == |edges|
  {
    var positions: seq<nat> := seq(|edges|, i => i);
    NoDuplicatesIff(positions);
    var all := Elements(positions);
    forall i | i in all ensures i < |edges| && Direction(edges[i]) in order {
      assert i in At(edges, Direction(edges[i]));
    }
    forall d | d in order ensures At(edges, d) <= all {
      forall i | i in At(edges, d) ensures i in all { assert positions[i] == i; }
    }
    CoverSize(edges, order, all);
  }

  // ---- layers -------------------------------------------------------------------------------

  const ROOT: Name := ["sms_tool"]

  /** The reviewed layer map; override keys are paths without the package prefix. */
  datatype Layers = Layers(packages: map<string, int>, overrides: map<Name, int>, rootModules: map<string, int>,
                           allow: set<(Name, Name)>)

  /** The override keyed by the first `depth` segments, or by the whole path when it is shorter. */
  function OverrideKey(module_: Name, depth: nat): Name
    requires |module_| >= 2
  {
    if 1 + depth < |module_| then module_[1..1 + depth] else module_[1..]
  }

  function LayerOf(module_: Name, layers: Layers): Option<int> {
    if |module_| <= 1 then None
    else if OverrideKey(module_, 4) in layers.overrides then Some(layers.overrides[OverrideKey(module_, 4)])
    else if OverrideKey(module_, 3) in layers.overrides then Some(layers.overrides[OverrideKey(module_, 3)])
    else if OverrideKey(module_, 2) in layers.overrides then Some(layers.overrides[OverrideKey(module_, 2)])
    else if module_[1] in layers.packages then Some(layers.packages[module_[1]])
    else if module_[1] + ".py" in layers.rootModules then Some(layers.rootModules[module_[1] + ".py"])
    else None
  }

  /** Which override keys can claim a module: its path cut to two, three or four segments, or the whole path
      when it has at most four. */
  predicate Claims(key: Name, module_: Name) {
    |module_| >= 2 && key <= module_[1..] && (2 <= |key| <= 4 || (|key| == 1 && |module_| == 2))
  }

  /** The longest override that claims a module decides, and without one the tables do. */
  lemma LongestOverrideWins(module_: Name, layers: Layers, key: Name)
    requires Claims(key, module_) && key in layers.overrides
    requires forall k :: Claims(k, module_) && k in layers.overrides ==> |k| <= |key|
    ensures LayerOf(module_, layers) == Some(layers.overrides[key])
  {
    var path := module_[1..];
    assert OverrideKey(module_, |key|) == key;
    forall d: nat | 2 <= d <= 4 ensures Claims(OverrideKey(module_, d), module_) && OverrideKey(module_, d) <= path {
      assert OverrideKey(module_, d) == path[..|OverrideKey(module_, d)|];
    }
    assert key == path[..|key|];
  }

  /** Without one the table of subpackages decides, and behind it the table of root modules. */
  lemma TablesDecide(module_: Name, layers: Layers)
    requires forall k :: Claims(k, module_) ==> k !in layers.overrides
    ensures LayerOf(module_, layers) ==
      if |module_| < 2 then None
      else if module_[1] in layers.packages then Some(layers.packages[module_[1]])
      else if module_[1] + ".py" in layers.rootModules then Some(layers.rootModules[module_[1] + ".py"])
      else None
  {
    if |module_| >= 2 {
      var path := module_[1..];
      forall d: nat | 2 <= d <= 4 ensures Claims(OverrideKey(module_, d), module_) {
        assert OverrideKey(module_, d) == path[..|OverrideKey(module_, d)|];
      }
    }
  }

  function Outward(e: Import, layers: Layers): bool {
    var s, t := LayerOf(e.source, layers), LayerOf(e.target, layers);
    s.Some? && t.Some? && s.value > t.value
  }

  predicate Listed(e: Import, layers: Layers) { (e.source, e.target) in layers.allow }

  function OutwardEdges(edges: seq<Import>, layers: Layers, listed: bool): seq<Import> {
    if edges == [] then []
    else
      var rest := OutwardEdges(edges[..|edges| - 1], layers, listed);
      var e := edges[|edges| - 1];
      if Outward(e, layers) && Listed(e, layers) == listed then rest + [e] else rest
  }

  lemma {:induction false} OutwardEdgesExact(edges: seq<Import>, layers: Layers, listed: bool)
    ensures forall e :: e in OutwardEdges(edges, layers, listed) <==>
      e in edges && Outward(e, layers) && Listed(e, layers) == listed
  {
    if edges != [] { OutwardEdgesExact(edges[..|edges| - 1], layers, listed); }
  }

  /** `direction_violations`. */
  method DirectionViolations(edges: seq<Import>, layers: Layers, modules: seq<Name>)
    returns (unclassified: seq<Name>, allowed: seq<Import>, unallowed: seq<Import>)
    requires NoDuplicates(modules)
    ensures Ascending(unclassified, NameLess)
    ensures forall m :: m in unclassified <==> m in modules && m != ["sms_tool"] && LayerOf(m, layers) == None
    ensures forall e :: e in allowed <==> e in edges && Outward(e, layers) && (e.source, e.target) in layers.allow
    ensures forall e :: e in unallowed <==> e in edges && Outward(e, layers) && (e.source, e.target) !in layers.allow
    ensures allowed == OutwardEdges(edges, layers, true) && unallowed == OutwardEdges(edges, layers, false)
  {
    NamesTotallyOrdered();
    NoDuplicatesIff(modules);
    var found: seq<Name> := [];
    for i := 0 to |modules|
      invariant NoDuplicates(found)
      invariant forall m :: m in found <==> m in modules[..i] && m != ROOT && LayerOf(m, layers) == None
    {
      assert modules[..i + 1] == modules[..i] + [modules[i]];
      if modules[i] != ROOT && LayerOf(modules[i], layers) == None {
        assert modules[i] !in modules[..i];
        NoDuplicatesAppend(found, modules[i]);
        found := found + [modules[i]];
      }
    }
    assert modules[..|modules|] == modules;
    unclassified := Sort(found, NameLess);
    SortAscending(found, NameLess);
    allowed, unallowed := [], [];
    for i := 0 to |edges|
      invariant allowed == OutwardEdges(edges[..i], layers, true) && unallowed == OutwardEdges(edges[..i], layers, false)
    {
      assert edges[..i + 1][..i] == edges[..i];
      var source, target := LayerOf(edges[i].source, layers), LayerOf(edges[i].target, layers);
      if source == None || target == None || source.value <= target.value {
      } else if Listed(edges[i], layers) {
        allowed := allowed + [edges[i]];
      } else {
        unallowed := unallowed + [edges[i]];
      }
    }
    assert edges[..|edges|] == edges;
    OutwardEdgesExact(edges, layers, true);
    OutwardEdgesExact(edges, layers, false);
  }

  // ---- what a clean report means -----------------------------------------------------------

  /** The import graph without the package root and without the allow-listed edges. */
  predicate InCore(e: Import, layers: Layers) {
    e.source != ROOT && e.target != ROOT && !Listed(e, layers)
  }

  function CoreTargets(edges: seq<Import>, layers: Layers, module_: Name): seq<Name> {
    if edges == [] then []
    else
      var rest := CoreTargets(edges[1..], layers, module_);
      if edges[0].source == module_ && InCore(edges[0], layers) && edges[0].target !in rest
      then [edges[0].target] + rest else rest
  }

  function Core(edges: seq<Import>, layers: Layers, modules: seq<Name>): Graphs.Graph<Name> {
    Graphs.Graph(modules, map m | m in modules :: CoreTargets(edges, layers, m))
  }

  lemma {:induction false} CoreTargetsExact(edges: seq<Import>, layers: Layers, module_: Name)
    ensures forall t :: t in CoreTargets(edges, layers, module_) <==>
      exists e :: e in edges && e.source == module_ && e.target == t && InCore(e, layers)
  {
    if edges != [] {
      CoreTargetsExact(edges[1..], layers, module_);
      assert edges == [edges[0]] + edges[1..];
    }
  }

  /** What the two reports of the check say when it passes. */
  ghost predicate Clean(edges: seq<Import>, layers: Layers, modules: seq<Name>) {
    && (forall m :: m in modules && m != ROOT ==> LayerOf(m, layers) != None)
    && OutwardEdges(edges, layers, false) == []
  }

  /** Imports join indexed modules. */
  predicate Indexed(edges: seq<Import>, modules: seq<Name>) {
    forall e :: e in edges ==> e.source in modules && e.target in modules
  }

  /** Both modules are classified and the first is not further in than the second. */
  predicate NotOutward(source: Name, target: Name, layers: Layers) {
    var s, t := LayerOf(source, layers), LayerOf(target, layers);
    s.Some? && t.Some? && s.value <= t.value
  }

  lemma CoreEdgeDescends(edges: seq<Import>, layers: Layers, modules: seq<Name>, u: Name, v: Name)
    requires Clean(edges, layers, modules) && Indexed(edges, modules)
    requires Graphs.Edge(Core(edges, layers, modules), u, v)
    ensures NotOutward(u, v, layers)
  {
    CoreTargetsExact(edges, layers, u);
    var e :| e in edges && e.source == u && e.target == v && InCore(e, layers);
    OutwardEdgesExact(edges, layers, false);
    assert e !in OutwardEdges(edges, layers, false);
  }

  /** When the check passes, layers never decrease along a path of imports. */
  lemma {:induction false} LayersNeverDecrease(edges: seq<Import>, layers: Layers, modules: seq<Name>, p: seq<Name>)
    requires Clean(edges, layers, modules) && Indexed(edges, modules)
    requires Graphs.Walk(Core(edges, layers, modules), p) && |p| > 1
    ensures NotOutward(p[0], p[|p| - 1], layers)
  {
    CoreEdgeDescends(edges, layers, modules, p[0], p[1]);
    if |p| > 2 { LayersNeverDecrease(edges, layers, modules, p[1..]); }
  }

  /** Every import cycle that avoids the package root and the allow list lies in a single layer. */
  lemma CyclesStayInOneLayer(edges: seq<Import>, layers: Layers, modules: seq<Name>, u: Name, v: Name)
    requires Clean(edges, layers, modules) && Indexed(edges, modules)
    requires Graphs.Mutual(Core(edges, layers, modules), u, v)
    ensures LayerOf(u, layers) == LayerOf(v, layers)
  {
    var g := Core(edges, layers, modules);
    if u != v {
      var p :| Graphs.WalkFromTo(g, p, u, v);
      var q :| Graphs.WalkFromTo(g, q, v, u);
      LayersNeverDecrease(edges, layers, modules, p);
      LayersNeverDecrease(edges, layers, modules, q);
    }
  }

  /** So the cycle report of that graph lists components that each lie in one layer. */
  lemma ReportedCyclesStayInOneLayer(edges: seq<Import>, layers: Layers, modules: seq<Name>, component: seq<Name>)
    requires Clean(edges, layers, modules) && Indexed(edges, modules)
    requires Graphs.IsComponent(Core(edges, layers, modules), component)
    ensures forall u, v :: u in component && v in component ==> LayerOf(u, layers) == LayerOf(v, layers)
  {
    forall u, v | u in component && v in component ensures LayerOf(u, layers) == LayerOf(v, layers) {
      CyclesStayInOneLayer(edges, layers, modules, u, v);
    }
  }

  /** The check is exact: with every module classified it passes if and only if no single import of the graph
      goes to an outer layer. */
  lemma CleanIff(edges: seq<Import>, layers: Layers, modules: seq<Name>)
    requires Indexed(edges, modules)
    requires forall m :: m in modules && m != ROOT ==> LayerOf(m, layers) != None
    ensures Clean(edges, layers, modules) <==>
      forall u, v :: Graphs.Edge(Core(edges, layers, modules), u, v) ==> NotOutward(u, v, layers)
  {
    var g := Core(edges, layers, modules);
    forall u, v | Graphs.Edge(g, u, v) ensures u in modules && v in modules && u != ROOT && v != ROOT {
      CoreTargetsExact(edges, layers, u);
    }
    if Clean(edges, layers, modules) {
      forall u, v | Graphs.Edge(g, u, v) ensures NotOutward(u, v, layers) {
        CoreEdgeDescends(edges, layers, modules, u, v);
      }
    } else {
      OutwardEdgesExact(edges, layers, false);
      var e := OutwardEdges(edges, layers, false)[0];
      assert e in OutwardEdges(edges, layers, false);
      CoreTargetsExact(edges, layers, e.source);
      assert Graphs.Edge(g, e.source, e.target);
    }
  }
}
