/** How scripts/dependency_graph.py builds its graph: import statements are resolved to indexed modules and filed
    by scope. Parsed files are given by their import statements. */
module GraphBuilder {
  import opened Ordering
  import opened Wrappers
  import opened ImportGraph
  import Resolvers
  import Tarjan

  datatype Scope = ModuleScope | Delayed | TypeOnly

  datatype Statement =
    | Import(names: seq<Name>, scope: Scope)
    | From(level: nat, base: Option<Name>, aliases: seq<string>, scope: Scope)

  /** A file that does not parse has no statements. */
  datatype Source = Source(module_: Name, isPackage: bool, statements: seq<Statement>)

  // ---- from a statement to modules -----------------------------------------------------------

  /** `_resolve`: the longest prefix of a dotted name that is an indexed module. */
  method Resolve(spec: Name, modules: seq<Name>) returns (found: Option<Name>)
    ensures found == LongestPrefix(spec, modules)
  {
    var cut := |spec|;
    assert spec[..cut] == spec;
    while cut > 0
      invariant 0 <= cut <= |spec| && LongestPrefix(spec[..cut], modules) == LongestPrefix(spec, modules)
    {
      if spec[..cut] in modules { return Some(spec[..cut]); }
      assert spec[..cut][..cut - 1] == spec[..cut - 1];
      cut := cut - 1;
    }
    return None;
  }

  function LongestPrefix(spec: Name, modules: seq<Name>): Option<Name> {
    if spec == [] then None
    else if spec in modules then Some(spec)
    else LongestPrefix(spec[..|spec| - 1], modules)
  }

  /** `m` is a prefix of the name and an indexed module, and no longer prefix is one. */
  ghost predicate IsLongest(spec: Name, modules: seq<Name>, m: Name) {
    [] < m <= spec && m in modules && forall k :: |m| < k <= |spec| ==> spec[..k] !in modules
  }

  lemma {:induction false} LongestPrefixIsLongest(spec: Name, modules: seq<Name>)
    ensures match LongestPrefix(spec, modules)
      case Some(m) => IsLongest(spec, modules, m)
      case None => forall k :: 0 < k <= |spec| ==> spec[..k] !in modules
  {
    if spec != [] {
      assert spec[..|spec|] == spec;
      LongestPrefixIsLongest(spec[..|spec| - 1], modules);
      forall k | 0 < k < |spec| ensures spec[..|spec| - 1][..k] == spec[..k] {}
    }
  }

  /** So it is the only one. */
  lemma LongestIs(spec: Name, modules: seq<Name>, m: Name)
    ensures LongestPrefix(spec, modules) == Some(m) <==> IsLongest(spec, modules, m)
  {
    LongestPrefixIsLongest(spec, modules);
    if IsLongest(spec, modules, m) {
      assert spec[..|m|] == m;
      if LongestPrefix(spec, modules).Some? {
        var n := LongestPrefix(spec, modules).value;
        assert spec[..|n|] == n;
      }
    }
  }

  function Named(base: Name, aliases: seq<string>): seq<Name> {
    if aliases == [] then []
    else (if aliases[0] == "*" then [] else [base + [aliases[0]]]) + Named(base, aliases[1..])
  }

  /** `_import_targets`: the names a statement asks for. A package may be imported from as well as its members;
      a bare `from . import *` restates the own package and asks for nothing. */
  function Asked(s: Statement, module_: Name, isPackage: bool): seq<Name> {
    match s
    case Import(names, _) => names
    case From(level, base, aliases, _) =>
      var named := if level > 0 then Resolvers.GraphResolve(module_, isPackage, level, base) else Some(Resolvers.OrEmpty(base));
      if named == None then []
      else
        var members := Named(named.value, aliases);
        if members == [] && named.value == (if isPackage then module_ else Resolvers.Parent(module_)) then []
        else [named.value] + members
  }

  // ---- what a statement asks for ---------------------------------------------------------------

  /** What a `from` statement imports from: the given name, in a relative import behind the ancestor package that the
      dots stand for. An import that climbs above the top package has no base. */
  predicate IsBase(m: Name, isPackage: bool, level: nat, base: Option<Name>, b: Name) {
    var given := if base.Some? then base.value else [];
    if level == 0 then b == given
    else
      var keep := |m| + (if isPackage then 1 else 0) - level;
      keep > 0 && b == m[..keep] + given
  }

  /** `from <own package> import *` */
  predicate BareOwnStar(m: Name, isPackage: bool, b: Name, aliases: seq<string>) {
    (forall a :: a in aliases ==> a == "*") && b == if isPackage || |m| < 2 then m else m[..|m| - 1]
  }

  /** The dotted names a statement asks for: those that an `import` lists; the base of a `from`, unless that is the
      bare star of the own package, and each imported name behind the base. */
  ghost predicate AsksFor(s: Statement, m: Name, isPackage: bool, spec: Name) {
    match s
    case Import(names, _) => spec in names
    case From(level, base, aliases, _) =>
      exists b :: IsBase(m, isPackage, level, base, b) &&
        ((spec == b && !BareOwnStar(m, isPackage, b, aliases)) || Member(b, aliases, spec))
  }

  ghost predicate Member(b: Name, aliases: seq<string>, spec: Name) {
    exists a :: a in aliases && a != "*" && spec == b + [a]
  }

  lemma {:induction false} NamedAre(b: Name, aliases: seq<string>, spec: Name)
    ensures spec in Named(b, aliases) <==> Member(b, aliases, spec)
    ensures Named(b, aliases) == [] <==> forall a :: a in aliases ==> a == "*"
  {
    if aliases != [] {
      NamedAre(b, aliases[1..], spec);
      assert forall a :: a in aliases <==> a == aliases[0] || a in aliases[1..];
      if aliases[0] != "*" { assert Named(b, aliases) == [b + [aliases[0]]] + Named(b, aliases[1..]); }
    }
  }

  lemma GraphBase(m: Name, isPackage: bool, level: nat, base: Option<Name>, b: Name)
    ensures IsBase(m, isPackage, level, base, b) <==>
      (if level > 0 then Resolvers.GraphResolve(m, isPackage, level, base) else Some(Resolvers.OrEmpty(base))) == Some(b)
  {
    if level > 0 {
      var parts := Resolvers.Context(m, isPackage);
      var keep := |parts| - (level - 1);
      assert m != [] ==> keep == |m| + (if isPackage then 1 else 0) - level;
      if keep > 0 { assert Resolvers.PrefixSlice(parts, keep) == parts[..keep] == m[..keep]; }
    }
  }

  lemma AskedAre(s: Statement, m: Name, isPackage: bool, spec: Name)
    ensures spec in Asked(s, m, isPackage) <==> AsksFor(s, m, isPackage, spec)
  {
    if s.From? {
      forall b: Name ensures IsBase(m, isPackage, s.level, s.base, b) <==>
        (if s.level > 0 then Resolvers.GraphResolve(m, isPackage, s.level, s.base)
         else Some(Resolvers.OrEmpty(s.base))) == Some(b)
      {
        GraphBase(m, isPackage, s.level, s.base, b);
      }
      forall b: Name ensures spec in Named(b, s.aliases) <==> Member(b, s.aliases, spec) { NamedAre(b, s.aliases, spec); }
      forall b: Name ensures Named(b, s.aliases) == [] <==> forall a :: a in s.aliases ==> a == "*" {
        NamedAre(b, s.aliases, spec);
      }
    }
  }

  /** The statement, in this module, creates an edge to `target`: another module, and the longest indexed prefix of a
      name that it asks for. */
  ghost predicate Imports(s: Statement, m: Name, isPackage: bool, modules: seq<Name>, target: Name) {
    target != m && exists spec :: AsksFor(s, m, isPackage, spec) && IsLongest(spec, modules, target)
  }

  ghost predicate ResolvesTo(specs: seq<Name>, modules: seq<Name>, target: Name) {
    exists spec :: spec in specs && LongestPrefix(spec, modules) == Some(target)
  }

  lemma ResolvesAre(s: Statement, m: Name, isPackage: bool, modules: seq<Name>, target: Name)
    ensures target != m && ResolvesTo(Asked(s, m, isPackage), modules, target) <==> Imports(s, m, isPackage, modules, target)
  {
    forall spec { AskedAre(s, m, isPackage, spec); }
    forall spec: Name ensures LongestPrefix(spec, modules) == Some(target) <==> IsLongest(spec, modules, target) {
      LongestIs(spec, modules, target);
    }
  }

  // ---- the three buckets ---------------------------------------------------------------------

  type Bucket = map<Name, seq<Name>>

  predicate Holds(b: Bucket, u: Name, v: Name) { u in b && v in b[u] }

  ghost predicate Proper(b: Bucket) { forall u :: u in b ==> b[u] != [] && NoDuplicates(b[u]) }

  /** `bucket[module].add(target)` */
  method Add(b: Bucket, u: Name, v: Name) returns (r: Bucket)
    requires Proper(b)
    ensures Proper(r) && forall x, y :: Holds(r, x, y) <==> Holds(b, x, y) || (x == u && y == v)
  {
    var targets := if u in b then b[u] else [];
    if v in targets { return b; }
    NoDuplicatesAppend(targets, v);
    r := b[u := targets + [v]];
  }

  /** All targets of one statement go to one bucket. */
  method AddStatement(b: Bucket, s: Statement, module_: Name, isPackage: bool, modules: seq<Name>) returns (r: Bucket)
    requires Proper(b)
    ensures Proper(r)
    ensures forall u, v :: Holds(r, u, v) <==> Holds(b, u, v) || (u == module_ && Imports(s, module_, isPackage, modules, v))
  {
    r := b;
    var asked := Asked(s, module_, isPackage);
    for i := 0 to |asked|
      invariant Proper(r)
      invariant forall u, v ::
        Holds(r, u, v) <==> Holds(b, u, v) || (u == module_ && v != module_ && ResolvesTo(asked[..i], modules, v))
    {
      assert asked[..i + 1] == asked[..i] + [asked[i]];
      var target := Resolve(asked[i], modules);
      if target.Some? && target.value != module_ { r := Add(r, module_, target.value); }
    }
    assert asked[..|asked|] == asked;
    forall v { ResolvesAre(s, module_, isPackage, modules, v); }
  }

  /** Some statement of this scope in some file creates the edge. */
  ghost predicate Demanded(sources: seq<Source>, packages: map<Name, bool>, modules: seq<Name>, scope: Scope, u: Name, v: Name)
    requires forall f :: f in sources ==> f.module_ in packages
  {
    exists f :: f in sources && f.module_ == u && InFile(f.statements, scope, u, packages[u], modules, v)
  }

  ghost predicate InFile(statements: seq<Statement>, scope: Scope, module_: Name, isPackage: bool, modules: seq<Name>, v: Name) {
    exists s :: s in statements && s.scope == scope && Imports(s, module_, isPackage, modules, v)
  }

  /** The statement behind a demanded edge. */
  lemma DemandedBy(sources: seq<Source>, packages: map<Name, bool>, modules: seq<Name>, scope: Scope, u: Name, v: Name)
    returns (f: Source, s: Statement, spec: Name)
    requires forall f :: f in sources ==> f.module_ in packages
    requires Demanded(sources, packages, modules, scope, u, v)
    ensures f in sources && f.module_ == u && s in f.statements && s.scope == scope
    ensures AsksFor(s, u, packages[u], spec) && IsLongest(spec, modules, v) && v != u
  {
    f :| f in sources && f.module_ == u && InFile(f.statements, scope, u, packages[u], modules, v);
    s :| s in f.statements && s.scope == scope && Imports(s, u, packages[u], modules, v);
    spec :| AsksFor(s, u, packages[u], spec) && IsLongest(spec, modules, v);
  }

  /** No later file has the same module name. */
  ghost predicate IsLast(sources: seq<Source>, i: nat)
    requires i < |sources|
  {
    forall j :: i < j < |sources| ==> sources[j].module_ != sources[i].module_
  }

  /** The index: every module name that occurs, with the package flag of the file that was written last. */
  ghost predicate Indexed(sources: seq<Source>, packages: map<Name, bool>) {
    && (forall m :: m in packages <==> exists f :: f in sources && f.module_ == m)
    && (forall i: nat :: i < |sources| && IsLast(sources, i) ==>
          sources[i].module_ in packages && packages[sources[i].module_] == sources[i].isPackage)
  }

  ghost function Indexes(sources: seq<Source>): iset<map<Name, bool>> {
    iset packages | Indexed(sources, packages)
  }

  lemma IndexedNext(sources: seq<Source>, packages: map<Name, bool>, f: Source)
    requires packages in Indexes(sources)
    ensures packages[f.module_ := f.isPackage] in Indexes(sources + [f])
  {
    var all, next := sources + [f], packages[f.module_ := f.isPackage];
    forall m ensures m in next <==> exists s :: s in all && s.module_ == m {
      if m == f.module_ { assert f in all; }
      if s :| s in sources && s.module_ == m { assert s in all; }
    }
    forall i: nat | i < |all| && IsLast(all, i)
      ensures all[i].module_ in next && next[all[i].module_] == all[i].isPackage
    {
      if i < |sources| {
        assert all[|sources|] == f && all[i] == sources[i];
        forall j | i < j < |sources| ensures sources[j].module_ != sources[i].module_ { assert all[j] == sources[j]; }
        assert IsLast(sources, i);
      }
    }
  }

  /** Files that share a module name share one index entry. */
  method Index(sources: seq<Source>) returns (modules: seq<Name>, packages: map<Name, bool>)
    ensures NoDuplicates(modules) && Indexed(sources, packages)
    ensures forall m :: m in modules <==> m in packages
  {
    modules, packages := [], map[];
    for i := 0 to |sources|
      invariant NoDuplicates(modules) && packages in Indexes(sources[..i])
      invariant forall m :: m in modules <==> m in packages
    {
      var f := sources[i];
      IndexedNext(sources[..i], packages, f);
      assert sources[..i + 1] == sources[..i] + [f];
      if f.module_ !in modules {
        NoDuplicatesAppend(modules, f.module_);
        modules := modules + [f.module_];
      }
      packages := packages[f.module_ := f.isPackage];
    }
    assert sources[..|sources|] == sources;
  }

  /** The edges of one scope over all files. */
  method BuildBucket(sources: seq<Source>, packages: map<Name, bool>, modules: seq<Name>, scope: Scope) returns (b: Bucket)
    requires forall f :: f in sources ==> f.module_ in packages
    ensures Proper(b) && forall u, v :: Holds(b, u, v) <==> Demanded(sources, packages, modules, scope, u, v)
  {
    b := map[];
    for i := 0 to |sources|
      invariant Proper(b)
      invariant forall u, v :: Holds(b, u, v) <==> Demanded(sources[..i], packages, modules, scope, u, v)
    {
      var f := sources[i];
      assert f in sources;
      ghost var before := b;
      for j := 0 to |f.statements|
        invariant Proper(b)
        invariant forall u, v ::
          Holds(b, u, v) <==>
          (Holds(before, u, v) || (u == f.module_ && InFile(f.statements[..j], scope, u, packages[u], modules, v)))
      {
        assert f.statements[..j + 1] == f.statements[..j] + [f.statements[j]];
        if f.statements[j].scope == scope {
          b := AddStatement(b, f.statements[j], f.module_, packages[f.module_], modules);
        }
      }
      assert f.statements[..|f.statements|] == f.statements;
      assert sources[..i + 1] == sources[..i] + [f];
    }
    assert sources[..|sources|] == sources;
  }

  /** The module-scope graph of the files: its modules are the indexed ones, every edge joins two different ones,
      and there is one exactly where some module-scope statement demands it, its relative names resolved with the
      package flag of the index. */
  ghost predicate GraphOf(sources: seq<Source>, packages: map<Name, bool>, g: Graph<Name>) {
    && Indexed(sources, packages)
    && WellFormed(g) && NoSelfEdges(g) && (forall m :: m in g.modules <==> m in packages)
    && (forall f :: f in sources ==> f.module_ in packages)
    && forall u, v :: Edge(g, u, v) <==> Demanded(sources, packages, g.modules, ModuleScope, u, v)
  }

  /** `build`. */
  method Build(sources: seq<Source>) returns (g: Graph<Name>, ghost packages: map<Name, bool>)
    ensures GraphOf(sources, packages, g)
  {
    var modules, index := Index(sources);
    var edges := BuildBucket(sources, index, modules, ModuleScope);
    g, packages := Graph(modules, edges), index;
    forall u, v | Holds(edges, u, v) ensures v in modules && v != u && u in modules {
      var f, s, spec := DemandedBy(sources, index, modules, ModuleScope, u, v);
    }
    forall u | u in edges ensures u in modules { assert Holds(edges, u, edges[u][0]); }
    assert forall u, v :: Edge(g, u, v) <==> Holds(edges, u, v);
  }

  /** Which edges the graph has: a `from` statement gives one to the longest indexed prefix of each name that it
      imports, behind its base... */
  lemma MemberEdges(sources: seq<Source>, packages: map<Name, bool>, g: Graph<Name>, f: Source, s: Statement, b: Name,
                    a: string, v: Name)
    requires GraphOf(sources, packages, g) && f in sources && s in f.statements && s.scope == ModuleScope && s.From?
    requires IsBase(f.module_, packages[f.module_], s.level, s.base, b)
    requires a in s.aliases && a != "*" && IsLongest(b + [a], g.modules, v) && v != f.module_
    ensures Edge(g, f.module_, v)
  {
    assert AsksFor(s, f.module_, packages[f.module_], b + [a]);
    EdgeFrom(sources, packages, g, f, s, b + [a], v);
  }

  /** ...and one to that of the base, but for the bare star of the own package; */
  lemma BaseEdges(sources: seq<Source>, packages: map<Name, bool>, g: Graph<Name>, f: Source, s: Statement, b: Name, v: Name)
    requires GraphOf(sources, packages, g) && f in sources && s in f.statements && s.scope == ModuleScope && s.From?
    requires IsBase(f.module_, packages[f.module_], s.level, s.base, b)
    requires !BareOwnStar(f.module_, packages[f.module_], b, s.aliases) && IsLongest(b, g.modules, v) && v != f.module_
    ensures Edge(g, f.module_, v)
  {
    EdgeFrom(sources, packages, g, f, s, b, v);
  }

  /** an `import` gives one to that of each name it lists; */
  lemma ImportEdges(sources: seq<Source>, packages: map<Name, bool>, g: Graph<Name>, f: Source, s: Statement, n: Name, v: Name)
    requires GraphOf(sources, packages, g) && f in sources && s in f.statements && s.scope == ModuleScope && s.Import?
    requires n in s.names && IsLongest(n, g.modules, v) && v != f.module_
    ensures Edge(g, f.module_, v)
  {
    EdgeFrom(sources, packages, g, f, s, n, v);
  }

  lemma EdgeFrom(sources: seq<Source>, packages: map<Name, bool>, g: Graph<Name>, f: Source, s: Statement, spec: Name, v: Name)
    requires GraphOf(sources, packages, g) && f in sources && s in f.statements && s.scope == ModuleScope
    requires AsksFor(s, f.module_, packages[f.module_], spec) && IsLongest(spec, g.modules, v) && v != f.module_
    ensures Edge(g, f.module_, v)
  {
    assert Imports(s, f.module_, packages[f.module_], g.modules, v);
    assert InFile(f.statements, ModuleScope, f.module_, packages[f.module_], g.modules, v);
    assert Demanded(sources, packages, g.modules, ModuleScope, f.module_, v);
  }

  /** and every edge is one of these, to another module. */
  lemma NoOtherEdges(sources: seq<Source>, packages: map<Name, bool>, g: Graph<Name>, u: Name, v: Name)
    returns (f: Source, s: Statement, b: Name, spec: Name)
    requires GraphOf(sources, packages, g) && Edge(g, u, v)
    ensures u != v && f in sources && f.module_ == u && s in f.statements && s.scope == ModuleScope
    ensures IsLongest(spec, g.modules, v)
    ensures match s
      case Import(names, _) => spec in names
      case From(level, base, aliases, _) =>
        && IsBase(u, packages[u], level, base, b)
        && ((spec == b && !BareOwnStar(u, packages[u], b, aliases))
            || exists a :: a in aliases && a != "*" && spec == b + [a])
  {
    f, s, spec := DemandedBy(sources, packages, g.modules, ModuleScope, u, v);
    b := [];
    if s.From? {
      b :| IsBase(u, packages[u], s.level, s.base, b) &&
        ((spec == b && !BareOwnStar(u, packages[u], b, s.aliases)) || Member(b, s.aliases, spec));
    }
  }

  /** The files determine the graph, up to the order in which it is listed, and so the report. */
  lemma GraphOfUnique(sources: seq<Source>, p: map<Name, bool>, q: map<Name, bool>, g: Graph<Name>, h: Graph<Name>)
    requires GraphOf(sources, p, g) && GraphOf(sources, q, h)
    ensures p == q
    ensures (forall m :: m in g.modules <==> m in h.modules) && forall u, v :: Edge(g, u, v) <==> Edge(h, u, v)
  {
    forall m | m in p ensures m in q && p[m] == q[m] {
      var i := LastWith(sources, m);
    }
    assert p == q;
    forall u, v ensures Edge(g, u, v) <==> Edge(h, u, v) {
      SameDemand(sources, p, g.modules, h.modules, u, v);
    }
  }

  lemma {:induction false} LastWith(sources: seq<Source>, m: Name) returns (i: nat)
    requires exists f :: f in sources && f.module_ == m
    ensures i < |sources| && sources[i].module_ == m && IsLast(sources, i)
  {
    i := |sources| - 1;
    if sources[i].module_ != m {
      var init := sources[..i];
      var f :| f in sources && f.module_ == m;
      assert sources == init + [sources[i]] && f in init;
      i := LastWith(init, m);
    }
  }

  lemma SameDemand(sources: seq<Source>, packages: map<Name, bool>, a: seq<Name>, b: seq<Name>, u: Name, v: Name)
    requires forall f :: f in sources ==> f.module_ in packages
    requires forall m :: m in a <==> m in b
    ensures Demanded(sources, packages, a, ModuleScope, u, v) <==> Demanded(sources, packages, b, ModuleScope, u, v)
  {
    forall spec ensures IsLongest(spec, a, v) <==> IsLongest(spec, b, v) {}
    forall s: Statement, p: bool ensures Imports(s, u, p, a, v) <==> Imports(s, u, p, b, v) {}
    forall f: Source, p: bool
      ensures InFile(f.statements, ModuleScope, u, p, a, v) <==> InFile(f.statements, ModuleScope, u, p, b, v) {}
  }

  /** The committed document's cycle view, from files to components and the number of modules on a cycle. */
  method Cycles(sources: seq<Source>)
    returns (components: seq<seq<Name>>, g: Graph<Name>, ghost packages: map<Name, bool>)
    ensures GraphOf(sources, packages, g) && IsReport(g, NameLess, components)
    ensures InCycle(components) == |set v | v in g.modules && OnCycle(g, v)|
  {
    g, packages := Build(sources);
    NamesTotallyOrdered();
    ghost var pops, roots: nat, examined: seq<(Name, Name)>;
    components, pops, roots, examined := Tarjan.StronglyConnected(g, NameLess);
    CycleTotalExact(g, NameLess, components);
  }
}
