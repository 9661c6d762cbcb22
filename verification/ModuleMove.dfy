/** scripts/module_move.py: moving root modules into a subpackage must leave every relative
    import, and every `from sms_tool import x`, denoting the renamed image of what it
    denoted before. */
module ModuleMove {
  import opened Ordering
  import opened Wrappers
  import opened Resolvers

  const ROOT := "sms_tool"
  const INIT := "__init__"

  /** A move specification; `modules` lists the (old, new) pairs in file order. */
  datatype Spec = Spec(package: string, modules: seq<(string, string)>)

  datatype Alias = Alias(name: string, asname: Option<string>) {
    function Binding(): string { if asname.Some? then asname.value else name }
  }

  /** `from <level dots><module> import <aliases>`; level 0 is an absolute import. */
  datatype Import = Import(level: nat, base: Option<Name>, aliases: seq<Alias>)

  // ---- the move map ------------------------------------------------------------------------

  function NewOf(modules: seq<(string, string)>, name: string): Option<string> {
    if modules == [] then None
    else if modules[0].0 == name then Some(modules[0].1)
    else NewOf(modules[1..], name)
  }

  /** The reverse dictionary: the last entry wins. */
  function OldOf(modules: seq<(string, string)>, moved: string): Option<string> {
    if modules == [] then None
    else
      var last := modules[|modules| - 1];
      if last.1 == moved then Some(last.0) else OldOf(modules[..|modules| - 1], moved)
  }

  /** `child in moves` */
  predicate Moved(spec: Spec, m: Name) {
    |m| == 2 && m[0] == ROOT && NewOf(spec.modules, m[1]).Some?
  }

  /** `moves.get(m, m)` */
  function Move(spec: Spec, m: Name): Name {
    if Moved(spec, m) then [ROOT, spec.package, NewOf(spec.modules, m[1]).value] else m
  }

  /** `module_of`: the file path without its suffix, and without a final `__init__`. */
  function ModuleOf(path: Name): Name {
    if |path| >= 2 && path[|path| - 1] == INIT then path[..|path| - 1] else path
  }

  /** Where the file at `path` came from. */
  function OldPath(spec: Spec, path: Name): Name {
    if |path| == 3 && path[0] == ROOT && path[1] == spec.package && OldOf(spec.modules, path[2]).Some?
    then [ROOT, OldOf(spec.modules, path[2]).value]
    else path
  }

  predicate IsPackagePath(path: Name) {
    path != [] && path[|path| - 1] == INIT
  }

  /** Old and new names are each used once, and no root package file is moved. */
  ghost predicate Injective(spec: Spec) {
    && (forall i, j :: 0 <= i < j < |spec.modules| ==> spec.modules[i].0 != spec.modules[j].0)
    && (forall i, j :: 0 <= i < j < |spec.modules| ==> spec.modules[i].1 != spec.modules[j].1)
    && (forall i :: 0 <= i < |spec.modules| ==> spec.modules[i].0 != INIT)
  }

  lemma {:induction false} NewOfAt(modules: seq<(string, string)>, i: nat)
    requires i < |modules|
    requires forall a, b :: 0 <= a < b < |modules| ==> modules[a].0 != modules[b].0
    ensures NewOf(modules, modules[i].0) == Some(modules[i].1)
  {
    if i > 0 { NewOfAt(modules[1..], i - 1); }
  }

  lemma {:induction false} OldOfFound(modules: seq<(string, string)>, current: string)
    requires OldOf(modules, current).Some?
    ensures exists i :: 0 <= i < |modules| && modules[i] == (OldOf(modules, current).value, current)
  {
    var last := |modules| - 1;
    if modules[last].1 == current {
      assert modules[last] == (modules[last].0, current);
    } else {
      OldOfFound(modules[..last], current);
      var i :| 0 <= i < last && modules[..last][i] == (OldOf(modules, current).value, current);
      assert modules[i] == (OldOf(modules, current).value, current);
    }
  }

  /** The reverse lookup undoes the forward one: the file at `path` is the image of the file
      it came from. */
  lemma OldPathMoves(spec: Spec, path: Name)
    requires Injective(spec) && OldPath(spec, path) != path
    ensures Move(spec, OldPath(spec, path)) == path && OldPath(spec, path)[1] != INIT
  {
    OldOfFound(spec.modules, path[2]);
    var i :| 0 <= i < |spec.modules| && spec.modules[i] == (OldOf(spec.modules, path[2]).value, path[2]);
    NewOfAt(spec.modules, i);
  }

  lemma {:induction false} NewOfFound(modules: seq<(string, string)>, name: string)
    requires NewOf(modules, name).Some?
    ensures exists i :: 0 <= i < |modules| && modules[i].0 == name
  {
    if modules[0].0 == name {
      assert modules[0].0 == name;
    } else {
      NewOfFound(modules[1..], name);
      var i :| 0 <= i < |modules[1..]| && modules[1..][i].0 == name;
      assert modules[i + 1].0 == name;
    }
  }

  lemma {:induction false} OldOfAt(modules: seq<(string, string)>, i: nat)
    requires i < |modules|
    requires forall a, b :: 0 <= a < b < |modules| ==> modules[a].1 != modules[b].1
    ensures OldOf(modules, modules[i].1) == Some(modules[i].0)
  {
    if i < |modules| - 1 { OldOfAt(modules[..|modules| - 1], i); }
  }

  // ---- the entries of the specification ------------------------------------------------------

  /** Entry `i` moves the file at `old_` to `path`. */
  predicate MovesFile(spec: Spec, i: nat, old_: Name, path: Name) {
    && i < |spec.modules|
    && old_ == ["sms_tool", spec.modules[i].0] && path == ["sms_tool", spec.package, spec.modules[i].1]
  }

  /** Every entry is found in both directions. */
  lemma EntryMoves(spec: Spec, i: nat, old_: Name, path: Name)
    requires Injective(spec) && MovesFile(spec, i, old_, path)
    ensures Moved(spec, old_) && Move(spec, old_) == path && OldPath(spec, path) == old_
  {
    NewOfAt(spec.modules, i);
    OldOfAt(spec.modules, i);
  }

  /** And nothing else is: a name that no entry moves stays, and a path that no entry leads to is its own origin. */
  lemma OthersStay(spec: Spec, m: Name)
    ensures (forall i: nat, path :: !MovesFile(spec, i, m, path)) ==> !Moved(spec, m) && Move(spec, m) == m
    ensures (forall i: nat, old_ :: !MovesFile(spec, i, old_, m)) ==> OldPath(spec, m) == m
  {
    if Moved(spec, m) {
      NewOfFound(spec.modules, m[1]);
      var i :| 0 <= i < |spec.modules| && spec.modules[i].0 == m[1];
      assert MovesFile(spec, i, m, [ROOT, spec.package, spec.modules[i].1]);
    }
    if OldPath(spec, m) != m {
      OldOfFound(spec.modules, m[2]);
      var i :| 0 <= i < |spec.modules| && spec.modules[i] == (OldOf(spec.modules, m[2]).value, m[2]);
      assert MovesFile(spec, i, [ROOT, spec.modules[i].0], m);
    }
  }

  // ---- the rewriter ------------------------------------------------------------------------

  /** The aliases that stay in the statement. */
  function Kept(spec: Spec, target: Name, aliases: seq<Alias>): seq<Alias> {
    if aliases == [] then []
    else
      var a, init := aliases[|aliases| - 1], Kept(spec, target, aliases[..|aliases| - 1]);
      if Moved(spec, target + [a.name]) then init else init + [a]
  }

  /** `from <parent> import <leaf> as <binding>`, spelled relatively when `from_` is given. */
  function MovedImport(spec: Spec, source: Option<(Name, bool)>, target: Name, a: Alias): Import
    requires Moved(spec, target + [a.name])
  {
    var image := Move(spec, target + [a.name]);
    var parent, leaf := image[..2], image[2];
    if source.Some? then
      var (level, rest) := RelativeFrom(source.value.0, source.value.1, parent);
      Import(level, Named(rest), [Alias(leaf, Some(a.Binding()))])
    else
      Import(0, Some(parent), [Alias(leaf, Some(a.Binding()))])
  }

  function Extra(spec: Spec, source: Option<(Name, bool)>, target: Name, aliases: seq<Alias>): seq<Import> {
    if aliases == [] then []
    else
      var a, init := aliases[|aliases| - 1], Extra(spec, source, target, aliases[..|aliases| - 1]);
      if Moved(spec, target + [a.name]) then init + [MovedImport(spec, source, target, a)] else init
  }

  /** The loop over the names of one statement, in both rewriters. */
  method SplitAliases(spec: Spec, source: Option<(Name, bool)>, target: Name, aliases: seq<Alias>)
    returns (kept: seq<Alias>, extra: seq<Import>)
    ensures kept == Kept(spec, target, aliases)
    ensures extra == Extra(spec, source, target, aliases)
  {
    kept, extra := [], [];
    for i := 0 to |aliases|
      invariant kept == Kept(spec, target, aliases[..i])
      invariant extra == Extra(spec, source, target, aliases[..i])
    {
      assert aliases[..i + 1][..i] == aliases[..i];
      if Moved(spec, target + [aliases[i].name]) {
        extra := extra + [MovedImport(spec, source, target, aliases[i])];
      } else {
        kept := kept + [aliases[i]];
      }
    }
    assert aliases[..|aliases|] == aliases;
  }

  function WithKept(kept: seq<Alias>, header: Import, extra: seq<Import>): seq<Import> {
    (if kept != [] then [header.(aliases := kept)] else []) + extra
  }

  /** One statement of `rewrite_relative`. */
  function RewriteRelative(spec: Spec, previous: Name, current: Name, isPackage: bool, s: Import): seq<Import> {
    if s.level == 0 then [s]
    else
      var target := MoveResolve(previous, isPackage, s.level, s.base);
      if s.base.Some? then
        var (level, rest) := RelativeFrom(current, isPackage, Move(spec, target));
        [Import(level, Named(rest), s.aliases)]
      else
        var (level, rest) := RelativeFrom(current, isPackage, target);
        WithKept(Kept(spec, target, s.aliases), Import(level, Named(rest), []),
                 Extra(spec, Some((current, isPackage)), target, s.aliases))
  }

  /** One statement of `rewrite_root_package_imports`. */
  function RewriteRoot(spec: Spec, s: Import): seq<Import> {
    if s.level != 0 || s.base != Some([ROOT]) then [s]
    else
      var extra := Extra(spec, None, [ROOT], s.aliases);
      if extra == [] then [s] else WithKept(Kept(spec, [ROOT], s.aliases), s, extra)
  }

  function RewriteRootAll(spec: Spec, ss: seq<Import>): seq<Import> {
    if ss == [] then [] else RewriteRoot(spec, ss[0]) + RewriteRootAll(spec, ss[1..])
  }

  function RewriteRelativeAll(spec: Spec, previous: Name, current: Name, isPackage: bool, ss: seq<Import>): seq<Import> {
    if ss == [] then []
    else RewriteRelative(spec, previous, current, isPackage, ss[0]) +
         RewriteRelativeAll(spec, previous, current, isPackage, ss[1..])
  }

  /** `rewrite_python_file` for the file that now sits at `path`. */
  function RewriteFile(spec: Spec, path: Name, ss: seq<Import>): seq<Import> {
    RewriteRootAll(spec,
      RewriteRelativeAll(spec, ModuleOf(OldPath(spec, path)), ModuleOf(path), IsPackagePath(path), ss))
  }

  // ---- what imports denote -------------------------------------------------------------------

  /** The module a statement imports from, as Python finds it: the given name, behind the ancestor package that the
      dots stand for. None when they climb above the top package. */
  function Source(m: Name, isPackage: bool, s: Import): Option<Name> {
    if s.level == 0 then s.base
    else
      var keep := |m| + (if isPackage then 1 else 0) - s.level;
      if keep <= 0 then None else Some(m[..keep] + if s.base.Some? then s.base.value else [])
  }

  /** The rewriter resolves a relative import as Python does. */
  lemma ResolvesAsPython(m: Name, isPackage: bool, s: Import)
    requires s.level > 0
    ensures var r := MoveResolve(m, isPackage, s.level, s.base);
      Source(m, isPackage, s) == if r == [] then None else Some(r)
  {
    var parts := Context(m, isPackage);
    var keep := |parts| - (s.level - 1);
    if keep > 0 { assert PrefixSlice(parts, keep) == parts[..keep] == m[..keep]; }
  }

  function Dotted(source: Option<Name>, name: string): Option<Name> {
    if source.Some? then Some(source.value + [name]) else None
  }

  type Bindings = map<string, Option<Name>>

  /** What the names bound by one statement denote; the last binding of a name wins. */
  function BindAll(source: Option<Name>, aliases: seq<Alias>): Bindings {
    if aliases == [] then map[]
    else
      var a := aliases[|aliases| - 1];
      BindAll(source, aliases[..|aliases| - 1])[a.Binding() := Dotted(source, a.name)]
  }

  function Effect(m: Name, isPackage: bool, ss: seq<Import>): Bindings {
    if ss == [] then map[]
    else BindAll(Source(m, isPackage, ss[0]), ss[0].aliases) + Effect(m, isPackage, ss[1..])
  }

  /** The renaming of a dotted path caused by the move. */
  function Rename(spec: Spec, p: Name): Name {
    if |p| >= 2 && Moved(spec, p[..2]) then Move(spec, p[..2]) + p[2..] else p
  }

  /** A name in a module that an entry moves gets the new module in front, and every other name stays. */
  lemma RenameIs(spec: Spec, p: Name)
    requires Injective(spec)
    ensures forall i: nat, old_, path :: MovesFile(spec, i, old_, path) && old_ <= p ==> Rename(spec, p) == path + p[2..]
    ensures (forall i: nat, old_, path :: MovesFile(spec, i, old_, path) ==> !(old_ <= p)) ==> Rename(spec, p) == p
  {
    forall i: nat, old_, path | MovesFile(spec, i, old_, path) && old_ <= p ensures Rename(spec, p) == path + p[2..] {
      EntryMoves(spec, i, old_, path);
      assert p[..2] == old_;
    }
    if |p| >= 2 && Moved(spec, p[..2]) {
      OthersStay(spec, p[..2]);
      var i: nat, path :| MovesFile(spec, i, p[..2], path);
      assert p[..2] <= p;
    }
  }

  function RenameOption(spec: Spec, p: Option<Name>): Option<Name> {
    if p.Some? then Some(Rename(spec, p.value)) else None
  }

  function RenameAll(spec: Spec, e: Bindings): Bindings {
    map b | b in e :: RenameOption(spec, e[b])
  }

  // ---- one statement -------------------------------------------------------------------------

  /** A moved module is a plain file, so nothing is imported from underneath it. */
  predicate FromExisting(spec: Spec, source: Option<Name>, named: bool) {
    source.Some? && |source.value| >= (if named then 3 else 2) ==> !Moved(spec, source.value[..2])
  }

  predicate Touches(spec: Spec, target: Name, aliases: seq<Alias>, b: string) {
    exists i :: 0 <= i < |aliases| && aliases[i].Binding() == b && Moved(spec, target + [aliases[i].name])
  }

  /** The last alias that binds `b` stays although an earlier one binding it moves: the
      rewriter emits the moved imports last and so reverses the two. */
  predicate Shadows(spec: Spec, target: Name, aliases: seq<Alias>, b: string) {
    Touches(spec, target, aliases, b) && !LastMoved(spec, target, aliases, b)
  }

  ghost function ShadowedNames(spec: Spec, target: Name, aliases: seq<Alias>): iset<string> {
    iset b | Shadows(spec, target, aliases, b)
  }

  predicate LastMoved(spec: Spec, target: Name, aliases: seq<Alias>, b: string) {
    aliases != [] &&
    var a := aliases[|aliases| - 1];
    if a.Binding() == b then Moved(spec, target + [a.name])
    else LastMoved(spec, target, aliases[..|aliases| - 1], b)
  }

  function MovedBindings(spec: Spec, target: Name, aliases: seq<Alias>): Bindings {
    if aliases == [] then map[]
    else
      var a, init := aliases[|aliases| - 1], MovedBindings(spec, target, aliases[..|aliases| - 1]);
      if Moved(spec, target + [a.name]) then init[a.Binding() := Some(Move(spec, target + [a.name]))] else init
  }

  lemma MergeAssoc(a: Bindings, b: Bindings, c: Bindings)
    ensures (a + b) + c == a + (b + c)
  {
  }

  lemma {:induction false} EffectAppend(m: Name, isPackage: bool, a: seq<Import>, b: seq<Import>)
    ensures Effect(m, isPackage, a + b) == Effect(m, isPackage, a) + Effect(m, isPackage, b)
  {
    if a == [] {
      assert a + b == b;
      assert map[] + Effect(m, isPackage, b) == Effect(m, isPackage, b);
    } else {
      assert (a + b)[1..] == a[1..] + b;
      EffectAppend(m, isPackage, a[1..], b);
      MergeAssoc(BindAll(Source(m, isPackage, a[0]), a[0].aliases), Effect(m, isPackage, a[1..]), Effect(m, isPackage, b));
    }
  }

  /** The emitted imports denote the images of the moved names, wherever the file now is. */
  lemma {:induction false} ExtraDenotes(spec: Spec, m: Name, isPackage: bool, source: Option<(Name, bool)>, target: Name,
                                        aliases: seq<Alias>)
    requires source == None || (source == Some((m, isPackage)) && (target == [ROOT] ==> InsideRoot(m, isPackage)))
    requires target != []
    ensures Effect(m, isPackage, Extra(spec, source, target, aliases)) == MovedBindings(spec, target, aliases)
  {
    if aliases != [] {
      var a, init := aliases[|aliases| - 1], aliases[..|aliases| - 1];
      ExtraDenotes(spec, m, isPackage, source, target, init);
      if Moved(spec, target + [a.name]) {
        ExtraStep(spec, m, isPackage, source, target, Extra(spec, source, target, init), a);
      }
    }
  }

  lemma ExtraStep(spec: Spec, m: Name, isPackage: bool, source: Option<(Name, bool)>, target: Name,
                  init: seq<Import>, a: Alias)
    requires source == None || (source == Some((m, isPackage)) && (target == [ROOT] ==> InsideRoot(m, isPackage)))
    requires target != [] && Moved(spec, target + [a.name])
    ensures Effect(m, isPackage, init + [MovedImport(spec, source, target, a)]) ==
            Effect(m, isPackage, init)[a.Binding() := Some(Move(spec, target + [a.name]))]
  {
    var s := MovedImport(spec, source, target, a);
    EffectAppend(m, isPackage, init, [s]);
    MovedImportDenotes(spec, m, isPackage, source, target, a);
    EffectOfOne(m, isPackage, s);
  }

  /** The importing file belongs to `sms_tool`. */
  predicate InsideRoot(m: Name, isPackage: bool) {
    m != [] && m[0] == ROOT && (isPackage || |m| >= 2)
  }

  lemma MovedImportDenotes(spec: Spec, m: Name, isPackage: bool, source: Option<(Name, bool)>, target: Name, a: Alias)
    requires Moved(spec, target + [a.name])
    requires source == None || (source == Some((m, isPackage)) && InsideRoot(m, isPackage))
    ensures var s := MovedImport(spec, source, target, a);
      && |s.aliases| == 1 && s.aliases[0].Binding() == a.Binding()
      && Dotted(Source(m, isPackage, s), s.aliases[0].name) == Some(Move(spec, target + [a.name]))
  {
    var image := Move(spec, target + [a.name]);
    assert image == image[..2] + [image[2]];
    if source.Some? {
      RelativeRoundTrip(m, isPackage, image[..2]);
      ResolvesAsPython(m, isPackage, MovedImport(spec, source, target, a));
    }
  }

  lemma EffectOfOne(m: Name, isPackage: bool, s: Import)
    requires |s.aliases| == 1
    ensures Effect(m, isPackage, [s]) ==
            map[s.aliases[0].Binding() := Dotted(Source(m, isPackage, s), s.aliases[0].name)]
  {
    var source, a := Source(m, isPackage, s), s.aliases[0];
    assert BindAll(source, s.aliases[..0]) == map[];
    assert BindAll(source, s.aliases) == map[a.Binding() := Dotted(source, a.name)];
    assert Effect(m, isPackage, [s][1..]) == map[];
  }

  lemma RenameChild(spec: Spec, target: Name, name: string)
    requires target != [] && FromExisting(spec, Some(target), false)
    ensures Rename(spec, target + [name]) == Move(spec, target + [name])
    ensures Moved(spec, target + [name]) ==> |target| == 1 && |Move(spec, target + [name])| == 3
  {
    var p := target + [name];
    if |p| >= 3 { assert p[..2] == target[..2]; }
    if |p| == 2 { assert p[..2] == p && p[2..] == []; }
  }

  lemma TouchesLast(spec: Spec, target: Name, init: seq<Alias>, a: Alias, b: string)
    ensures Touches(spec, target, init + [a], b) <==>
            Touches(spec, target, init, b) || (a.Binding() == b && Moved(spec, target + [a.name]))
  {
    var aliases := init + [a];
    assert aliases[|init|] == a;
    if i :| 0 <= i < |init| && init[i].Binding() == b && Moved(spec, target + [init[i].name]) {
      assert aliases[i] == init[i];
    }
  }

  lemma BindLast(source: Option<Name>, init: seq<Alias>, a: Alias)
    ensures BindAll(source, init + [a]) == BindAll(source, init)[a.Binding() := Dotted(source, a.name)]
  {
    assert (init + [a])[..|init|] == init;
  }

  /** `b` is bound in both or in neither, and if bound it denotes the same if and only if `same`. */
  predicate Carries(a: Bindings, e: Bindings, b: string, same: bool) {
    (b in a <==> b in e) && (b in a && b in e ==> (a[b] == e[b] <==> same))
  }

  /** They are equal exactly when none of the bound names differs. */
  lemma AllCarried(a: Bindings, e: Bindings, different: iset<string>)
    requires forall b :: b in a <==> b in e
    requires forall b :: b in a && b in e ==> (a[b] == e[b] <==> b !in different)
    requires forall b :: b in different ==> b in e
    ensures a == e <==> different == iset{}
  {
    if a == e { assert forall b :: b in different ==> b in a; }
    if different == iset{} { assert forall b :: b in e ==> a[b] == e[b]; }
  }

  /** Where each binding of the original and of the split statement comes from. */
  ghost predicate Accounted(spec: Spec, target: Name, aliases: seq<Alias>, b: string) {
    var whole, kept, moved := BindAll(Some(target), aliases),
      BindAll(Some(target), Kept(spec, target, aliases)), MovedBindings(spec, target, aliases);
    && (b in moved <==> Touches(spec, target, aliases, b))
    && (b in whole <==> b in kept || b in moved)
    && (b in kept ==> kept[b].Some? && |kept[b].value| == |target| + 1)
    && (b in moved ==> moved[b].Some? && |moved[b].value| == 3 && |target| == 1)
    && (LastMoved(spec, target, aliases, b) ==>
          b in whole && b in moved && RenameOption(spec, whole[b]) == moved[b])
    && (b in whole && !LastMoved(spec, target, aliases, b) ==>
          b in kept && RenameOption(spec, whole[b]) == kept[b])
  }

  lemma KeepStep(spec: Spec, target: Name, init: seq<Alias>, a: Alias, b: string)
    requires target != [] && FromExisting(spec, Some(target), false) && Accounted(spec, target, init, b)
    requires !Moved(spec, target + [a.name])
    ensures Accounted(spec, target, init + [a], b)
  {
    assert (init + [a])[..|init|] == init;
    RenameChild(spec, target, a.name);
    TouchesLast(spec, target, init, a, b);
    BindLast(Some(target), init, a);
    BindLast(Some(target), Kept(spec, target, init), a);
  }

  lemma MoveStep(spec: Spec, target: Name, init: seq<Alias>, a: Alias, b: string)
    requires target != [] && FromExisting(spec, Some(target), false) && Accounted(spec, target, init, b)
    requires Moved(spec, target + [a.name])
    ensures Accounted(spec, target, init + [a], b)
  {
    assert (init + [a])[..|init|] == init;
    RenameChild(spec, target, a.name);
    TouchesLast(spec, target, init, a, b);
    BindLast(Some(target), init, a);
  }

  lemma {:induction false} SplitDenotes(spec: Spec, target: Name, aliases: seq<Alias>, b: string)
    requires target != [] && FromExisting(spec, Some(target), false)
    ensures Accounted(spec, target, aliases, b)
  {
    if aliases != [] {
      var a, init := aliases[|aliases| - 1], aliases[..|aliases| - 1];
      SplitDenotes(spec, target, init, b);
      assert aliases == init + [a];
      if Moved(spec, target + [a.name]) {
        MoveStep(spec, target, init, a, b);
      } else {
        KeepStep(spec, target, init, a, b);
      }
    }
  }

  /** Splitting keeps the set of bound names, and the meaning of a name exactly when it is not bound first by a
      moved and last by an unmoved alias. */
  lemma SplitBinding(spec: Spec, target: Name, aliases: seq<Alias>, b: string)
    requires target != [] && FromExisting(spec, Some(target), false)
    ensures Carries(BindAll(Some(target), Kept(spec, target, aliases)) + MovedBindings(spec, target, aliases),
                    RenameAll(spec, BindAll(Some(target), aliases)), b, !Shadows(spec, target, aliases, b))
  {
    SplitDenotes(spec, target, aliases, b);
  }

  /** Splitting one statement preserves the meaning of every name it binds exactly when no
      name is bound first by a moved and last by an unmoved alias. */
  lemma SplitPreserves(spec: Spec, target: Name, aliases: seq<Alias>)
    requires target != [] && FromExisting(spec, Some(target), false)
    ensures BindAll(Some(target), Kept(spec, target, aliases)) + MovedBindings(spec, target, aliases) ==
            RenameAll(spec, BindAll(Some(target), aliases))
            <==> ShadowedNames(spec, target, aliases) == iset{}
  {
    var whole, split := RenameAll(spec, BindAll(Some(target), aliases)),
      BindAll(Some(target), Kept(spec, target, aliases)) + MovedBindings(spec, target, aliases);
    var different := ShadowedNames(spec, target, aliases);
    forall b ensures b in split <==> b in whole { SplitBinding(spec, target, aliases, b); }
    forall b | b in split && b in whole ensures split[b] == whole[b] <==> b !in different {
      SplitBinding(spec, target, aliases, b);
    }
    forall b | b in different ensures b in whole { SplitDenotes(spec, target, aliases, b); }
    AllCarried(split, whole, different);
  }

  // ---- from statements to files ---------------------------------------------------------------

  /** An import from a module that can exist. Absolute imports from a moved module are left to another pass. */
  predicate Handled(spec: Spec, m: Name, isPackage: bool, s: Import) {
    && (s.level == 0 ==> s.base.Some? && (|s.base.value| >= 2 ==> !Moved(spec, s.base.value[..2])))
    && (s.base.Some? ==> s.base.value != [])
    && FromExisting(spec, Source(m, isPackage, s), s.base.Some?)
  }

  /** The name is bound first by a moved and last by an unmoved alias of the statement, which is split. */
  predicate Reordered(spec: Spec, m: Name, isPackage: bool, s: Import, b: string) {
    (s.level == 0 || s.base.None?) && Source(m, isPackage, s).Some?
    && Shadows(spec, Source(m, isPackage, s).value, s.aliases, b)
  }

  ghost function ReorderedNames(spec: Spec, m: Name, isPackage: bool, s: Import): iset<string> {
    iset b | Reordered(spec, m, isPackage, s, b)
  }

  /** The file kept its place in the package tree, up to the move. */
  predicate Placed(before: Name, after: Name) {
    before != [] && after != [] && before[0] == after[0] && (|before| >= 2 ==> |after| >= 2)
  }

  /** A rewritten header names the intended package from the new location. */
  lemma HeaderDenotes(before: Name, after: Name, isPackage: bool, level: nat, base: Option<Name>, target: Name)
    requires Placed(before, after) && level >= 1
    requires var r := MoveResolve(before, isPackage, level, base);
      if r == [] then target == [] else target != [] && target[0] == r[0]
    ensures var (l, rest) := RelativeFrom(after, isPackage, target);
      l >= 1 && MoveResolve(after, isPackage, l, Named(rest)) == target
  {
    var r := MoveResolve(before, isPackage, level, base);
    if r != [] {
      assert r[0] == before[0];
      RelativeRoundTrip(after, isPackage, target);
    }
  }

  lemma {:induction false} NoMovesFromNowhere(spec: Spec, aliases: seq<Alias>)
    ensures Kept(spec, [], aliases) == aliases && forall source :: Extra(spec, source, [], aliases) == []
  {
    if aliases != [] {
      NoMovesFromNowhere(spec, aliases[..|aliases| - 1]);
      assert aliases == aliases[..|aliases| - 1] + [aliases[|aliases| - 1]];
    }
  }

  lemma {:induction false} UnresolvedStays(spec: Spec, aliases: seq<Alias>)
    ensures RenameAll(spec, BindAll(None, aliases)) == BindAll(None, aliases)
  {
    if aliases != [] { UnresolvedStays(spec, aliases[..|aliases| - 1]); }
  }

  lemma {:induction false} NamedRenames(spec: Spec, target: Name, aliases: seq<Alias>)
    requires |target| >= 2 && FromExisting(spec, Some(target), true)
    ensures BindAll(Some(Move(spec, target)), aliases) == RenameAll(spec, BindAll(Some(target), aliases))
  {
    if aliases != [] {
      NamedRenames(spec, target, aliases[..|aliases| - 1]);
      var p := target + [aliases[|aliases| - 1].name];
      assert p[..2] == target[..2] && p[2..] == target[2..] + [aliases[|aliases| - 1].name];
      if |target| == 2 { assert target[..2] == target && target[2..] == []; }
    }
  }

  lemma EffectSingle(m: Name, isPackage: bool, s: Import)
    ensures Effect(m, isPackage, [s]) == BindAll(Source(m, isPackage, s), s.aliases)
  {
    assert Effect(m, isPackage, [s][1..]) == map[];
  }

  lemma EffectWithKept(m: Name, isPackage: bool, kept: seq<Alias>, header: Import, extra: seq<Import>)
    ensures Effect(m, isPackage, WithKept(kept, header, extra)) ==
            BindAll(Source(m, isPackage, header), kept) + Effect(m, isPackage, extra)
  {
    if kept != [] {
      var s := header.(aliases := kept);
      EffectAppend(m, isPackage, [s], extra);
      EffectSingle(m, isPackage, s);
    } else {
      assert WithKept(kept, header, extra) == extra;
      assert map[] + Effect(m, isPackage, extra) == Effect(m, isPackage, extra);
    }
  }

  /** `from .x import ...` always keeps its meaning. */
  lemma NamedStatement(spec: Spec, before: Name, after: Name, isPackage: bool, s: Import)
    requires Placed(before, after) && s.level > 0 && s.base.Some? && Handled(spec, before, isPackage, s)
    ensures Effect(after, isPackage, RewriteRelative(spec, before, after, isPackage, s)) ==
            RenameAll(spec, BindAll(Source(before, isPackage, s), s.aliases))
  {
    var target := MoveResolve(before, isPackage, s.level, s.base);
    HeaderDenotes(before, after, isPackage, s.level, s.base, Move(spec, target));
    ResolvesAsPython(before, isPackage, s);
    var (level, rest) := RelativeFrom(after, isPackage, Move(spec, target));
    ResolvesAsPython(after, isPackage, Import(level, Named(rest), s.aliases));
    EffectSingle(after, isPackage, Import(level, Named(rest), s.aliases));
    if target == [] { UnresolvedStays(spec, s.aliases); } else { NamedRenames(spec, target, s.aliases); }
  }

  lemma UnresolvedSplit(spec: Spec, aliases: seq<Alias>, source: Option<(Name, bool)>)
    ensures Extra(spec, source, [], aliases) == []
    ensures BindAll(None, Kept(spec, [], aliases)) + map[] == RenameAll(spec, BindAll(None, aliases))
  {
    NoMovesFromNowhere(spec, aliases);
    UnresolvedStays(spec, aliases);
  }

  /** `from . import ...` keeps the meaning of a name exactly when it is not reordered. */
  lemma SplitStatement(spec: Spec, before: Name, after: Name, isPackage: bool, s: Import, b: string)
    requires Placed(before, after) && s.level > 0 && s.base.None? && Handled(spec, before, isPackage, s)
    ensures Carries(Effect(after, isPackage, RewriteRelative(spec, before, after, isPackage, s)),
                    RenameAll(spec, BindAll(Source(before, isPackage, s), s.aliases)), b,
                    !Reordered(spec, before, isPackage, s, b))
  {
    var target := MoveResolve(before, isPackage, s.level, s.base);
    HeaderDenotes(before, after, isPackage, s.level, s.base, target);
    ResolvesAsPython(before, isPackage, s);
    var (level, rest) := RelativeFrom(after, isPackage, target);
    var header, extra := Import(level, Named(rest), []), Extra(spec, Some((after, isPackage)), target, s.aliases);
    EffectWithKept(after, isPackage, Kept(spec, target, s.aliases), header, extra);
    ResolvesAsPython(after, isPackage, header);
    if target == [] {
      UnresolvedSplit(spec, s.aliases, Some((after, isPackage)));
    } else {
      ExtraDenotes(spec, after, isPackage, Some((after, isPackage)), target, s.aliases);
      SplitBinding(spec, target, s.aliases, b);
    }
  }

  /** `from sms_tool import ...` */
  lemma RootStatement(spec: Spec, after: Name, isPackage: bool, s: Import, b: string)
    requires s.level == 0 && s.base == Some([ROOT])
    ensures Carries(Effect(after, isPackage, RewriteRoot(spec, s)), RenameAll(spec, BindAll(Some([ROOT]), s.aliases)), b,
                    !Reordered(spec, after, isPackage, s, b))
  {
    ExtraDenotes(spec, after, isPackage, None, [ROOT], s.aliases);
    SplitBinding(spec, [ROOT], s.aliases, b);
    var extra := Extra(spec, None, [ROOT], s.aliases);
    EffectWithKept(after, isPackage, Kept(spec, [ROOT], s.aliases), s, extra);
    if extra == [] {
      NothingMoved(spec, s.aliases);
      EffectSingle(after, isPackage, s);
      assert BindAll(Some([ROOT]), s.aliases) + map[] == BindAll(Some([ROOT]), s.aliases);
    }
  }

  lemma {:induction false} NothingMoved(spec: Spec, aliases: seq<Alias>)
    requires Extra(spec, None, [ROOT], aliases) == []
    ensures Kept(spec, [ROOT], aliases) == aliases && MovedBindings(spec, [ROOT], aliases) == map[]
  {
    if aliases != [] {
      NothingMoved(spec, aliases[..|aliases| - 1]);
      assert aliases == aliases[..|aliases| - 1] + [aliases[|aliases| - 1]];
    }
  }

  /** `from pathlib import ...` and absolute imports from modules that stay: neither pass touches them, and
      nothing they name moves. */
  lemma {:induction false} ElsewhereRenames(spec: Spec, source: Name, aliases: seq<Alias>)
    requires source != [] && source != [ROOT] && (|source| >= 2 ==> !Moved(spec, source[..2]))
    ensures RenameAll(spec, BindAll(Some(source), aliases)) == BindAll(Some(source), aliases)
    ensures forall b :: !Touches(spec, source, aliases, b)
  {
    if aliases != [] {
      ElsewhereRenames(spec, source, aliases[..|aliases| - 1]);
      var p := source + [aliases[|aliases| - 1].name];
      assert |source| >= 2 ==> p[..2] == source[..2];
    }
  }

  lemma RenameMerge(spec: Spec, a: Bindings, b: Bindings)
    ensures RenameAll(spec, a + b) == RenameAll(spec, a) + RenameAll(spec, b)
  {
  }

  lemma {:induction false} RootAllAppend(spec: Spec, a: seq<Import>, b: seq<Import>)
    ensures RewriteRootAll(spec, a + b) == RewriteRootAll(spec, a) + RewriteRootAll(spec, b)
  {
    if a == [] {
      assert a + b == b;
    } else {
      assert (a + b)[1..] == a[1..] + b;
      RootAllAppend(spec, a[1..], b);
    }
  }

  /** The second pass leaves relative imports alone. */
  lemma {:induction false} RootAllRelative(spec: Spec, ss: seq<Import>)
    requires forall s :: s in ss ==> s.level > 0
    ensures RewriteRootAll(spec, ss) == ss
  {
    if ss != [] {
      assert ss == [ss[0]] + ss[1..] && ss[0] in ss;
      RootAllRelative(spec, ss[1..]);
    }
  }

  lemma {:induction false} ExtraRelative(spec: Spec, m: Name, isPackage: bool, target: Name, aliases: seq<Alias>)
    ensures forall s :: s in Extra(spec, Some((m, isPackage)), target, aliases) ==> s.level > 0
  {
    if aliases != [] { ExtraRelative(spec, m, isPackage, target, aliases[..|aliases| - 1]); }
  }

  /** Both passes over one statement. */
  function RewriteBoth(spec: Spec, before: Name, after: Name, isPackage: bool, s: Import): seq<Import> {
    RewriteRootAll(spec, RewriteRelative(spec, before, after, isPackage, s))
  }

  /** A rewritten statement binds a name to the renamed image of its old denotation exactly when it is not
      reordered. */
  lemma StatementBinding(spec: Spec, before: Name, after: Name, isPackage: bool, s: Import, b: string)
    requires Placed(before, after) && Handled(spec, before, isPackage, s)
    ensures Carries(Effect(after, isPackage, RewriteBoth(spec, before, after, isPackage, s)),
                    RenameAll(spec, BindAll(Source(before, isPackage, s), s.aliases)), b,
                    !Reordered(spec, before, isPackage, s, b))
  {
    if s.level == 0 {
      assert RewriteRootAll(spec, [s]) == RewriteRoot(spec, s) by {
        assert RewriteRootAll(spec, [s][1..]) == [];
      }
      if s.base == Some([ROOT]) {
        RootStatement(spec, after, isPackage, s, b);
      } else {
        ElsewhereRenames(spec, s.base.value, s.aliases);
        EffectSingle(after, isPackage, s);
      }
    } else {
      var target := MoveResolve(before, isPackage, s.level, s.base);
      ExtraRelative(spec, after, isPackage, target, s.aliases);
      RootAllRelative(spec, RewriteRelative(spec, before, after, isPackage, s));
      if s.base.Some? {
        NamedStatement(spec, before, after, isPackage, s);
      } else {
        SplitStatement(spec, before, after, isPackage, s, b);
      }
    }
  }

  /** So the statement keeps its meaning exactly when no name is reordered. */
  lemma StatementMeaning(spec: Spec, before: Name, after: Name, isPackage: bool, s: Import)
    requires Placed(before, after) && Handled(spec, before, isPackage, s)
    ensures (Effect(after, isPackage, RewriteBoth(spec, before, after, isPackage, s)) ==
             RenameAll(spec, BindAll(Source(before, isPackage, s), s.aliases)))
            <==> ReorderedNames(spec, before, isPackage, s) == iset{}
  {
    var rewritten, renamed := Effect(after, isPackage, RewriteBoth(spec, before, after, isPackage, s)),
      RenameAll(spec, BindAll(Source(before, isPackage, s), s.aliases));
    var different := ReorderedNames(spec, before, isPackage, s);
    forall b ensures b in rewritten <==> b in renamed { StatementBinding(spec, before, after, isPackage, s, b); }
    forall b | b in rewritten && b in renamed ensures rewritten[b] == renamed[b] <==> b !in different {
      StatementBinding(spec, before, after, isPackage, s, b);
    }
    forall b | b in different ensures b in renamed { ReorderedIsBound(spec, before, isPackage, s, b); }
    AllCarried(rewritten, renamed, different);
  }

  lemma {:induction false} BoundByAlias(source: Option<Name>, aliases: seq<Alias>, b: string)
    ensures b in BindAll(source, aliases) <==> exists i :: 0 <= i < |aliases| && aliases[i].Binding() == b
  {
    if aliases != [] {
      var init := aliases[..|aliases| - 1];
      BoundByAlias(source, init, b);
      if i :| 0 <= i < |aliases| && aliases[i].Binding() == b && i < |init| { assert init[i] == aliases[i]; }
      if i :| 0 <= i < |init| && init[i].Binding() == b { assert aliases[i] == init[i]; }
    }
  }

  lemma ReorderedIsBound(spec: Spec, m: Name, isPackage: bool, s: Import, b: string)
    requires Reordered(spec, m, isPackage, s, b)
    ensures b in BindAll(Source(m, isPackage, s), s.aliases)
  {
    BoundByAlias(Source(m, isPackage, s), s.aliases, b);
  }

  ghost predicate AllHandled(spec: Spec, m: Name, isPackage: bool, ss: seq<Import>) {
    forall s :: s in ss ==> Handled(spec, m, isPackage, s)
  }

  /** The last statement that binds the name reorders it. */
  ghost predicate FinallyReordered(spec: Spec, m: Name, isPackage: bool, ss: seq<Import>, b: string) {
    ss != [] &&
    if b in Effect(m, isPackage, ss[1..]) then FinallyReordered(spec, m, isPackage, ss[1..], b)
    else Reordered(spec, m, isPackage, ss[0], b)
  }

  ghost function FinallyReorderedNames(spec: Spec, m: Name, isPackage: bool, ss: seq<Import>): iset<string> {
    iset b | FinallyReordered(spec, m, isPackage, ss, b)
  }

  lemma {:induction false} FileBinding(spec: Spec, before: Name, after: Name, isPackage: bool, ss: seq<Import>, b: string)
    requires Placed(before, after) && AllHandled(spec, before, isPackage, ss)
    ensures Carries(Effect(after, isPackage, RewriteRootAll(spec, RewriteRelativeAll(spec, before, after, isPackage, ss))),
                    RenameAll(spec, Effect(before, isPackage, ss)), b,
                    !FinallyReordered(spec, before, isPackage, ss, b))
  {
    if ss != [] {
      assert ss == [ss[0]] + ss[1..] && ss[0] in ss;
      StatementBinding(spec, before, after, isPackage, ss[0], b);
      FileBinding(spec, before, after, isPackage, ss[1..], b);
      var head, rest := RewriteRelative(spec, before, after, isPackage, ss[0]),
        RewriteRelativeAll(spec, before, after, isPackage, ss[1..]);
      RootAllAppend(spec, head, rest);
      EffectAppend(after, isPackage, RewriteRootAll(spec, head), RewriteRootAll(spec, rest));
      RenameMerge(spec, BindAll(Source(before, isPackage, ss[0]), ss[0].aliases), Effect(before, isPackage, ss[1..]));
    }
  }

  lemma {:induction false} FinallyReorderedIsBound(spec: Spec, m: Name, isPackage: bool, ss: seq<Import>, b: string)
    requires FinallyReordered(spec, m, isPackage, ss, b)
    ensures b in Effect(m, isPackage, ss)
  {
    if b !in Effect(m, isPackage, ss[1..]) { ReorderedIsBound(spec, m, isPackage, ss[0], b); }
  }

  /** A file of such statements keeps the meaning of all its imports exactly when no name is reordered by the last
      statement that binds it. */
  lemma StatementsMeaning(spec: Spec, before: Name, after: Name, isPackage: bool, ss: seq<Import>)
    requires Placed(before, after) && AllHandled(spec, before, isPackage, ss)
    ensures Effect(after, isPackage, RewriteRootAll(spec, RewriteRelativeAll(spec, before, after, isPackage, ss))) ==
            RenameAll(spec, Effect(before, isPackage, ss))
      <==> FinallyReorderedNames(spec, before, isPackage, ss) == iset{}
  {
    var rewritten, renamed :=
      Effect(after, isPackage, RewriteRootAll(spec, RewriteRelativeAll(spec, before, after, isPackage, ss))),
      RenameAll(spec, Effect(before, isPackage, ss));
    var different := FinallyReorderedNames(spec, before, isPackage, ss);
    forall b ensures b in rewritten <==> b in renamed { FileBinding(spec, before, after, isPackage, ss, b); }
    forall b | b in rewritten && b in renamed ensures rewritten[b] == renamed[b] <==> b !in different {
      FileBinding(spec, before, after, isPackage, ss, b);
    }
    forall b | b in different ensures b in renamed { FinallyReorderedIsBound(spec, before, isPackage, ss, b); }
    AllCarried(rewritten, renamed, different);
  }

  /** Every binding of the file denotes, after the rewrite and from the file's new place,
      the renamed image of what it denoted before. */
  ghost predicate MeaningKept(spec: Spec, path: Name, ss: seq<Import>) {
    Effect(ModuleOf(path), IsPackagePath(path), RewriteFile(spec, path, ss)) ==
    RenameAll(spec, Effect(ModuleOf(OldPath(spec, path)), IsPackagePath(OldPath(spec, path)), ss))
  }

  /** No name of the file is reordered by the last statement that binds it. */
  ghost predicate InOrder(spec: Spec, path: Name, ss: seq<Import>) {
    FinallyReorderedNames(spec, ModuleOf(OldPath(spec, path)), IsPackagePath(OldPath(spec, path)), ss) == iset{}
  }

  ghost predicate FileHandled(spec: Spec, path: Name, ss: seq<Import>) {
    AllHandled(spec, ModuleOf(OldPath(spec, path)), IsPackagePath(OldPath(spec, path)), ss)
  }

  /** Whatever handled statements a file holds, it keeps their meaning if and only if no name is reordered: this is
      so exactly when the file is not itself moved onto a package's `__init__` file, where the rewriter takes the
      old plain module for a package. */
  lemma FileMeaning(spec: Spec, path: Name)
    requires path != [] && Injective(spec)
    ensures (forall ss :: FileHandled(spec, path, ss) ==> (MeaningKept(spec, path, ss) <==> InOrder(spec, path, ss)))
            <==> !(OldPath(spec, path) != path && IsPackagePath(path))
  {
    var before, after := ModuleOf(OldPath(spec, path)), ModuleOf(path);
    if OldPath(spec, path) != path && IsPackagePath(path) {
      InitLeafBreaks(spec, path);
    } else {
      if OldPath(spec, path) != path { OldPathMoves(spec, path); }
      forall ss | FileHandled(spec, path, ss) ensures MeaningKept(spec, path, ss) <==> InOrder(spec, path, ss) {
        StatementsMeaning(spec, before, after, IsPackagePath(path), ss);
        assert IsPackagePath(OldPath(spec, path)) == IsPackagePath(path);
      }
    }
  }

  /** The counterexample: the moved file imports from itself. */
  lemma InitLeafBreaks(spec: Spec, path: Name)
    requires Injective(spec) && OldPath(spec, path) != path && IsPackagePath(path)
    ensures exists ss :: FileHandled(spec, path, ss) && InOrder(spec, path, ss) && !MeaningKept(spec, path, ss)
  {
    OldPathMoves(spec, path);
    var oldPath := OldPath(spec, path);
    var s := Import(1, Some([oldPath[1]]), [Alias("x", None)]);
    var ss := [s];
    assert ModuleOf(oldPath) == oldPath && !IsPackagePath(oldPath);
    assert Context(oldPath, false) == [ROOT];
    assert [ROOT] + [oldPath[1]] == oldPath;
    assert Source(oldPath, false, s) == Some(oldPath);
    EffectOfOne(oldPath, false, s);
    assert FileHandled(spec, path, ss) && InOrder(spec, path, ss);
    // what the name should denote afterwards
    assert (oldPath + ["x"])[..2] == oldPath && (oldPath + ["x"])[2..] == ["x"];
    assert Moved(spec, oldPath);
    assert Rename(spec, oldPath + ["x"]) == path + ["x"];
    assert Effect(oldPath, false, ss)["x"] == Some(oldPath + ["x"]);
    assert RenameAll(spec, Effect(oldPath, false, ss))["x"] == Some(path + ["x"]);
    // what it does denote
    var after := ModuleOf(path);
    var s' := SelfImportRewritten(spec, oldPath, after, s);
    assert (oldPath + [oldPath[1]] + ["x"])[2] == oldPath[1] && (path + ["x"])[2] == INIT;
    assert Effect(after, true, [s'])["x"] == Some(oldPath + [oldPath[1]] + ["x"]);
    assert !MeaningKept(spec, path, ss);
  }

  /** The rewriter resolves the import one level too low. */
  lemma SelfImportRewritten(spec: Spec, oldPath: Name, after: Name, s: Import) returns (s': Import)
    requires |oldPath| == 2 && oldPath[0] == ROOT && after != [] && after[0] == ROOT
    requires s == Import(1, Some([oldPath[1]]), [Alias("x", None)])
    ensures RewriteRootAll(spec, RewriteRelativeAll(spec, oldPath, after, true, [s])) == [s']
    ensures "x" in Effect(after, true, [s']) && Effect(after, true, [s'])["x"] == Some(oldPath + [oldPath[1]] + ["x"])
  {
    var target := MoveResolve(oldPath, true, 1, s.base);
    assert target == oldPath + [oldPath[1]];
    var (level, rest) := RelativeFrom(after, true, target);
    RelativeRoundTrip(after, true, target);
    s' := Import(level, Named(rest), s.aliases);
    assert RewriteRelativeAll(spec, oldPath, after, true, [s][1..]) == [];
    assert RewriteRelativeAll(spec, oldPath, after, true, [s]) == [s'];
    RootAllRelative(spec, [s']);
    EffectOfOne(after, true, s');
  }

  /** The statement loop of `rewrite_relative`. */
  method RewriteRelativeLoop(spec: Spec, before: Name, after: Name, isPackage: bool, ss: seq<Import>)
    returns (result: seq<Import>)
    ensures result == RewriteRelativeAll(spec, before, after, isPackage, ss)
  {
    result := [];
    for i := 0 to |ss|
      invariant result + RewriteRelativeAll(spec, before, after, isPackage, ss[i..]) ==
                RewriteRelativeAll(spec, before, after, isPackage, ss)
    {
      assert ss[i..][1..] == ss[i + 1..];
      result := result + RewriteRelative(spec, before, after, isPackage, ss[i]);
    }
  }

  /** The statement loop of `rewrite_root_package_imports`. */
  method RewriteRootLoop(spec: Spec, ss: seq<Import>) returns (result: seq<Import>)
    ensures result == RewriteRootAll(spec, ss)
  {
    result := [];
    for i := 0 to |ss|
      invariant result + RewriteRootAll(spec, ss[i..]) == RewriteRootAll(spec, ss)
    {
      assert ss[i..][1..] == ss[i + 1..];
      result := result + RewriteRoot(spec, ss[i]);
    }
  }

  /** The file that an entry has moved keeps the meaning of its imports, seen from its old place, exactly when no name
      is reordered. */
  lemma MovedFileMeaning(spec: Spec, i: nat, old_: Name, path: Name, ss: seq<Import>)
    requires Injective(spec) && MovesFile(spec, i, old_, path) && path[2] != "__init__" && AllHandled(spec, old_, false, ss)
    ensures Effect(path, false, RewriteFile(spec, path, ss)) == RenameAll(spec, Effect(old_, false, ss))
      <==> FinallyReorderedNames(spec, old_, false, ss) == iset{}
  {
    EntryMoves(spec, i, old_, path);
    StatementsMeaning(spec, old_, path, false, ss);
  }

  /** The file at `path` is the module `m`. */
  predicate IsModule(path: Name, m: Name, isPackage: bool) {
    m != [] && if isPackage then path == m + ["__init__"] else path == m && m[|m| - 1] != "__init__"
  }

  /** So does a file that no entry has moved, seen from where it is. */
  lemma OtherFileMeaning(spec: Spec, path: Name, m: Name, isPackage: bool, ss: seq<Import>)
    requires IsModule(path, m, isPackage) && AllHandled(spec, m, isPackage, ss)
    requires forall i: nat, old_ :: !MovesFile(spec, i, old_, path)
    ensures Effect(m, isPackage, RewriteFile(spec, path, ss)) == RenameAll(spec, Effect(m, isPackage, ss))
      <==> FinallyReorderedNames(spec, m, isPackage, ss) == iset{}
  {
    OthersStay(spec, path);
    assert isPackage ==> path[..|path| - 1] == m;
    assert ModuleOf(path) == m && IsPackagePath(path) == isPackage;
    StatementsMeaning(spec, m, m, isPackage, ss);
  }

  /** Entry `i` has moved a file of such statements, none of whose names is reordered. */
  ghost predicate MovesInOrder(spec: Spec, i: nat, old_: Name, path: Name, ss: seq<Import>) {
    && Injective(spec) && MovesFile(spec, i, old_, path) && path[2] != "__init__"
    && AllHandled(spec, old_, false, ss) && FinallyReorderedNames(spec, old_, false, ss) == iset{}
  }

  /** `rewrite_python_file` */
  method RewritePythonFile(spec: Spec, path: Name, ss: seq<Import>) returns (result: seq<Import>)
    ensures result == RewriteFile(spec, path, ss)
    ensures forall i: nat, old_ :: MovesInOrder(spec, i, old_, path, ss) ==>
      Effect(path, false, result) == RenameAll(spec, Effect(old_, false, ss))
  {
    var relative := RewriteRelativeLoop(spec, ModuleOf(OldPath(spec, path)), ModuleOf(path), IsPackagePath(path), ss);
    result := RewriteRootLoop(spec, relative);
    forall i: nat, old_ | MovesInOrder(spec, i, old_, path, ss)
      ensures Effect(path, false, result) == RenameAll(spec, Effect(old_, false, ss))
    {
      MovedFileMeaning(spec, i, old_, path, ss);
    }
  }
}
