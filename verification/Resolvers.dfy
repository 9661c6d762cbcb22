/** The five relative-import resolvers of the scripts, and `relative_from`, which spells an
    absolute name relatively.  A dotted name is the list of its segments; "" is []. */
module Resolvers {
  import opened Ordering
  import opened Wrappers

  /** `s[:k]`: a bound beyond the end takes everything, and a negative one counts from the end. */
  function PrefixSlice(s: Name, k: int): (r: Name)
    ensures r <= s
    ensures k >= 0 ==> |r| == k || (|r| == |s| && k > |s|)
    ensures k < 0 ==> |r| == |s| + k || (|r| == 0 && |s| + k < 0)
  {
    if k < 0 then (if |s| + k > 0 then s[..|s| + k] else [])
    else if k < |s| then s[..k] else s
  }

  /** `name.rsplit(".", 1)[0]` */
  function Parent(m: Name): Name {
    if |m| >= 2 then m[..|m| - 1] else m
  }

  /** The package a relative import starts from. */
  function Context(m: Name, isPackage: bool): Name {
    if isPackage || m == [] then m else m[..|m| - 1]
  }

  function OrEmpty(base: Option<Name>): Name {
    if base.Some? then base.value else []
  }

  /** module_move.resolve_relative */
  function MoveResolve(m: Name, isPackage: bool, level: nat, base: Option<Name>): Name {
    var parts := Context(m, isPackage);
    var keep := |parts| - (level - 1);
    if keep <= 0 then [] else PrefixSlice(parts, keep) + OrEmpty(base)
  }

  /** dependency_graph._relative_base and the name built on it in `_import_targets` */
  function GraphResolve(m: Name, isPackage: bool, level: nat, base: Option<Name>): Option<Name> {
    var parts := Context(m, isPackage);
    var keep := |parts| - (level - 1);
    if keep <= 0 then None else Some(PrefixSlice(parts, keep) + OrEmpty(base))
  }

  /** import_layer_ratchet._resolve_relative */
  function LayerResolve(m: Name, isPackage: bool, level: nat, base: Option<Name>): Name {
    var context := Context(m, isPackage);
    var context' := if level > 1 then PrefixSlice(context, |context| - (level - 1)) else context;
    context' + OrEmpty(base)
  }

  /** delayed_import_ratchet.resolve_target for a named import; it starts from the file's
      path, whose last segment is `__init__` for a package. */
  function DelayedResolve(m: Name, isPackage: bool, level: nat, base: Option<Name>): Name {
    var parts := Parent(if isPackage then m + ["__init__"] else m);
    var up := level - 1;
    var prefix := if up != 0 then PrefixSlice(parts, |parts| - up) else parts;
    prefix + OrEmpty(base)
  }

  /** lane_coupling_ratchet._resolve, first name */
  function LaneResolve(m: Name, isPackage: bool, level: nat, base: Option<Name>): Name {
    var parts := Context(m, isPackage);
    var up := level - 1;
    var parts' := if up > 0 then (if up <= |parts| then PrefixSlice(parts, -up) else []) else parts;
    parts' + OrEmpty(base)
  }

  /** Python accepts the import: it does not climb above the top-level package. */
  predicate Legal(m: Name, isPackage: bool, level: nat) {
    level >= 1 && |Context(m, isPackage)| > level - 1
  }

  ghost predicate Agree(m: Name, isPackage: bool, level: nat, base: Option<Name>) {
    var r := MoveResolve(m, isPackage, level, base);
    && OrEmpty(GraphResolve(m, isPackage, level, base)) == r
    && LayerResolve(m, isPackage, level, base) == r
    && DelayedResolve(m, isPackage, level, base) == r
    && LaneResolve(m, isPackage, level, base) == r
  }

  /** On a named import the five resolvers give the same answer exactly when the import is
      legal; they all then name the ancestor package followed by the given name. */
  lemma ResolversAgree(m: Name, isPackage: bool, level: nat, base: Option<Name>)
    requires m != [] && level >= 1 && base.Some? && base.value != []
    ensures Agree(m, isPackage, level, base) <==> Legal(m, isPackage, level)
    ensures Legal(m, isPackage, level) ==>
      MoveResolve(m, isPackage, level, base) == m[..|Context(m, isPackage)| - (level - 1)] + base.value
  {
    var parts := Context(m, isPackage);
    if Legal(m, isPackage, level) {
      var keep := |parts| - (level - 1);
      assert Parent(if isPackage then m + ["__init__"] else m) == parts;
      assert parts[..keep] == m[..keep];
      assert PrefixSlice(parts, keep) == parts[..keep];
    } else {
      assert |LaneResolve(m, isPackage, level, base)| >= |base.value|;
    }
  }

  // ---- relative_from ---------------------------------------------------------------------

  function CommonLength(a: Name, b: Name): (n: nat)
    ensures n <= |a| && n <= |b| && a[..n] == b[..n]
    ensures n < |a| && n < |b| ==> a[n] != b[n]
  {
    if a == [] || b == [] || a[0] != b[0] then 0 else
      var n := 1 + CommonLength(a[1..], b[1..]);
      assert a[..n] == [a[0]] + a[1..][..n - 1] && b[..n] == [b[0]] + b[1..][..n - 1];
      n
  }

  lemma {:induction false} CommonPrefixBound(a: Name, b: Name, k: nat)
    requires k <= |a| && k <= |b| && a[..k] == b[..k]
    ensures k <= CommonLength(a, b)
  {
    if k > 0 {
      assert a[0] == a[..k][0] == b[..k][0] == b[0];
      assert a[1..][..k - 1] == a[..k][1..] == b[..k][1..] == b[1..][..k - 1];
      CommonPrefixBound(a[1..], b[1..], k - 1);
    }
  }

  lemma {:induction false} CommonLengthExact(a: Name, b: Name, k: nat)
    requires k <= |a| && k <= |b| && a[..k] == b[..k] && (k == |a| || k == |b| || a[k] != b[k])
    ensures k == CommonLength(a, b)
  {
    if k > 0 {
      assert a[0] == a[..k][0] == b[..k][0] == b[0];
      assert a[1..][..k - 1] == a[..k][1..] == b[..k][1..] == b[1..][..k - 1];
      CommonLengthExact(a[1..], b[1..], k - 1);
    }
  }

  /** The package that `relative_from` counts its dots from. */
  function SourcePackage(m: Name, isPackage: bool): Name {
    if isPackage then m else Parent(m)
  }

  function RelativeFrom(m: Name, isPackage: bool, target: Name): (nat, Name) {
    var src := SourcePackage(m, isPackage);
    var n := CommonLength(src, target);
    (|src| - n + 1, target[n..])
  }

  /** module_move.relative_from: the counting loop. */
  method RelativeFromLoop(m: Name, isPackage: bool, target: Name) returns (level: nat, rest: Name)
    ensures (level, rest) == RelativeFrom(m, isPackage, target)
  {
    var src := SourcePackage(m, isPackage);
    var common := 0;
    while common < |src| && common < |target| && src[common] == target[common]
      invariant common <= |src| && common <= |target| && src[..common] == target[..common]
    {
      common := common + 1;
    }
    CommonLengthExact(src, target, common);
    return |src| - common + 1, target[common..];
  }

  /** `base or None`: an empty remainder names no module. */
  function Named(rest: Name): Option<Name> {
    if rest == [] then None else Some(rest)
  }

  /** `resolve_relative` undoes `relative_from` exactly when the two names share their root
      and the importing file lies inside a package. */
  lemma RelativeRoundTrip(m: Name, isPackage: bool, target: Name)
    requires m != [] && target != []
    ensures var (level, rest) := RelativeFrom(m, isPackage, target);
      MoveResolve(m, isPackage, level, Named(rest)) == target <==>
      m[0] == target[0] && (isPackage || |m| >= 2)
  {
    var src := SourcePackage(m, isPackage);
    var n := CommonLength(src, target);
    if m[0] == target[0] {
      CommonPrefixBound(src, target, 1);
    }
    if isPackage || |m| >= 2 {
      assert Context(m, isPackage) == src;
      if n > 0 {
        assert src[0] == src[..n][0] == target[..n][0] == target[0];
        assert PrefixSlice(src, n) == src[..n];
        assert target == target[..n] + target[n..];
      }
    }
  }

  /** No shorter run of dots can name the target. */
  lemma RelativeLevelMinimal(m: Name, isPackage: bool, target: Name, level: nat, base: Option<Name>)
    requires target != [] && level >= 1 && MoveResolve(m, isPackage, level, base) == target
    ensures RelativeFrom(m, isPackage, target).0 <= level
  {
    var parts := Context(m, isPackage);
    var keep := |parts| - (level - 1);
    var src := SourcePackage(m, isPackage);
    assert parts == src;
    assert PrefixSlice(parts, keep) == parts[..keep];
    assert target[..keep] == src[..keep];
    CommonPrefixBound(src, target, keep);
  }
}
