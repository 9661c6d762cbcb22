/** Proxy routes leave the command line: SmsWorkbench.Contracts/ProxyArgumentTransport.cs moves flag values into
    environment variables, and BackendCommandPlanner.cs emits the flags it undoes. A missing (null) argument or
    list behaves like an empty one. */
module ProxyTransport {
  import opened Wrappers
  import Texts = BackendOutput

  const PROXY_FLAG := "--proxy"
  const PROXY_POOL_FLAG := "--proxy-pool"
  const CHECKOUT_POOL_FLAG := "--checkout-proxy-pool"
  const APPROVE_POOL_FLAG := "--approve-proxy-pool"
  const PROXY_VARIABLE := "SMS_TOOL_PROXY"
  const PROXY_POOL_VARIABLE := "SMS_TOOL_PROXY_POOL"
  const CHECKOUT_POOL_VARIABLE := "SMS_TOOL_CHECKOUT_PROXY_POOL"
  const APPROVE_POOL_VARIABLE := "SMS_TOOL_APPROVE_PROXY_POOL"

  type Args = seq<string>

  predicate Dashed(s: string) {
    "--" <= s
  }

  predicate IsRoute(s: string)
    ensures IsRoute(s) ==> Dashed(s)
  {
    s == PROXY_FLAG || s == PROXY_POOL_FLAG || s == CHECKOUT_POOL_FLAG || s == APPROVE_POOL_FLAG
  }

  /** What may follow a route flag as its value. */
  predicate IsValue(s: string) {
    s != "" && !Dashed(s)
  }

  // ---- specification: one pass over the arguments -------------------------------------------

  /** Does the first argument take the second as its value? */
  predicate TakesValue(args: Args) {
    |args| > 1 && IsRoute(args[0]) && IsValue(args[1])
  }

  function Kept(args: Args): Args {
    if args == [] then []
    else if TakesValue(args) then Kept(args[2..])
    else if IsRoute(args[0]) then Kept(args[1..])
    else [args[0]] + Kept(args[1..])
  }

  /** The values by flag; of a repeated flag the later one. */
  function Values(args: Args): map<string, string> {
    if args == [] then map[]
    else if TakesValue(args) then map[args[0] := args[1]] + Values(args[2..])
    else Values(args[1..])
  }

  type Environment = map<string, string>

  /** The routes in declaration order, each flag with its variable. */
  const ROUTES: seq<(string, string)> := [
    (PROXY_FLAG, PROXY_VARIABLE), (PROXY_POOL_FLAG, PROXY_POOL_VARIABLE),
    (CHECKOUT_POOL_FLAG, CHECKOUT_POOL_VARIABLE), (APPROVE_POOL_FLAG, APPROVE_POOL_VARIABLE)]

  function Exported(env: Environment, values: map<string, string>, routes: seq<(string, string)>): Environment
    decreases |routes|
  {
    if routes == [] then env
    else
      var (flag, variable) := routes[0];
      var env' := if flag in values && values[flag] != "" then env[variable := values[flag]] else env;
      Exported(env', values, routes[1..])
  }

  /** One step of the pass, from `index`. */
  lemma PassStep(args: Args, index: nat)
    requires index < |args|
    ensures var a, here, next := args[index], args[index..], args[index + 1..];
      if !IsRoute(a) then Kept(here) == [a] + Kept(next) && Values(here) == Values(next)
      else if next == [] || !IsValue(next[0]) then Kept(here) == Kept(next) && Values(here) == Values(next)
      else var rest := args[index + 2..]; Kept(here) == Kept(rest) && Values(here) == map[a := next[0]] + Values(rest)
  {
    var here := args[index..];
    assert here[1..] == args[index + 1..] && (|here| > 1 ==> here[2..] == args[index + 2..]);
  }

  lemma Assoc(a: Args, b: Args, c: Args)
    ensures a + (b + c) == a + b + c
  {}

  lemma MapAssoc(a: map<string, string>, b: map<string, string>, c: map<string, string>)
    ensures a + (b + c) == a + b + c
  {}

  /** `Extract`: the loop with its variable stride computes the specification. */
  method Extract(args: Args, environment: Environment) returns (kept: Args, exported: Environment)
    ensures kept == Kept(args)
    ensures exported == Exported(environment, Values(args), ROUTES)
  {
    kept := [];
    var captured: map<string, string> := map[];
    var index := 0;
    while index < |args|
      invariant 0 <= index <= |args|
      invariant kept + Kept(args[index..]) == Kept(args)
      invariant captured + Values(args[index..]) == Values(args)
    {
      var argument := args[index];
      PassStep(args, index);
      if !IsRoute(argument) {
        Assoc(kept, [argument], Kept(args[index + 1..]));
        kept := kept + [argument];
        index := index + 1;
      } else {
        var value := if index + 1 < |args| then args[index + 1] else "";
        if value == "" || Dashed(value) {
          index := index + 1;
        } else {
          MapAssoc(captured, map[argument := value], Values(args[index + 2..]));
          assert captured[argument := value] == captured + map[argument := value];
          captured := captured[argument := value];
          index := index + 2;
        }
      }
    }
    assert args[|args|..] == [] && captured + map[] == captured;
    exported := Export(environment, captured, ROUTES);
  }

  /** The loop over the routes at the end of `Extract`. */
  method Export(environment: Environment, captured: map<string, string>, routes: seq<(string, string)>)
    returns (exported: Environment)
    ensures exported == Exported(environment, captured, routes)
  {
    exported := environment;
    for k := 0 to |routes|
      invariant Exported(exported, captured, routes[k..]) == Exported(environment, captured, routes)
    {
      var (flag, variable) := routes[k];
      if flag in captured && captured[flag] != "" { exported := exported[variable := captured[flag]]; }
      assert routes[k..][1..] == routes[k + 1..];
    }
  }

  // ---- what the specification means, position by position -----------------------------------

  /** A position holds a value if and only if a route flag stands before it and it is not a flag or empty:
      flags and values never overlap, so this does not depend on how the pass got there. */
  predicate ValueSlot(args: Args, i: nat)
    requires i < |args|
  {
    i > 0 && IsRoute(args[i - 1]) && IsValue(args[i])
  }

  function Survivors(args: Args, i: nat): Args
    requires i <= |args|
    decreases |args| - i
  {
    if i == |args| then []
    else if IsRoute(args[i]) || ValueSlot(args, i) then Survivors(args, i + 1)
    else [args[i]] + Survivors(args, i + 1)
  }

  /** The kept arguments are, in order, exactly those that are neither a route flag nor the value of one. */
  lemma {:induction false} KeptExactly(args: Args, i: nat)
    requires i <= |args| && (i < |args| ==> !ValueSlot(args, i))
    ensures Kept(args[i..]) == Survivors(args, i)
    decreases |args| - i
  {
    if i < |args| {
      var rest := args[i..];
      assert rest[1..] == args[i + 1..];
      if TakesValue(rest) {
        assert rest[2..] == args[i + 2..];
        KeptExactly(args, i + 2);
      } else {
        KeptExactly(args, i + 1);
      }
    }
  }

  lemma {:induction false} KeptHoldsNoRoute(args: Args)
    ensures forall a :: a in Kept(args) ==> a in args && !IsRoute(a)
    ensures |Kept(args)| <= |args|
  {
    if args != [] {
      if TakesValue(args) {
        KeptHoldsNoRoute(args[2..]);
      } else {
        KeptHoldsNoRoute(args[1..]);
      }
    }
  }

  /** A flag has a value if and only if some occurrence of it is followed by one, and then the last such
      occurrence decides. */
  lemma {:induction false} LastValueWins(args: Args, flag: string) returns (last: nat)
    requires IsRoute(flag)
    ensures flag !in Values(args) ==> NoValueFrom(args, flag, 0)
    ensures flag in Values(args) ==>
      && last < |args| - 1 && args[last] == flag && IsValue(args[last + 1]) && Values(args)[flag] == args[last + 1]
      && NoValueFrom(args, flag, last + 1)
  {
    last := 0;
    if args != [] {
      var n := if TakesValue(args) then 2 else 1;
      var rest := args[n..];
      var l := LastValueWins(rest, flag);
      if flag in Values(rest) {
        last := l + n;
        NoValueShift(args, flag, n, l + 1);
      } else {
        NoValueShift(args, flag, n, 0);
        assert n == 2 ==> !IsRoute(args[1]);
      }
    }
  }

  /** No occurrence of the flag at `from` or later is followed by a value. */
  predicate NoValueFrom(args: Args, flag: string, from: nat) {
    forall i :: from <= i < |args| - 1 && args[i] == flag ==> !IsValue(args[i + 1])
  }

  lemma NoValueShift(args: Args, flag: string, n: nat, from: nat)
    requires n <= |args| && NoValueFrom(args[n..], flag, from)
    ensures NoValueFrom(args, flag, from + n)
  {
    forall i | from + n <= i < |args| - 1 && args[i] == flag ensures !IsValue(args[i + 1]) {
      assert args[n..][i - n] == flag && args[n..][i - n + 1] == args[i + 1];
    }
  }

  /** Extracting again changes nothing. */
  lemma {:induction false} KeptIdempotent(args: Args)
    requires forall a :: a in args ==> !IsRoute(a)
    ensures Kept(args) == args && Values(args) == map[]
  {
    if args != [] {
      assert args[0] in args;
      KeptIdempotent(args[1..]);
    }
  }

  lemma ExtractIdempotent(args: Args)
    ensures Kept(Kept(args)) == Kept(args) && Values(Kept(args)) == map[]
  {
    KeptHoldsNoRoute(args);
    KeptIdempotent(Kept(args));
  }

  /** The arguments may be cut here: no flag before the cut takes the argument after it. */
  predicate SeamOk(a: Args, b: Args) {
    a == [] || b == [] || !IsRoute(a[|a| - 1]) || !IsValue(b[0])
  }

  /** The step of the pass on a concatenation is the step on its first part. */
  lemma SeamStep(a: Args, b: Args)
    requires SeamOk(a, b) && a != []
    ensures TakesValue(a + b) == TakesValue(a) && (a + b)[0] == a[0] && (a + b)[1..] == a[1..] + b
    ensures TakesValue(a) ==> (a + b)[1] == a[1] && (a + b)[2..] == a[2..] + b && SeamOk(a[2..], b)
    ensures SeamOk(a[1..], b)
  {}

  lemma {:induction false} KeptAtSeam(a: Args, b: Args)
    requires SeamOk(a, b)
    ensures Kept(a + b) == Kept(a) + Kept(b)
  {
    if a == [] {
      assert a + b == b;
    } else {
      SeamStep(a, b);
      KeptAtSeam(if TakesValue(a) then a[2..] else a[1..], b);
    }
  }

  lemma {:induction false} ValuesAtSeam(a: Args, b: Args)
    requires SeamOk(a, b)
    ensures Values(a + b) == Values(a) + Values(b)
  {
    if a == [] {
      assert a + b == b;
    } else {
      SeamStep(a, b);
      if TakesValue(a) {
        ValuesAtSeam(a[2..], b);
        MapAssoc(map[a[0] := a[1]], Values(a[2..]), Values(b));
      } else {
        ValuesAtSeam(a[1..], b);
      }
    }
  }

  lemma ComposesAtSeam(a: Args, b: Args)
    requires SeamOk(a, b)
    ensures Kept(a + b) == Kept(a) + Kept(b) && Values(a + b) == Values(a) + Values(b)
  {
    KeptAtSeam(a, b);
    ValuesAtSeam(a, b);
  }

  /** Otherwise the last flag swallows the first argument after the cut. */
  lemma {:induction false} BadSeamSwallows(a: Args, b: Args)
    requires !SeamOk(a, b)
    ensures Kept(a + b) == Kept(a) + Kept(b[1..]) && Kept(b) == [b[0]] + Kept(b[1..])
  {
    var init, flag := a[..|a| - 1], [a[|a| - 1]];
    assert a == init + flag && a + b == init + (flag + b);
    assert Kept(flag + b) == Kept(b[1..]) by { assert (flag + b)[2..] == b[1..]; }
    KeptAtSeam(init, flag);
    KeptAtSeam(init, flag + b);
  }

  /** So extraction composes over concatenation if and only if the seam does not cut a flag from its value. */
  lemma ComposesIff(a: Args, b: Args)
    ensures Kept(a + b) == Kept(a) + Kept(b) <==> SeamOk(a, b)
  {
    if SeamOk(a, b) {
      ComposesAtSeam(a, b);
    } else {
      BadSeamSwallows(a, b);
      assert |Kept(a + b)| < |Kept(a) + Kept(b)|;
    }
  }

  // ---- the producer --------------------------------------------------------------------------

  /** The caller's argument list. */
  class ArgList {
    var items: Args

    constructor (items: Args)
      ensures this.items == items
    {
      this.items := items;
    }
  }

  function Cleaned(pool: seq<string>): seq<string> {
    if pool == [] then []
    else
      var rest, item := Cleaned(pool[1..]), Texts.Trim(pool[0]);
      if item == "" then rest else [item] + rest
  }

  /** The trimmed entries that are not blank, in order. */
  lemma {:induction false} CleanedAre(pool: seq<string>, more: seq<string>, entry: string)
    ensures Cleaned(pool + more) == Cleaned(pool) + Cleaned(more)
    ensures Cleaned([entry]) == if Texts.Trim(entry) == "" then [] else [Texts.Trim(entry)]
  {
    assert [entry][1..] == [];
    if pool == [] {
      assert pool + more == more;
    } else {
      assert (pool + more)[1..] == pool[1..] + more;
      CleanedAre(pool[1..], more, entry);
    }
  }

  function JoinLines(pool: seq<string>, newline: string): string {
    if pool == [] then "" else if |pool| == 1 then pool[0] else pool[0] + newline + JoinLines(pool[1..], newline)
  }

  /** Splitting the joined entries at line ends gives them back. */
  lemma {:induction false} JoinLinesRoundTrip(pool: seq<string>, newline: string)
    requires pool != [] && (forall p :: p in pool ==> Texts.OneLine(p)) && (newline == "\n" || newline == "\r\n")
    ensures Texts.Lines(JoinLines(pool, newline)) == pool
  {
    if |pool| == 1 {
      Texts.LinesOfPrefixed(pool[0], newline, "");
    } else {
      JoinLinesRoundTrip(pool[1..], newline);
      Texts.LinesOfPrefixed(pool[0], newline, JoinLines(pool[1..], newline));
      assert pool == [pool[0]] + pool[1..];
    }
  }

  /** What the planner adds for a cleaned pool. */
  function Emitted(pool: seq<string>, newline: string): Args {
    if pool == [] then []
    else [PROXY_FLAG, pool[0]] + if |pool| > 1 then [PROXY_POOL_FLAG, JoinLines(pool, newline)] else []
  }

  /** What extraction should find of it. */
  function Carried(pool: seq<string>, newline: string): map<string, string>
    requires pool != []
  {
    map[PROXY_FLAG := pool[0]] + if |pool| > 1 then map[PROXY_POOL_FLAG := JoinLines(pool, newline)] else map[]
  }

  method AppendProxy(args: ArgList, proxy: string)
    modifies args
    ensures args.items == old(args.items) + if Texts.Trim(proxy) == "" then [] else [PROXY_FLAG, Texts.Trim(proxy)]
  {
    var value := Texts.Trim(proxy);
    if value == "" { return; }
    args.items := args.items + [PROXY_FLAG];
    args.items := args.items + [value];
  }

  method AppendProxyPool(args: ArgList, proxyPool: seq<string>, newline: string)
    modifies args
    ensures args.items == old(args.items) + Emitted(Cleaned(proxyPool), newline)
  {
    var pool := Cleaned(proxyPool);
    if pool == [] { return; }
    CleanedIsTrimmed(proxyPool);
    AppendProxy(args, pool[0]);
    if |pool| > 1 {
      args.items := args.items + [PROXY_POOL_FLAG];
      args.items := args.items + [JoinLines(pool, newline)];
    }
  }

  lemma {:induction false} TrimTwice(s: string)
    ensures Texts.Trim(Texts.Trim(s)) == Texts.Trim(s)
  {
    TrimStartStops(s);
    TrimEndStops(Texts.TrimStart(s));
  }

  lemma {:induction false} TrimStartStops(s: string)
    ensures var t := Texts.TrimStart(s); |t| > 0 ==> !Texts.White(t[0])
  {
    if |s| > 0 && Texts.White(s[0]) { TrimStartStops(s[1..]); }
  }

  lemma {:induction false} TrimEndStops(s: string)
    ensures var t := Texts.TrimEnd(s); t <= s && (|t| > 0 ==> !Texts.White(t[|t| - 1]))
  {
    if |s| > 0 && Texts.White(s[|s| - 1]) { TrimEndStops(s[..|s| - 1]); }
  }

  lemma {:induction false} CleanedIsTrimmed(pool: seq<string>)
    ensures forall p :: p in Cleaned(pool) ==> p != "" && Texts.Trim(p) == p
  {
    if pool != [] {
      CleanedIsTrimmed(pool[1..]);
      TrimTwice(pool[0]);
    }
  }

  lemma DashedJoin(pool: seq<string>, newline: string)
    requires |pool| > 0 && pool[0] != "" && newline != "" && newline[0] != '-'
    ensures JoinLines(pool, newline) != ""
    ensures Dashed(JoinLines(pool, newline)) <==> Dashed(pool[0])
  {
    if |pool| > 1 { DashedPrefix(pool[0], newline, JoinLines(pool[1..], newline)); }
  }

  lemma DashedPrefix(first: string, newline: string, rest: string)
    requires first != "" && newline != "" && newline[0] != '-'
    ensures Dashed(first + newline + rest) <==> Dashed(first)
  {
    var s := first + newline + rest;
    assert s[0] == first[0] && (if |first| > 1 then s[1] == first[1] else s[1] == newline[0]);
    assert Dashed(s) <==> s[0] == '-' && s[1] == '-';
  }

  lemma PairExtracted(flag: string, value: string, rest: Args)
    requires IsRoute(flag) && value != ""
    ensures var all := [flag, value] + rest;
      if Dashed(value) then Kept(all) == Kept([value] + rest) && Values(all) == Values([value] + rest)
      else Kept(all) == Kept(rest) && Values(all) == map[flag := value] + Values(rest)
  {
    var all := [flag, value] + rest;
    assert all[1..] == [value] + rest && all[2..] == rest;
  }

  lemma FlagFollowed(value: string, rest: Args)
    requires value != "" && (rest == [] || Dashed(rest[0]))
    ensures Kept([value] + rest) == (if IsRoute(value) then [] else [value]) + Kept(rest)
    ensures Values([value] + rest) == Values(rest)
  {
    assert ([value] + rest)[1..] == rest;
  }

  lemma PoolTailExtracted(value: string)
    requires value != ""
    ensures if Dashed(value) then Values([PROXY_POOL_FLAG, value]) == map[]
      else Kept([PROXY_POOL_FLAG, value]) == [] && Values([PROXY_POOL_FLAG, value]) == map[PROXY_POOL_FLAG := value]
  {
    assert [PROXY_POOL_FLAG, value] == [PROXY_POOL_FLAG, value] + [] && [value] == [value] + [];
    PairExtracted(PROXY_POOL_FLAG, value, []);
    FlagFollowed(value, []);
  }

  lemma EmittedExtracted(pool: seq<string>, newline: string)
    requires (newline == "\n" || newline == "\r\n") && |pool| > 0 && pool[0] != ""
    ensures var emitted := Emitted(pool, newline);
      if Dashed(pool[0]) then Values(emitted) == map[] && (!IsRoute(pool[0]) ==> pool[0] in Kept(emitted))
      else Kept(emitted) == [] && Values(emitted) == Carried(pool, newline)
  {
    var joined := JoinLines(pool, newline);
    var tail: Args := if |pool| > 1 then [PROXY_POOL_FLAG, joined] else [];
    assert Emitted(pool, newline) == [PROXY_FLAG, pool[0]] + tail;
    PairExtracted(PROXY_FLAG, pool[0], tail);
    FlagFollowed(pool[0], tail);
    if |pool| > 1 {
      DashedJoin(pool, newline);
      PoolTailExtracted(joined);
    }
  }

  lemma EmittedAppended(args: Args, pool: seq<string>, newline: string)
    requires pool != []
    ensures var emitted := Emitted(pool, newline);
      Kept(args + emitted) == Kept(args) + Kept(emitted) && Values(args + emitted) == Values(args) + Values(emitted)
  {
    var emitted := Emitted(pool, newline);
    assert emitted[0] == PROXY_FLAG && Dashed(emitted[0]);
    ComposesAtSeam(args, emitted);
  }

  lemma FirstCleaned(pool: seq<string>)
    requires Cleaned(pool) != []
    ensures Cleaned(pool)[0] != ""
  {
    CleanedIsTrimmed(pool);
    assert Cleaned(pool)[0] in Cleaned(pool);
  }

  /** Extraction undoes what the planner emitted, wherever it was appended: the pool leaves the arguments and
      arrives as values exactly when its first proxy does not start with "--". If it does, nothing of the pool
      is transported, and that proxy stays in the arguments unless it is itself a route flag. */
  lemma PoolRecoveredIff(args: Args, proxyPool: seq<string>, newline: string)
    requires (newline == "\n" || newline == "\r\n") && Cleaned(proxyPool) != []
    ensures var pool := Cleaned(proxyPool); var all := args + Emitted(pool, newline);
      if Dashed(pool[0]) then Values(all) == Values(args) && (!IsRoute(pool[0]) ==> pool[0] in Kept(all))
      else Kept(all) == Kept(args) && Values(all) == Values(args) + Carried(pool, newline)
  {
    var pool := Cleaned(proxyPool);
    FirstCleaned(proxyPool);
    EmittedExtracted(pool, newline);
    EmittedAppended(args, pool, newline);
  }

  /** Exporting through `routes` whose variables differ: a variable holds the value captured for its flag, and
      every other entry of the environment is untouched. */
  lemma {:induction false} ExportedExactly(env: Environment, values: map<string, string>,
                                           routes: seq<(string, string)>, variable: string)
    requires forall i, j :: 0 <= i < j < |routes| ==> routes[i].1 != routes[j].1
    requires forall f :: f in values ==> values[f] != ""
    ensures var out := Exported(env, values, routes);
      && (forall i :: 0 <= i < |routes| && routes[i].1 == variable && routes[i].0 in values ==>
            variable in out && out[variable] == values[routes[i].0])
      && ((forall i :: 0 <= i < |routes| && routes[i].1 == variable ==> routes[i].0 !in values) ==>
            (variable in out <==> variable in env) && (variable in env ==> out[variable] == env[variable]))
    decreases |routes|
  {
    if routes != [] {
      var rest := routes[1..];
      var (flag, name) := routes[0];
      assert forall i :: 0 < i < |routes| ==> routes[i] == rest[i - 1];
      ExportedExactly(if flag in values then env[name := values[flag]] else env, values, rest, variable);
    }
  }

  lemma {:induction false} ValuesAreValues(args: Args)
    ensures forall f :: f in Values(args) ==> IsRoute(f) && IsValue(Values(args)[f])
  {
    if args != [] { ValuesAreValues(if TakesValue(args) then args[2..] else args[1..]); }
  }

  /** For the four routes: what the process gets in each variable. */
  lemma EnvironmentOfExtract(env: Environment, args: Args, k: nat, other: string)
    requires k < |ROUTES| && forall i :: 0 <= i < |ROUTES| ==> other != ROUTES[i].1
    ensures var out := Exported(env, Values(args), ROUTES); var (flag, variable) := ROUTES[k];
      && (flag in Values(args) ==> variable in out && out[variable] == Values(args)[flag])
      && (flag !in Values(args) ==>
            (variable in out <==> variable in env) && (variable in env ==> out[variable] == env[variable]))
      && (other in out <==> other in env) && (other in env ==> out[other] == env[other])
  {
    ValuesAreValues(args);
    assert |ROUTES[0].1| == 14 && |ROUTES[1].1| == 19 && |ROUTES[2].1| == 28 && |ROUTES[3].1| == 27;
    forall i, j | 0 <= i < j < |ROUTES| ensures ROUTES[i].1 != ROUTES[j].1 {
      assert |ROUTES[i].1| != |ROUTES[j].1|;
    }
    ExportedExactly(env, Values(args), ROUTES, ROUTES[k].1);
    ExportedExactly(env, Values(args), ROUTES, other);
  }

  /** The variable that belongs to a flag. */
  predicate Routed(flag: string, variable: string) {
    || (flag == "--proxy" && variable == "SMS_TOOL_PROXY")
    || (flag == "--proxy-pool" && variable == "SMS_TOOL_PROXY_POOL")
    || (flag == "--checkout-proxy-pool" && variable == "SMS_TOOL_CHECKOUT_PROXY_POOL")
    || (flag == "--approve-proxy-pool" && variable == "SMS_TOOL_APPROVE_PROXY_POOL")
  }

  /** A flag and its value set that variable, and no other. */
  lemma RouteVariables(env: Environment, flag: string, variable: string, value: string)
    requires Routed(flag, variable) && value != "" && !Dashed(value)
    ensures Exported(env, Values([flag, value]), ROUTES) == env[variable := value]
  {
    var k := if |flag| == 7 then 0 else if |flag| == 12 then 1 else if |flag| == 21 then 2 else 3;
    RouteLengths();
    assert ROUTES[k] == (flag, variable);
    OneRoute(env, k, value);
  }

  lemma RouteLengths()
    ensures |"--proxy"| == 7 && |"--proxy-pool"| == 12 && |"--checkout-proxy-pool"| == 21 && |"--approve-proxy-pool"| == 20
    ensures forall i, j :: 0 <= i < j < |ROUTES| ==> ROUTES[i].0 != ROUTES[j].0
  {
    assert |ROUTES[0].0| == 7 && |ROUTES[1].0| == 12 && |ROUTES[2].0| == 21 && |ROUTES[3].0| == 20;
  }

  lemma OneRoute(env: Environment, k: nat, value: string)
    requires k < 4 && value != "" && !Dashed(value)
    requires forall i, j :: 0 <= i < j < |ROUTES| ==> ROUTES[i].0 != ROUTES[j].0
    ensures Exported(env, Values([ROUTES[k].0, value]), ROUTES) == env[ROUTES[k].1 := value]
  {
    assert [ROUTES[k].0, value] == [ROUTES[k].0, value] + [];
    PairExtracted(ROUTES[k].0, value, []);
    assert map[ROUTES[k].0 := value] + map[] == map[ROUTES[k].0 := value];
    ExportedOne(env, ROUTES, k, ROUTES[k].0, value);
  }

  lemma {:induction false} ExportedOne(env: Environment, routes: seq<(string, string)>, k: nat, flag: string, value: string)
    requires k < |routes| && routes[k].0 == flag && value != ""
    requires forall i, j :: 0 <= i < j < |routes| ==> routes[i].0 != routes[j].0
    ensures Exported(env, map[flag := value], routes) == env[routes[k].1 := value]
    decreases |routes|
  {
    if k == 0 {
      NoneExported(env[routes[0].1 := value], routes[1..], map[flag := value]);
    } else {
      ExportedOne(env, routes[1..], k - 1, flag, value);
    }
  }

  lemma {:induction false} NoneExported(env: Environment, routes: seq<(string, string)>, values: map<string, string>)
    requires forall i :: 0 <= i < |routes| ==> routes[i].0 !in values
    ensures Exported(env, values, routes) == env
    decreases |routes|
  {
    if routes != [] { NoneExported(env, routes[1..], values); }
  }
}
