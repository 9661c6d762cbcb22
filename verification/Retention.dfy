/** The retention planner and relocator of scripts/runtime_retention.py over a file tree. Paths are the lists of
    their components, relative to the runtime root; times are real numbers of seconds. */
module Retention {
  import opened Ordering
  import opened Wrappers

  type Path = seq<string>

  datatype File = File(size: nat, mtime: real)

  /** `matchName` is the list of components of the pattern. */
  datatype Rule = Rule(name: string, minAgeDays: nat, matchDir: Option<string>, matchName: Option<Path>, recursive: bool)

  const RELOCATE_DIRNAME := "_retention"
  const TRASH_DIRNAME := "_trash-20260909"

  /** What is never retired, by name and by ending, and the rules in order. */
  datatype Policy = Policy(neverDelete: set<string>, suffixes: set<string>, rules: seq<Rule>)

  // ---- rules ---------------------------------------------------------------------------------

  /** Shell pattern with `*`. */
  predicate Glob(pattern: string, name: string)
    decreases |pattern| + |name|
  {
    if pattern == "" then name == ""
    else if pattern[0] == '*' then Glob(pattern[1..], name) || (name != "" && Glob(pattern, name[1..]))
    else name != "" && name[0] == pattern[0] && Glob(pattern[1..], name[1..])
  }

  /** A relative pattern of several components is matched from the right. */
  predicate MatchTail(pattern: Path, path: Path) {
    |pattern| <= |path| &&
    forall i :: 0 <= i < |pattern| ==> Glob(pattern[i], path[|path| - |pattern| + i])
  }

  predicate Matches(rule: Rule, path: Path) {
    match rule.matchDir
    case Some(dir) => path != [] && path[0] == dir && (rule.matchName.Some? ==> MatchTail(rule.matchName.value, path))
    case None =>
      && path != [] && rule.matchName.Some? && (rule.recursive || |path| == 1)
      && MatchTail(rule.matchName.value, path[|path| - 1..])
  }

  predicate EndsWith(s: string, suffix: string) {
    |suffix| <= |s| && s[|s| - |suffix|..] == suffix
  }

  /** The veto: checked before any rule. */
  predicate Protected(policy: Policy, path: Path)
    requires path != []
  {
    var name := path[|path| - 1];
    || name in policy.neverDelete
    || (exists suffix :: suffix in policy.suffixes && EndsWith(name, suffix))
    || (|path| == 1 && EndsWith(name, ".lock"))
  }

  /** The walk enters no relocation area, and not the old trash at the top. */
  predicate Walked(path: Path) {
    |path| <= 1 || (path[0] != TRASH_DIRNAME && RELOCATE_DIRNAME !in path[..|path| - 1])
  }

  function FirstMatch(rules: seq<Rule>, path: Path): Option<Rule> {
    if rules == [] then None else if Matches(rules[0], path) then Some(rules[0]) else FirstMatch(rules[1..], path)
  }

  function AgeDays(now: real, file: File): real { (now - file.mtime) / 86400.0 }

  /** The floor of a rule, unless the command line overrides it. */
  predicate OldEnough(rule: Rule, minAge: Option<int>, age: real) {
    age >= (if minAge.Some? then minAge.value else rule.minAgeDays) as real
  }

  /** The file is retired: the first rule that matches decides. */
  predicate Retired(policy: Policy, minAge: Option<int>, now: real, path: Path, file: File)
    requires path != []
  {
    && Walked(path) && !Protected(policy, path)
    && FirstMatch(policy.rules, path).Some? && OldEnough(FirstMatch(policy.rules, path).value, minAge, AgeDays(now, file))
  }

  type Files = map<Path, File>

  predicate Named(files: Files) { forall p :: p in files ==> p != [] }

  function Planned(policy: Policy, minAge: Option<int>, now: real, files: Files): set<Path>
    requires Named(files)
  {
    set p | p in files && Retired(policy, minAge, now, p, files[p])
  }

  // ---- what the rules and the veto mean --------------------------------------------------------

  predicate Halves(p: string, q: string, name: string, k: nat) {
    k <= |name| && Glob(p, name[..k]) && Glob(q, name[k..])
  }

  /** A pattern put together from two takes a name in two parts... */
  lemma {:induction false} GlobConcat(p: string, q: string, name: string)
    ensures Glob(p + q, name) <==> exists k: nat :: Halves(p, q, name, k)
    decreases |p| + |name|
  {
    if p == "" {
      assert p + q == q && name[..0] == "" && name[0..] == name;
      assert Glob(q, name) ==> Halves(p, q, name, 0);
    } else {
      assert (p + q)[1..] == p[1..] + q;
      if p[0] == '*' { GlobConcat(p[1..], q, name); }
      if name != "" { GlobConcat(if p[0] == '*' then p else p[1..], q, name[1..]); }
      if Glob(p + q, name) {
        if p[0] == '*' && Glob(p[1..] + q, name) {
          var k: nat :| Halves(p[1..], q, name, k);
          assert Halves(p, q, name, k);
        } else {
          var rest := if p[0] == '*' then p else p[1..];
          var k: nat :| Halves(rest, q, name[1..], k);
          HalvesShift(p, rest, q, name, k);
        }
      }
      if k: nat :| Halves(p, q, name, k) { HalvesBack(p, q, name, k); }
    }
  }

  lemma HalvesShift(p: string, rest: string, q: string, name: string, k: nat)
    requires p != "" && name != "" && Halves(rest, q, name[1..], k)
    requires if p[0] == '*' then rest == p else rest == p[1..] && name[0] == p[0]
    ensures Halves(p, q, name, k + 1)
  {
    assert name[..k + 1][1..] == name[1..][..k] && name[k + 1..] == name[1..][k..];
  }

  lemma HalvesBack(p: string, q: string, name: string, k: nat)
    requires p != "" && Halves(p, q, name, k)
    ensures
      || (p[0] == '*' && Halves(p[1..], q, name, k))
      || (name != "" && k > 0 && (p[0] == '*' || name[0] == p[0])
          && Halves(if p[0] == '*' then p else p[1..], q, name[1..], k - 1))
  {
    if k > 0 { assert name[..k][1..] == name[1..][..k - 1] && name[k..] == name[1..][k - 1..]; }
  }

  /** ...a star takes every part, and any other character itself. */
  lemma {:induction false} GlobOne(c: char, name: string)
    ensures Glob([c], name) <==> c == '*' || name == [c]
  {
    assert [c][1..] == "";
    if name != "" {
      GlobOne(c, name[1..]);
      assert name == [name[0]] + name[1..];
    }
  }

  /** A pattern is compared with the end of a path, component by component. */
  lemma MatchTailIs(pattern: Path, dirs: Path, tail: Path)
    requires |tail| == |pattern|
    ensures MatchTail(pattern, dirs + tail) <==> forall i :: 0 <= i < |pattern| ==> Glob(pattern[i], tail[i])
  {
    forall i | 0 <= i < |pattern| ensures (dirs + tail)[|dirs + tail| - |pattern| + i] == tail[i] {}
    if MatchTail(pattern, dirs + tail) {
      forall i | 0 <= i < |pattern| ensures Glob(pattern[i], tail[i]) {
        assert Glob(pattern[i], (dirs + tail)[|dirs + tail| - |pattern| + i]);
      }
    }
  }

  /** A rule for a directory takes what lies in it and has a matching name, and one for a name what has that name,
      at the top only unless the rule is recursive. Patterns of one component are compared with the file name. */
  lemma MatchesIs(rule: Rule, dirs: Path, name: string)
    requires rule.matchName.Some? ==> |rule.matchName.value| == 1
    ensures Matches(rule, dirs + [name]) <==>
      && (rule.matchDir.Some? ==> (dirs + [name])[0] == rule.matchDir.value)
      && (rule.matchDir.None? ==> rule.matchName.Some? && (rule.recursive || dirs == []))
      && (rule.matchName.Some? ==> Glob(rule.matchName.value[0], name))
  {
    var path := dirs + [name];
    assert path[|path| - 1..] == [name];
    if rule.matchName.Some? {
      var pattern := rule.matchName.value;
      MatchTailIs(pattern, dirs, [name]);
      MatchTailIs(pattern, [], [name]);
      assert [] + [name] == [name];
    }
  }

  lemma EndsWithIs(name: string, suffix: string)
    ensures EndsWith(name, suffix) <==> exists stem :: stem + suffix == name
  {
    if EndsWith(name, suffix) { assert name[..|name| - |suffix|] + suffix == name; }
    if stem :| stem + suffix == name { assert name[|name| - |suffix|..] == suffix; }
  }

  /** When a file is retired: it lies in no relocation area and not in the old trash, no name and no ending protects
      it, it is no lock at the top, and the first rule that matches it has a floor that its age has reached. */
  lemma RetiredIs(policy: Policy, minAge: Option<int>, now: real, dirs: Path, name: string, file: File)
    ensures Retired(policy, minAge, now, dirs + [name], file) <==>
      && "_retention" !in dirs && (dirs != [] ==> dirs[0] != "_trash-20260909")
      && name !in policy.neverDelete
      && (forall suffix :: suffix in policy.suffixes ==> !exists stem :: stem + suffix == name)
      && !(dirs == [] && exists stem :: stem + ".lock" == name)
      && exists k: nat :: FirstAt(policy.rules, dirs + [name], k)
           && now - file.mtime >= 86400.0 * (if minAge.Some? then minAge.value else policy.rules[k].minAgeDays) as real
  {
    var path := dirs + [name];
    assert path[..|path| - 1] == dirs && path[|path| - 1] == name;
    assert dirs != [] ==> path[0] == dirs[0];
    forall suffix ensures EndsWith(name, suffix) <==> exists stem :: stem + suffix == name { EndsWithIs(name, suffix); }
    FirstMatchIs(policy.rules, path);
  }

  ghost predicate FirstAt(rules: seq<Rule>, path: Path, k: nat) {
    k < |rules| && Matches(rules[k], path) && forall i :: 0 <= i < k ==> !Matches(rules[i], path)
  }

  lemma {:induction false} FirstMatchIs(rules: seq<Rule>, path: Path)
    ensures forall k: nat :: FirstAt(rules, path, k) ==> FirstMatch(rules, path) == Some(rules[k])
    ensures FirstMatch(rules, path).Some? ==> exists k: nat :: FirstAt(rules, path, k)
  {
    if rules != [] {
      FirstMatchIs(rules[1..], path);
      forall k: nat | FirstAt(rules, path, k) ensures FirstMatch(rules, path) == Some(rules[k]) {
        if k > 0 {
          forall i | 0 <= i < k - 1 ensures !Matches(rules[1..][i], path) { assert rules[1..][i] == rules[i + 1]; }
          assert FirstAt(rules[1..], path, k - 1);
        }
      }
      if Matches(rules[0], path) {
        assert FirstAt(rules, path, 0);
      } else if k: nat :| FirstAt(rules[1..], path, k) {
        forall i | 0 <= i < k + 1 ensures !Matches(rules[i], path) { if i > 0 { assert rules[1..][i - 1] == rules[i]; } }
        assert FirstAt(rules, path, k + 1);
      }
    }
  }

  // ---- the planner ---------------------------------------------------------------------------

  datatype Item = Item(path: Path, size: nat, age: real, rule: string)

  predicate Older(a: Item, b: Item) { a.age > b.age }

  /** Oldest first. */
  ghost predicate Descending(items: seq<Item>) {
    forall i, j :: 0 <= i < j < |items| ==> items[i].age >= items[j].age
  }

  ghost predicate NoneOlder(items: seq<Item>, age: real) {
    forall i :: 0 <= i < |items| ==> age >= items[i].age
  }

  lemma {:induction false} InsertNoneOlder(x: Item, s: seq<Item>, age: real)
    requires NoneOlder(s, age) && age >= x.age
    ensures NoneOlder(Insert(x, s, Older), age)
  {
    if s != [] && Older(s[0], x) {
      assert NoneOlder(s[1..], age);
      InsertNoneOlder(x, s[1..], age);
    }
  }

  lemma DescendingCons(x: Item, s: seq<Item>)
    requires Descending(s) && NoneOlder(s, x.age)
    ensures Descending([x] + s)
  {}

  lemma {:induction false} InsertDescending(x: Item, s: seq<Item>)
    requires Descending(s)
    ensures Descending(Insert(x, s, Older))
  {
    if s != [] && Older(s[0], x) {
      InsertDescending(x, s[1..]);
      InsertNoneOlder(x, s[1..], s[0].age);
      DescendingCons(s[0], Insert(x, s[1..], Older));
    } else {
      assert NoneOlder(s, x.age);
      DescendingCons(x, s);
    }
  }

  lemma {:induction false} SortDescending(s: seq<Item>)
    ensures Descending(Sort(s, Older))
  {
    if s != [] {
      SortDescending(s[1..]);
      InsertDescending(s[0], Sort(s[1..], Older));
    }
  }

  function ItemOf(policy: Policy, now: real, path: Path, file: File): Item
    requires FirstMatch(policy.rules, path).Some?
  {
    Item(path, file.size, AgeDays(now, file), FirstMatch(policy.rules, path).value.name)
  }

  /** `items` holds the figures of every file in `paths`, each once. */
  ghost predicate Lists(policy: Policy, now: real, files: Files, paths: set<Path>, items: seq<Item>)
    requires forall p :: p in paths ==> p in files && FirstMatch(policy.rules, p).Some?
  {
    |items| == |paths| && forall x :: x in items <==> x.path in paths && x == ItemOf(policy, now, x.path, files[x.path])
  }

  lemma ListsNext(policy: Policy, now: real, files: Files, paths: set<Path>, items: seq<Item>, path: Path)
    requires forall p :: p in paths ==> p in files && FirstMatch(policy.rules, p).Some?
    requires Lists(policy, now, files, paths, items)
    requires path in files && path !in paths && FirstMatch(policy.rules, path).Some?
    ensures Lists(policy, now, files, paths + {path}, items + [ItemOf(policy, now, path, files[path])])
  {}

  /** `plan_retention`: the retired files, oldest first, each once, with their figures. The walk may list the
      files in any order. */
  method PlanRetention(policy: Policy, minAge: Option<int>, now: real, files: Files) returns (items: seq<Item>)
    requires Named(files)
    ensures Descending(items)
    ensures Lists(policy, now, files, Planned(policy, minAge, now, files), items)
  {
    var found := Collect(policy, minAge, now, files);
    items := Sort(found, Older);
    SortDescending(found);
    SameElements(items, found);
  }

  method Collect(policy: Policy, minAge: Option<int>, now: real, files: Files) returns (found: seq<Item>)
    requires Named(files)
    ensures Lists(policy, now, files, Planned(policy, minAge, now, files), found)
  {
    found := [];
    var todo := files.Keys;
    ghost var listed: set<Path> := {};
    while todo != {}
      invariant todo <= files.Keys && listed !! todo
      invariant forall p :: p in listed ==> p in files && FirstMatch(policy.rules, p).Some?
      invariant forall p :: p in files && p !in todo ==> (p in listed <==> Retired(policy, minAge, now, p, files[p]))
      invariant Lists(policy, now, files, listed, found)
    {
      var path :| path in todo;
      todo := todo - {path};
      var item := Consider(policy, minAge, now, path, files[path]);
      if item.Some? {
        ListsNext(policy, now, files, listed, found, path);
        found := found + [item.value];
        listed := listed + {path};
      }
    }
    assert listed == Planned(policy, minAge, now, files);
  }

  /** What the walk does with one file. */
  method Consider(policy: Policy, minAge: Option<int>, now: real, path: Path, file: File) returns (item: Option<Item>)
    requires path != []
    ensures item.Some? <==> Retired(policy, minAge, now, path, file)
    ensures item.Some? ==> item.value == ItemOf(policy, now, path, file)
  {
    if !Walked(path) || Protected(policy, path) { return None; }
    var age := AgeDays(now, file);
    var rule := FirstRule(policy.rules, path);
    if rule.Some? && OldEnough(rule.value, minAge, age) { return Some(Item(path, file.size, age, rule.value.name)); }
    return None;
  }

  /** The inner loop over the rules, which stops at the first one that matches. */
  method FirstRule(rules: seq<Rule>, path: Path) returns (rule: Option<Rule>)
    ensures rule == FirstMatch(rules, path)
  {
    for i := 0 to |rules|
      invariant FirstMatch(rules, path) == FirstMatch(rules[i..], path)
    {
      assert rules[i..][1..] == rules[i + 1..];
      if Matches(rules[i], path) { return Some(rules[i]); }
    }
    rule := None;
  }

  /** A higher override plans no more files. */
  lemma HigherFloorPlansSubset(policy: Policy, low: int, high: int, now: real, files: Files)
    requires Named(files) && low <= high
    ensures Planned(policy, Some(high), now, files) <= Planned(policy, Some(low), now, files)
  {}

  // ---- the documented reading of the rule list -----------------------------------------------

  /** Some rule matches the file and its floor is met. */
  predicate SomeRuleRetires(rules: seq<Rule>, minAge: Option<int>, age: real, path: Path) {
    exists r :: r in rules && Matches(r, path) && OldEnough(r, minAge, age)
  }

  lemma {:induction false} FirstMatchIn(rules: seq<Rule>, path: Path)
    ensures FirstMatch(rules, path).Some? ==>
      FirstMatch(rules, path).value in rules && Matches(FirstMatch(rules, path).value, path)
    ensures FirstMatch(rules, path).None? ==> forall r :: r in rules ==> !Matches(r, path)
  {
    if rules != [] {
      assert rules == [rules[0]] + rules[1..];
      FirstMatchIn(rules[1..], path);
    }
  }

  /** What the code does with a file that is walked and not protected. */
  predicate FirstRuleRetires(rules: seq<Rule>, minAge: Option<int>, age: real, path: Path) {
    FirstMatch(rules, path).Some? && OldEnough(FirstMatch(rules, path).value, minAge, age)
  }

  /** Some rule that matches has a lower floor than the first one that does, and the age lies between them. */
  predicate LowerFloorReached(rules: seq<Rule>, age: real, path: Path) {
    exists r :: r in rules && Matches(r, path) && r.minAgeDays as real <= age
      && FirstMatch(rules, path).Some? && age < FirstMatch(rules, path).value.minAgeDays as real
  }

  predicate FirstFloorIsLowest(rules: seq<Rule>, path: Path) {
    forall r :: r in rules && Matches(r, path) ==>
      FirstMatch(rules, path).Some? && FirstMatch(rules, path).value.minAgeDays <= r.minAgeDays
  }

  /** The comment above the rules says that the first rule that matches and whose floor is met retires a file;
      the code asks only the first rule that matches. At one age they agree unless the age lies between the floor
      of a matching rule and the higher floor of the first one. With an override they always agree. */
  lemma DocumentedAt(rules: seq<Rule>, minAge: Option<int>, age: real, path: Path)
    ensures (FirstRuleRetires(rules, minAge, age, path) <==> SomeRuleRetires(rules, minAge, age, path))
      <==> (minAge.Some? || !LowerFloorReached(rules, age, path))
  {
    FirstMatchIn(rules, path);
    var first := FirstMatch(rules, path);
    if first.Some? {
      assert first.value in rules;
    }
  }

  lemma LowestAgrees(rules: seq<Rule>, age: real, path: Path)
    requires FirstFloorIsLowest(rules, path)
    ensures FirstRuleRetires(rules, None, age, path) <==> SomeRuleRetires(rules, None, age, path)
  {
    DocumentedAt(rules, None, age, path);
  }

  lemma LowerDisagrees(rules: seq<Rule>, path: Path) returns (age: real)
    requires !FirstFloorIsLowest(rules, path)
    ensures !(FirstRuleRetires(rules, None, age, path) <==> SomeRuleRetires(rules, None, age, path))
  {
    FirstMatchIn(rules, path);
    var r :| r in rules && Matches(r, path) && FirstMatch(rules, path).value.minAgeDays > r.minAgeDays;
    age := r.minAgeDays as real;
    DocumentedAt(rules, None, age, path);
    assert LowerFloorReached(rules, age, path);
  }

  /** Without an override they agree at every age if and only if no matching rule has a lower floor than the first
      matching one. */
  lemma DocumentedIff(rules: seq<Rule>, path: Path)
    ensures (forall age: real :: FirstRuleRetires(rules, None, age, path) <==> SomeRuleRetires(rules, None, age, path))
      <==> FirstFloorIsLowest(rules, path)
  {
    if FirstFloorIsLowest(rules, path) {
      forall age: real ensures FirstRuleRetires(rules, None, age, path) <==> SomeRuleRetires(rules, None, age, path) {
        LowestAgrees(rules, age, path);
      }
    } else {
      var age := LowerDisagrees(rules, path);
    }
  }

  // ---- the shipped policy --------------------------------------------------------------------

  const NEVER_DELETE: set<string> := {
    "accounts.sqlite3", "accounts.sqlite3-journal", "accounts.sqlite3-wal", "payment_link_runs.jsonl",
    "registration_progress.jsonl", "paypal_proxy_state.json", "registration_proxy_health.json",
    "account_relogin_guard.json", "mailbox_pool_repair.json", "phone_proxy_probe_cache.json",
    "sensitive_policy.json", "billing_address_cursor.json"}

  const RULES: seq<Rule> := [
    Rule("empty batch gate locks", 7, Some("payment_batch_locks"), None, true),
    Rule("empty payment-operation gate locks", 7, Some("payment_operations"), Some(["*.lock"]), true),
    Rule("browser profiles", 3, Some("browser_profiles"), None, true),
    Rule("rotated payment run trails", 30, None, Some(["payment_link_runs.*.jsonl"]), true),
    Rule("per-batch payment artifacts", 30, Some("payment_batches"), None, true),
    Rule("one-off scan snapshots", 14, None, Some(["*scan*.json"]), true),
    Rule("operator logs and scratch files", 30, None, Some(["*.log"]), false),
    Rule("mailbox imports", 30, Some("mailbox_imports"), None, true),
    Rule("transient credential scratch files", 1, Some("tmp"), None, true),
    Rule("upi diagnostic dumps", 7, Some("upi_dumps"), None, true),
    Rule("protocol payment logs", 14, Some("protocol_payment"), Some(["*.log"]), true),
    Rule("per-process backend logs", 14, Some("logs"), Some(["processes", "*", "*"]), true)]

  const POLICY := Policy(NEVER_DELETE, {".sqlite3", ".db"}, RULES)

  lemma {:induction false} FirstMatchAt(rules: seq<Rule>, path: Path, k: nat)
    requires k < |rules| && Matches(rules[k], path) && forall i :: 0 <= i < k ==> !Matches(rules[i], path)
    ensures FirstMatch(rules, path) == Some(rules[k])
  {
    if k > 0 { FirstMatchAt(rules[1..], path, k - 1); }
  }

  /** A star takes any part of a name. */
  lemma {:induction false} GlobSkip(pattern: string, name: string, n: nat)
    requires pattern != "" && pattern[0] == '*' && n <= |name| && Glob(pattern[1..], name[n..])
    ensures Glob(pattern, name)
  {
    if n > 0 { GlobSkip(pattern, name[1..], n - 1); }
  }

  /** With the shipped rules: a scan snapshot among the payment batches that is 20 days old is kept, because the
      rule for payment batches comes first and waits 30 days, although the rule for snapshots waits 14. */
  lemma ShippedRulesDisagree(path: Path, now: real, file: File)
    requires path == ["payment_batches", "scan.json"] && AgeDays(now, file) == 20.0
    ensures Walked(path) && !Protected(POLICY, path) && !Retired(POLICY, None, now, path, file)
    ensures SomeRuleRetires(POLICY.rules, None, 20.0, path)
  {
    NotProtected(path);
    EarlierRulesMiss(path);
    FirstMatchAt(RULES, path, 4);
    SnapshotRuleMatches(path);
    assert RULES[5] in RULES;
  }

  /** What the shipped policy does with data bases, whatever the command line says, with the locks of the batch gates and
      with browser profiles. */
  lemma ShippedPolicy(minAge: Option<int>, now: real, dirs: Path, stem: string, name: string, file: File)
    ensures !Retired(POLICY, minAge, now, dirs + [stem + ".sqlite3"], file)
    ensures !Retired(POLICY, minAge, now, dirs + [stem + ".db"], file)
    ensures dirs != [] && Walked(dirs + [name]) && !Protected(POLICY, dirs + [name]) ==>
      && (dirs[0] == "payment_batch_locks" ==>
            (Retired(POLICY, None, now, dirs + [name], file) <==> now - file.mtime >= 7.0 * 86400.0))
      && (dirs[0] == "browser_profiles" ==>
            (Retired(POLICY, None, now, dirs + [name], file) <==> now - file.mtime >= 3.0 * 86400.0))
  {
    RetiredIs(POLICY, minAge, now, dirs, stem + ".sqlite3", file);
    RetiredIs(POLICY, minAge, now, dirs, stem + ".db", file);
    if dirs != [] {
      var path := dirs + [name];
      assert path[0] == dirs[0];
      assert |"payment_batch_locks"| == 19 && |"payment_operations"| == 18 && |"browser_profiles"| == 16;
      if dirs[0] == "payment_batch_locks" { FirstMatchAt(RULES, path, 0); }
      if dirs[0] == "browser_profiles" { FirstMatchAt(RULES, path, 2); }
    }
  }

  lemma LastOfEnding(s: string, suffix: string)
    requires suffix != ""
    ensures EndsWith(s, suffix) ==> s[|s| - 1] == suffix[|suffix| - 1]
  {
    if EndsWith(s, suffix) { assert s[|s| - |suffix|..][|suffix| - 1] == s[|s| - 1]; }
  }

  lemma NotProtected(path: Path)
    requires path == ["payment_batches", "scan.json"]
    ensures Walked(path) && !Protected(POLICY, path)
  {
    var name := path[1];
    assert |path[0]| == 15 && |TRASH_DIRNAME| == 15 && path[0][0] == 'p' && TRASH_DIRNAME[0] == '_';
    assert path[..1] == [path[0]] && RELOCATE_DIRNAME[0] == '_';
    assert name[|name| - 1] == 'n' && |name| == 9;
    LastOfEnding(name, ".sqlite3");
    LastOfEnding(name, ".db");
    forall kept | kept in POLICY.neverDelete ensures name != kept { assert |kept| > 9; }
  }

  lemma EarlierRulesMiss(path: Path)
    requires path == ["payment_batches", "scan.json"]
    ensures Matches(RULES[4], path) && forall i :: 0 <= i < 4 ==> !Matches(RULES[i], path)
  {
    assert |RULES[0].matchDir.value| == 19 && |RULES[1].matchDir.value| == 18 && |RULES[2].matchDir.value| == 16;
    assert |path[0]| == 15;
    var pattern := RULES[3].matchName.value;
    assert pattern[0][0] == 'p' && path[1][0] == 's';
    assert path[1..] == [path[1]];
    assert !Glob(pattern[0], path[1..][0]);
  }

  lemma SnapshotRuleMatches(path: Path)
    requires path == ["payment_batches", "scan.json"]
    ensures Matches(RULES[5], path)
  {
    assert path[1..] == [path[1]];
    ScanGlob(RULES[5].matchName.value[0], path[1]);
  }

  lemma ScanGlob(pattern: string, name: string)
    requires pattern == "*scan*.json" && name == "scan.json"
    ensures Glob(pattern, name)
  {
    var star := pattern[5..];
    var dot := name[4..];
    assert star[1..] == dot && '*' !in dot;
    GlobSelf(dot);
    GlobSkip(star, dot, 0);
    GlobPrefix(name[..4], star, dot);
    assert pattern[1..] == name[..4] + star && name == name[..4] + dot;
    GlobSkip(pattern, name, 0);
  }

  lemma {:induction false} GlobSelf(s: string)
    requires '*' !in s
    ensures Glob(s, s)
  {
    if s != "" { GlobSelf(s[1..]); }
  }

  lemma {:induction false} GlobPrefix(prefix: string, pattern: string, name: string)
    requires '*' !in prefix && Glob(pattern, name)
    ensures Glob(prefix + pattern, prefix + name)
  {
    if prefix == "" {
      assert prefix + pattern == pattern && prefix + name == name;
    } else {
      GlobPrefix(prefix[1..], pattern, name);
      assert (prefix + pattern)[1..] == prefix[1..] + pattern && (prefix + name)[1..] == prefix[1..] + name;
    }
  }

  // ---- relocation ----------------------------------------------------------------------------

  function Dest(stamp: string, path: Path): Path { [RELOCATE_DIRNAME, stamp] + path }

  predicate Under(stamp: string, path: Path) {
    |path| > 2 && path[0] == RELOCATE_DIRNAME && path[1] == stamp
  }

  predicate FreshStamp(stamp: string, files: Files) { forall p :: p in files ==> !Under(stamp, p) }

  /** `after` holds the same files as `files`, except that those in `moved` have been renamed to their place under
      the stamp: each is found unchanged there and nowhere else, every other file is where it was, and nothing
      else appears. */
  ghost predicate Conserved(files: Files, moved: set<Path>, stamp: string, after: Files) {
    && moved <= files.Keys
    && (forall p :: p in moved ==> p !in after && Dest(stamp, p) in after && after[Dest(stamp, p)] == files[p])
    && (forall p :: p in files && p !in moved ==> p in after && after[p] == files[p])
    && (forall q :: q in after ==> q in files || (Under(stamp, q) && q[2..] in moved))
  }

  lemma DestUnder(stamp: string, path: Path)
    requires path != []
    ensures Under(stamp, Dest(stamp, path)) && Dest(stamp, path)[2..] == path
  {}

  lemma {:induction false} DestsCount(paths: set<Path>, stamp: string)
    ensures |set p | p in paths :: Dest(stamp, p)| == |paths|
  {
    if paths == {} {
      assert (set p | p in paths :: Dest(stamp, p)) == {};
    } else {
      var x :| x in paths;
      DestsCount(paths - {x}, stamp);
      var rest := set p | p in paths - {x} :: Dest(stamp, p);
      assert Dest(stamp, x) !in rest by {
        forall p | p in paths - {x} ensures Dest(stamp, p) != Dest(stamp, x) {
          assert Dest(stamp, p)[2..] == p && Dest(stamp, x)[2..] == x;
        }
      }
      assert (set p | p in paths :: Dest(stamp, p)) == rest + {Dest(stamp, x)};
    }
  }

  lemma ConservedKeys(files: Files, moved: set<Path>, stamp: string, after: Files, dests: set<Path>)
    requires Named(files) && FreshStamp(stamp, files) && Conserved(files, moved, stamp, after)
    requires dests == set p | p in moved :: Dest(stamp, p)
    ensures after.Keys == (files.Keys - moved) + dests && files.Keys !! dests
  {
    forall q | q in after ensures q in (files.Keys - moved) + dests {
      if q !in files { assert q == Dest(stamp, q[2..]); }
    }
    forall p | p in moved ensures Under(stamp, Dest(stamp, p)) { DestUnder(stamp, p); }
    forall p | p in files ensures p !in dests { assert !Under(stamp, p); }
  }

  /** No file is lost or duplicated. */
  lemma ConservedCount(files: Files, moved: set<Path>, stamp: string, after: Files)
    requires Named(files) && FreshStamp(stamp, files) && Conserved(files, moved, stamp, after)
    ensures |after| == |files|
  {
    var dests := set p | p in moved :: Dest(stamp, p);
    ConservedKeys(files, moved, stamp, after, dests);
    DestsCount(moved, stamp);
    SwapPart(files.Keys, moved, dests);
  }

  lemma SwapPart(all: set<Path>, part: set<Path>, other: set<Path>)
    requires part <= all && all !! other && |part| == |other|
    ensures |(all - part) + other| == |all|
  {
    assert all == (all - part) + part;
  }

  /** Planning again at the same time finds exactly the files that could not be moved. */
  lemma ReplanFindsTheRest(policy: Policy, minAge: Option<int>, now: real, files: Files, moved: set<Path>,
                           stamp: string, after: Files)
    requires Named(files) && FreshStamp(stamp, files) && Conserved(files, moved, stamp, after)
    ensures Named(after)
    ensures Planned(policy, minAge, now, after) == Planned(policy, minAge, now, files) - moved
  {
    forall q | q in after && q !in files ensures q != [] && !Walked(q) {
      assert q[..|q| - 1][0] == RELOCATE_DIRNAME;
    }
  }

  /** One more rename. */
  lemma ConservedNext(files: Files, moved: set<Path>, stamp: string, after: Files, path: Path)
    requires Named(files) && FreshStamp(stamp, files) && Conserved(files, moved, stamp, after)
    requires path in after && path in files
    ensures Conserved(files, moved + {path}, stamp, (after - {path})[Dest(stamp, path) := after[path]])
  {
    DestUnder(stamp, path);
    var next := (after - {path})[Dest(stamp, path) := after[path]];
    assert !Under(stamp, path) && Dest(stamp, path) !in files;
    forall p | p in moved + {path}
      ensures p !in next && Dest(stamp, p) in next && next[Dest(stamp, p)] == files[p]
    {
      DestUnder(stamp, p);
    }
    forall q | q in next ensures q in files || (Under(stamp, q) && q[2..] in moved + {path}) {}
  }

  // ---- the tree ------------------------------------------------------------------------------

  /** The proper ancestors of a path, without the root. */
  function Ancestors(path: Path): set<Path> {
    set k | 0 < k < |path| :: path[..k]
  }

  lemma AncestorsNest(path: Path, dir: Path)
    requires dir in Ancestors(path)
    ensures Ancestors(dir) <= Ancestors(path)
  {
    forall k | 0 < k < |dir| ensures dir[..k] in Ancestors(path) { assert dir[..k] == path[..k]; }
  }

  predicate HasChild(files: set<Path>, dirs: set<Path>, dir: Path) {
    exists q :: q in files + dirs && |q| == |dir| + 1 && q[..|dir|] == dir
  }

  /** `a` is a proper ancestor of `b`. */
  predicate Above(a: Path, b: Path) { |a| < |b| && b[..|a|] == a }

  predicate Excluded(dir: Path) { dir == [] || dir[0] == RELOCATE_DIRNAME || dir[0] == TRASH_DIRNAME }

  /** Files and directories have different names, and everything lies in directories that exist. */
  ghost predicate IsTree(files: set<Path>, dirs: set<Path>) {
    files !! dirs && [] !in files && forall p {:trigger Ancestors(p)} :: p in files + dirs ==> Ancestors(p) <= dirs
  }

  // ---- which renames succeed -----------------------------------------------------------------

  /** The target directories can be made, and the name is not that of a directory. */
  predicate Open(files: set<Path>, dirs: set<Path>, dest: Path) {
    Ancestors(dest) !! files && dest !in dirs
  }

  /** The paths that are renamed when the operating system refuses those in `stuck`. */
  function Renamed(paths: set<Path>, files: Files, dirs: set<Path>, stuck: set<Path>, stamp: string): set<Path> {
    set p | p in paths && p in files && p !in stuck && Open(files.Keys, dirs, Dest(stamp, p))
  }

  /** The relocation area and the stamp are not taken by files, and nothing is under the stamp yet. */
  ghost predicate Clear(files: Files, dirs: set<Path>, stamp: string) {
    && [RELOCATE_DIRNAME] !in files && [RELOCATE_DIRNAME, stamp] !in files
    && forall p :: p in files.Keys + dirs ==> !Under(stamp, p)
  }

  lemma DestAncestors(stamp: string, path: Path, dir: Path)
    requires path != [] && dir in Ancestors(Dest(stamp, path))
    ensures dir == [RELOCATE_DIRNAME] || dir == [RELOCATE_DIRNAME, stamp]
      || (Under(stamp, dir) && dir == Dest(stamp, dir[2..]) && dir[2..] in Ancestors(path))
  {
    var k :| 0 < k < |path| + 2 && dir == Dest(stamp, path)[..k];
    if k > 2 { assert dir[2..] == path[..k - 2]; }
  }

  /** Without refusals, and with a clear target, every planned path is renamed. */
  lemma AllRenamed(paths: set<Path>, files: Files, dirs: set<Path>, stamp: string)
    requires Named(files) && Clear(files, dirs, stamp) && paths <= files.Keys
    ensures Renamed(paths, files, dirs, {}, stamp) == paths
  {
    forall p | p in files ensures Open(files.Keys, dirs, Dest(stamp, p)) {
      forall d | d in Ancestors(Dest(stamp, p)) ensures d !in files { DestAncestors(stamp, p, d); }
      DestUnder(stamp, p);
    }
  }

  /** `d` is one of the directories that the renames of `paths` need. */
  predicate NeededBy(paths: set<Path>, stamp: string, d: Path) {
    exists p :: p in paths && d in Ancestors(Dest(stamp, p))
  }

  /** The state after the renames of `moved`, one of the files `wanted` after the other, seen from the first one. */
  ghost predicate Midway(files: Files, dirs: set<Path>, wanted: set<Path>, moved: set<Path>, stamp: string, after: Files,
                         dirsAfter: set<Path>)
  {
    && Named(files) && FreshStamp(stamp, files) && IsTree(files.Keys, dirs) && wanted <= files.Keys
    && Conserved(files, moved, stamp, after) && IsTree(after.Keys, dirsAfter)
    && (forall p :: p in moved ==> Open(files.Keys, dirs, Dest(stamp, p)))
    && dirs <= dirsAfter && forall d :: d in dirsAfter ==> d in dirs || NeededBy(wanted, stamp, d)
  }

  /** A file is not needed as a directory, neither where it is nor where it goes. */
  lemma NeverNeeded(files: Files, dirs: set<Path>, stamp: string, path: Path)
    requires Named(files) && IsTree(files.Keys, dirs) && path in files
    ensures !NeededBy(files.Keys, stamp, Dest(stamp, path))
  {
    DestUnder(stamp, path);
    forall p | p in files ensures Dest(stamp, path) !in Ancestors(Dest(stamp, p)) {
      if Dest(stamp, path) in Ancestors(Dest(stamp, p)) { DestAncestors(stamp, p, Dest(stamp, path)); }
    }
  }

  /** No rename changes which others can succeed. */
  lemma OpenStays(files: Files, dirs: set<Path>, wanted: set<Path>, moved: set<Path>, stamp: string, after: Files,
                  dirsAfter: set<Path>, path: Path)
    requires Midway(files, dirs, wanted, moved, stamp, after, dirsAfter) && path in files
    ensures Open(after.Keys, dirsAfter, Dest(stamp, path)) <==> Open(files.Keys, dirs, Dest(stamp, path))
  {
    NeverNeeded(files, dirs, stamp, path);
    forall d | d in Ancestors(Dest(stamp, path)) ensures d in after <==> d in files {
      DestAncestors(stamp, path, d);
      if |d| > 2 {
        assert Ancestors(path) <= dirs;
      } else if d in moved {
        AreaNeeded(stamp, path, d);
      }
    }
  }

  /** Every destination needs the relocation area and the stamp. */
  lemma AreaNeeded(stamp: string, path: Path, d: Path)
    requires path != [] && (d == [RELOCATE_DIRNAME] || d == [RELOCATE_DIRNAME, stamp])
    ensures d in Ancestors(Dest(stamp, path)) && d in Ancestors(Dest(stamp, d))
  {
    assert d == Dest(stamp, path)[..|d|] && d == Dest(stamp, d)[..|d|];
  }

  /** After one more rename, with its target directories. */
  lemma MidwayNext(files: Files, dirs: set<Path>, wanted: set<Path>, moved: set<Path>, stamp: string, after: Files,
                   dirsAfter: set<Path>, path: Path)
    requires Midway(files, dirs, wanted, moved, stamp, after, dirsAfter)
    requires path in wanted && path in after && Open(after.Keys, dirsAfter, Dest(stamp, path))
    ensures Midway(files, dirs, wanted, moved + {path}, stamp,
                   (after - {path})[Dest(stamp, path) := after[path]],
                   dirsAfter + Ancestors(Dest(stamp, path)))
  {
    var dest := Dest(stamp, path);
    OpenStays(files, dirs, wanted, moved, stamp, after, dirsAfter, path);
    ConservedNext(files, moved, stamp, after, path);
    MoreDirs(after.Keys, dirsAfter, dest, |dest|);
    RenameInTree(after.Keys, dirsAfter + Ancestors(dest), path, dest);
    assert ((after - {path})[dest := after[path]]).Keys == after.Keys - {path} + {dest};
  }

  /** After a refused rename, for which the first directories have been made. */
  lemma MidwayStuck(files: Files, dirs: set<Path>, wanted: set<Path>, moved: set<Path>, stamp: string, after: Files,
                    dirsAfter: set<Path>, path: Path, depth: nat)
    requires Midway(files, dirs, wanted, moved, stamp, after, dirsAfter)
    requires path in wanted && depth <= |Dest(stamp, path)| && Ancestors(Dest(stamp, path)) !! after.Keys
    ensures Midway(files, dirs, wanted, moved, stamp, after, dirsAfter + Ancestors(Dest(stamp, path)[..depth]))
  {
    MoreDirs(after.Keys, dirsAfter, Dest(stamp, path), depth);
  }

  lemma MoreDirs(files: set<Path>, dirs: set<Path>, dest: Path, depth: nat)
    requires IsTree(files, dirs) && depth <= |dest| && Ancestors(dest) !! files
    ensures IsTree(files, dirs + Ancestors(dest[..depth])) && Ancestors(dest[..depth]) <= Ancestors(dest)
    ensures depth == |dest| ==> dest[..depth] == dest
  {
    forall k | 0 < k < depth ensures dest[..depth][..k] in Ancestors(dest) { assert dest[..depth][..k] == dest[..k]; }
    forall d | d in Ancestors(dest[..depth]) ensures Ancestors(d) <= Ancestors(dest[..depth]) {
      AncestorsNest(dest[..depth], d);
    }
  }

  lemma RenameInTree(files: set<Path>, dirs: set<Path>, path: Path, dest: Path)
    requires IsTree(files, dirs) && dest != [] && Ancestors(dest) <= dirs && dest !in dirs
    ensures IsTree(files - {path} + {dest}, dirs)
  {}

  // ---- what pruning leaves -------------------------------------------------------------------

  /** A directory stays if the walk skips it, if it refuses to go, or if a file or a directory that refuses is
      somewhere below it. */
  ghost predicate Stays(files: set<Path>, dirs: set<Path>, stubborn: set<Path>, d: Path) {
    || d == [] || d[0] == "_retention" || d[0] == "_trash-20260909"
    || d in stubborn || exists q :: q in files + dirs * stubborn && Above(d, q)
  }

  ghost function Kept(files: set<Path>, dirs: set<Path>, stubborn: set<Path>): set<Path> {
    set d | d in dirs && Stays(files, dirs, stubborn, d)
  }

  /** What the prune loop leaves: it removed childless directories, and no other childless ones are left. */
  ghost predicate Pruned(files: set<Path>, dirs: set<Path>, stubborn: set<Path>, after: set<Path>) {
    && after <= dirs
    && (forall d :: d in dirs && d !in after ==> !Excluded(d) && d !in stubborn && !HasChild(files, after, d))
    && (forall d :: d in after && !Excluded(d) && d !in stubborn ==> HasChild(files, after, d))
  }

  /** Nothing disappears from above what stays. */
  lemma {:induction false} KeptAbove(files: set<Path>, dirs: set<Path>, stubborn: set<Path>, after: set<Path>, d: Path, q: Path)
    requires IsTree(files, dirs) && Pruned(files, dirs, stubborn, after)
    requires d in dirs && q in files + dirs * stubborn && Above(d, q)
    ensures d in after
    decreases |q| - |d|
  {
    var child := q[..|d| + 1];
    assert child[..|d|] == d;
    if child != q {
      assert child in Ancestors(q) && Above(child, q);
      KeptAbove(files, dirs, stubborn, after, child, q);
    }
    assert child in files + after;
  }

  /** Following children down ends at a file or at a directory that refuses. */
  lemma {:induction false} ReasonBelow(files: set<Path>, dirs: set<Path>, stubborn: set<Path>, after: set<Path>, d: Path,
                                       depth: nat)
    requires Pruned(files, dirs, stubborn, after) && d in after && !Excluded(d)
    requires forall e :: e in after ==> |e| <= depth
    ensures Stays(files, dirs, stubborn, d)
    decreases depth - |d|
  {
    if d !in stubborn {
      var q :| q in files + after && |q| == |d| + 1 && q[..|d|] == d;
      if q !in files {
        assert q[0] == d[0];
        ReasonBelow(files, dirs, stubborn, after, q, depth);
        if q in stubborn {
          assert Above(d, q);
        } else {
          var r :| r in files + dirs * stubborn && Above(q, r);
          assert r[..|d|] == r[..|q|][..|d|];
          assert Above(d, r);
        }
      } else {
        assert Above(d, q);
      }
    }
  }

  /** So the outcome does not depend on the order of the walk. */
  lemma PrunedExactly(files: set<Path>, dirs: set<Path>, stubborn: set<Path>, after: set<Path>)
    requires IsTree(files, dirs) && Pruned(files, dirs, stubborn, after)
    ensures after == Kept(files, dirs, stubborn)
  {
    forall d | d in after ensures Stays(files, dirs, stubborn, d) {
      if !Excluded(d) {
        var deepest := Deepest(after);
        ReasonBelow(files, dirs, stubborn, after, d, |deepest|);
      }
    }
    forall d | d in dirs && Stays(files, dirs, stubborn, d) ensures d in after {
      if !Excluded(d) && d !in stubborn {
        var q :| q in files + dirs * stubborn && Above(d, q);
        KeptAbove(files, dirs, stubborn, after, d, q);
      }
    }
  }

  lemma StaysAbove(files: set<Path>, dirs: set<Path>, stubborn: set<Path>, a: Path, d: Path)
    requires a in Ancestors(d) && d in files + dirs && (d in dirs ==> Stays(files, dirs, stubborn, d))
    ensures Stays(files, dirs, stubborn, a)
  {
    assert Above(a, d) && a[0] == d[0];
    if d in dirs && !Excluded(d) && d !in stubborn {
      var q :| q in files + dirs * stubborn && Above(d, q);
      assert q[..|a|] == q[..|d|][..|a|];
      assert Above(a, q);
    }
  }

  lemma KeptIsTree(files: set<Path>, dirs: set<Path>, stubborn: set<Path>)
    requires IsTree(files, dirs)
    ensures IsTree(files, Kept(files, dirs, stubborn))
  {
    var kept := Kept(files, dirs, stubborn);
    forall d, a | d in files + kept && a in Ancestors(d) ensures a in kept {
      StaysAbove(files, dirs, stubborn, a, d);
    }
  }

  /** Directories made in the relocation area do not keep any outside of it. */
  lemma KeptOutside(files: set<Path>, dirs: set<Path>, more: set<Path>, stubborn: set<Path>, d: Path)
    requires dirs <= more && (forall e :: e in more && e !in dirs ==> Excluded(e)) && !Excluded(d)
    ensures d in Kept(files, more, stubborn) <==> d in Kept(files, dirs, stubborn)
  {
    forall q | Above(d, q) && q in more ensures q in dirs { assert q[0] == d[0]; }
  }

  class Tree {
    var files: Files
    var dirs: set<Path>

    ghost predicate Valid()
      reads this
    {
      Named(files) && IsTree(files.Keys, dirs)
    }

    /** `relocate`, first half. The operating system refuses the renames in `stuck`; some of their target
        directories may have been made. */
    method Relocate(items: seq<Item>, stamp: string, stuck: set<Path>)
      requires Valid() && FreshStamp(stamp, files)
      requires forall x :: x in items ==> !Under(stamp, x.path)
      modifies this
      ensures Valid()
      ensures Conserved(old(files), Renamed(Paths(items), old(files), old(dirs), stuck, stamp), stamp, files)
      ensures old(dirs) <= dirs
      ensures forall d :: d in dirs ==> d in old(dirs) || NeededBy(Paths(items) * old(files).Keys, stamp, d)
    {
      ghost var wanted := Paths(items) * files.Keys;
      for k := 0 to |items|
        invariant Midway(old(files), old(dirs), wanted,
                         Renamed(Paths(items[..k]), old(files), old(dirs), stuck, stamp), stamp, files, dirs)
      {
        var path := items[k].path;
        ghost var moved := Renamed(Paths(items[..k]), old(files), old(dirs), stuck, stamp);
        RenamedNext(items, k, old(files), old(dirs), stuck, stamp);
        assert items[k] in items;
        if path in files {
          var dest := Dest(stamp, path);
          OpenStays(old(files), old(dirs), wanted, moved, stamp, files, dirs, path);
          if Ancestors(dest) !! files.Keys {
            if path !in stuck && dest !in dirs {
              MidwayNext(old(files), old(dirs), wanted, moved, stamp, files, dirs, path);
              dirs := dirs + Ancestors(dest);
              files := (files - {path})[dest := files[path]];
            } else {
              var depth: nat :| depth <= |dest|;
              MidwayStuck(old(files), old(dirs), wanted, moved, stamp, files, dirs, path, depth);
              dirs := dirs + Ancestors(dest[..depth]);
            }
          }
        }
      }
      assert items[..|items|] == items;
    }

    /** `relocate`, second half: directories that are empty when the walk comes to them are removed, children
        before their parents. The operating system refuses to remove those in `stubborn`. */
    method PruneEmpty(stubborn: set<Path>)
      requires Valid()
      modifies `dirs
      ensures Valid()
      ensures dirs == Kept(files.Keys, old(dirs), stubborn)
      ensures forall d :: d in dirs && !Excluded(d) && d !in stubborn ==> HasChild(files.Keys, dirs, d)
    {
      var todo := dirs;
      while todo != {}
        invariant todo <= dirs <= old(dirs)
        invariant forall e, d :: e in dirs && e !in todo && d in todo ==> !Above(e, d)
        invariant forall d :: d in old(dirs) && d !in dirs ==> !Excluded(d) && d !in stubborn && !HasChild(files.Keys, dirs, d)
        invariant forall d :: d in dirs && d !in todo && !Excluded(d) && d !in stubborn ==> HasChild(files.Keys, dirs, d)
      {
        ghost var deepest := Deepest(todo);
        assert deepest in todo && forall e :: e in todo ==> !Above(deepest, e);
        var dir :| dir in todo && forall e :: e in todo ==> !Above(dir, e);
        todo := todo - {dir};
        if !Excluded(dir) && !HasChild(files.Keys, dirs, dir) && dir !in stubborn {
          RemovalKeepsChildren(files.Keys, dirs, dir);
          dirs := dirs - {dir};
        }
      }
      PrunedExactly(files.Keys, old(dirs), stubborn, dirs);
      KeptIsTree(files.Keys, old(dirs), stubborn);
    }

    /** The tool with `--apply`: plan, relocate, prune. When there is nothing to retire it does nothing. */
    method Retire(policy: Policy, minAge: Option<int>, now: real, stamp: string, stuck: set<Path>, stubborn: set<Path>)
      requires Valid() && FreshStamp(stamp, files)
      modifies this
      ensures Valid() && |files| == |old(files)|
      ensures var planned := Planned(policy, minAge, now, old(files));
        var moved := Renamed(planned, old(files), old(dirs), stuck, stamp);
        Conserved(old(files), moved, stamp, files) && Planned(policy, minAge, now, files) == planned - moved
      ensures forall p :: p in old(files) && Protected(policy, p) ==> p in files && files[p] == old(files)[p]
      ensures Planned(policy, minAge, now, old(files)) == {} ==> files == old(files) && dirs == old(dirs)
      ensures Planned(policy, minAge, now, old(files)) != {} ==>
        && (forall d :: !Excluded(d) ==> (d in dirs <==> d in Kept(files.Keys, old(dirs), stubborn)))
        && (forall d :: d in dirs && !Excluded(d) && d !in stubborn ==> HasChild(files.Keys, dirs, d))
      ensures stuck == {} && Clear(old(files), old(dirs), stamp) ==>
        && Conserved(old(files), Planned(policy, minAge, now, old(files)), stamp, files)
        && Planned(policy, minAge, now, files) == {}
    {
      ghost var planned := Planned(policy, minAge, now, files);
      ghost var moved := Renamed(planned, files, dirs, stuck, stamp);
      var items := PlanRetention(policy, minAge, now, files);
      forall p | p in planned ensures !Under(stamp, p) && !Protected(policy, p) {
        PlannedStaysOutside(policy, minAge, now, files, stamp, p);
      }
      ListedPaths(policy, now, files, planned, items);
      if Clear(files, dirs, stamp) && stuck == {} { AllRenamed(planned, files, dirs, stamp); }
      if items == [] {
        assert planned == {};
        return;
      }
      Relocate(items, stamp, stuck);
      ReplanFindsTheRest(policy, minAge, now, old(files), moved, stamp, files);
      ConservedCount(old(files), moved, stamp, files);
      ghost var more := dirs;
      PruneEmpty(stubborn);
      forall d | d in more && d !in old(dirs) ensures Excluded(d) { NeededExcluded(old(files).Keys, stamp, d); }
      forall d | !Excluded(d) ensures d in dirs <==> d in Kept(files.Keys, old(dirs), stubborn) {
        KeptOutside(files.Keys, old(dirs), more, stubborn, d);
      }
    }
  }

  function Paths(items: seq<Item>): set<Path> {
    set x | x in items :: x.path
  }

  lemma ListedPaths(policy: Policy, now: real, files: Files, paths: set<Path>, items: seq<Item>)
    requires forall p :: p in paths ==> p in files && FirstMatch(policy.rules, p).Some?
    requires Lists(policy, now, files, paths, items)
    ensures Paths(items) == paths
  {
    forall p | p in paths ensures p in Paths(items) { assert ItemOf(policy, now, p, files[p]) in items; }
  }

  lemma RenamedNext(items: seq<Item>, k: nat, files: Files, dirs: set<Path>, stuck: set<Path>, stamp: string)
    requires k < |items|
    ensures var moved := Renamed(Paths(items[..k]), files, dirs, stuck, stamp);
      var path := items[k].path;
      Renamed(Paths(items[..k + 1]), files, dirs, stuck, stamp) ==
        if path in files && path !in stuck && Open(files.Keys, dirs, Dest(stamp, path)) then moved + {path} else moved
  {
    assert items[..k + 1] == items[..k] + [items[k]];
    assert Paths(items[..k + 1]) == Paths(items[..k]) + {items[k].path};
  }

  lemma NeededExcluded(paths: set<Path>, stamp: string, d: Path)
    requires NeededBy(paths, stamp, d)
    ensures Excluded(d)
  {}

  lemma {:induction false} Deepest(paths: set<Path>) returns (d: Path)
    requires paths != {}
    ensures d in paths && forall e :: e in paths ==> |e| <= |d|
  {
    d :| d in paths;
    if paths != {d} {
      var other := Deepest(paths - {d});
      if |other| > |d| { d := other; }
    }
  }

  lemma PlannedStaysOutside(policy: Policy, minAge: Option<int>, now: real, files: Files, stamp: string, path: Path)
    requires Named(files) && path in Planned(policy, minAge, now, files)
    ensures !Under(stamp, path) && !Protected(policy, path)
  {
    assert Walked(path);
    assert |path| > 1 ==> path[0] in path[..|path| - 1] by { assert |path| > 1 ==> path[..|path| - 1][0] == path[0]; }
  }

  /** Removing a directory only takes a child from its parent. */
  lemma RemovalKeepsChildren(files: set<Path>, dirs: set<Path>, dir: Path)
    ensures forall e :: HasChild(files, dirs, e) && !Above(e, dir) ==> HasChild(files, dirs - {dir}, e)
    ensures forall e :: !HasChild(files, dirs, e) ==> !HasChild(files, dirs - {dir}, e)
  {
    forall e | HasChild(files, dirs, e) && !Above(e, dir) ensures HasChild(files, dirs - {dir}, e) {
      var q :| q in files + dirs && |q| == |e| + 1 && q[..|e|] == e;
      assert q != dir;
      assert q in files + (dirs - {dir});
    }
  }
}
