/**
 Which tests a change set needs: the packages that depend on a package, and the
 scoped selection that falls back to everything when it cannot place a path.
 Globbing enters through a given predicate.
 */
module Selection {
  import opened Options
  import opened Sets

  // --- reverse dependencies

  type Manifests = map<string, set<string>>

  /** Every dependency named is itself a package. */
  ghost predicate Closed(m: Manifests) {
    forall name, dep :: name in m && dep in m[name] ==> dep in m
  }

  /** A chain of packages, each depending on the next. */
  ghost predicate Chain(m: Manifests, chain: seq<string>) {
    && |chain| >= 2
    && (forall i :: 0 <= i < |chain| ==> chain[i] in m)
    && (forall i, j :: 0 <= i && j == i + 1 && j < |chain| ==> chain[j] in m[chain[i]])
  }

  /** `user` depends on `name`, through one or more steps. */
  ghost predicate DependsOn(m: Manifests, user: string, name: string) {
    exists chain :: Chain(m, chain) && chain[0] == user && chain[|chain| - 1] == name
  }

  ghost function Dependents(m: Manifests, name: string): set<string> {
    set user | user in m && user != name && DependsOn(m, user, name)
  }

  lemma ChainStep(m: Manifests, user: string, dep: string, name: string)
    requires user in m && dep in m && dep in m[user] && (dep == name || DependsOn(m, dep, name))
    ensures DependsOn(m, user, name)
  {
    if dep == name {
      assert Chain(m, [user, dep]);
    } else {
      var chain :| Chain(m, chain) && chain[0] == dep && chain[|chain| - 1] == name;
      var longer := [user] + chain;
      forall i, j | 0 <= i && j == i + 1 && j < |longer|
        ensures longer[j] in m[longer[i]]
      {
        if i > 0 {
          assert chain[i] in m[chain[i - 1]];
        }
      }
      assert Chain(m, longer);
    }
  }

  /** Every direct user of the package, or of a package in the set, is in the set. */
  ghost predicate HoldsUsers(m: Manifests, name: string, seen: set<string>) {
    && (forall user :: user in m && name in m[user] ==> user in seen)
    && (forall user, dep :: user in m && dep in m[user] && dep in seen ==> user in seen)
  }

  lemma HoldsUser(m: Manifests, name: string, seen: set<string>, user: string, dep: string)
    requires HoldsUsers(m, name, seen)
    requires user in m && dep in m[user] && (dep == name || dep in seen)
    ensures user in seen
  {
  }

  /** A set closed under direct users holds every dependent. */
  lemma {:induction false} ClosedHoldsChain(m: Manifests, name: string, seen: set<string>, chain: seq<string>)
    requires Chain(m, chain) && chain[|chain| - 1] == name
    requires HoldsUsers(m, name, seen)
    ensures chain[0] in seen
    decreases |chain|
  {
    hide HoldsUsers;
    var user, dep := chain[0], chain[1];
    assert user in m && dep in m[user];
    if |chain| > 2 {
      var rest := chain[1..];
      forall i, j | 0 <= i && j == i + 1 && j < |rest|
        ensures rest[j] in m[rest[i]]
      {
        assert chain[j + 1] in m[chain[i + 1]];
      }
      ClosedHoldsChain(m, name, seen, rest);
    }
    HoldsUser(m, name, seen, user, dep);
  }

  method ListOf(s: set<string>) returns (list: seq<string>)
    ensures forall x :: x in list <==> x in s
  {
    list := [];
    var rest := s;
    while rest != {}
      invariant rest <= s && forall x :: x in list <==> x in s - rest
      decreases rest
    {
      var x := Pick(rest);
      rest := rest - {x};
      list := list + [x];
    }
  }

  /** Package -> the packages that name it as a dependency. */
  method DirectUsers(m: Manifests) returns (direct: map<string, set<string>>)
    requires Closed(m)
    ensures direct.Keys == m.Keys
    ensures forall dep :: dep in m ==> forall user :: user in direct[dep] <==> user in m && dep in m[user]
  {
    direct := map name | name in m :: {};
    var names := m.Keys;
    while names != {}
      invariant names <= m.Keys && direct.Keys == m.Keys
      invariant forall dep :: dep in m ==>
        forall user :: user in direct[dep] <==> user in m && user !in names && dep in m[user]
      decreases names
    {
      var name := Pick(names);
      direct := map dep | dep in m :: if dep in m[name] then direct[dep] + {name} else direct[dep];
      names := names - {name};
    }
  }

  /** For each package, all the others that reach it over dependencies, through
      cycles too. */
  method ReverseDependents(m: Manifests) returns (closure: map<string, set<string>>)
    requires Closed(m)
    ensures closure.Keys == m.Keys
    ensures forall name :: name in m ==> closure[name] == Dependents(m, name)
  {
    var direct := DirectUsers(m);
    closure := map[];
    var names := m.Keys;
    while names != {}
      invariant names <= m.Keys && closure.Keys == m.Keys - names
      invariant forall name :: name in closure ==> closure[name] == Dependents(m, name)
      decreases names
    {
      var name := Pick(names);
      var seen := Reach(m, direct, name);
      closure := closure[name := seen - {name}];
      names := names - {name};
    }
  }

  method Reach(m: Manifests, direct: map<string, set<string>>, name: string) returns (seen: set<string>)
    requires Closed(m) && name in m && direct.Keys == m.Keys
    requires forall dep :: dep in m ==> forall user :: user in direct[dep] <==> user in m && dep in m[user]
    ensures forall user :: user in seen <==> user in m && DependsOn(m, user, name)
  {
    hide DependsOn;
    seen := {};
    var pending := ListOf(direct[name]);
    forall user | user in pending
      ensures user in m && DependsOn(m, user, name)
    {
      ChainStep(m, user, name, name);
    }
    while pending != []
      invariant seen <= m.Keys
      invariant forall user :: user in seen || user in pending ==> user in m && DependsOn(m, user, name)
      invariant forall user, dep :: user in m && dep in m[user] && (dep == name || dep in seen) ==>
        user in seen || user in pending
      decreases m.Keys - seen, |pending|
    {
      var current := pending[|pending| - 1];
      ghost var before := pending;
      assert current in pending;
      pending := pending[..|pending| - 1];
      assert forall x :: x in before <==> x in pending || x == current;
      if current !in seen {
        seen := seen + {current};
        var users := ListOf(direct[current]);
        forall user | user in users
          ensures user in m && DependsOn(m, user, name)
        {
          ChainStep(m, user, current, name);
        }
        pending := pending + users;
      }
    }
    assert HoldsUsers(m, name, seen);
    forall user | user in m && DependsOn(m, user, name)
      ensures user in seen
    {
      DependsHeld(m, name, seen, user);
    }
  }

  lemma DependsHeld(m: Manifests, name: string, seen: set<string>, user: string)
    requires user in m && DependsOn(m, user, name)
    requires HoldsUsers(m, name, seen)
    ensures user in seen
  {
    var chain :| Chain(m, chain) && chain[0] == user && chain[|chain| - 1] == name;
    ClosedHoldsChain(m, name, seen, chain);
  }

  // --- paths

  /** path.split("/"). */
  function Split(s: string): (r: seq<string>)
    ensures r != []
  {
    if s == "" then [""]
    else if s[0] == '/' then [""] + Split(s[1..])
    else
      var rest := Split(s[1..]);
      [[s[0]] + rest[0]] + rest[1..]
  }

  predicate StartsWith(s: string, prefix: string) {
    prefix <= s
  }

  function PackageFor(path: string): Option<string> {
    var parts := Split(path);
    if |parts| >= 4 && parts[0] == "ros_ws" && parts[1] == "src" then Some(parts[2]) else None
  }

  lemma {:induction false} SplitJoin(a: string, b: string)
    requires '/' !in a
    ensures Split(a + "/" + b) == [a] + Split(b)
  {
    if a == "" {
      assert a + "/" + b == "/" + b && ("/" + b)[1..] == b;
    } else {
      assert (a + "/" + b)[1..] == a[1..] + "/" + b && (a + "/" + b)[0] == a[0];
      SplitJoin(a[1..], b);
      assert [a[0]] + a[1..] == a;
    }
  }

  /** The first part and what follows its slash. */
  lemma {:induction false} SplitFirst(s: string) returns (b: string)
    requires |Split(s)| >= 2
    ensures '/' !in Split(s)[0] && s == Split(s)[0] + "/" + b && Split(b) == Split(s)[1..]
  {
    if s[0] == '/' {
      b := s[1..];
      assert s == "" + "/" + b;
    } else {
      var rest := Split(s[1..]);
      b := SplitFirst(s[1..]);
      assert Split(s)[0] == [s[0]] + rest[0];
      assert s == [s[0]] + s[1..] == [s[0]] + (rest[0] + "/" + b);
      assert s == ([s[0]] + rest[0]) + "/" + b;
    }
  }

  /** A path is a package's exactly when it lies under ros_ws/src/<package>/. */
  lemma PackageForExact(path: string, package: string)
    ensures PackageFor(path) == Some(package) <==>
      '/' !in package && exists rest :: path == "ros_ws" + "/" + ("src" + "/" + (package + "/" + rest))
  {
    if PackageFor(path) == Some(package) {
      var b := SplitFirst(path);
      var c := SplitFirst(b);
      var d := SplitFirst(c);
      assert Split(path)[1..][0] == "src" && Split(b)[1..][0] == package;
      assert path == "ros_ws" + "/" + ("src" + "/" + (package + "/" + d));
    }
    if rest :| '/' !in package && path == "ros_ws" + "/" + ("src" + "/" + (package + "/" + rest)) {
      SplitJoin("ros_ws", "src" + "/" + (package + "/" + rest));
      SplitJoin("src", package + "/" + rest);
      SplitJoin(package, rest);
      assert Split(path) == ["ros_ws", "src", package] + Split(rest);
    }
  }

  const WHOLE_TREE_FILES :=
    ["scripts/check.sh", ".pre-commit-config.yaml", "setup.sh", ".clang-tidy", ".clang-format", "ruff.toml"]
  const WHOLE_TREE_BASENAMES := ["package.xml", "CMakeLists.txt"]
  const WHOLE_TREE_PREFIXES := ["docker/", "config/", "tests/golden/"]
  const READY_WHOLE_TREE_FILES :=
    ["config/reference_stack.yaml",
     "ros_ws/src/racing_bringup/launch/sim_pure_pursuit.launch.py",
     "ros_ws/src/racing_bringup/racing_bringup/support_node.py",
     "ros_ws/src/racing_bringup/racing_bringup/scenario_parameters.py",
     "ros_ws/src/racing_bringup/setup.py"]

  predicate IsWholeTreeTrigger(path: string) {
    var parts := Split(path);
    || path in WHOLE_TREE_FILES
    || parts[|parts| - 1] in WHOLE_TREE_BASENAMES
    || exists i :: 0 <= i < |WHOLE_TREE_PREFIXES| && StartsWith(path, WHOLE_TREE_PREFIXES[i])
  }

  const SYSTEM_TEST_PREFIX := "tests/system/test_sim_"

  predicate Digits(s: string) {
    forall i :: 0 <= i < |s| ==> '0' <= s[i] <= '9'
  }

  /** The tier-3 id of tests/system/test_sim_NNNN_*.py. */
  function SystemTest(path: string): Option<string> {
    var n := |SYSTEM_TEST_PREFIX|;
    if |path| < n + 8 || !StartsWith(path, SYSTEM_TEST_PREFIX) then None
    else if !Digits(path[n..n + 4]) || path[n + 4] != '_' || path[|path| - 3..] != ".py" then None
    else if '/' in path[n + 5..|path| - 3] then None
    else Some("SIM-" + path[n..n + 4])
  }

  /** A path names a tier-3 test exactly when it is the prefix, four digits, an
      underscore, a name without slashes and .py. */
  lemma SystemTestExact(path: string, id: string)
    ensures SystemTest(path) == Some(id) <==>
      exists digits, name :: Names(path, id, digits, name)
  {
    var n := |SYSTEM_TEST_PREFIX|;
    if SystemTest(path) == Some(id) {
      var digits, name := path[n..n + 4], path[n + 5..|path| - 3];
      assert path == SYSTEM_TEST_PREFIX + digits + "_" + name + ".py";
      assert Names(path, id, digits, name);
    }
    if digits, name :| Names(path, id, digits, name) {
      assert path[..n] == SYSTEM_TEST_PREFIX && path[n..n + 4] == digits && path[n + 4] == '_';
      assert path[|path| - 3..] == ".py" && path[n + 5..|path| - 3] == name;
    }
  }

  ghost predicate Names(path: string, id: string, digits: string, name: string) {
    && |digits| == 4 && Digits(digits) && '/' !in name
    && id == "SIM-" + digits && path == SYSTEM_TEST_PREFIX + digits + "_" + name + ".py"
  }

  // --- the selection

  datatype Implementation = Implementation(
    role: string, name: string, package: string, isDefault: bool, paths: seq<string>, verifiedBy: seq<string>)
  {
    function Key(): string {
      role + "=" + name
    }
  }

  datatype Stack = Stack(
    implementations: seq<Implementation>, referenceLap: string, neutralPaths: seq<string>,
    systemTests: set<string>, acceptanceTests: set<string>)
  {
    function Discovered(): set<string> {
      systemTests + acceptanceTests
    }
  }

  datatype Reason = NothingChanged | NoReferenceLap | WholeTreeFile(path: string) | Trigger(path: string) |
    Unmapped(path: string) | Unclaimed | NotFound

  /** What one changed path asks for; the first rule that matches decides. */
  datatype Ask = Everything(reason: Reason) | Nothing | OneTest(id: string) | Keys(keys: set<string>)

  type Glob = (string, string) -> bool

  predicate Matches(glob: Glob, path: string, globs: seq<string>) {
    exists i :: 0 <= i < |globs| && glob(path, globs[i])
  }

  function UsersOf(path: string, deps: Manifests): set<string> {
    var package := PackageFor(path);
    if package.Some? && package.value != "" && package.value in deps then deps[package.value] else {}
  }

  predicate Owns(glob: Glob, i: Implementation, path: string) {
    Matches(glob, path, i.paths)
  }

  /** The implementation answers for the path: it owns it, or depends on its package. */
  predicate Answers(glob: Glob, i: Implementation, path: string, deps: Manifests) {
    Owns(glob, i, path) || i.package in UsersOf(path, deps)
  }

  function AskOf(glob: Glob, path: string, stack: Stack, deps: Manifests): Ask {
    if path in READY_WHOLE_TREE_FILES then Everything(WholeTreeFile(path))
    else if !StartsWith(path, "config/") && IsWholeTreeTrigger(path) then Everything(Trigger(path))
    else if Matches(glob, path, stack.neutralPaths) then Nothing
    else if SystemTest(path).Some? then OneTest(SystemTest(path).value)
    else if !exists k :: 0 <= k < |stack.implementations| && Owns(glob, stack.implementations[k], path) then
      Everything(Unmapped(path))
    else Keys(set k | 0 <= k < |stack.implementations| && Answers(glob, stack.implementations[k], path, deps)
                :: stack.implementations[k].Key())
  }

  /** The first path that asks for everything, in the order given. */
  function FirstEverything(glob: Glob, changed: seq<string>, stack: Stack, deps: Manifests): Option<Reason> {
    if changed == [] then None
    else if AskOf(glob, changed[0], stack, deps).Everything? then Some(AskOf(glob, changed[0], stack, deps).reason)
    else FirstEverything(glob, changed[1..], stack, deps)
  }

  function Selected(glob: Glob, changed: seq<string>, stack: Stack, deps: Manifests): set<string> {
    if changed == [] then {}
    else
      var init := Selected(glob, changed[..|changed| - 1], stack, deps);
      var ask := AskOf(glob, changed[|changed| - 1], stack, deps);
      if ask.Keys? then init + ask.keys else init
  }

  function Explicit(glob: Glob, changed: seq<string>, stack: Stack, deps: Manifests): set<string> {
    if changed == [] then {}
    else
      var init := Explicit(glob, changed[..|changed| - 1], stack, deps);
      var ask := AskOf(glob, changed[|changed| - 1], stack, deps);
      if ask.OneTest? then init + {ask.id} else init
  }

  /** The tests claimed by the first n implementations whose key passes. */
  function Claimed(stack: Stack, n: nat, keys: Option<set<string>>): set<string>
    requires n <= |stack.implementations|
  {
    if n == 0 then {}
    else
      var i := stack.implementations[n - 1];
      Claimed(stack, n - 1, keys) +
      if keys == None || i.Key() in keys.value then (set t | t in i.verifiedBy) else {}
  }

  datatype Scope = Whole(reason: Reason) | Scoped(implementations: set<string>, tests: set<string>)

  function Select(glob: Glob, changed: seq<string>, stack: Stack, deps: Manifests): Scope {
    var n := |stack.implementations|;
    if changed == [] then Whole(NothingChanged)
    else if stack.referenceLap == "" then Whole(NoReferenceLap)
    else if FirstEverything(glob, changed, stack, deps).Some? then
      Whole(FirstEverything(glob, changed, stack, deps).value)
    else
      var selected := Selected(glob, changed, stack, deps);
      var chosen := {stack.referenceLap} + Explicit(glob, changed, stack, deps) + Claimed(stack, n, Some(selected));
      if stack.Discovered() - Claimed(stack, n, None) - {stack.referenceLap} != {} then Whole(Unclaimed)
      else if chosen - stack.Discovered() != {} then Whole(NotFound)
      else Scoped(selected, chosen)
  }

  /** The tests a change set runs, path by path. */
  method SelectReady(glob: Glob, changed: seq<string>, stack: Stack, deps: Manifests) returns (scope: Scope)
    ensures scope == Select(glob, changed, stack, deps)
  {
    hide AskOf, Claimed;
    if changed == [] {
      return Whole(NothingChanged);
    }
    if stack.referenceLap == "" {
      return Whole(NoReferenceLap);
    }
    var selected, explicit := {}, {};
    for k := 0 to |changed|
      invariant selected == Selected(glob, changed[..k], stack, deps)
      invariant explicit == Explicit(glob, changed[..k], stack, deps)
      invariant FirstEverything(glob, changed, stack, deps) == FirstEverything(glob, changed[k..], stack, deps)
    {
      assert changed[..k + 1][..k] == changed[..k] && changed[k..][1..] == changed[k + 1..];
      var ask := Place(glob, changed[k], stack, deps);
      match ask
      case Everything(reason) => return Whole(reason);
      case Nothing =>
      case OneTest(id) => explicit := explicit + {id};
      case Keys(keys) => selected := selected + keys;
    }
    assert changed[..|changed|] == changed;
    var claimed := ClaimedBy(stack, None);
    if stack.Discovered() - claimed - {stack.referenceLap} != {} {
      return Whole(Unclaimed);
    }
    var verified := ClaimedBy(stack, Some(selected));
    var chosen := {stack.referenceLap} + explicit + verified;
    if chosen - stack.Discovered() != {} {
      return Whole(NotFound);
    }
    scope := Scoped(selected, chosen);
  }

  /** The rules for one path, in order. */
  method Place(glob: Glob, path: string, stack: Stack, deps: Manifests) returns (ask: Ask)
    ensures ask == AskOf(glob, path, stack, deps)
  {
    hide IsWholeTreeTrigger, Matches, SystemTest, UsersOf;
    if path in READY_WHOLE_TREE_FILES {
      return Everything(WholeTreeFile(path));
    }
    if !StartsWith(path, "config/") && IsWholeTreeTrigger(path) {
      return Everything(Trigger(path));
    }
    if Matches(glob, path, stack.neutralPaths) {
      return Nothing;
    }
    var system := SystemTest(path);
    if system.Some? {
      return OneTest(system.value);
    }
    var users := UsersOf(path, deps);
    var owned, keys := false, {};
    for k := 0 to |stack.implementations|
      invariant owned == exists h :: 0 <= h < k && Owns(glob, stack.implementations[h], path)
      invariant keys == set h | 0 <= h < k && Answers(glob, stack.implementations[h], path, deps)
                              :: stack.implementations[h].Key()
    {
      var impl := stack.implementations[k];
      var owns := Matches(glob, path, impl.paths);
      owned := owned || owns;
      if owns || impl.package in users {
        keys := keys + {impl.Key()};
      }
    }
    if !owned {
      return Everything(Unmapped(path));
    }
    ask := Keys(keys);
  }

  method ClaimedBy(stack: Stack, keys: Option<set<string>>) returns (tests: set<string>)
    ensures tests == Claimed(stack, |stack.implementations|, keys)
  {
    tests := {};
    for k := 0 to |stack.implementations|
      invariant tests == Claimed(stack, k, keys)
    {
      var impl := stack.implementations[k];
      if keys == None || impl.Key() in keys.value {
        tests := tests + set t | t in impl.verifiedBy;
      }
    }
  }

  // --- what the selection promises

  lemma {:induction false} FirstEverythingExact(glob: Glob, changed: seq<string>, stack: Stack, deps: Manifests)
    ensures FirstEverything(glob, changed, stack, deps).Some? <==>
      exists p :: p in changed && AskOf(glob, p, stack, deps).Everything?
    decreases |changed|
  {
    hide AskOf;
    if changed != [] {
      FirstEverythingExact(glob, changed[1..], stack, deps);
      assert forall p :: p in changed <==> p == changed[0] || p in changed[1..];
    }
  }

  lemma {:induction false} SelectedExact(glob: Glob, changed: seq<string>, stack: Stack, deps: Manifests)
    ensures forall key :: key in Selected(glob, changed, stack, deps) <==>
      exists p :: p in changed && AskOf(glob, p, stack, deps).Keys? && key in AskOf(glob, p, stack, deps).keys
    ensures forall id :: id in Explicit(glob, changed, stack, deps) <==>
      exists p :: p in changed && AskOf(glob, p, stack, deps) == OneTest(id)
    decreases |changed|
  {
    hide AskOf;
    if changed != [] {
      var init, last := changed[..|changed| - 1], changed[|changed| - 1];
      SelectedExact(glob, init, stack, deps);
      assert forall p :: p in changed <==> p in init || p == last;
    }
  }

  lemma {:induction false} ClaimedExact(stack: Stack, n: nat, keys: Option<set<string>>)
    requires n <= |stack.implementations|
    ensures forall t :: t in Claimed(stack, n, keys) <==> exists k ::
      && 0 <= k < n && (keys == None || stack.implementations[k].Key() in keys.value)
      && t in stack.implementations[k].verifiedBy
  {
    if n > 0 {
      ClaimedExact(stack, n - 1, keys);
    }
  }

  /** A scoped result runs the reference lap, every changed tier-3 test, and every
      test of each implementation that answers for a changed path: neither owned
      paths nor users of their packages are missed. */
  lemma ScopedIsSound(glob: Glob, changed: seq<string>, stack: Stack, deps: Manifests, path: string)
    requires Select(glob, changed, stack, deps).Scoped? && path in changed
    ensures var r := Select(glob, changed, stack, deps);
      && stack.referenceLap in r.tests
      && (Matches(glob, path, stack.neutralPaths) ||
          if SystemTest(path).Some? then SystemTest(path).value in r.tests
          else
            && (exists k :: 0 <= k < |stack.implementations| && Owns(glob, stack.implementations[k], path))
            && forall k :: 0 <= k < |stack.implementations| && Answers(glob, stack.implementations[k], path, deps) ==>
                 && stack.implementations[k].Key() in r.implementations
                 && forall t :: t in stack.implementations[k].verifiedBy ==> t in r.tests)
  {
    hide Matches, SystemTest, Answers, Claimed, Selected, Explicit, IsWholeTreeTrigger, FirstEverything;
    FirstEverythingExact(glob, changed, stack, deps);
    SelectedExact(glob, changed, stack, deps);
    ClaimedExact(stack, |stack.implementations|, Some(Selected(glob, changed, stack, deps)));
    assert !AskOf(glob, path, stack, deps).Everything?;
  }

  /** And nothing else: every test it runs exists, and is the lap, a changed test,
      or claimed by an implementation that answers for a changed path. */
  lemma ScopedIsMinimal(glob: Glob, changed: seq<string>, stack: Stack, deps: Manifests, t: string)
    requires Select(glob, changed, stack, deps).Scoped? && t in Select(glob, changed, stack, deps).tests
    ensures t in stack.Discovered()
    ensures t == stack.referenceLap || exists path :: path in changed && AskedBy(glob, path, stack, deps, t)
  {
    hide AskOf, Claimed, Selected, Explicit, FirstEverything;
    var selected := Selected(glob, changed, stack, deps);
    var chosen := {stack.referenceLap} + Explicit(glob, changed, stack, deps) +
      Claimed(stack, |stack.implementations|, Some(selected));
    SelectedExact(glob, changed, stack, deps);
    ClaimedExact(stack, |stack.implementations|, Some(selected));
    assert Select(glob, changed, stack, deps).tests == chosen;
    assert t !in chosen - stack.Discovered();
    if t in Claimed(stack, |stack.implementations|, Some(selected)) {
      var k :| 0 <= k < |stack.implementations| && stack.implementations[k].Key() in selected &&
        t in stack.implementations[k].verifiedBy;
      var path :| path in changed && AskOf(glob, path, stack, deps).Keys? &&
        stack.implementations[k].Key() in AskOf(glob, path, stack, deps).keys;
      assert ClaimedFor(glob, path, stack, deps, k, t);
      assert AskedBy(glob, path, stack, deps, t);
    }
  }

  /** The path is the test itself, or an implementation it selects claims the test. */
  ghost predicate AskedBy(glob: Glob, path: string, stack: Stack, deps: Manifests, t: string) {
    || AskOf(glob, path, stack, deps) == OneTest(t)
    || exists k :: 0 <= k < |stack.implementations| && ClaimedFor(glob, path, stack, deps, k, t)
  }

  ghost predicate ClaimedFor(glob: Glob, path: string, stack: Stack, deps: Manifests, k: nat, t: string)
    requires k < |stack.implementations|
  {
    && AskOf(glob, path, stack, deps).Keys?
    && stack.implementations[k].Key() in AskOf(glob, path, stack, deps).keys
    && t in stack.implementations[k].verifiedBy
  }

  /** More changes never narrow a non-empty selection: everything stays
      everything, and no test is dropped. */
  lemma SelectionMonotone(glob: Glob, few: seq<string>, many: seq<string>, stack: Stack, deps: Manifests)
    requires few != [] && forall p :: p in few ==> p in many
    ensures var a, b := Select(glob, few, stack, deps), Select(glob, many, stack, deps);
      && (a.Whole? ==> b.Whole?)
      && (b.Scoped? ==> a.implementations <= b.implementations && a.tests <= b.tests)
  {
    hide AskOf, Claimed, Selected, Explicit, FirstEverything;
    assert few[0] in many;
    FirstEverythingExact(glob, few, stack, deps);
    FirstEverythingExact(glob, many, stack, deps);
    SelectedExact(glob, few, stack, deps);
    SelectedExact(glob, many, stack, deps);
    ClaimedExact(stack, |stack.implementations|, Some(Selected(glob, few, stack, deps)));
    ClaimedExact(stack, |stack.implementations|, Some(Selected(glob, many, stack, deps)));
  }

  /** With the dependencies computed from the manifests: an implementation whose
      package needs a changed package, however far down, is selected. */
  lemma UsersSelected(glob: Glob, changed: seq<string>, stack: Stack, m: Manifests, deps: Manifests, path: string,
                      k: nat)
    requires deps.Keys == m.Keys && forall name :: name in m ==> deps[name] == Dependents(m, name)
    requires Select(glob, changed, stack, deps).Scoped? && path in changed && k < |stack.implementations|
    requires !Matches(glob, path, stack.neutralPaths) && SystemTest(path) == None
    requires PackageFor(path).Some? && PackageFor(path).value in m && PackageFor(path).value != ""
    requires var user := stack.implementations[k].package;
      user in m && user != PackageFor(path).value && DependsOn(m, user, PackageFor(path).value)
    ensures forall t :: t in stack.implementations[k].verifiedBy ==> t in Select(glob, changed, stack, deps).tests
  {
    hide Select, DependsOn, SystemTest, PackageFor, Matches;
    ScopedIsSound(glob, changed, stack, deps, path);
    assert Answers(glob, stack.implementations[k], path, deps);
  }
}
