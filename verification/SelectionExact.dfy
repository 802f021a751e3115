/**
 The whole selection told from the strings alone: when it falls back to everything,
 and which implementations and tests a scoped one names.
 */
module SelectionExact {
  import opened Options
  import opened Selection

  // --- the paths that force everything

  ghost predicate EndsIn(s: string, suffix: string) {
    exists head :: s == head + suffix
  }

  /** A file of the selection's own map and of the code every implementation runs in. */
  ghost predicate Shared(path: string) {
    || path == "config/reference_stack.yaml"
    || path == "ros_ws/src/racing_bringup/launch/sim_pure_pursuit.launch.py"
    || path == "ros_ws/src/racing_bringup/racing_bringup/support_node.py"
    || path == "ros_ws/src/racing_bringup/racing_bringup/scenario_parameters.py"
    || path == "ros_ws/src/racing_bringup/setup.py"
  }

  ghost predicate Tooling(path: string) {
    || path == "scripts/check.sh" || path == ".pre-commit-config.yaml" || path == "setup.sh"
    || path == ".clang-tidy" || path == ".clang-format" || path == "ruff.toml"
  }

  ghost predicate Build(path: string) {
    || path == "package.xml" || EndsIn(path, "/package.xml")
    || path == "CMakeLists.txt" || EndsIn(path, "/CMakeLists.txt")
  }

  /** Under config/ nothing but the map itself does. */
  ghost predicate ForcesAll(path: string) {
    || Shared(path)
    || (!("config/" <= path) && (Tooling(path) || Build(path) || "docker/" <= path || "tests/golden/" <= path))
  }

  function LastPart(path: string): string {
    Split(path)[|Split(path)| - 1]
  }

  lemma LastPartStep(s: string)
    requires s != ""
    ensures s[0] == '/' ==> LastPart(s) == LastPart(s[1..])
    ensures s[0] != '/' && |Split(s[1..])| > 1 ==> LastPart(s) == LastPart(s[1..])
  {
  }

  /** A path splits in one exactly when it has no slash. */
  lemma {:induction false} OnePartExact(s: string)
    ensures |Split(s)| == 1 <==> '/' !in s
    ensures |Split(s)| == 1 ==> Split(s) == [s]
  {
    if s != "" {
      OnePartExact(s[1..]);
      assert s == [s[0]] + s[1..];
    }
  }

  /** Either all of the path, or after its last slash. */
  ghost predicate Last(path: string, name: string) {
    '/' !in name && (path == name || EndsIn(path, "/" + name))
  }

  lemma LastGrows(path: string, name: string)
    requires path != "" && Last(path[1..], name) && (path[0] == '/' || path[1..] != name)
    ensures Last(path, name)
  {
    assert path == [path[0]] + path[1..];
    if path[1..] == name {
      assert path == "" + ("/" + name);
    } else {
      var head :| path[1..] == head + ("/" + name);
      assert path == ([path[0]] + head) + ("/" + name);
    }
  }

  lemma {:induction false} LastPartEnds(path: string)
    ensures Last(path, LastPart(path))
  {
    hide LastPart, Last, Split;
    OnePartExact(path);
    if |Split(path)| == 1 {
      SinglePart(path);
    } else {
      LastPartEnds(path[1..]);
      ManyParts(path);
      OnePartExact(path[1..]);
      LastGrows(path, LastPart(path));
    }
  }

  lemma SinglePart(path: string)
    requires Split(path) == [path] && '/' !in path
    ensures Last(path, LastPart(path))
  {
  }

  lemma ManyParts(path: string)
    requires |Split(path)| > 1
    ensures path != "" && LastPart(path) == LastPart(path[1..])
    ensures path[0] == '/' || path[1..] != LastPart(path)
  {
    OnePartExact(path);
    OnePartExact(path[1..]);
    LastPartStep(path);
    NoSlashLast(path[1..]);
  }

  lemma {:induction false} NoSlashLast(s: string)
    ensures '/' !in LastPart(s)
  {
    if s != "" {
      NoSlashLast(s[1..]);
      LastPartStep(s);
      OnePartExact(s[1..]);
      OnePartExact(s);
    }
  }

  lemma {:induction false} LastPartAfter(head: string, name: string)
    requires '/' !in name
    ensures LastPart(head + ("/" + name)) == name
  {
    var path := head + ("/" + name);
    LastPartStep(path);
    if head == "" {
      assert path[1..] == name;
      OnePartExact(name);
    } else {
      assert path[1..] == head[1..] + ("/" + name) && path[1..][|head| - 1] == '/';
      LastPartAfter(head[1..], name);
      OnePartExact(path[1..]);
    }
  }

  lemma LastPartIs(path: string, name: string)
    requires '/' !in name
    ensures LastPart(path) == name <==> path == name || EndsIn(path, "/" + name)
  {
    LastPartEnds(path);
    if path == name {
      OnePartExact(name);
    } else if EndsIn(path, "/" + name) {
      var head :| path == head + ("/" + name);
      LastPartAfter(head, name);
    }
  }

  lemma BuildExact(path: string)
    ensures LastPart(path) in WHOLE_TREE_BASENAMES <==> Build(path)
  {
    hide LastPart, EndsIn;
    assert "/" + "package.xml" == "/package.xml" && "/" + "CMakeLists.txt" == "/CMakeLists.txt";
    LastPartIs(path, "package.xml");
    LastPartIs(path, "CMakeLists.txt");
  }

  lemma ToolingExact(path: string)
    ensures path in WHOLE_TREE_FILES <==> Tooling(path)
  {
  }

  lemma SharedExact(path: string)
    ensures path in READY_WHOLE_TREE_FILES <==> Shared(path)
  {
  }

  lemma PrefixesExact(path: string)
    ensures (exists i :: 0 <= i < |WHOLE_TREE_PREFIXES| && StartsWith(path, WHOLE_TREE_PREFIXES[i])) <==>
      "docker/" <= path || "config/" <= path || "tests/golden/" <= path
  {
    assert StartsWith(path, WHOLE_TREE_PREFIXES[0]) <==> "docker/" <= path;
    assert StartsWith(path, WHOLE_TREE_PREFIXES[1]) <==> "config/" <= path;
    assert StartsWith(path, WHOLE_TREE_PREFIXES[2]) <==> "tests/golden/" <= path;
  }

  /** The two whole-tree rules together, in strings. */
  lemma TriggerExact(path: string)
    ensures path in READY_WHOLE_TREE_FILES || (!StartsWith(path, "config/") && IsWholeTreeTrigger(path)) <==>
      ForcesAll(path)
  {
    hide Shared, Tooling, Build, Split;
    SharedExact(path);
    ToolingExact(path);
    BuildExact(path);
    PrefixesExact(path);
  }

  // --- what one path asks for

  ghost predicate Fits(glob: Glob, path: string, globs: seq<string>) {
    exists g :: g in globs && glob(path, g)
  }

  /** A changed tier-3 test, with its id. */
  ghost predicate NamesTest(path: string, id: string) {
    exists digits, name :: Names(path, id, digits, name)
  }

  ghost predicate IsTest(path: string) {
    exists id :: NamesTest(path, id)
  }

  /** The path is of a package the implementation's own package needs. */
  ghost predicate UsesPackageOf(i: Implementation, path: string, deps: Manifests) {
    exists package :: package != "" && package in deps && i.package in deps[package] && Under(path, package)
  }

  ghost predicate Under(path: string, package: string) {
    '/' !in package && exists rest :: path == "ros_ws" + "/" + ("src" + "/" + (package + "/" + rest))
  }

  /** No rule places the path. */
  ghost predicate Unplaced(glob: Glob, path: string, stack: Stack) {
    && !Fits(glob, path, stack.neutralPaths) && !IsTest(path)
    && forall i :: i in stack.implementations ==> !Fits(glob, path, i.paths)
  }

  /** The path selects the implementation. */
  ghost predicate Reaches(glob: Glob, path: string, stack: Stack, deps: Manifests, i: Implementation) {
    && !Fits(glob, path, stack.neutralPaths) && !IsTest(path) && i in stack.implementations
    && (Fits(glob, path, i.paths) || UsesPackageOf(i, path, deps))
  }

  ghost predicate Named(i: Implementation, key: string) {
    key == i.role + "=" + i.name
  }

  ghost predicate ReachesKey(glob: Glob, path: string, stack: Stack, deps: Manifests, key: string) {
    exists i :: Reaches(glob, path, stack, deps, i) && Named(i, key)
  }

  ghost predicate AnswersKey(glob: Glob, path: string, stack: Stack, deps: Manifests, key: string) {
    exists k :: 0 <= k < |stack.implementations| && Answers(glob, stack.implementations[k], path, deps) &&
                stack.implementations[k].Key() == key
  }

  lemma MatchesExact(glob: Glob, path: string, globs: seq<string>)
    ensures Matches(glob, path, globs) <==> Fits(glob, path, globs)
  {
    if Matches(glob, path, globs) {
      var i :| 0 <= i < |globs| && glob(path, globs[i]);
      assert globs[i] in globs;
    }
    if Fits(glob, path, globs) {
      var g :| g in globs && glob(path, g);
      var i :| 0 <= i < |globs| && globs[i] == g;
    }
  }

  lemma IsTestExact(path: string)
    ensures IsTest(path) <==> SystemTest(path).Some?
    ensures forall id :: NamesTest(path, id) <==> SystemTest(path) == Some(id)
  {
    hide SystemTest, Names;
    forall id
      ensures NamesTest(path, id) <==> SystemTest(path) == Some(id)
    {
      SystemTestExact(path, id);
    }
    if SystemTest(path).Some? {
      assert NamesTest(path, SystemTest(path).value);
    }
  }

  lemma UsersExact(path: string, deps: Manifests, i: Implementation)
    ensures i.package in UsersOf(path, deps) <==> UsesPackageOf(i, path, deps)
  {
    hide PackageFor, Under;
    forall package
      ensures Under(path, package) <==> PackageFor(path) == Some(package)
    {
      UnderExact(path, package);
    }
  }

  lemma UnderExact(path: string, package: string)
    ensures Under(path, package) <==> PackageFor(path) == Some(package)
  {
    hide PackageFor;
    PackageForExact(path, package);
  }

  lemma OwnersExact(glob: Glob, path: string, stack: Stack)
    ensures (exists k :: 0 <= k < |stack.implementations| && Owns(glob, stack.implementations[k], path)) <==>
      exists i :: i in stack.implementations && Fits(glob, path, i.paths)
  {
    hide Matches, Fits;
    forall i: Implementation
      ensures Matches(glob, path, i.paths) <==> Fits(glob, path, i.paths)
    {
      MatchesExact(glob, path, i.paths);
    }
    if i :| i in stack.implementations && Fits(glob, path, i.paths) {
      var k :| 0 <= k < |stack.implementations| && stack.implementations[k] == i;
      assert Owns(glob, stack.implementations[k], path);
    }
  }

  /** The keys one path asks for are those of the implementations it selects. */
  lemma KeysExact(glob: Glob, path: string, stack: Stack, deps: Manifests, key: string)
    requires !Fits(glob, path, stack.neutralPaths) && !IsTest(path)
    ensures AnswersKey(glob, path, stack, deps, key) <==> ReachesKey(glob, path, stack, deps, key)
  {
    hide Matches, Fits, IsTest, UsersOf, UsesPackageOf;
    forall i: Implementation
      ensures Answers(glob, i, path, deps) <==> Fits(glob, path, i.paths) || UsesPackageOf(i, path, deps)
      ensures i.Key() == key <==> Named(i, key)
    {
      MatchesExact(glob, path, i.paths);
      UsersExact(path, deps, i);
    }
    if k :| 0 <= k < |stack.implementations| && Answers(glob, stack.implementations[k], path, deps) &&
            stack.implementations[k].Key() == key {
      assert Reaches(glob, path, stack, deps, stack.implementations[k]) && Named(stack.implementations[k], key);
    }
    if i :| Reaches(glob, path, stack, deps, i) && Named(i, key) {
      var k :| 0 <= k < |stack.implementations| && stack.implementations[k] == i;
      assert Answers(glob, stack.implementations[k], path, deps);
    }
  }

  lemma AskExact(glob: Glob, path: string, stack: Stack, deps: Manifests)
    ensures var ask := AskOf(glob, path, stack, deps);
      && (ask.Everything? <==> ForcesAll(path) || Unplaced(glob, path, stack))
      && (!ask.Everything? ==>
            && (forall id :: ask == OneTest(id) <==> !Fits(glob, path, stack.neutralPaths) && NamesTest(path, id))
            && forall key :: ask.Keys? && key in ask.keys <==> ReachesKey(glob, path, stack, deps, key))
  {
    hide ForcesAll, IsWholeTreeTrigger, Matches, Fits, SystemTest, NamesTest, IsTest, Answers, Owns, Reaches, Named;
    TriggerExact(path);
    MatchesExact(glob, path, stack.neutralPaths);
    IsTestExact(path);
    OwnersExact(glob, path, stack);
    if Fits(glob, path, stack.neutralPaths) || IsTest(path) {
      NoneReached(glob, path, stack, deps);
    } else {
      forall key
        ensures AnswersKey(glob, path, stack, deps, key) <==> ReachesKey(glob, path, stack, deps, key)
      {
        KeysExact(glob, path, stack, deps, key);
      }
    }
  }

  lemma NoneReached(glob: Glob, path: string, stack: Stack, deps: Manifests)
    requires Fits(glob, path, stack.neutralPaths) || IsTest(path)
    ensures forall i :: !Reaches(glob, path, stack, deps, i)
  {
    hide Fits, IsTest;
  }

  // --- the selection

  ghost predicate Discovered(stack: Stack, t: string) {
    t in stack.systemTests || t in stack.acceptanceTests
  }

  /** The implementation's key is one that a changed path selects. */
  ghost predicate Chosen(glob: Glob, changed: seq<string>, stack: Stack, deps: Manifests, key: string) {
    exists path :: path in changed && ReachesKey(glob, path, stack, deps, key)
  }

  ghost predicate ClaimedByChosen(glob: Glob, changed: seq<string>, stack: Stack, deps: Manifests, t: string) {
    exists i, key ::
      i in stack.implementations && Named(i, key) && Chosen(glob, changed, stack, deps, key) && t in i.verifiedBy
  }

  ghost predicate Changed(glob: Glob, changed: seq<string>, stack: Stack, t: string) {
    exists path :: path in changed && !Fits(glob, path, stack.neutralPaths) && NamesTest(path, t)
  }

  /** The lap, a changed test, or a claim of an implementation that was selected. */
  ghost predicate Wanted(glob: Glob, changed: seq<string>, stack: Stack, deps: Manifests, t: string) {
    t == stack.referenceLap || Changed(glob, changed, stack, t) || ClaimedByChosen(glob, changed, stack, deps, t)
  }

  ghost predicate ForcedBy(glob: Glob, changed: seq<string>, stack: Stack) {
    exists path :: path in changed && (ForcesAll(path) || Unplaced(glob, path, stack))
  }

  /** A test nobody claims. */
  ghost predicate LeftOver(stack: Stack, t: string) {
    Discovered(stack, t) && t != stack.referenceLap && forall i :: i in stack.implementations ==> t !in i.verifiedBy
  }

  /** Everything runs, for one of the six reasons. */
  ghost predicate FallsBack(glob: Glob, changed: seq<string>, stack: Stack, deps: Manifests) {
    || changed == [] || stack.referenceLap == "" || ForcedBy(glob, changed, stack)
    || (exists t :: LeftOver(stack, t))
    || exists t :: Wanted(glob, changed, stack, deps, t) && !Discovered(stack, t)
  }

  lemma ForcedExact(glob: Glob, changed: seq<string>, stack: Stack, deps: Manifests)
    ensures FirstEverything(glob, changed, stack, deps).Some? <==> ForcedBy(glob, changed, stack)
  {
    hide AskOf, ForcesAll, Unplaced;
    FirstEverythingExact(glob, changed, stack, deps);
    forall path
      ensures AskOf(glob, path, stack, deps).Everything? <==> ForcesAll(path) || Unplaced(glob, path, stack)
    {
      AskExact(glob, path, stack, deps);
    }
  }

  lemma LeftOverExact(stack: Stack)
    ensures stack.Discovered() - Claimed(stack, |stack.implementations|, None) - {stack.referenceLap} != {} <==>
      exists t :: LeftOver(stack, t)
  {
    hide Claimed;
    ClaimedExact(stack, |stack.implementations|, None);
    var left := stack.Discovered() - Claimed(stack, |stack.implementations|, None) - {stack.referenceLap};
    forall t
      ensures LeftOver(stack, t) <==> t in left
    {
      ClaimedNone(stack, t);
    }
    if left != {} {
      var t :| t in left;
      assert LeftOver(stack, t);
    }
  }

  lemma ClaimedNone(stack: Stack, t: string)
    ensures t in Claimed(stack, |stack.implementations|, None) <==>
      exists i :: i in stack.implementations && t in i.verifiedBy
  {
    hide Claimed;
    ClaimedExact(stack, |stack.implementations|, None);
    if i :| i in stack.implementations && t in i.verifiedBy {
      var k :| 0 <= k < |stack.implementations| && stack.implementations[k] == i;
      assert t in stack.implementations[k].verifiedBy;
    }
  }

  /** The keys and the changed tests collected path by path. */
  lemma CollectedExact(glob: Glob, changed: seq<string>, stack: Stack, deps: Manifests)
    requires !ForcedBy(glob, changed, stack)
    ensures forall key :: key in Selected(glob, changed, stack, deps) <==> Chosen(glob, changed, stack, deps, key)
    ensures forall id :: id in Explicit(glob, changed, stack, deps) <==> Changed(glob, changed, stack, id)
  {
    hide AskOf, ForcesAll, Unplaced, Fits, NamesTest, ReachesKey, Selected, Explicit;
    SelectedExact(glob, changed, stack, deps);
    forall path | path in changed
      ensures !AskOf(glob, path, stack, deps).Everything?
      ensures forall id ::
        AskOf(glob, path, stack, deps) == OneTest(id) <==> !Fits(glob, path, stack.neutralPaths) && NamesTest(path, id)
      ensures forall key ::
        AskOf(glob, path, stack, deps).Keys? && key in AskOf(glob, path, stack, deps).keys <==>
          ReachesKey(glob, path, stack, deps, key)
    {
      AskExact(glob, path, stack, deps);
    }
  }

  lemma ClaimsExact(glob: Glob, changed: seq<string>, stack: Stack, deps: Manifests, selected: set<string>, t: string)
    requires forall key :: key in selected <==> Chosen(glob, changed, stack, deps, key)
    ensures t in Claimed(stack, |stack.implementations|, Some(selected)) <==>
      ClaimedByChosen(glob, changed, stack, deps, t)
  {
    hide Claimed, Chosen;
    ClaimedExact(stack, |stack.implementations|, Some(selected));
    if t in Claimed(stack, |stack.implementations|, Some(selected)) {
      var k :| 0 <= k < |stack.implementations| && stack.implementations[k].Key() in selected &&
        t in stack.implementations[k].verifiedBy;
      assert Named(stack.implementations[k], stack.implementations[k].Key());
    }
    if ClaimedByChosen(glob, changed, stack, deps, t) {
      var i, key :|
        i in stack.implementations && Named(i, key) && Chosen(glob, changed, stack, deps, key) && t in i.verifiedBy;
      var k :| 0 <= k < |stack.implementations| && stack.implementations[k] == i;
      assert stack.implementations[k].Key() in selected;
    }
  }

  /** The selection, whole or scoped, from the strings alone: it falls back to
      everything just for the six reasons, and a scoped one names just the
      implementations selected and just the tests wanted. */
  lemma SelectExact(glob: Glob, changed: seq<string>, stack: Stack, deps: Manifests)
    ensures var r := Select(glob, changed, stack, deps);
      && (r.Whole? <==> FallsBack(glob, changed, stack, deps))
      && (r.Scoped? ==>
            && (forall key :: key in r.implementations <==> Chosen(glob, changed, stack, deps, key))
            && forall t :: t in r.tests <==> Wanted(glob, changed, stack, deps, t))
  {
    hide FirstEverything, Selected, Explicit, Claimed, ForcedBy, LeftOver, Chosen, Changed, ClaimedByChosen;
    ForcedExact(glob, changed, stack, deps);
    LeftOverExact(stack);
    if !ForcedBy(glob, changed, stack) {
      CollectedExact(glob, changed, stack, deps);
      var selected := Selected(glob, changed, stack, deps);
      var tests := {stack.referenceLap} + Explicit(glob, changed, stack, deps) +
        Claimed(stack, |stack.implementations|, Some(selected));
      forall t
        ensures t in tests <==> Wanted(glob, changed, stack, deps, t)
      {
        ClaimsExact(glob, changed, stack, deps, selected, t);
      }
      MissingExact(glob, changed, stack, deps, tests);
    }
  }

  lemma MissingExact(glob: Glob, changed: seq<string>, stack: Stack, deps: Manifests, tests: set<string>)
    requires forall t :: t in tests <==> Wanted(glob, changed, stack, deps, t)
    ensures tests - stack.Discovered() != {} <==>
      exists t :: Wanted(glob, changed, stack, deps, t) && !Discovered(stack, t)
  {
    hide Wanted;
    if tests - stack.Discovered() != {} {
      var t :| t in tests - stack.Discovered();
      assert Wanted(glob, changed, stack, deps, t) && !Discovered(stack, t);
    }
    if t :| Wanted(glob, changed, stack, deps, t) && !Discovered(stack, t) {
      assert t in tests - stack.Discovered();
    }
  }
}
