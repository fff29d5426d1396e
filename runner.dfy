/** `ChefSpec::Runner`: its options, the run list and resource collection
    that `converge` and `apply` reset, the queries over the collection, and
    the table of per-type lookup methods `define_runner_method` adds.

    Chef's own evaluation of the recipes (`Chef::Runner#converge`) is not
    modelled: a pass is given as the sequence of resources it records, in
    the order it records them. */
module Runner {
  import opened Ruby
  import opened Strings
  import opened Store

  /** `options[key]`, `nil` when the key is absent. */
  function OptionValue(options: map<string, Value>, key: string): Value
  {
    if key in options then options[key] else NilValue
  }

  /** `Array(options[:step_into] || [])`: the resource types to step into. */
  function StepIntoOf(options: map<string, Value>): (r: seq<Value>)
    ensures var v := OptionValue(options, "step_into");
      (r == [] <==> !Truthy(v) || v == ListValue([]))
    ensures var v := OptionValue(options, "step_into");
      Truthy(v) && v.ListValue? ==> r == v.items
    ensures var v := OptionValue(options, "step_into");
      Truthy(v) && !v.ListValue? ==> r == [v]
  {
    var v := OptionValue(options, "step_into");
    ToArray(if Truthy(v) then v else ListValue([]))
  }

  /** `!!options[:dry_run]`. */
  predicate DryRunOf(options: map<string, Value>)
    ensures DryRunOf(options) <==>
      "dry_run" in options && options["dry_run"] != NilValue && options["dry_run"] != BoolValue(false)
  {
    Truthy(OptionValue(options, "dry_run"))
  }

  /** `Array(...)` is idempotent on the step-into list: normalising the
      normalised list as the option gives it back unchanged. */
  lemma StepIntoStable(options: map<string, Value>)
    ensures StepIntoOf(options["step_into" := ListValue(StepIntoOf(options))]) == StepIntoOf(options)
  {
    var o' := options["step_into" := ListValue(StepIntoOf(options))];
    assert OptionValue(o', "step_into") == ListValue(StepIntoOf(options));
  }

  /** `to_s`: `"chef_run: <run list>"`, or `"chef_run"` for an empty run list. */
  function Describe(runList: seq<string>): (r: string)
    ensures r == "chef_run" <==> runList == []
    ensures |runList| == 1 ==> r == "chef_run: " + runList[0]
    ensures |r| >= 8 && r[..8] == "chef_run"
  {
    if runList == [] then "chef_run" else "chef_run: " + JoinWith(runList, ", ")
  }

  /** `calling_cookbook_path(kaller)`: take the first caller line containing
      `/spec`, keep what stands before its first `:`, split that on `/`, and
      join the components before the first `spec` component (none when there
      is no such component) with `..`. `nil.split` raises when no line
      contains `/spec`; that is `None` here. The result is the path before
      `File.expand_path`. */
  function CallingCookbookPath(kaller: seq<string>): (r: Option<string>)
    ensures r.None? <==> forall j :: 0 <= j < |kaller| ==> !Contains(kaller[j], "/spec")
  {
    match FirstContaining(kaller, "/spec")
    case None => None
    case Some(i) =>
      var bits := Split(Fields(kaller[i], ':')[0], '/');
      var specDir := match IndexOf(bits, "spec") case Some(k) => k case None => 0;
      Some(JoinTwo(FileJoin(bits[..specDir]), ".."))
  }

  /** When the first spec line of the call stack reads `<dir>/spec/<rest>` and
      `<dir>` is a plain path (no `:`, no `spec` component, no empty component
      but a leading one), the inferred cookbook path is `<dir>/..`. */
  lemma CookbookPathOfSpecDirectory(kaller: seq<string>, i: nat, dir: string, rest: string)
    requires i < |kaller| && kaller[i] == dir + "/spec/" + rest
    requires forall j :: 0 <= j < i ==> !Contains(kaller[j], "/spec")
    requires ':' !in dir
    requires "spec" !in Fields(dir, '/')
    requires forall j :: 1 <= j < |Fields(dir, '/')| ==> Fields(dir, '/')[j] != ""
    ensures CallingCookbookPath(kaller) == Some(dir + "/..")
  {
    ContainsMiddle(dir, "/spec", "/" + rest);
    assert kaller[i] == dir + "/spec" + ("/" + rest);
    assert FirstContaining(kaller, "/spec") == Some(i);
    var p := SpecLinePath(dir, rest);
    assert Fields(kaller[i], ':')[0] == p;
    SpecDirectoryJoin(dir, Fields(rest, ':')[0]);
  }

  /** The components of `<dir>/spec/<rest>` before its first `spec`
      component join back to `<dir>`, and `..` follows it. */
  lemma SpecDirectoryJoin(dir: string, rest: string)
    requires "spec" !in Fields(dir, '/')
    requires forall j :: 1 <= j < |Fields(dir, '/')| ==> Fields(dir, '/')[j] != ""
    ensures var bits := Split(dir + "/spec/" + rest, '/');
      && IndexOf(bits, "spec") == Some(|Fields(dir, '/')|)
      && JoinTwo(FileJoin(bits[..|Fields(dir, '/')|]), "..") == dir + "/.."
  {
    var d := Fields(dir, '/');
    var bits := Split(dir + "/spec/" + rest, '/');
    SpecPathComponents(dir, rest);
    FirstSpecComponent(bits, d);
    DirectoryJoin(dir);
  }

  /** A path whose components are non-empty after the first is joined back
      from them by `File.join`, and `..` then goes below it. */
  lemma DirectoryJoin(dir: string)
    requires forall j :: 1 <= j < |Fields(dir, '/')| ==> Fields(dir, '/')[j] != ""
    ensures JoinTwo(FileJoin(Fields(dir, '/')), "..") == dir + "/.."
  {
    FieldsSeparatorFree(dir, '/');
    FileJoinOfComponents(Fields(dir, '/'));
    FieldsJoin(dir, '/');
  }

  /** The path part of a spec line `<dir>/spec/<rest>` (what stands before
      its first `:`), when `<dir>` has no `:`. */
  lemma SpecLinePath(dir: string, rest: string) returns (p: string)
    requires ':' !in dir
    ensures p == dir + "/spec/" + Fields(rest, ':')[0]
    ensures Fields(dir + "/spec/" + rest, ':')[0] == p
  {
    var head := dir + "/spec/";
    assert ':' !in head;
    assert dir + "/spec/" + rest == head + rest;
    FirstFieldAppend(head, ':', rest);
    p := head + Fields(rest, ':')[0];
  }

  /** The components of `<dir>/spec/<rest>` start with those of `<dir>`
      followed by `spec`. */
  lemma SpecPathComponents(dir: string, rest: string)
    ensures |Split(dir + "/spec/" + rest, '/')| > |Fields(dir, '/')|
    ensures Split(dir + "/spec/" + rest, '/')[..|Fields(dir, '/')| + 1] == Fields(dir, '/') + ["spec"]
  {
    var d := Fields(dir, '/');
    var all := SpecPathFields(dir, rest);
    KeepsNonEmptyPrefix(all, d + ["spec"]);
  }

  /** All fields of `<dir>/spec/<rest>`. */
  lemma SpecPathFields(dir: string, rest: string) returns (all: seq<string>)
    ensures all == Fields(dir + "/spec/" + rest, '/')
    ensures all == Fields(dir, '/') + ["spec"] + Fields(rest, '/')
  {
    var tail := "spec" + ['/'] + rest;
    assert dir + "/spec/" + rest == dir + ['/'] + tail;
    assert Fields(dir + ['/'] + tail, '/') == Fields(dir, '/') + Fields(tail, '/') by {
      FieldsAppend(dir, '/', tail);
    }
    assert Fields(tail, '/') == ["spec"] + Fields(rest, '/') by {
      FieldsAppend("spec", '/', rest);
      FieldsOfSeparatorFree("spec", '/');
    }
    all := Fields(dir + "/spec/" + rest, '/');
  }

  /** Dropping trailing empty fields keeps a prefix that ends in a non-empty one. */
  lemma KeepsNonEmptyPrefix(all: seq<string>, pre: seq<string>)
    requires |pre| > 0 && pre[|pre| - 1] != ""
    requires |pre| <= |all| && all[..|pre|] == pre
    ensures |DropTrailingEmpty(all)| >= |pre|
    ensures DropTrailingEmpty(all)[..|pre|] == pre
  {
    var bits := DropTrailingEmpty(all);
    assert all[|pre| - 1] == pre[|pre| - 1];
  }

  /** `index('spec')` finds the `spec` that follows a prefix without one. */
  lemma FirstSpecComponent(bits: seq<string>, d: seq<string>)
    requires |bits| > |d| && bits[..|d| + 1] == d + ["spec"]
    requires "spec" !in d
    ensures IndexOf(bits, "spec") == Some(|d|)
    ensures bits[..|d|] == d
  {
    assert bits[..|d|] == (d + ["spec"])[..|d|];
    assert bits[|d|] == (d + ["spec"])[|d|];
    assert forall v :: 0 <= v < |d| ==> bits[v] == d[v];
  }

  /** When the first spec line has no `spec` path component, the prefix is
      empty and the inferred path is the root's parent, `/..`. */
  lemma CookbookPathWithoutSpecComponent(kaller: seq<string>, i: nat)
    requires i < |kaller| && Contains(kaller[i], "/spec")
    requires forall j :: 0 <= j < i ==> !Contains(kaller[j], "/spec")
    requires "spec" !in Split(Fields(kaller[i], ':')[0], '/')
    ensures CallingCookbookPath(kaller) == Some("/..")
  {
    assert FirstContaining(kaller, "/spec") == Some(i);
    var bits := Split(Fields(kaller[i], ':')[0], '/');
    assert IndexOf(bits, "spec").None?;
    assert bits[..0] == [];
    assert JoinTwo(FileJoin([]), "..") == "/..";
  }

  /** The option keys `initialize` fills from the test framework's settings. */
  const DefaultKeys: set<string> := {"cookbook_path", "log_level", "path", "platform", "version"}

  /** The options of a new runner: the settings of the test framework
      (`config`), with `cookbook_path` inferred from the caller when the
      settings have none, overridden by the caller's `given` options.
      The inference runs before the merge, so it fails (`None`) whenever the
      settings have no cookbook path and no caller line is under `/spec`,
      even when `given` names a cookbook path. */
  function InitialOptions(config: map<string, Value>, kaller: seq<string>, given: map<string, Value>)
    : (r: Option<map<string, Value>>)
    ensures r.None? <==>
      !Truthy(OptionValue(config, "cookbook_path")) && forall j :: 0 <= j < |kaller| ==> !Contains(kaller[j], "/spec")
    ensures r.Some? ==> r.value.Keys == DefaultKeys + given.Keys
    ensures r.Some? ==> forall k :: k in given ==> r.value[k] == given[k]
    ensures r.Some? ==> forall k :: k in DefaultKeys && k != "cookbook_path" && k !in given ==>
      r.value[k] == OptionValue(config, k)
    ensures r.Some? && "cookbook_path" !in given && Truthy(OptionValue(config, "cookbook_path")) ==>
      r.value["cookbook_path"] == OptionValue(config, "cookbook_path")
    ensures r.Some? && "cookbook_path" !in given && !Truthy(OptionValue(config, "cookbook_path")) ==>
      CallingCookbookPath(kaller).Some? && r.value["cookbook_path"] == StrValue(CallingCookbookPath(kaller).value)
  {
    var inferred := if Truthy(OptionValue(config, "cookbook_path")) then Some(OptionValue(config, "cookbook_path"))
                    else match CallingCookbookPath(kaller)
                      case None => None
                      case Some(p) => Some(StrValue(p));
    match inferred
    case None => None
    case Some(cookbookPath) => Some(Defaults(config, cookbookPath) + given)
  }

  /** The options `initialize` starts from, before the caller's own. */
  function Defaults(config: map<string, Value>, cookbookPath: Value): (d: map<string, Value>)
    ensures d.Keys == DefaultKeys
    ensures d["cookbook_path"] == cookbookPath
    ensures forall k :: k in DefaultKeys && k != "cookbook_path" ==> d[k] == OptionValue(config, k)
  {
    map[
      "cookbook_path" := cookbookPath,
      "log_level" := OptionValue(config, "log_level"),
      "path" := OptionValue(config, "path"),
      "platform" := OptionValue(config, "platform"),
      "version" := OptionValue(config, "version")]
  }

  /** A runner: its options, the node's run list, the resource collection of
      the last evaluation pass, the run context of that pass (as the number
      of contexts built so far) and the memoised step-into list. */
  class Runner {
    const options: map<string, Value>
    var runList: seq<string>
    var resources: Collection
    var runContext: nat
    var stepIntoMemo: Option<seq<Value>>

    ghost predicate Valid()
      reads this
    {
      && WellFormed(resources)
      && (stepIntoMemo.Some? ==> stepIntoMemo.value == StepIntoOf(options))
    }

    /** `Runner.new(options)`, with the options already merged. */
    constructor(options: map<string, Value>)
      ensures Valid()
      ensures this.options == options
      ensures runList == [] && resources == [] && runContext == 0 && stepIntoMemo == None
    {
      this.options := options;
      runList := [];
      resources := [];
      runContext := 0;
      stepIntoMemo := None;
    }

    /** `dry_run?`. */
    predicate DryRun(): (r: bool)
      ensures r <==> DryRunOf(options)
    {
      DryRunOf(options)
    }

    /** `converge(*recipe_names)`: the run list becomes exactly the given
        names; in dry-run mode nothing else changes; otherwise the collection
        is emptied, a new run context is built and the pass's resources are
        recorded into the empty collection. */
    method Converge(recipeNames: seq<string>, recorded: seq<Resource>)
      requires Valid()
      modifies this
      ensures Valid()
      ensures runList == recipeNames
      ensures DryRun() ==> resources == old(resources) && runContext == old(runContext)
      ensures !DryRun() ==> resources == Recorded(recorded) && runContext == old(runContext) + 1
      ensures stepIntoMemo == old(stepIntoMemo)
    {
      runList := [];
      var i := 0;
      while i < |recipeNames|
        invariant 0 <= i <= |recipeNames|
        invariant runList == recipeNames[..i]
        invariant resources == old(resources) && runContext == old(runContext)
        invariant stepIntoMemo == old(stepIntoMemo)
      {
        runList := runList + [recipeNames[i]];
        i := i + 1;
      }
      if DryRun() {
        return;
      }
      resources := [];
      runContext := runContext + 1;
      Evaluate(recorded);
    }

    /** `apply(*recipe_names)`: the run list is left alone and dry-run is not
        consulted; the collection is always emptied, a new run context is
        built, and the pass's resources are recorded into it. */
    method Apply(recorded: seq<Resource>)
      requires Valid()
      modifies this
      ensures Valid()
      ensures resources == Recorded(recorded)
      ensures runContext == old(runContext) + 1
      ensures runList == old(runList) && stepIntoMemo == old(stepIntoMemo)
    {
      resources := [];
      runContext := runContext + 1;
      Evaluate(recorded);
    }

    /** `apply(*recipe_names)` as runner.rb:102-116 reads: each recipe is
        loaded against the run context of the previous pass, which a fresh
        runner does not have, so declaring a resource there raises
        (`raised`, nothing changed); otherwise the collection is emptied and
        a new, empty run context is built and converged, so the pass records
        nothing. */
    method ApplyAsWritten(recorded: seq<Resource>) returns (raised: bool)
      requires Valid()
      modifies this
      ensures Valid()
      ensures raised <==> AppliedAsWritten(old(runContext) > 0, recorded).None?
      ensures raised ==> resources == old(resources) && runContext == old(runContext)
      ensures !raised ==> Some(resources) == AppliedAsWritten(old(runContext) > 0, recorded)
      ensures !raised ==> runContext == old(runContext) + 1
      ensures runList == old(runList) && stepIntoMemo == old(stepIntoMemo)
    {
      if runContext == 0 && recorded != [] {
        return true;
      }
      resources := [];
      runContext := runContext + 1;
      Evaluate([]);
      return false;
    }

    /** Chef's pass over an empty collection: each resource it records is
        stored under its key, a later one replacing an earlier one. */
    method Evaluate(recorded: seq<Resource>)
      requires resources == []
      modifies this`resources
      ensures resources == Recorded(recorded)
    {
      var i := 0;
      while i < |recorded|
        invariant 0 <= i <= |recorded|
        invariant resources == Recorded(recorded[..i])
      {
        RecordedStep(recorded, i);
        resources := Put(resources, KeyOf(recorded[i]), recorded[i]);
        i := i + 1;
      }
      assert recorded[..i] == recorded;
    }

    /** `find_resource(type, name)` over this runner's collection. */
    function FindResource(t: Atom, q: Query): (r: Option<Resource>)
      reads this
      ensures r == Store.FindResource(resources, t, q)
    {
      Store.FindResource(resources, t, q)
    }

    /** `find_resources(type)` over this runner's collection. */
    function FindResources(t: Atom): (r: Collection)
      reads this
      ensures r == Store.FindResources(resources, t)
    {
      Store.FindResources(resources, t)
    }

    /** `step_into`, memoised on first use. */
    method StepInto() returns (r: seq<Value>)
      requires Valid()
      modifies this`stepIntoMemo
      ensures Valid()
      ensures r == StepIntoOf(options)
      ensures stepIntoMemo == Some(r)
    {
      if stepIntoMemo.None? {
        stepIntoMemo := Some(StepIntoOf(options));
      }
      r := stepIntoMemo.value;
    }

    /** `to_s`. */
    function ToS(): (r: string)
      reads this
      ensures r == Describe(runList)
    {
      Describe(runList)
    }
  }

  /** The collection `apply` leaves as runner.rb:102-116 reads, given whether
      an earlier pass built a run context: `None` when loading the recipes
      raises for want of one, and otherwise the empty collection of the
      freshly built context it converges. */
  function AppliedAsWritten(hasContext: bool, recorded: seq<Resource>): (r: Option<Collection>)
    ensures r.None? <==> !hasContext && recorded != []
    ensures r.Some? ==> r.value == []
  {
    if !hasContext && recorded != [] then None else Some([])
  }

  /** Whenever the recipes declare anything, `apply` as written does not
      leave the collection `Apply` records: the last declaration is
      findable under its key after `Apply`, and missing after the
      as-written pass, whether or not it raised. */
  lemma {:induction false} ApplyAsWrittenLosesResources(hasContext: bool, recorded: seq<Resource>)
    requires recorded != []
    ensures Lookup(Recorded(recorded), KeyOf(recorded[|recorded| - 1])) == Some(recorded[|recorded| - 1])
    ensures AppliedAsWritten(hasContext, recorded) != Some(Recorded(recorded))
  {
    var n := |recorded| - 1;
    RecordedStep(recorded, n);
    assert recorded[..n + 1] == recorded;
  }

  /** What calling the runner method `name` does: `NoMethodError` (`None`)
      unless `define_runner_method` defined it, and otherwise
      `find_resource(resource_name, identity)` with the resource name it was
      defined for. */
  function Dispatch(methods: map<string, Atom>, name: string, c: Collection, identity: Query)
    : (r: Option<Option<Resource>>)
    ensures r.Some? <==> name in methods
  {
    if name in methods then Some(Store.FindResource(c, methods[name], identity)) else None
  }

  /** The runner methods defined so far, by method name. */
  class RunnerMethods {
    var methods: map<string, Atom>

    constructor()
      ensures methods == map[]
    {
      methods := map[];
    }

    /** `define_runner_method(resource_name)`: a method named after the
        resource type that calls `find_resource` with that type. */
    method DefineRunnerMethod(resourceName: Atom)
      modifies this
      ensures methods == old(methods)[resourceName.text := resourceName]
    {
      methods := methods[resourceName.text := resourceName];
    }

    /** Calling the runner method `name` on a runner whose collection is `c`. */
    function Call(name: string, c: Collection, identity: Query): (r: Option<Option<Resource>>)
      reads this
      ensures r == Dispatch(methods, name, c, identity)
    {
      Dispatch(methods, name, c, identity)
    }
  }

  /** A method defined for a type answers like `find_resource` with that
      type, finds only resources of that type in a well-formed collection,
      and leaves every other defined method as it was. */
  lemma DefinedMethodFinds(methods: map<string, Atom>, t: Atom, other: string, c: Collection, q: Query)
    requires other != t.text
    ensures Dispatch(methods[t.text := t], t.text, c, q) == Some(Store.FindResource(c, t, q))
    ensures '[' !in t.text && Keyed(c) && PlainTypeNames(c) &&
            Dispatch(methods[t.text := t], t.text, c, q).value.Some? ==>
              Dispatch(methods[t.text := t], t.text, c, q).value.value.resourceName == t.text
    ensures Dispatch(methods[t.text := t], other, c, q) == Dispatch(methods, other, c, q)
  {
    if '[' !in t.text && Keyed(c) && PlainTypeNames(c) {
      FindResourceHasType(c, t, q);
    }
  }
}
