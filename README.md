# ChefSpec runner and resource matchers, modelled in Dafny

ChefSpec runs Chef recipes in memory and lets RSpec examples ask what the
run declared. This project models two parts of it.

The first part is the `ChefSpec::Runner`. A runner merges its options from
the test framework's settings. When those settings have no cookbook path,
it infers one from the call stack. `converge` resets the node's run list and
then rebuilds the resource collection. The collection is a Hash from
`"type[name]"` to the resource, in insertion order. `apply` is meant to
rebuild the collection without touching the run list; as written it does
not (see "## Findings"). `find_resource` first tries the
key `"type[name]"`. If that misses, it scans for the first resource of a
Symbol type whose identity or name the query matches with `===`.
`find_resources` selects the entries whose type matches as a string. Other
parts of the runner are `step_into`, `dry_run?` and `to_s`. The class-level
`define_runner_method` adds one lookup method per resource type.

The second part is the shared resource-matcher engine. It is exercised in
`spec/chefspec/matchers/shared_spec.rb`. `define_resource_matchers(actions,
types, attr)` defines one matcher `<action>_<type>` per pair. A matcher is
bound to an identity, which is a String or a Regexp. `matches?` holds
exactly when some resource has the matcher's type and action and an `attr`
value that the identity matches. The matcher remembers the resource it
matched and words the should-not failure message from it. `resource_actions` turns a
resource's action into an Array of Strings.

Chef evaluates the recipes, and the model does not. Each evaluation pass is
a parameter: the sequence of resources Chef records, in order. No line of
`lib/chefspec/runner.rb` writes into `@resources`: it only resets it. A
resource hook outside that file writes each resource into the collection
under its key. `Store.Recorded` folds the sequence into the Hash. That a
later resource with the same key replaces the earlier one in place, as
`Hash#[]=` does, is a premise of the model. A
Regexp is represented by its source text and the set of strings it accepts.
The regular-expression engine itself is not modelled.

Files:
- `ruby.dfy`: the Ruby values involved. These are `nil`/value, Symbol and
  String, the String-or-Regexp query with `===` and its interpolation, and
  option values with truthiness and `Kernel#Array`.
- `strings.dfy`: `String#split`, `Array#join`, `Array#index` and
  `File.join`, as `calling_cookbook_path` uses them.
- `store.dfy`: the resource collection, `find_resource` and
  `find_resources`.
- `runner.dfy`: option merging, `calling_cookbook_path`, the `Runner` class
  and the runner-method table.
- `matchers.dfy`: the matcher registry, the `Matcher` class and
  `resource_actions`.

## Model

| member | source | states |
|---|---|---|
| Store.Put | lib/chefspec/runner.rb:142-147 | Storing a resource under a key keeps the keys distinct and makes the key look up that resource. Every other key looks up what it did before. An existing key keeps its position. A new key is appended at the end. |
| Store.Recorded | lib/chefspec/runner.rb:141-147 | The collection built by one pass has distinct keys, each entry stored under its own resource's key. It is no longer than the pass, and every entry is a resource the pass recorded. |
| Store.RecordedLookup | lib/chefspec/runner.rb:141-147 | Looking up a key in the built collection gives the last resource of the pass with that key, or `nil` if none has it. |
| Store.Lookup | lib/chefspec/runner.rb:191 | `resources[key]` gives a resource exactly when some entry has that key, and then the resource of the first entry with it. |
| Store.FirstHit | lib/chefspec/runner.rb:193-195 | Returns the index of the first entry of the Symbol type whose identity or name the query matches with `===`, or `nil` when there is none. |
| Store.FindResource | lib/chefspec/runner.rb:190-196 | When the key `"type[name]"` is present, its resource is returned. Any resource returned is in the collection. |
| Store.FindResourceScan | lib/chefspec/runner.rb:193-195 | On a key miss, `find_resource` returns a resource exactly when that resource is the first one, in insertion order, that has the Symbol type and whose identity or name the query matches with `===`. |
| Store.FindResourceFound | lib/chefspec/runner.rb:190-196 | `find_resource` finds something exactly when the key is present or some resource passes the scan. |
| Store.KeyDeterminesType | lib/chefspec/runner.rb:191 | Two keys `"a[x]"` and `"b[y]"` are equal only if the types are equal, for types without `[`. |
| Store.FindResourceHasType | lib/chefspec/runner.rb:190-196 | In a collection keyed by its resources, with `[`-free types, any resource `find_resource(type, q)` returns has that type. |
| Store.FindDeclared | lib/chefspec/runner.rb:190-196 | Looking up a declared resource by its Symbol type and literal name finds the last resource declared under that key. |
| Store.FindResources | lib/chefspec/runner.rb:211-215 | An entry is in the result exactly when it is in the collection and its type's text equals the argument's text. The result is no longer than the collection. |
| Store.FindResourcesAppend | lib/chefspec/runner.rb:211-215 | Selection keeps order: selecting over `a + b` is selecting over `a` and then over `b`. |
| Store.FindResourcesWellFormed | lib/chefspec/runner.rb:211-215 | The selected entries keep their keys, so the result is again a well-formed collection. |
| Store.FindResourcesEmpty | lib/chefspec/runner.rb:211-215 | The result is empty exactly when no resource has that type. |
| Strings.FirstContaining | lib/chefspec/runner.rb:256 | Returns the index of the first caller line that contains the text, or `nil` when no line contains it. |
| Strings.Fields | lib/chefspec/runner.rb:257 | Splitting always yields at least one field. |
| Strings.FieldsSeparatorFree | lib/chefspec/runner.rb:257 | No field contains the separator. |
| Strings.FieldsJoin | lib/chefspec/runner.rb:257 | Joining the fields with the separator gives the string back. |
| Strings.FieldsAppend | lib/chefspec/runner.rb:257 | The fields of `a + sep + b` are the fields of `a` followed by those of `b`. |
| Strings.FirstFieldAppend | lib/chefspec/runner.rb:257 | The first field of `a + b` is `a` followed by the first field of `b`, when `a` holds no separator. |
| Strings.DropTrailingEmpty | lib/chefspec/runner.rb:257 | `split` without a limit keeps the longest prefix of the fields whose last field is non-empty. Every dropped field is empty. |
| Strings.IndexOf | lib/chefspec/runner.rb:258 | Returns the first position of the element, or `nil` when it is absent. |
| Strings.Split | lib/chefspec/runner.rb:257 | `split` without a limit gives the fields with the empty trailing ones removed: a prefix of the fields, every field after it empty, the last one kept non-empty. No field holds the separator. |
| Strings.ChompSeparators | lib/chefspec/runner.rb:260 | Drops exactly the trailing `/` characters: the result is a prefix of the string that does not end in `/`, and everything dropped is `/`. |
| Strings.JoinTwo | lib/chefspec/runner.rb:260 | One `File.join` step ends with the new part. A part starting with `/` follows the previous path with its trailing `/` removed. Any other part follows the previous path, and a `/` is inserted before it exactly when the path so far does not already end in one. |
| Strings.FileJoin | lib/chefspec/runner.rb:260 | `File.join` of no parts is empty. Otherwise the result ends with the last part. |
| Strings.FileJoinOfComponents | lib/chefspec/runner.rb:260 | `File.join` over slash-free components, all non-empty after the first, equals joining them with `/`, and the result does not end in `/`. |
| Runner.CallingCookbookPath | lib/chefspec/runner.rb:255-261 | Fails (`nil.split`) exactly when no caller line contains `/spec`. |
| Runner.CookbookPathOfSpecDirectory | lib/chefspec/runner.rb:255-261 | When the first spec line reads `<dir>/spec/<rest>`, with `<dir>` a plain path, the inferred cookbook path is `<dir>/..`. |
| Runner.CookbookPathWithoutSpecComponent | lib/chefspec/runner.rb:258-260 | When the spec line has no `spec` path component, `index` gives `nil`, the prefix is empty and the inferred path is `/..`. |
| Runner.InitialOptions | lib/chefspec/runner.rb:63-70 | Construction fails exactly when the settings have no truthy cookbook path and no caller line contains `/spec`. Otherwise the keys are the five defaults plus the given keys. Given values win. The other defaults come from the settings. A truthy configured cookbook path is kept unless one is given. When neither supplies one, the cookbook path is the one inferred from the call stack. |
| Runner.Defaults | lib/chefspec/runner.rb:64-69 | The defaults have exactly the five keys. `cookbook_path` holds the given path, and the other four come from the settings. |
| Runner.StepIntoOf | lib/chefspec/runner.rb:222-224 | The step-into list is empty exactly when the option is missing, `nil`, `false` or `[]`. A truthy Array option gives its items. Any other truthy value gives a one-element list of itself. |
| Runner.StepIntoStable | lib/chefspec/runner.rb:222-224 | Feeding the normalised list back in as the option yields the same list. |
| Runner.Runner.DryRun | lib/chefspec/runner.rb:231-233 | `dry_run?` holds exactly when the runner's options put it in dry-run mode. |
| Runner.Runner.FindResource | lib/chefspec/runner.rb:190-196 | Answers as `find_resource` does over the runner's current collection. |
| Runner.Runner.FindResources | lib/chefspec/runner.rb:211-215 | Answers as `find_resources` does over the runner's current collection. |
| Runner.Runner.ToS | lib/chefspec/runner.rb:240-243 | Describes the runner's current run list. |
| Runner.Runner.StepInto | lib/chefspec/runner.rb:222-224 | Returns the step-into list of the runner's options and memoises it. |
| Runner.Describe | lib/chefspec/runner.rb:240-243 | The result is `chef_run` exactly when the run list is empty. A single recipe gives `chef_run: <recipe>`. The result always starts with `chef_run`. |
| Runner.Runner.constructor | lib/chefspec/runner.rb:63-70 | A new runner holds its options, an empty run list, an empty collection and no run context. |
| Runner.Runner.Converge | lib/chefspec/runner.rb:135-149 | The run list becomes the given recipes. In dry-run mode the collection and the run context are unchanged. Otherwise the collection is exactly what the pass records and a new run context is built. |
| Runner.Runner.Apply | lib/chefspec/runner.rb:102-116 | The run list is unchanged and dry-run is not consulted. The collection is exactly what the pass records, and a new run context is built. |
| Runner.Runner.ApplyAsWritten | lib/chefspec/runner.rb:102-116 | `apply` as the code reads. It raises, changing nothing, exactly when no earlier pass built a run context and the recipes declare something. Otherwise the collection is emptied and stays empty, and a new run context is built. |
| Runner.AppliedAsWritten | lib/chefspec/runner.rb:102-116 | As the code reads, `apply` raises exactly when there is no earlier run context and the recipes declare something. Otherwise the collection it leaves is empty. |
| Runner.ApplyAsWrittenLosesResources | lib/chefspec/runner.rb:102-116 | When the recipes declare anything, `Apply` finds the last declaration under its key. `apply` as written never leaves that collection. |
| Runner.Runner.Evaluate | lib/chefspec/runner.rb:142-147 | Recording the pass into the emptied collection gives the folded collection. |
| Runner.Dispatch | lib/chefspec/runner.rb:17-23 | Calling a runner method succeeds exactly when that method was defined. |
| Runner.RunnerMethods.Call | lib/chefspec/runner.rb:17-23 | Calling a runner method dispatches through the methods defined so far. |
| Runner.DryRunOf | lib/chefspec/runner.rb:231-233 | Dry-run mode holds exactly when the `dry_run` option is present and neither `nil` nor `false`. |
| Runner.RunnerMethods.DefineRunnerMethod | lib/chefspec/runner.rb:17-23 | Adds the method named after the type, bound to that type, and leaves the other methods as they were. |
| Runner.DefinedMethodFinds | lib/chefspec/runner.rb:17-23 | A method defined for a type answers like `find_resource` with that type and leaves every other method unchanged. In a well-formed collection with `[`-free types it finds only resources of that type. |
| Matchers.ResourceActions | spec/chefspec/matchers/shared_spec.rb:41-61 | No action gives `[]`. One Symbol or String gives a one-element Array of its text. An Array gives its elements' texts, in order. |
| Matchers.ResourceActionsExamples | spec/chefspec/matchers/shared_spec.rb:41-61 | The three examples: `[:shake, :stir]` gives `["shake", "stir"]`, `:shake` gives `["shake"]` and `"stir"` gives `["stir"]`. |
| Matchers.ResourceActionsSingle | spec/chefspec/matchers/shared_spec.rb:49-61 | A single action reads like an Array holding just it, and a Symbol reads like the String with the same text. |
| Matchers.DefineForAction | spec/chefspec/matchers/shared_spec.rb:12-16 | Defining one action's matchers keeps every name defined before and defines `<action>_<type>` for each type. |
| Matchers.DefineAll | spec/chefspec/matchers/shared_spec.rb:7-16 | Defining the matchers of all pairs keeps every name defined before. |
| Matchers.DefineForActionSpec | spec/chefspec/matchers/shared_spec.rb:12-16 | For one action: a name is defined exactly when it was before or is `<action>_<type>` for one of the types. A new name is bound to that action, type and attribute. Every other name keeps its binding. |
| Matchers.DefineAllDomain | spec/chefspec/matchers/shared_spec.rb:7-16 | After defining the matchers of all pairs of actions and types, a name is defined exactly when it was before or is `<action>_<type>` for some pair. |
| Matchers.DefineAllBinding | spec/chefspec/matchers/shared_spec.rb:7-19 | A name some pair produces is defined, whether or not it was defined before. It is bound to the action and type of one of the pairs that produce it, and to the attribute. |
| Matchers.TailLogRedefined | spec/chefspec/matchers/shared_spec.rb:17-28 | Defining `[:tail], [:log], :name` binds `tail_log` to `tail`, `log` and `name` over any registry. That includes one where an earlier example already defined it. |
| Matchers.DefineAllKeeps | spec/chefspec/matchers/shared_spec.rb:7-16 | A name that no pair produces keeps its old binding. |
| Matchers.Registry.MatcherDefined | spec/chefspec/matchers/shared_spec.rb:7-16 | `matcher_defined?` holds exactly when the registry has the name. |
| Matchers.Registry.DefineResourceMatchers | spec/chefspec/matchers/shared_spec.rb:7-16 | The registry after the nested loops is the product definition over the old registry. |
| Matchers.CarMatchers | spec/chefspec/matchers/shared_spec.rb:7-11 | `reverse_car`, `drive_car` and `brake_car` are defined and `crash_car` is not. |
| Matchers.DriveCarBinding | spec/chefspec/matchers/shared_spec.rb:7-9 | In that example, `drive_car` is bound to the action `drive`, the type `car` and the attribute `car_name`. |
| Matchers.SwingMatchers | spec/chefspec/matchers/shared_spec.rb:12-16 | One action over two types defines exactly `swing_golf_club` and `swing_cricket_bat`, each bound to its type. |
| Matchers.FirstMatch | spec/chefspec/matchers/shared_spec.rb:17-28 | Returns the index of the first resource that satisfies the matcher, or `nil` when none does. |
| Matchers.LiteralIdentity | spec/chefspec/matchers/shared_spec.rb:17-20 | `Satisfies`, the matcher's test of one resource, for a String identity: it matches exactly the resources of the matcher's type and action whose attribute equals it. |
| Matchers.PatternIdentity | spec/chefspec/matchers/shared_spec.rb:21-28 | `Satisfies` for a Regexp identity: it matches exactly the resources of the matcher's type and action whose attribute it accepts. |
| Matchers.MatchedResource | spec/chefspec/matchers/shared_spec.rb:33-37 | A resource is recorded exactly when some resource satisfies the matcher. It satisfies the matcher, and no earlier resource does. |
| Matchers.Matcher.Matches | spec/chefspec/matchers/shared_spec.rb:17-28 | `matches?` is true exactly when some resource satisfies the matcher. The matcher remembers the first such resource, or none. |
| Matchers.TailLogLiteral | spec/chefspec/matchers/shared_spec.rb:17-20 | `tail_log('Hello')` matches the `log` resource `Hello` with action `tail`. |
| Matchers.TailLogPattern | spec/chefspec/matchers/shared_spec.rb:21-28 | A pattern matches that resource exactly when it accepts `Hello`. That covers both `/He[l]+o/` and `/DoesntMatch/`. |
| Matchers.PositiveMessageShape | spec/chefspec/matchers/shared_spec.rb:29-32 | The should-failure message `PositiveMessage` opens with `No `, shows the identity as it interpolates, and closes with ` found.`. |
| Matchers.NegativeMessageShape | spec/chefspec/matchers/shared_spec.rb:33-38 | The should-not failure message `NegativeMessage` opens with `Found `, shows the recorded resource's name and the identity as it interpolates, and closes with ` that should not exist.`. |
| Matchers.Matcher.FailureMessageForShould | spec/chefspec/matchers/shared_spec.rb:29-32 | A matcher words its should-failure from its template and identity. |
| Matchers.Matcher.FailureMessageForShouldNot | spec/chefspec/matchers/shared_spec.rb:33-38 | A matcher words its should-not failure from its template, its identity and the resource its last `matches?` recorded. |
| Matchers.PositiveMessageIdentity | spec/chefspec/matchers/shared_spec.rb:29-32 | The should-failure message determines the displayed identity: two identities with the same message display the same. |
| Matchers.ClimbMountainShouldMessage | spec/chefspec/matchers/shared_spec.rb:29-32 | `climb_mountain('everest')` gives exactly "No mountain resource matching name 'everest' with action :climb found.". |
| Matchers.ClimbMountainPattern | spec/chefspec/matchers/shared_spec.rb:33-36 | `climb_mountain(/Kili/)` matches `Kilimanjaro` when the pattern accepts that name. |
| Matchers.ClimbMountainShouldNotMessage | spec/chefspec/matchers/shared_spec.rb:33-38 | After that match, the should-not message is exactly "Found mountain resource named 'Kilimanjaro' matching name: '(?-mix:Kili)' with action :climb that should not exist.". |
| Matchers.ClimbMountainScenario | spec/chefspec/matchers/shared_spec.rb:33-38 | Defining the `climb` matchers of `mountain`, then calling `climb_mountain(/Kili/)`, matching `Kilimanjaro` and asking for the should-not failure succeeds, and the message is exactly the one the example expects. |
| Matchers.Registry.Instantiate | spec/chefspec/matchers/shared_spec.rb:17-19 | Calling a matcher name fails exactly when it is undefined. Otherwise it gives a fresh matcher with the registered template, the identity and no match yet. |
| Ruby.Display | spec/chefspec/matchers/shared_spec.rb:37 | A String interpolates as itself. A Regexp interpolates as its source, with `(?-mix:` before it and `)` after it. |
| Ruby.ToArray | lib/chefspec/runner.rb:223 | `Array(v)` is empty exactly for `nil` and `[]`. An Array gives its items. Any other value gives a one-element Array of itself. |

## Left out

- Chef itself is not modelled: recipe loading (`Chef::Recipe`, `from_file`, `parse_recipe_name`), `Chef::Client`, `Chef::Runner#converge` and run contexts. Each pass is the sequence of resources it records, and a run context is a counter.
- Runner.Runner.Apply: models what `apply` evidently intends, a collection holding what the applied recipes declare. The code as written is modelled by Runner.Runner.ApplyAsWritten, as "## Findings" explains.
- Runner.Runner.ApplyAsWritten: when it raises is an assumption about Chef. The model raises only when there is no earlier run context and the recipes declare something. Chef may already raise in `Chef::Recipe.new` with a `nil` run context (runner.rb:107), for any recipe name. The model takes no recipe names, so it cannot express that reading.
- Runner.Runner.Converge: a Chef pass that raises is not represented: `Converge` and `Apply` always complete. A failing `setup_run_context` (runner.rb:145) would leave the collection emptied and the old run context in place, and a failing converge (runner.rb:147) a partly filled collection.
- Runner.Runner.Converge: the run list is a plain sequence of names. Chef's `RunList#add` dropping duplicates and rendering items as `recipe[...]` belong to Chef and are not modelled.
- Runner.Describe: `to_s` renders the run list by joining its names with `, `. Chef's exact `RunList#to_s` format is not modelled.
- Runner.CallingCookbookPath: returns the joined path before `File.expand_path`. Expansion depends on `Dir.pwd`, which is I/O.
- Runner.InitialOptions: the side effects of `initialize` on the global `Chef::Config` and `Chef::Log` are left out. So is the configuration block that yields the node.
- Fauxhai node data, `node`, `client` and `inspect` are left out. They build Chef objects from external data.
- `return self` for chaining is not modelled. The methods change the runner in place.
- Ruby.Query: a Regexp is its source and the set of strings it accepts. The regular-expression engine and option flags other than none (`(?-mix:` is fixed) are not modelled.
- Matchers.Matcher.Matches: the resources come as a list. Reading them from a runner or a Hash with `:resources` is not modelled.
- The matcher engine is modelled from the behaviour `spec/chefspec/matchers/shared_spec.rb` asserts. The implementation's other branches are not modelled. The should-not message names the matched resource by its `name`.
- `lib/chefspec/berkshelf.rb`, `lib/chefspec/deprecations.rb` and the example cookbooks are outside the modelled core.
- Store.FindResourceHasType: holds only for resource types without `[`, which real Chef types are.
- Store.Resource: `identity` and `attributes` are independent fields. Chef derives a resource's identity from one of its attributes, and that link is not modelled. `find_resource` reads `identity` and `name`, and the matchers read `name` and `attributes`.

## Findings

| source | as written | input that shows it | evidently intended | confidence | as-written member | corrected member |
|---|---|---|---|---|---|---|
| lib/chefspec/runner.rb:102-116 | `apply` loads each recipe with the current `run_context` (line 107) before line 112 builds a new one. Line 111 empties the collection, and line 114 converges the new, empty context. | A fresh runner applies a recipe that declares one resource. Loading it raises, because the runner has no run context yet. After an earlier `converge`, the declarations go to the old context and the collection stays empty. | The collection holds the resources the applied recipes declare, as `converge` does for its run list. | not executed; a reading of the text, assuming Chef records only the resources of the context it converges, and that loading raises without a run context only once a resource is declared | Runner.Runner.ApplyAsWritten, Runner.ApplyAsWrittenLosesResources | Runner.Runner.Apply |
