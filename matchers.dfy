/** The resource matchers: `define_resource_matchers(actions, types, attr)`
    registers one matcher `<action>_<type>` per pair of an action and a
    type; a matcher instance is bound to an identity (a literal or a
    pattern), tests a list of resources, remembers the resource it matched,
    and words the two failure messages. */
module Matchers {
  import opened Ruby
  import opened Store
  import opened Strings

  /** `xs.map(&:to_s)`. */
  function Texts(xs: seq<Atom>): (r: seq<string>)
    ensures |r| == |xs|
    ensures forall i :: 0 <= i < |xs| ==> r[i] == xs[i].text
  {
    if |xs| == 0 then [] else [xs[0].text] + Texts(xs[1..])
  }

  /** `resource_actions(resource)`: `Array(resource.action).map(&:to_s)`. */
  function ResourceActions(a: ActionSpec): (r: seq<string>)
    ensures a.NoAction? ==> r == []
    ensures a.Single? ==> r == [a.atom.text]
    ensures a.Several? ==> |r| == |a.atoms| && forall i :: 0 <= i < |r| ==> r[i] == a.atoms[i].text
  {
    match a
    case NoAction => []
    case Single(x) => [x.text]
    case Several(xs) => Texts(xs)
  }

  /** The three cases of the `resource_actions` examples: an Array of symbols,
      one symbol, one string. */
  lemma ResourceActionsExamples()
    ensures ResourceActions(Several([Sym("shake"), Sym("stir")])) == ["shake", "stir"]
    ensures ResourceActions(Single(Sym("shake"))) == ["shake"]
    ensures ResourceActions(Single(Str("stir"))) == ["stir"]
  {
    var r := ResourceActions(Several([Sym("shake"), Sym("stir")]));
    assert r[0] == "shake" && r[1] == "stir";
  }

  /** A single action, as a symbol or as a string, reads the same as an Array
      holding just it. */
  lemma ResourceActionsSingle(x: Atom)
    ensures ResourceActions(Single(x)) == ResourceActions(Several([x]))
    ensures ResourceActions(Single(Sym(x.text))) == ResourceActions(Single(Str(x.text)))
  {
    assert ResourceActions(Several([x]))[0] == x.text;
  }

  /** What one matcher is bound to when it is defined: its action, its
      resource type and the attribute it compares with the identity. */
  datatype Template = Template(action: string, resourceType: string, attribute: string)

  /** The matcher's name, `"#{action}_#{resource_type}"`. */
  function MatcherName(action: Atom, resourceType: Atom): string
  {
    action.text + "_" + resourceType.text
  }

  /** The matchers of one action over `types`, in order, added to `reg`. */
  function DefineForAction(reg: map<string, Template>, action: Atom, types: seq<Atom>, attr: Atom)
    : (r: map<string, Template>)
    ensures reg.Keys <= r.Keys
    ensures forall j :: 0 <= j < |types| ==> MatcherName(action, types[j]) in r
  {
    if |types| == 0 then reg
    else
      var last := types[|types| - 1];
      DefineForAction(reg, action, types[..|types| - 1], attr)
        [MatcherName(action, last) := Template(action.text, last.text, attr.text)]
  }

  /** `define_resource_matchers(actions, types, attr)` over the registry
      `reg`: the pairs of `actions.product(types)`, in order, a later pair
      overwriting an earlier one of the same name. */
  function DefineAll(reg: map<string, Template>, actions: seq<Atom>, types: seq<Atom>, attr: Atom)
    : (r: map<string, Template>)
    ensures reg.Keys <= r.Keys
  {
    if |actions| == 0 then reg
    else
      DefineForAction(DefineAll(reg, actions[..|actions| - 1], types, attr), actions[|actions| - 1], types, attr)
  }

  /** `n` is the matcher name of `action` and one of the types. */
  predicate NamedBy(action: Atom, types: seq<Atom>, n: string)
  {
    exists j :: 0 <= j < |types| && n == MatcherName(action, types[j])
  }

  /** `n` is the matcher name of one of the pairs of `actions.product(types)`. */
  predicate Named(actions: seq<Atom>, types: seq<Atom>, n: string)
  {
    exists i :: 0 <= i < |actions| && NamedBy(actions[i], types, n)
  }

  /** `tpl` is what the matcher `n` of `action` and one of the types is
      bound to. */
  predicate BoundBy(action: Atom, types: seq<Atom>, attr: Atom, n: string, tpl: Template)
  {
    exists j :: 0 <= j < |types| && n == MatcherName(action, types[j])
      && tpl == Template(action.text, types[j].text, attr.text)
  }

  /** The matchers of one action: a name is defined exactly when it was
      before or is `<action>_<type>` for one of the types; a new name is bound
      to that action, one such type and `attr`; other names keep their
      binding. */
  lemma {:induction false} DefineForActionSpec(
    reg: map<string, Template>, action: Atom, types: seq<Atom>, attr: Atom, n: string)
    ensures n in DefineForAction(reg, action, types, attr) <==> n in reg || NamedBy(action, types, n)
    ensures NamedBy(action, types, n) ==> BoundBy(action, types, attr, n, DefineForAction(reg, action, types, attr)[n])
    ensures n in reg && !NamedBy(action, types, n) ==> DefineForAction(reg, action, types, attr)[n] == reg[n]
  {
    if |types| > 0 {
      var init, last := types[..|types| - 1], types[|types| - 1];
      DefineForActionSpec(reg, action, init, attr, n);
      var r := DefineForAction(reg, action, types, attr);
      assert forall j :: 0 <= j < |init| ==> init[j] == types[j];
      if n == MatcherName(action, last) {
        assert r[n] == Template(action.text, types[|types| - 1].text, attr.text);
      } else if NamedBy(action, types, n) {
        var j :| 0 <= j < |types| && n == MatcherName(action, types[j]);
        assert j < |init| && n == MatcherName(action, init[j]);
      }
    }
  }

  /** Defining the matchers of all pairs defines exactly the names of those
      pairs, besides those already defined. */
  lemma {:induction false} DefineAllDomain(
    reg: map<string, Template>, actions: seq<Atom>, types: seq<Atom>, attr: Atom, n: string)
    ensures n in DefineAll(reg, actions, types, attr) <==> n in reg || Named(actions, types, n)
  {
    if |actions| > 0 {
      var init, last := actions[..|actions| - 1], actions[|actions| - 1];
      DefineAllDomain(reg, init, types, attr, n);
      DefineForActionSpec(DefineAll(reg, init, types, attr), last, types, attr, n);
      NamedSnoc(actions, types, n);
    }
  }

  /** A name of the pairs of `actions` is a name of the pairs of all actions
      but the last, or one of the last action. */
  lemma NamedSnoc(actions: seq<Atom>, types: seq<Atom>, n: string)
    requires |actions| > 0
    ensures Named(actions, types, n) <==>
      Named(actions[..|actions| - 1], types, n) || NamedBy(actions[|actions| - 1], types, n)
  {
    var init := actions[..|actions| - 1];
    assert forall i :: 0 <= i < |init| ==> init[i] == actions[i];
    if Named(actions, types, n) && !NamedBy(actions[|actions| - 1], types, n) {
      var i :| 0 <= i < |actions| && NamedBy(actions[i], types, n);
      assert i < |init| && NamedBy(init[i], types, n);
    }
  }

  /** A name no pair produces keeps its binding. */
  lemma {:induction false} DefineAllKeeps(
    reg: map<string, Template>, actions: seq<Atom>, types: seq<Atom>, attr: Atom, n: string)
    requires n in reg && !Named(actions, types, n)
    ensures n in DefineAll(reg, actions, types, attr)
    ensures DefineAll(reg, actions, types, attr)[n] == reg[n]
  {
    if |actions| > 0 {
      var init, last := actions[..|actions| - 1], actions[|actions| - 1];
      NamedSnoc(actions, types, n);
      DefineAllKeeps(reg, init, types, attr, n);
      DefineForActionSpec(DefineAll(reg, init, types, attr), last, types, attr, n);
    }
  }

  /** A name some pair produces is defined, and bound to the action and type
      of one of the pairs that produce it, and to `attr`, whether or not it
      was defined before. */
  lemma {:induction false} DefineAllBinding(
    reg: map<string, Template>, actions: seq<Atom>, types: seq<Atom>, attr: Atom, n: string)
    requires Named(actions, types, n)
    ensures n in DefineAll(reg, actions, types, attr)
    ensures exists i :: 0 <= i < |actions| && BoundBy(actions[i], types, attr, n, DefineAll(reg, actions, types, attr)[n])
  {
    DefineAllDomain(reg, actions, types, attr, n);
    NamedSnoc(actions, types, n);
    var init, last := actions[..|actions| - 1], actions[|actions| - 1];
    var prev := DefineAll(reg, init, types, attr);
    var r := DefineAll(reg, actions, types, attr);
    DefineForActionSpec(prev, last, types, attr, n);
    if NamedBy(last, types, n) {
      assert BoundBy(actions[|actions| - 1], types, attr, n, r[n]);
    } else {
      DefineAllBinding(reg, init, types, attr, n);
      var i :| 0 <= i < |init| && BoundBy(init[i], types, attr, n, prev[n]);
      assert init[i] == actions[i];
    }
  }

  /** The first example: three actions on `car` define `reverse_car`,
      `drive_car` and `brake_car`, and not `crash_car`. */
  lemma CarMatchers()
    ensures var reg := DefineAll(map[], [Sym("reverse"), Sym("drive"), Sym("brake")], [Sym("car")], Sym("car_name"));
      && "reverse_car" in reg && "drive_car" in reg && "brake_car" in reg
      && "crash_car" !in reg
  {
    var actions, types := [Sym("reverse"), Sym("drive"), Sym("brake")], [Sym("car")];
    var attr := Sym("car_name");
    CarNames();
    assert MatcherName(actions[0], types[0]) == "reverse_car";
    assert MatcherName(actions[1], types[0]) == "drive_car";
    assert MatcherName(actions[2], types[0]) == "brake_car";
    assert NamedBy(actions[0], types, "reverse_car");
    assert NamedBy(actions[1], types, "drive_car");
    assert NamedBy(actions[2], types, "brake_car");
    DefineAllDomain(map[], actions, types, attr, "reverse_car");
    DefineAllDomain(map[], actions, types, attr, "drive_car");
    DefineAllDomain(map[], actions, types, attr, "brake_car");
    DefineAllDomain(map[], actions, types, attr, "crash_car");
    forall i | 0 <= i < 3 ensures !NamedBy(actions[i], types, "crash_car") {
      assert i == 0 || i == 1 || i == 2;
    }
  }

  /** In the first example, `drive_car` is bound to the action `drive`, the
      type `car` and the attribute `car_name`. */
  lemma DriveCarBinding()
    ensures var reg := DefineAll(map[], [Sym("reverse"), Sym("drive"), Sym("brake")], [Sym("car")], Sym("car_name"));
      "drive_car" in reg && reg["drive_car"] == Template("drive", "car", "car_name")
  {
    var actions, types := [Sym("reverse"), Sym("drive"), Sym("brake")], [Sym("car")];
    var attr := Sym("car_name");
    var reg := DefineAll(map[], actions, types, attr);
    CarNames();
    assert MatcherName(actions[0], types[0]) == "reverse_car";
    assert MatcherName(actions[1], types[0]) == "drive_car";
    assert MatcherName(actions[2], types[0]) == "brake_car";
    assert NamedBy(actions[1], types, "drive_car");
    assert Named(actions, types, "drive_car");
    DefineAllBinding(map[], actions, types, attr, "drive_car");
    var i :| 0 <= i < 3 && BoundBy(actions[i], types, attr, "drive_car", reg["drive_car"]);
    assert i == 0 || i == 1 || i == 2;
  }

  /** `define_resource_matchers([:tail], [:log], :name)` binds `tail_log` to
      that action, type and attribute over any registry, so also when an
      earlier example already defined it. */
  lemma TailLogRedefined(reg: map<string, Template>)
    ensures var r := DefineAll(reg, [Sym("tail")], [Sym("log")], Sym("name"));
      "tail_log" in r && r["tail_log"] == Template("tail", "log", "name")
  {
    var actions, types := [Sym("tail")], [Sym("log")];
    assert MatcherName(actions[0], types[0]) == "tail_log";
    assert NamedBy(actions[0], types, "tail_log");
    DefineAllBinding(reg, actions, types, Sym("name"), "tail_log");
  }

  /** The names of the first example's matchers. */
  lemma CarNames()
    ensures MatcherName(Sym("reverse"), Sym("car")) == "reverse_car"
    ensures MatcherName(Sym("drive"), Sym("car")) == "drive_car"
    ensures MatcherName(Sym("brake"), Sym("car")) == "brake_car"
  {
  }

  /** The second example: one action over two types defines a matcher for
      each type, bound to that type. */
  lemma SwingMatchers()
    ensures var reg := DefineAll(map[], [Sym("swing")], [Sym("golf_club"), Sym("cricket_bat")], Sym("name"));
      && reg.Keys == {"swing_golf_club", "swing_cricket_bat"}
      && reg["swing_golf_club"] == Template("swing", "golf_club", "name")
      && reg["swing_cricket_bat"] == Template("swing", "cricket_bat", "name")
  {
    var actions, types := [Sym("swing")], [Sym("golf_club"), Sym("cricket_bat")];
    assert DefineAll(map[], actions, types, Sym("name"))
      == DefineForAction(DefineAll(map[], actions[..0], types, Sym("name")), actions[0], types, Sym("name"));
    assert types[..1] == [Sym("golf_club")] && types[..1][..0] == [];
    assert MatcherName(actions[0], types[0]) == "swing_golf_club";
    assert MatcherName(actions[0], types[1]) == "swing_cricket_bat";
    var golf := DefineForAction(map[], actions[0], types[..1], Sym("name"));
    assert DefineForAction(map[], actions[0], types[..1][..0], Sym("name")) == map[];
    assert golf == map[]["swing_golf_club" := Template("swing", "golf_club", "name")];
    assert DefineForAction(map[], actions[0], types, Sym("name"))
      == golf["swing_cricket_bat" := Template("swing", "cricket_bat", "name")];
  }

  /** The value of the attribute a matcher compares (`name`, or one of the
      other attributes), `nil` when the resource has none. */
  function AttributeValue(r: Resource, attribute: string): Option<string>
  {
    if attribute == "name" then Some(r.name)
    else if attribute in r.attributes then Some(r.attributes[attribute])
    else None
  }

  /** One resource satisfies a bound matcher when it has the matcher's type,
      its actions include the matcher's action, and the identity matches
      (`===`) the resource's value of the matcher's attribute. */
  predicate Satisfies(t: Template, identity: Query, r: Resource)
  {
    && r.resourceName == t.resourceType
    && t.action in ResourceActions(r.action)
    && AttributeValue(r, t.attribute).Some?
    && CaseEq(identity, AttributeValue(r, t.attribute).value)
  }

  /** The first resource in `rs` that satisfies the matcher. */
  function FirstMatch(t: Template, identity: Query, rs: seq<Resource>): (r: Option<nat>)
    ensures r.Some? ==> r.value < |rs| && Satisfies(t, identity, rs[r.value])
    ensures r.Some? ==> forall j :: 0 <= j < r.value ==> !Satisfies(t, identity, rs[j])
    ensures r.None? ==> forall j :: 0 <= j < |rs| ==> !Satisfies(t, identity, rs[j])
  {
    if |rs| == 0 then None
    else if Satisfies(t, identity, rs[0]) then Some(0)
    else
      match FirstMatch(t, identity, rs[1..])
      case None => None
      case Some(k) => Some(k + 1)
  }

  /** The resource `matches?` records: the first satisfying one, or `nil`. */
  function MatchedResource(t: Template, identity: Query, rs: seq<Resource>): (r: Option<Resource>)
    ensures r.Some? <==> exists i :: 0 <= i < |rs| && Satisfies(t, identity, rs[i])
    ensures r.Some? ==> Satisfies(t, identity, r.value)
    ensures r.Some? ==> exists i :: 0 <= i < |rs| && rs[i] == r.value &&
                                   forall j :: 0 <= j < i ==> !Satisfies(t, identity, rs[j])
  {
    match FirstMatch(t, identity, rs)
    case None => None
    case Some(i) => Some(rs[i])
  }

  /** `failure_message_for_should`. */
  function PositiveMessage(t: Template, identity: Query): string
  {
    "No " + t.resourceType + " resource matching " + t.attribute + " '" + Display(identity)
      + "' with action :" + t.action + " found."
  }

  /** `failure_message_for_should_not`, naming the resource `matches?`
      recorded (`nil` interpolates as the empty string). */
  function NegativeMessage(t: Template, identity: Query, matched: Option<Resource>): string
  {
    var name := match matched case Some(r) => r.name case None => "";
    "Found " + t.resourceType + " resource named '" + name + "' matching " + t.attribute + ": '"
      + Display(identity) + "' with action :" + t.action + " that should not exist."
  }

  /** The positive failure message opens with `No `, shows the identity as
      it displays, and closes with ` found.`. */
  lemma PositiveMessageShape(t: Template, identity: Query)
    ensures var m := PositiveMessage(t, identity);
      |m| >= 7 && m[..3] == "No " && m[|m| - 7..] == " found."
    ensures Contains(PositiveMessage(t, identity), Display(identity))
  {
    var m := PositiveMessage(t, identity);
    var front := "No " + t.resourceType + " resource matching " + t.attribute + " '" + Display(identity)
      + "' with action :" + t.action;
    assert m[|front|..] == " found.";
    assert m[..3] == "No ";
    PositiveMessageShowsIdentity(t, identity);
  }

  /** Where the positive failure message shows the identity. */
  lemma PositiveMessageShowsIdentity(t: Template, identity: Query)
    ensures Contains(PositiveMessage(t, identity), Display(identity))
  {
    var m := PositiveMessage(t, identity);
    var head := "No " + t.resourceType + " resource matching " + t.attribute + " '";
    assert m[|head|..|head| + |Display(identity)|] == Display(identity);
    ContainsAt(m, Display(identity), |head|);
  }

  /** The negative failure message opens with `Found `, shows the name of the
      resource `matches?` recorded and the identity as it displays, and
      closes with ` that should not exist.`. */
  lemma NegativeMessageShape(t: Template, identity: Query, matched: Option<Resource>)
    ensures var m := NegativeMessage(t, identity, matched);
      |m| >= 23 && m[..6] == "Found " && m[|m| - 23..] == " that should not exist."
    ensures Contains(NegativeMessage(t, identity, matched), Display(identity))
    ensures matched.Some? ==> Contains(NegativeMessage(t, identity, matched), matched.value.name)
  {
    var name := match matched case Some(r) => r.name case None => "";
    var m := NegativeMessage(t, identity, matched);
    var front := "Found " + t.resourceType + " resource named '" + name + "' matching " + t.attribute + ": '"
      + Display(identity) + "' with action :" + t.action;
    assert m[|front|..] == " that should not exist.";
    assert m[..6] == "Found ";
    NegativeMessageShowsIdentity(t, identity, matched);
    if matched.Some? {
      NegativeMessageShowsName(t, identity, matched.value);
    }
  }

  /** Where the negative failure message shows the identity. */
  lemma NegativeMessageShowsIdentity(t: Template, identity: Query, matched: Option<Resource>)
    ensures Contains(NegativeMessage(t, identity, matched), Display(identity))
  {
    var name := match matched case Some(r) => r.name case None => "";
    var m := NegativeMessage(t, identity, matched);
    var front := "Found " + t.resourceType + " resource named '" + name + "' matching " + t.attribute + ": '";
    assert m[|front|..|front| + |Display(identity)|] == Display(identity);
    ContainsAt(m, Display(identity), |front|);
  }

  /** Where the negative failure message shows the matched resource's name. */
  lemma NegativeMessageShowsName(t: Template, identity: Query, r: Resource)
    ensures Contains(NegativeMessage(t, identity, Some(r)), r.name)
  {
    var m := NegativeMessage(t, identity, Some(r));
    var head := "Found " + t.resourceType + " resource named '";
    assert m[|head|..|head| + |r.name|] == r.name;
    ContainsAt(m, r.name, |head|);
  }

  /** The positive failure message gives the identity back: for one matcher,
      two identities with the same message display the same. */
  lemma PositiveMessageIdentity(t: Template, q1: Query, q2: Query)
    requires PositiveMessage(t, q1) == PositiveMessage(t, q2)
    ensures Display(q1) == Display(q2)
  {
    var pre := "No " + t.resourceType + " resource matching " + t.attribute + " '";
    var post := "' with action :" + t.action + " found.";
    var d1, d2 := Display(q1), Display(q2);
    assert PositiveMessage(t, q1) == pre + d1 + post;
    assert PositiveMessage(t, q2) == pre + d2 + post;
    Middle(pre, d1, post);
    Middle(pre, d2, post);
  }

  /** The middle of a string is what stands between its known prefix and
      suffix. */
  lemma Middle(pre: string, x: string, post: string)
    ensures |pre + x + post| - |post| == |pre| + |x|
    ensures (pre + x + post)[|pre|..|pre + x + post| - |post|] == x
  {
    assert (pre + x + post)[|pre|..|pre| + |x|] == x;
  }

  /** A literal identity matches exactly the resources of the matcher's type
      and action whose attribute equals it. */
  lemma LiteralIdentity(t: Template, s: string, r: Resource)
    ensures Satisfies(t, Literal(s), r) <==>
      r.resourceName == t.resourceType && t.action in ResourceActions(r.action)
      && AttributeValue(r, t.attribute) == Some(s)
  {
  }

  /** A pattern identity matches exactly the resources of the matcher's type
      and action whose attribute the pattern accepts. */
  lemma PatternIdentity(t: Template, src: string, accepts: string -> bool, r: Resource)
    ensures Satisfies(t, Pattern(src, accepts), r) <==>
      r.resourceName == t.resourceType && t.action in ResourceActions(r.action)
      && AttributeValue(r, t.attribute).Some? && accepts(AttributeValue(r, t.attribute).value)
  {
  }

  /** The `log` resource of the shared examples: named `Hello`, action `tail`. */
  const HelloLog := Resource("log", "Hello", "Hello", Single(Str("tail")), map[])

  /** The `mountain` resource of the shared examples: named `Kilimanjaro`,
      action `climb`. */
  const Kilimanjaro := Resource("mountain", "Kilimanjaro", "Kilimanjaro", Single(Str("climb")), map[])

  /** `tail_log('Hello')` matches the `Hello` log. */
  lemma TailLogLiteral()
    ensures MatchedResource(Template("tail", "log", "name"), Literal("Hello"), [HelloLog]) == Some(HelloLog)
  {
    var t := Template("tail", "log", "name");
    assert ResourceActions(HelloLog.action) == ["tail"];
    assert Satisfies(t, Literal("Hello"), HelloLog);
    assert FirstMatch(t, Literal("Hello"), [HelloLog]) == Some(0);
  }

  /** `tail_log(/.../)` matches the `Hello` log exactly when the pattern
      accepts `Hello` (`/He[l]+o/` does, `/DoesntMatch/` does not). */
  lemma TailLogPattern(src: string, accepts: string -> bool)
    ensures MatchedResource(Template("tail", "log", "name"), Pattern(src, accepts), [HelloLog]).Some?
      <==> accepts("Hello")
  {
    var t := Template("tail", "log", "name");
    var p := Pattern(src, accepts);
    assert ResourceActions(HelloLog.action) == ["tail"];
    assert Satisfies(t, p, HelloLog) <==> accepts("Hello");
    var m := FirstMatch(t, p, [HelloLog]);
    assert m.Some? <==> Satisfies(t, p, HelloLog);
  }

  /** `climb_mountain('everest')` words its positive failure as the example
      says. */
  lemma ClimbMountainShouldMessage()
    ensures PositiveMessage(Template("climb", "mountain", "name"), Literal("everest"))
      == "No mountain resource matching name 'everest' with action :climb found."
  {
    EverestMessageHead();
    assert "No mountain resource matching name 'everest" + "' with action :" + "climb"
      == "No mountain resource matching name 'everest' with action :climb";
    assert "No mountain resource matching name 'everest' with action :climb" + " found."
      == "No mountain resource matching name 'everest' with action :climb found.";
  }

  /** The first half of that message. */
  lemma EverestMessageHead()
    ensures "No " + "mountain" + " resource matching " + "name" + " '" + "everest"
      == "No mountain resource matching name 'everest"
  {
    assert "No " + "mountain" == "No mountain";
    assert "No mountain" + " resource matching " == "No mountain resource matching ";
    assert "No mountain resource matching " + "name" == "No mountain resource matching name";
  }

  /** `climb_mountain(/Kili/)` matches the `Kilimanjaro` resource when the
      pattern accepts its name. */
  lemma ClimbMountainPattern(accepts: string -> bool)
    requires accepts("Kilimanjaro")
    ensures MatchedResource(Template("climb", "mountain", "name"), Pattern("Kili", accepts), [Kilimanjaro])
      == Some(Kilimanjaro)
  {
    var t := Template("climb", "mountain", "name");
    var p := Pattern("Kili", accepts);
    assert ResourceActions(Kilimanjaro.action) == ["climb"];
    assert Satisfies(t, p, Kilimanjaro);
    assert FirstMatch(t, p, [Kilimanjaro]) == Some(0);
  }

  /** Once `Kilimanjaro` was matched, the negative failure names it and shows
      the pattern. */
  lemma ClimbMountainShouldNotMessage(accepts: string -> bool)
    ensures NegativeMessage(Template("climb", "mountain", "name"), Pattern("Kili", accepts), Some(Kilimanjaro))
      == "Found mountain resource named 'Kilimanjaro' matching name: '(?-mix:Kili)' with action :climb that should not exist."
  {
    var p := Pattern("Kili", accepts);
    assert Display(p) == "(?-mix:Kili)";
    assert NegativeMessage(Template("climb", "mountain", "name"), p, Some(Kilimanjaro))
      == "Found " + "mountain" + " resource named '" + "Kilimanjaro" + "' matching " + "name" + ": '"
      + "(?-mix:Kili)" + "' with action :" + "climb" + " that should not exist.";
    KilimanjaroMessageText();
  }

  /** The should-not example end to end: define the `climb` matchers of
      `mountain`, bind `climb_mountain` to `/Kili/`, match the `Kilimanjaro`
      resource, and word the negative failure. */
  method ClimbMountainScenario(accepts: string -> bool) returns (ok: bool, msg: string)
    requires accepts("Kilimanjaro")
    ensures ok
    ensures msg == "Found mountain resource named 'Kilimanjaro' matching name: '(?-mix:Kili)' with action :climb that should not exist."
  {
    var registry := new Registry();
    registry.DefineResourceMatchers([Sym("climb")], [Sym("mountain")], Sym("name"));
    assert MatcherName(Sym("climb"), Sym("mountain")) == "climb_mountain";
    assert registry.matchers == map["climb_mountain" := Template("climb", "mountain", "name")] by {
      assert [Sym("climb")][..0] == [] && [Sym("mountain")][..0] == [];
    }
    var m := registry.Instantiate("climb_mountain", Pattern("Kili", accepts));
    ok := m.Matches([Kilimanjaro]);
    ClimbMountainPattern(accepts);
    assert Satisfies(m.template, m.identity, [Kilimanjaro][0]);
    msg := m.FailureMessageForShouldNot();
    ClimbMountainShouldNotMessage(accepts);
  }

  /** The pieces of the negative message for `Kilimanjaro`, put together. */
  lemma KilimanjaroMessageText()
    ensures "Found " + "mountain" + " resource named '" + "Kilimanjaro" + "' matching " + "name" + ": '"
      + "(?-mix:Kili)" + "' with action :" + "climb" + " that should not exist."
      == "Found mountain resource named 'Kilimanjaro' matching name: '(?-mix:Kili)' with action :climb that should not exist."
  {
    KilimanjaroMessageHead();
    KilimanjaroMessageTail();
  }

  /** The first half of that message. */
  lemma KilimanjaroMessageHead()
    ensures "Found " + "mountain" + " resource named '" + "Kilimanjaro" + "' matching " + "name" + ": '"
      == "Found mountain resource named 'Kilimanjaro' matching name: '"
  {
    assert "Found " + "mountain" + " resource named '" == "Found mountain resource named '";
    assert "Found mountain resource named '" + "Kilimanjaro" + "' matching "
      == "Found mountain resource named 'Kilimanjaro' matching ";
  }

  /** The second half of that message. */
  lemma KilimanjaroMessageTail()
    ensures "Found mountain resource named 'Kilimanjaro' matching name: '"
      + "(?-mix:Kili)" + "' with action :" + "climb" + " that should not exist."
      == "Found mountain resource named 'Kilimanjaro' matching name: '(?-mix:Kili)' with action :climb that should not exist."
  {
    assert "Found mountain resource named 'Kilimanjaro' matching name: '" + "(?-mix:Kili)"
      == "Found mountain resource named 'Kilimanjaro' matching name: '(?-mix:Kili)";
    assert "Found mountain resource named 'Kilimanjaro' matching name: '(?-mix:Kili)" + "' with action :" + "climb"
      == "Found mountain resource named 'Kilimanjaro' matching name: '(?-mix:Kili)' with action :climb";
    KilimanjaroMessageEnd();
  }

  /** The last piece of that message. */
  lemma KilimanjaroMessageEnd()
    ensures "Found mountain resource named 'Kilimanjaro' matching name: '(?-mix:Kili)' with action :climb"
      + " that should not exist."
      == "Found mountain resource named 'Kilimanjaro' matching name: '(?-mix:Kili)' with action :climb that should not exist."
  {
  }

  /** A matcher bound to an identity; `matched` is the resource the last
      `matches?` recorded. */
  class Matcher {
    const template: Template
    const identity: Query
    var matched: Option<Resource>

    constructor(template: Template, identity: Query)
      ensures this.template == template && this.identity == identity && matched == None
    {
      this.template := template;
      this.identity := identity;
      matched := None;
    }

    /** `matches?(chef_run)`: true exactly when some resource satisfies the
        matcher; records the first one that does. */
    method Matches(rs: seq<Resource>) returns (ok: bool)
      modifies this
      ensures ok <==> exists i :: 0 <= i < |rs| && Satisfies(template, identity, rs[i])
      ensures matched == MatchedResource(template, identity, rs)
    {
      matched := None;
      var i := 0;
      while i < |rs|
        invariant 0 <= i <= |rs|
        invariant forall j :: 0 <= j < i ==> !Satisfies(template, identity, rs[j])
        invariant matched == None
      {
        if Satisfies(template, identity, rs[i]) {
          assert FirstMatch(template, identity, rs) == Some(i);
          matched := Some(rs[i]);
          return true;
        }
        i := i + 1;
      }
      return false;
    }

    /** `failure_message_for_should`. */
    function FailureMessageForShould(): (r: string)
      reads this
      ensures r == PositiveMessage(template, identity)
    {
      PositiveMessage(template, identity)
    }

    /** `failure_message_for_should_not`. */
    function FailureMessageForShouldNot(): (r: string)
      reads this
      ensures r == NegativeMessage(template, identity, matched)
    {
      NegativeMessage(template, identity, matched)
    }
  }

  /** The matchers defined so far, by name. */
  class Registry {
    var matchers: map<string, Template>

    constructor()
      ensures matchers == map[]
    {
      matchers := map[];
    }

    /** `define_resource_matchers(actions, resource_types, attr)`. */
    method DefineResourceMatchers(actions: seq<Atom>, types: seq<Atom>, attr: Atom)
      modifies this
      ensures matchers == DefineAll(old(matchers), actions, types, attr)
    {
      var i := 0;
      while i < |actions|
        invariant 0 <= i <= |actions|
        invariant matchers == DefineAll(old(matchers), actions[..i], types, attr)
      {
        var j := 0;
        while j < |types|
          invariant 0 <= j <= |types|
          invariant matchers == DefineForAction(DefineAll(old(matchers), actions[..i], types, attr), actions[i], types[..j], attr)
        {
          assert types[..j + 1][..j] == types[..j];
          matchers := matchers[MatcherName(actions[i], types[j]) := Template(actions[i].text, types[j].text, attr.text)];
          j := j + 1;
        }
        assert types[..j] == types;
        assert actions[..i + 1][..i] == actions[..i];
        i := i + 1;
      }
      assert actions[..i] == actions;
    }

    /** `matcher_defined?(name)`. */
    predicate MatcherDefined(name: string): (r: bool)
      reads this
      ensures r <==> name in matchers
    {
      name in matchers
    }

    /** Calling the matcher `name` with an identity: `nil` (a `NoMethodError`)
        when no such matcher is defined, otherwise a new matcher bound to the
        registered template and the identity. */
    method Instantiate(name: string, identity: Query) returns (m: Matcher?)
      ensures m == null <==> name !in matchers
      ensures m != null ==> fresh(m) && m.template == matchers[name] && m.identity == identity && m.matched == None
    {
      if name in matchers {
        m := new Matcher(matchers[name], identity);
      } else {
        m := null;
      }
    }
  }
}
