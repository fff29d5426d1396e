/** The runner's resource collection: an insertion-ordered Hash from the key
    `"type[name]"` to the resource recorded under it, and the two queries
    over it, `find_resource` and `find_resources`. */
module Store {
  import opened Ruby

  /** The action a resource was declared with: none, one symbol or string,
      or an Array of them. */
  datatype ActionSpec = NoAction | Single(atom: Atom) | Several(atoms: seq<Atom>)

  /** A declared resource: its type (`resource_name`), its declared name, the
      value of its identity attribute, its action and its other attributes. */
  datatype Resource = Resource(
    resourceName: string,
    name: string,
    identity: string,
    action: ActionSpec,
    attributes: map<string, string>)

  /** One key/value pair of the Hash. */
  datatype Entry = Entry(key: string, resource: Resource)

  /** The Hash, in insertion order. */
  type Collection = seq<Entry>

  /** The interpolated key `"#{type}[#{name}]"`. */
  function Key(typeText: string, name: string): string
  {
    typeText + "[" + name + "]"
  }

  /** The key a resource is recorded under (`Chef::Resource#to_s`). */
  function KeyOf(r: Resource): string
  {
    Key(r.resourceName, r.name)
  }

  /** A Hash holds each key once. */
  ghost predicate DistinctKeys(c: Collection)
  {
    forall i, j :: 0 <= i < j < |c| ==> c[i].key != c[j].key
  }

  /** Every entry is recorded under its own `"resource_name[name]"` key. */
  ghost predicate Keyed(c: Collection)
  {
    forall i :: 0 <= i < |c| ==> c[i].key == KeyOf(c[i].resource)
  }

  ghost predicate WellFormed(c: Collection)
  {
    DistinctKeys(c) && Keyed(c)
  }

  /** Resource types are identifiers: none holds a `[`. */
  ghost predicate PlainTypeNames(c: Collection)
  {
    forall i :: 0 <= i < |c| ==> '[' !in c[i].resource.resourceName
  }

  /** The position of `key` in the Hash, if it is there. */
  function IndexOfKey(c: Collection, key: string): (r: Option<nat>)
    ensures r.Some? ==> r.value < |c| && c[r.value].key == key
    ensures r.Some? ==> forall j :: 0 <= j < r.value ==> c[j].key != key
    ensures r.None? ==> forall j :: 0 <= j < |c| ==> c[j].key != key
  {
    if |c| == 0 then None
    else if c[0].key == key then Some(0)
    else
      match IndexOfKey(c[1..], key)
      case None => None
      case Some(k) => Some(k + 1)
  }

  /** `resources[key]`. */
  function Lookup(c: Collection, key: string): (r: Option<Resource>)
    ensures r.None? <==> forall j :: 0 <= j < |c| ==> c[j].key != key
    ensures r.Some? ==> exists i :: 0 <= i < |c| && c[i].key == key && c[i].resource == r.value &&
                                   forall j :: 0 <= j < i ==> c[j].key != key
  {
    match IndexOfKey(c, key)
    case None => None
    case Some(i) => Some(c[i].resource)
  }

  /** `resources[key] = r`: an existing key keeps its place and takes the new
      value, a new key goes to the end. */
  function Put(c: Collection, key: string, r: Resource): (c': Collection)
    requires DistinctKeys(c)
    ensures DistinctKeys(c')
    ensures Lookup(c', key) == Some(r)
    ensures forall k :: k != key ==> Lookup(c', k) == Lookup(c, k)
    ensures (exists i :: 0 <= i < |c| && c[i].key == key) ==> |c'| == |c|
    ensures (forall i :: 0 <= i < |c| ==> c[i].key != key) ==> c' == c + [Entry(key, r)]
    ensures |c| <= |c'| <= |c| + 1
    ensures forall i :: 0 <= i < |c'| ==> c'[i] == if i < |c| && c[i].key != key then c[i] else Entry(key, r)
  {
    match IndexOfKey(c, key)
    case Some(i) =>
      var c' := c[i := Entry(key, r)];
      IndexOfKeyAt(c', key, i);
      forall k | k != key ensures IndexOfKey(c', k) == IndexOfKey(c, k) {
        SameKeysSameIndex(c, c', k);
      }
      c'
    case None =>
      var c' := c + [Entry(key, r)];
      IndexOfKeyAt(c', key, |c|);
      forall k | k != key ensures IndexOfKey(c', k) == IndexOfKey(c, k) {
        AppendKeepsIndex(c, Entry(key, r), k);
      }
      c'
  }

  /** A key sits at the first position that holds it. */
  lemma IndexOfKeyAt(c: Collection, key: string, i: nat)
    requires i < |c| && c[i].key == key
    requires forall j :: 0 <= j < i ==> c[j].key != key
    ensures IndexOfKey(c, key) == Some(i)
  {
  }

  /** Appending an entry under another key moves no key. */
  lemma AppendKeepsIndex(c: Collection, e: Entry, k: string)
    requires e.key != k
    ensures IndexOfKey(c + [e], k) == IndexOfKey(c, k)
  {
    var i := IndexOfKey(c, k);
    if i.Some? {
      IndexOfKeyAt(c + [e], k, i.value);
    }
  }

  /** Replacing one entry by another with the same key moves no other key. */
  lemma SameKeysSameIndex(c: Collection, c': Collection, k: string)
    requires |c| == |c'|
    requires forall i :: 0 <= i < |c| ==> c[i].key == c'[i].key
    ensures IndexOfKey(c', k) == IndexOfKey(c, k)
  {
    var i := IndexOfKey(c, k);
    if i.Some? {
      IndexOfKeyAt(c', k, i.value);
    }
  }

  /** The collection one evaluation pass leaves behind: starting from an
      empty Hash, each resource the pass records is stored under its key. */
  function Recorded(decls: seq<Resource>): (c: Collection)
    ensures WellFormed(c)
    ensures |c| <= |decls|
    ensures forall i :: 0 <= i < |c| ==> c[i].resource in decls
  {
    if |decls| == 0 then []
    else
      var last := decls[|decls| - 1];
      var prev := Recorded(decls[..|decls| - 1]);
      Put(prev, KeyOf(last), last)
  }

  /** Recording one more resource stores it over what the earlier ones left. */
  lemma RecordedStep(decls: seq<Resource>, i: nat)
    requires i < |decls|
    ensures DistinctKeys(Recorded(decls[..i]))
    ensures Recorded(decls[..i + 1]) == Put(Recorded(decls[..i]), KeyOf(decls[i]), decls[i])
  {
    assert decls[..i + 1][..i] == decls[..i];
  }

  /** The last resource among `decls` whose key is `key`. */
  function LastWithKey(decls: seq<Resource>, key: string): (r: Option<Resource>)
    ensures r.Some? ==> r.value in decls && KeyOf(r.value) == key
    ensures r.None? ==> forall i :: 0 <= i < |decls| ==> KeyOf(decls[i]) != key
  {
    if |decls| == 0 then None
    else if KeyOf(decls[|decls| - 1]) == key then Some(decls[|decls| - 1])
    else LastWithKey(decls[..|decls| - 1], key)
  }

  /** Redeclaring a key overwrites it: after the pass, each key holds the
      last resource recorded under it, and keys never recorded are absent. */
  lemma {:induction false} RecordedLookup(decls: seq<Resource>, key: string)
    ensures Lookup(Recorded(decls), key) == LastWithKey(decls, key)
  {
    if |decls| > 0 {
      RecordedLookup(decls[..|decls| - 1], key);
    }
  }

  /** `type` as the scan compares it: `resource.resource_name.to_sym == type`
      holds only for a Symbol argument. */
  predicate TypeMatches(t: Atom, r: Resource)
  {
    t.Sym? && r.resourceName == t.text
  }

  /** The condition of the fallback scan in `find_resource`. */
  predicate Hits(e: Entry, t: Atom, q: Query)
  {
    TypeMatches(t, e.resource) && (CaseEq(q, e.resource.identity) || CaseEq(q, e.resource.name))
  }

  /** `resources.values.find { ... }`, as the index of the first hit. */
  function FirstHit(c: Collection, t: Atom, q: Query): (r: Option<nat>)
    ensures r.Some? ==> r.value < |c| && Hits(c[r.value], t, q)
    ensures r.Some? ==> forall j :: 0 <= j < r.value ==> !Hits(c[j], t, q)
    ensures r.None? ==> forall j :: 0 <= j < |c| ==> !Hits(c[j], t, q)
  {
    if |c| == 0 then None
    else if Hits(c[0], t, q) then Some(0)
    else
      match FirstHit(c[1..], t, q)
      case None => None
      case Some(k) => Some(k + 1)
  }

  /** The key `find_resource` tries first. */
  function QueryKey(t: Atom, q: Query): string
  {
    Key(t.text, Display(q))
  }

  /** `find_resource(type, name)`: the entry under the key `"type[name]"` if
      there is one, otherwise the first resource of that type whose identity
      or name the query matches, otherwise `nil`. */
  function FindResource(c: Collection, t: Atom, q: Query): (r: Option<Resource>)
    ensures Lookup(c, QueryKey(t, q)).Some? ==> r == Lookup(c, QueryKey(t, q))
    ensures r.Some? ==> exists i :: 0 <= i < |c| && c[i].resource == r.value
  {
    match Lookup(c, QueryKey(t, q))
    case Some(hit) => Some(hit)
    case None =>
      match FirstHit(c, t, q)
      case None => None
      case Some(i) => Some(c[i].resource)
  }

  /** On a key miss, `find_resource` returns a resource exactly when it is
      the first one, in insertion order, that the scan accepts. */
  lemma FindResourceScan(c: Collection, t: Atom, q: Query, x: Resource)
    requires Lookup(c, QueryKey(t, q)).None?
    ensures FindResource(c, t, q) == Some(x) <==>
      exists i :: 0 <= i < |c| && Hits(c[i], t, q) && c[i].resource == x
                  && forall j :: 0 <= j < i ==> !Hits(c[j], t, q)
  {
    var r := FirstHit(c, t, q);
    if exists i :: 0 <= i < |c| && Hits(c[i], t, q) && c[i].resource == x
                   && forall j :: 0 <= j < i ==> !Hits(c[j], t, q) {
      var i :| 0 <= i < |c| && Hits(c[i], t, q) && c[i].resource == x
               && forall j :: 0 <= j < i ==> !Hits(c[j], t, q);
      assert r == Some(i);
    }
  }

  /** `find_resource` finds something exactly when the key is present or
      some resource of the type has an identity or name the query matches. */
  lemma FindResourceFound(c: Collection, t: Atom, q: Query)
    ensures FindResource(c, t, q).Some? <==>
      Lookup(c, QueryKey(t, q)).Some? || exists i :: 0 <= i < |c| && Hits(c[i], t, q)
  {
    if Lookup(c, QueryKey(t, q)).None? && exists i :: 0 <= i < |c| && Hits(c[i], t, q) {
      var i :| 0 <= i < |c| && Hits(c[i], t, q);
      assert FirstHit(c, t, q).Some?;
    }
  }

  /** The position of the first `ch` in `s`, or `|s|` if there is none. */
  function IndexOfChar(s: string, ch: char): (r: nat)
    ensures r <= |s| && ch !in s[..r]
    ensures r < |s| ==> s[r] == ch
  {
    if |s| == 0 then 0
    else if s[0] == ch then 0
    else
      var k := IndexOfChar(s[1..], ch);
      assert s[..k + 1] == [s[0]] + s[1..][..k];
      k + 1
  }

  /** In a key whose type part has no `[`, the first `[` ends the type. */
  lemma {:induction false} FirstBracket(a: string, x: string)
    requires '[' !in a
    ensures IndexOfChar(Key(a, x), '[') == |a|
  {
    if |a| > 0 {
      FirstBracket(a[1..], x);
      assert Key(a, x)[1..] == Key(a[1..], x);
    }
  }

  /** Two keys with `[`-free type parts are equal only if the types are. */
  lemma KeyDeterminesType(a: string, x: string, b: string, y: string)
    requires '[' !in a && '[' !in b
    requires Key(a, x) == Key(b, y)
    ensures a == b
  {
    FirstBracket(a, x);
    FirstBracket(b, y);
    assert Key(a, x)[..|a|] == a && Key(b, y)[..|b|] == b;
  }

  /** With every entry under its own key and identifier type names, whatever
      `find_resource(type, q)` returns is of that type. */
  lemma FindResourceHasType(c: Collection, t: Atom, q: Query)
    requires Keyed(c) && PlainTypeNames(c)
    requires '[' !in t.text
    ensures FindResource(c, t, q).Some? ==> FindResource(c, t, q).value.resourceName == t.text
  {
    var i := IndexOfKey(c, QueryKey(t, q));
    if i.Some? {
      var r := c[i.value].resource;
      KeyDeterminesType(t.text, Display(q), r.resourceName, r.name);
    }
  }

  /** Every resource a pass records is found again by its type (as a Symbol)
      and its name: `find_resource` returns the last resource declared
      under that key. */
  lemma FindDeclared(decls: seq<Resource>, i: nat)
    requires i < |decls|
    ensures FindResource(Recorded(decls), Sym(decls[i].resourceName), Literal(decls[i].name))
            == LastWithKey(decls, KeyOf(decls[i]))
    ensures LastWithKey(decls, KeyOf(decls[i])).Some?
  {
    var key := KeyOf(decls[i]);
    assert QueryKey(Sym(decls[i].resourceName), Literal(decls[i].name)) == key;
    RecordedLookup(decls, key);
  }

  /** `find_resources(type)`: the entries whose `resource_name.to_s` equals
      `type.to_s`, keys and order kept. */
  function FindResources(c: Collection, t: Atom): (r: Collection)
    ensures |r| <= |c|
    ensures forall e :: e in r <==> e in c && e.resource.resourceName == t.text
  {
    if |c| == 0 then []
    else
      var rest := FindResources(c[1..], t);
      if c[0].resource.resourceName == t.text then [c[0]] + rest else rest
  }

  /** `find_resources` distributes over concatenation, so it keeps the order
      of the entries it selects. */
  lemma {:induction false} FindResourcesAppend(a: Collection, b: Collection, t: Atom)
    ensures FindResources(a + b, t) == FindResources(a, t) + FindResources(b, t)
  {
    if |a| > 0 {
      assert (a + b)[1..] == a[1..] + b;
      FindResourcesAppend(a[1..], b, t);
    } else {
      assert a + b == b;
    }
  }

  /** The selection is itself a well-formed Hash. */
  lemma {:induction false} FindResourcesWellFormed(c: Collection, t: Atom)
    requires WellFormed(c)
    ensures WellFormed(FindResources(c, t))
  {
    if |c| > 0 {
      assert WellFormed(c[1..]) by {
        assert forall i :: 0 <= i < |c| - 1 ==> c[1..][i] == c[i + 1];
      }
      FindResourcesWellFormed(c[1..], t);
      var rest := FindResources(c[1..], t);
      if c[0].resource.resourceName == t.text {
        forall e | e in rest ensures e.key != c[0].key {
          var j :| 0 < j < |c| && c[j] == e by { assert e in c[1..]; }
        }
        ConsWellFormed(c[0], rest);
      }
    }
  }

  /** An entry under its own key, in front of a well-formed Hash that does
      not hold that key, makes a well-formed Hash. */
  lemma ConsWellFormed(e: Entry, rest: Collection)
    requires WellFormed(rest) && e.key == KeyOf(e.resource)
    requires forall x | x in rest :: x.key != e.key
    ensures WellFormed([e] + rest)
  {
    var c := [e] + rest;
    assert forall i :: 0 < i < |c| ==> c[i] == rest[i - 1] && c[i] in rest;
  }

  /** A type nobody declared selects nothing. */
  lemma FindResourcesEmpty(c: Collection, t: Atom)
    ensures FindResources(c, t) == [] <==> forall i :: 0 <= i < |c| ==> c[i].resource.resourceName != t.text
  {
    if FindResources(c, t) != [] {
      var e := FindResources(c, t)[0];
      assert e in FindResources(c, t);
    }
    if exists i :: 0 <= i < |c| && c[i].resource.resourceName == t.text {
      var i :| 0 <= i < |c| && c[i].resource.resourceName == t.text;
      assert c[i] in FindResources(c, t);
    }
  }
}
