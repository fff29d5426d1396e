/** The few Ruby values the runner and the matchers work on: optional
    results, symbols and strings, the identity argument of a lookup (a
    literal string or a regular expression) and the loosely typed option
    values of a runner. */
module Ruby {

  /** `nil` or a value. */
  datatype Option<+T> = None | Some(value: T)

  /** A Ruby Symbol (`:file`) or String (`"file"`); `to_s` gives `text`. */
  datatype Atom = Sym(text: string) | Str(text: string)

  /** The identity argument of a lookup or a matcher: a literal String, or a
      Regexp seen through its source text and the set of strings it matches.
      The regular-expression engine itself is not modelled. */
  datatype Query = Literal(text: string) | Pattern(source: string, accepts: string -> bool)

  /** String interpolation `"#{q}"`: a String is itself, a Regexp without
      option flags renders as `(?-mix:<source>)`. */
  function Display(q: Query): (r: string)
    ensures q.Literal? ==> r == q.text
    ensures q.Pattern? ==> |r| == |q.source| + 8 && r[7..|r| - 1] == q.source
    ensures q.Pattern? ==> r[..7] == "(?-mix:" && r[|r| - 1] == ')'
  {
    match q
    case Literal(s) => s
    case Pattern(src, _) => "(?-mix:" + src + ")"
  }

  /** Case equality `q === s`: string equality for a String, a match for a Regexp. */
  predicate CaseEq(q: Query, s: string)
  {
    match q
    case Literal(t) => t == s
    case Pattern(_, accepts) => accepts(s)
  }

  /** An option value as a caller may pass it in the options Hash. */
  datatype Value =
    | NilValue
    | BoolValue(b: bool)
    | StrValue(s: string)
    | SymValue(name: string)
    | ListValue(items: seq<Value>)

  /** Ruby truthiness: everything but `nil` and `false`. */
  predicate Truthy(v: Value)
  {
    !(v.NilValue? || v == BoolValue(false))
  }

  /** `Kernel#Array(v)`: `nil` becomes `[]`, an Array stays as it is, and any
      other value is wrapped in a one-element Array. */
  function ToArray(v: Value): (r: seq<Value>)
    ensures r == [] <==> v.NilValue? || v == ListValue([])
    ensures v.ListValue? ==> r == v.items
    ensures !v.NilValue? && !v.ListValue? ==> r == [v]
  {
    match v
    case NilValue => []
    case ListValue(items) => items
    case _ => [v]
  }
}
