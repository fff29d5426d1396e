/** The pieces of Ruby's String, Array and File API that the runner's path
    inference and `to_s` rely on: substring search, `String#split`,
    `Array#join`, `Array#index` and `File.join`. */
module Strings {
  import opened Ruby

  /** `t` contains `s` as a contiguous piece (what `t =~ /s/` tests for a
      pattern without metacharacters). */
  predicate Contains(t: string, s: string)
    decreases |t|
  {
    |s| <= |t| && (t[..|s|] == s || Contains(t[1..], s))
  }

  /** A string that has `s` in the middle contains `s`. */
  lemma {:induction false} ContainsMiddle(a: string, s: string, b: string)
    ensures Contains(a + s + b, s)
  {
    if |a| == 0 {
      assert (a + s + b)[..|s|] == s;
    } else {
      ContainsMiddle(a[1..], s, b);
      assert (a + s + b)[1..] == a[1..] + s + b;
    }
  }

  /** A string that has `s` at position `k` contains `s`. */
  lemma {:induction false} ContainsAt(t: string, s: string, k: nat)
    requires k + |s| <= |t| && t[k..k + |s|] == s
    ensures Contains(t, s)
  {
    if k > 0 {
      assert t[1..][k - 1..k - 1 + |s|] == s;
      ContainsAt(t[1..], s, k - 1);
    } else {
      assert t[..|s|] == s;
    }
  }

  /** `lines.find { |line| line =~ /s/ }`, as the index of the first line
      that contains `s`. */
  function FirstContaining(lines: seq<string>, s: string): (r: Option<nat>)
    ensures r.Some? ==> r.value < |lines| && Contains(lines[r.value], s)
    ensures r.Some? ==> forall j :: 0 <= j < r.value ==> !Contains(lines[j], s)
    ensures r.None? ==> forall j :: 0 <= j < |lines| ==> !Contains(lines[j], s)
  {
    if |lines| == 0 then None
    else if Contains(lines[0], s) then Some(0)
    else
      match FirstContaining(lines[1..], s)
      case None => None
      case Some(k) => Some(k + 1)
  }

  /** Every field of `s` between occurrences of `sep`, empty fields included
      (`s.split(sep, -1)` for a non-empty `s`; the empty string has the one
      field `""` here). */
  function Fields(s: string, sep: char): (r: seq<string>)
    ensures |r| >= 1
  {
    if |s| == 0 then [""]
    else
      var rest := Fields(s[1..], sep);
      if s[0] == sep then [""] + rest else [[s[0]] + rest[0]] + rest[1..]
  }

  /** No field contains the separator. */
  lemma {:induction false} FieldsSeparatorFree(s: string, sep: char)
    ensures forall i :: 0 <= i < |Fields(s, sep)| ==> sep !in Fields(s, sep)[i]
  {
    if |s| > 0 {
      FieldsSeparatorFree(s[1..], sep);
      var rest := Fields(s[1..], sep);
      if s[0] != sep {
        assert sep !in rest[0];
        assert sep !in [s[0]] + rest[0];
      }
    }
  }

  /** `xs.join(sep)`. */
  function JoinWith(xs: seq<string>, sep: string): string
  {
    if |xs| == 0 then ""
    else if |xs| == 1 then xs[0]
    else xs[0] + sep + JoinWith(xs[1..], sep)
  }

  /** Joining the fields of `s` with the separator gives `s` back. */
  lemma {:induction false} FieldsJoin(s: string, sep: char)
    ensures JoinWith(Fields(s, sep), [sep]) == s
  {
    if |s| > 0 {
      var rest := Fields(s[1..], sep);
      FieldsJoin(s[1..], sep);
      if s[0] == sep {
        assert Fields(s, sep) == [""] + rest;
        assert ([""] + rest)[1..] == rest;
        assert s == [sep] + s[1..];
      } else if |rest| == 1 {
        assert Fields(s, sep) == [[s[0]] + rest[0]];
        assert s == [s[0]] + s[1..];
      } else {
        var r := Fields(s, sep);
        assert r == [[s[0]] + rest[0]] + rest[1..];
        assert r[1..] == rest[1..];
        assert JoinWith(rest, [sep]) == rest[0] + [sep] + JoinWith(rest[1..], [sep]);
        assert s == [s[0]] + s[1..];
      }
    }
  }

  /** A separator splits the fields of the whole into those of its two sides. */
  lemma {:induction false} FieldsAppend(a: string, sep: char, b: string)
    ensures Fields(a + [sep] + b, sep) == Fields(a, sep) + Fields(b, sep)
  {
    var s := a + [sep] + b;
    FieldsStep(s, sep);
    if |a| == 0 {
      assert s[0] == sep && s[1..] == b;
    } else {
      assert s[0] == a[0] && s[1..] == a[1..] + [sep] + b;
      FieldsAppend(a[1..], sep, b);
      FieldsStep(a, sep);
      ConsFields(a[0], sep, Fields(a[1..], sep), Fields(b, sep));
    }
  }

  /** Putting a character in front of the first of two runs of fields is
      putting it in front of the first field of their concatenation. */
  lemma ConsFields(c: char, sep: char, fa: seq<string>, fb: seq<string>)
    requires |fa| > 0
    ensures (if c == sep then [""] + (fa + fb) else [[c] + (fa + fb)[0]] + (fa + fb)[1..])
      == (if c == sep then [""] + fa else [[c] + fa[0]] + fa[1..]) + fb
  {
    if c != sep {
      assert (fa + fb)[1..] == fa[1..] + fb;
    }
  }

  /** The fields of a non-empty string in terms of its first character and
      the fields of the rest. */
  lemma FieldsStep(s: string, sep: char)
    requires |s| > 0
    ensures Fields(s, sep) ==
      if s[0] == sep then [""] + Fields(s[1..], sep) else [[s[0]] + Fields(s[1..], sep)[0]] + Fields(s[1..], sep)[1..]
  {
  }

  /** A string without the separator is a single field. */
  lemma {:induction false} FieldsOfSeparatorFree(a: string, sep: char)
    requires sep !in a
    ensures Fields(a, sep) == [a]
  {
    if |a| > 0 {
      FieldsOfSeparatorFree(a[1..], sep);
      assert a == [a[0]] + a[1..];
    }
  }

  /** The first field of `a + b` is `a` followed by the first field of `b`
      when `a` holds no separator. */
  lemma {:induction false} FirstFieldAppend(a: string, sep: char, b: string)
    requires sep !in a
    ensures Fields(a + b, sep)[0] == a + Fields(b, sep)[0]
  {
    if |a| > 0 {
      assert (a + b)[1..] == a[1..] + b;
      FirstFieldAppend(a[1..], sep, b);
      assert a == [a[0]] + a[1..];
    } else {
      assert a + b == b;
    }
  }

  /** `String#split` without a limit drops trailing empty fields; this is the
      longest prefix of the fields that does not end with an empty one. */
  function DropTrailingEmpty(xs: seq<string>): (r: seq<string>)
    ensures |r| <= |xs| && r == xs[..|r|]
    ensures |r| > 0 ==> r[|r| - 1] != ""
    ensures forall i :: |r| <= i < |xs| ==> xs[i] == ""
  {
    if |xs| == 0 then []
    else if xs[|xs| - 1] == "" then DropTrailingEmpty(xs[..|xs| - 1])
    else xs
  }

  /** `s.split(sep)`. */
  function Split(s: string, sep: char): (r: seq<string>)
    ensures |r| <= |Fields(s, sep)| && r == Fields(s, sep)[..|r|]
    ensures forall i :: 0 <= i < |r| ==> sep !in r[i]
    ensures |r| > 0 ==> r[|r| - 1] != ""
    ensures forall i :: |r| <= i < |Fields(s, sep)| ==> Fields(s, sep)[i] == ""
  {
    FieldsSeparatorFree(s, sep);
    DropTrailingEmpty(Fields(s, sep))
  }

  /** `xs.index(x)`: the first position of `x`, or `nil`. */
  function IndexOf(xs: seq<string>, x: string): (r: Option<nat>)
    ensures r.Some? ==> r.value < |xs| && xs[r.value] == x && x !in xs[..r.value]
    ensures r.None? ==> x !in xs
  {
    if |xs| == 0 then None
    else if xs[0] == x then Some(0)
    else
      match IndexOf(xs[1..], x)
      case None => None
      case Some(k) =>
        assert xs[..k + 1] == [xs[0]] + xs[1..][..k];
        Some(k + 1)
  }

  /** `s` without its trailing `/` characters. */
  function ChompSeparators(s: string): (r: string)
    ensures |r| <= |s| && r == s[..|r|]
    ensures |r| == 0 || r[|r| - 1] != '/'
    ensures forall i :: |r| <= i < |s| ==> s[i] == '/'
  {
    if |s| > 0 && s[|s| - 1] == '/' then ChompSeparators(s[..|s| - 1]) else s
  }

  /** One step of `File.join`: a part that starts with `/` replaces the
      trailing separators of what came before; otherwise a `/` is inserted
      between the two unless what came before already ends in one. */
  function JoinTwo(acc: string, part: string): (r: string)
    ensures |part| <= |r| && r[|r| - |part|..] == part
    ensures |part| > 0 && part[0] == '/' ==> r[..|r| - |part|] == ChompSeparators(acc)
    ensures !(|part| > 0 && part[0] == '/') ==>
      |acc| <= |r| - |part| <= |acc| + 1 && 0 < |r| - |part| && r[..|acc|] == acc && r[|r| - |part| - 1] == '/'
    ensures !(|part| > 0 && part[0] == '/') ==>
      (|r| - |part| == |acc| <==> |acc| > 0 && acc[|acc| - 1] == '/')
  {
    if |part| > 0 && part[0] == '/' then ChompSeparators(acc) + part
    else if |acc| > 0 && acc[|acc| - 1] == '/' then acc + part
    else acc + "/" + part
  }

  /** `File.join(*parts)`. */
  function FileJoin(parts: seq<string>): (r: string)
    ensures |parts| == 0 ==> r == ""
    ensures |parts| > 0 ==> |parts[|parts| - 1]| <= |r| && r[|r| - |parts[|parts| - 1]|..] == parts[|parts| - 1]
  {
    if |parts| == 0 then ""
    else if |parts| == 1 then parts[0]
    else JoinTwo(FileJoin(parts[..|parts| - 1]), parts[|parts| - 1])
  }

  /** Appending one element to a joined list adds the separator and it. */
  lemma {:induction false} JoinWithSnoc(xs: seq<string>, y: string, sep: string)
    requires |xs| > 0
    ensures JoinWith(xs + [y], sep) == JoinWith(xs, sep) + sep + y
  {
    if |xs| > 1 {
      assert (xs + [y])[1..] == xs[1..] + [y];
      JoinWithSnoc(xs[1..], y, sep);
    }
  }

  /** Joining a path that does not end with `/` and a non-empty component
      without `/` puts exactly one `/` between them. */
  lemma JoinComponent(acc: string, part: string)
    requires |acc| == 0 || acc[|acc| - 1] != '/'
    requires part != [] && '/' !in part
    ensures JoinTwo(acc, part) == acc + "/" + part
    ensures JoinTwo(acc, part)[|JoinTwo(acc, part)| - 1] != '/'
  {
    assert part[0] in part && part[|part| - 1] in part;
  }

  /** Path components with no `/` and no empty component after the first
      are joined by `File.join` exactly as by `join("/")`, and the result
      does not end with `/`. */
  lemma {:induction false} FileJoinOfComponents(parts: seq<string>)
    requires forall i :: 0 <= i < |parts| ==> '/' !in parts[i]
    requires forall i :: 1 <= i < |parts| ==> parts[i] != ""
    ensures FileJoin(parts) == JoinWith(parts, "/")
    ensures |FileJoin(parts)| > 0 ==> FileJoin(parts)[|FileJoin(parts)| - 1] != '/'
  {
    if |parts| > 1 {
      var init, last := parts[..|parts| - 1], parts[|parts| - 1];
      var acc := FileJoin(init);
      assert acc == JoinWith(init, "/") && (|acc| == 0 || acc[|acc| - 1] != '/') by {
        assert forall i :: 0 <= i < |init| ==> init[i] == parts[i];
        FileJoinOfComponents(init);
      }
      assert FileJoin(parts) == JoinTwo(acc, last);
      JoinComponent(acc, last);
      assert JoinWith(parts, "/") == acc + "/" + last by {
        assert init + [last] == parts;
        JoinWithSnoc(init, last, "/");
      }
    } else if |parts| == 1 {
      var j := FileJoin(parts);
      assert j == parts[0];
      if |j| > 0 {
        assert j[|j| - 1] in parts[0];
      }
    }
  }
}
