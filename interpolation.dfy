/** `argValue` and `interpolateQuery`: replacing `{{ args.name }}` placeholders in a
    query or condition template with the values of the analysis run's arguments. */
module Interpolation {
  import opened Wrappers
  import opened JsText

  /** A name/value argument of the analysis run; the value may be missing. */
  datatype Arg = Arg(name: string, value: Option<string>)

  /** `argValue`: the value of the FIRST argument with the given name; `None` when no
      argument has that name or the first one has no value. */
  function ArgValue(args: seq<Arg>, name: string): (r: Option<string>)
    ensures r.Some? ==> exists i :: 0 <= i < |args| && args[i].name == name && args[i].value == r
    ensures (forall i :: 0 <= i < |args| ==> args[i].name != name) ==> r == None
  {
    if args == [] then None
    else if args[0].name == name then args[0].value
    else ArgValue(args[1..], name)
  }

  /** The first argument carrying a name decides its value, whatever later ones say. */
  lemma {:induction false} ArgValueFirstWins(args: seq<Arg>, i: nat)
    requires i < |args|
    requires forall j :: 0 <= j < i ==> args[j].name != args[i].name
    ensures ArgValue(args, args[i].name) == args[i].value
  {
    if i > 0 {
      ArgValueFirstWins(args[1..], i - 1);
    }
  }

  predicate LineEndBetween(s: string, j: nat, k: nat)
    requires k <= |s|
  {
    exists m :: j <= m < k && IsLineTerminator(s[m])
  }

  /** The closing `}}` of the regular expression `\{{.*?\}}` whose opening `{{` ends just
      before position `j`: the leftmost `}}` at or after `j` with no line terminator
      before it (the lazy `.*?` takes the shortest match, and `.` refuses line ends). */
  function CloseAt(s: string, j: nat): (r: Option<nat>)
    requires j <= |s|
    decreases |s| - j
    ensures r.Some? ==> j <= r.value && r.value + 2 <= |s| && s[r.value] == '}' && s[r.value + 1] == '}'
    ensures r.Some? ==> forall k :: j <= k < r.value ==> !IsLineTerminator(s[k]) && !(s[k] == '}' && s[k + 1] == '}')
    ensures r.None? ==> forall k :: j <= k < |s| - 1 && s[k] == '}' && s[k + 1] == '}' ==> LineEndBetween(s, j, k)
  {
    if j + 2 > |s| then None
    else if s[j] == '}' && s[j + 1] == '}' then Some(j)
    else if IsLineTerminator(s[j]) then None
    else CloseAt(s, j + 1)
  }

  /** `match.replace(/[{{ }}]/g, '')`: the placeholder without its braces and spaces. */
  function Strip(m: string): (r: string)
    ensures forall i :: 0 <= i < |r| ==> r[i] != '{' && r[i] != '}' && r[i] != ' '
  {
    if m == [] then []
    else (if m[0] == '{' || m[0] == '}' || m[0] == ' ' then [] else [m[0]]) + Strip(m[1..])
  }

  /** The argument name a placeholder asks for: the second `.`-separated segment of the
      stripped text (the first one, normally `args`, is not checked), or `""`. */
  function PlaceholderName(m: string): string {
    var pieces := Split(Strip(m), '.');
    if |pieces| > 1 then pieces[1] else ""
  }

  /** What a matched placeholder becomes: the argument's value, or itself. */
  function Replacement(m: string, args: seq<Arg>): string {
    ArgValue(args, PlaceholderName(m)).GetOr(m)
  }

  /** `query.replace(/\{{.*?\}}/g, ...)`: a left-to-right scan replacing each match;
      text without a `{` holds no match and is copied unchanged. */
  function Subst(s: string, args: seq<Arg>): (r: string)
    ensures '{' !in s ==> r == s
    decreases |s|
  {
    if |s| < 2 then s
    else if s[0] == '{' && s[1] == '{' then
      match CloseAt(s, 2)
      case Some(k) => Replacement(s[..k + 2], args) + Subst(s[k + 2..], args)
      case None => [s[0]] + Subst(s[1..], args)
    else [s[0]] + Subst(s[1..], args)
  }

  /** `interpolateQuery` */
  function Interpolate(query: Option<string>, args: Option<seq<Arg>>): (r: Option<string>)
    ensures r.Some? <==> query.Some?
    ensures args.None? || args == Some([]) ==> r == query
  {
    if query.None? then None
    else if args.None? || args.value == [] then query
    else Some(Subst(query.value, args.value))
  }

  predicate HasOpening(s: string) {
    exists i :: 0 <= i < |s| - 1 && s[i] == '{' && s[i + 1] == '{'
  }

  /** A template without `{{` comes back unchanged. */
  lemma {:induction false} SubstWithoutPlaceholders(s: string, args: seq<Arg>)
    requires !HasOpening(s)
    ensures Subst(s, args) == s
  {
    if |s| >= 2 {
      forall i | 0 <= i < |s[1..]| - 1
        ensures !(s[1..][i] == '{' && s[1..][i + 1] == '{')
      {
        assert s[1..][i] == s[i + 1] && s[1..][i + 1] == s[i + 2];
      }
      SubstWithoutPlaceholders(s[1..], args);
      assert [s[0]] + s[1..] == s;
    }
  }

  /** One step of the scan: a match `s[..k]` replaced when `k > 0`, otherwise the first
      character copied. */
  lemma SubstStep(s: string, args: seq<Arg>) returns (k: nat)
    requires |s| >= 2
    ensures k <= |s|
    ensures k > 0 ==> Subst(s, args) == Replacement(s[..k], args) + Subst(s[k..], args)
    ensures k == 0 ==> Subst(s, args) == s[..1] + Subst(s[1..], args)
  {
    if s[0] == '{' && s[1] == '{' && CloseAt(s, 2).Some? {
      k := CloseAt(s, 2).value + 2;
    } else {
      k := 0;
      assert s[..1] == [s[0]];
    }
  }

  lemma ReplacementWithoutValues(m: string, args: seq<Arg>)
    requires forall i :: 0 <= i < |args| ==> args[i].value == None
    ensures Replacement(m, args) == m
  {
  }

  /** When no argument has a value, every placeholder is kept verbatim. */
  lemma {:induction false} SubstWithoutValues(s: string, args: seq<Arg>)
    requires forall i :: 0 <= i < |args| ==> args[i].value == None
    ensures Subst(s, args) == s
  {
    if |s| >= 2 {
      var k := SubstStep(s, args);
      if k > 0 {
        ReplacementWithoutValues(s[..k], args);
      }
      SubstWithoutValues(s[if k > 0 then k else 1..], args);
      assert s[..if k > 0 then k else 1] + s[if k > 0 then k else 1..] == s;
    }
  }

  /** Text without `{` is copied through before the rest is scanned. */
  lemma {:induction false} SubstPlainPrefix(p: string, rest: string, args: seq<Arg>)
    requires '{' !in p
    ensures Subst(p + rest, args) == p + Subst(rest, args)
  {
    if p == [] {
      assert p + rest == rest;
    } else {
      var tail := p[1..] + rest;
      assert Subst(p + rest, args) == [p[0]] + Subst(tail, args) by {
        assert p + rest == [p[0]] + tail;
        SubstSkip(p[0], tail, args);
      }
      SubstPlainPrefix(p[1..], rest, args);
      ConsAppend(p, Subst(rest, args));
    }
  }

  lemma ConsAppend(p: string, t: string)
    requires p != []
    ensures [p[0]] + (p[1..] + t) == p + t
  {
    assert [p[0]] + p[1..] == p;
  }

  /** A first character other than `{` is copied through. */
  lemma SubstSkip(c: char, tail: string, args: seq<Arg>)
    requires c != '{'
    ensures Subst([c] + tail, args) == [c] + Subst(tail, args)
  {
    var s := [c] + tail;
    assert s[1..] == tail;
    if |s| < 2 {
      assert tail == [];
    }
  }

  lemma {:induction false} CloseAtFirst(s: string, j: nat, k: nat)
    requires j <= k && k + 2 <= |s| && s[k] == '}' && s[k + 1] == '}'
    requires forall m :: j <= m < k ==> s[m] != '}' && !IsLineTerminator(s[m])
    ensures CloseAt(s, j) == Some(k)
    decreases k - j
  {
    if j < k {
      CloseAtFirst(s, j + 1, k);
    }
  }

  /** A placeholder whose inside has no `}` and no line end is one match of the scan. */
  lemma SubstPlaceholder(inner: string, rest: string, args: seq<Arg>)
    requires forall i :: 0 <= i < |inner| ==> inner[i] != '}' && !IsLineTerminator(inner[i])
    ensures Subst("{{" + inner + "}}" + rest, args) == Replacement("{{" + inner + "}}", args) + Subst(rest, args)
  {
    var m := "{{" + inner + "}}";
    var s := m + rest;
    CloseAtFirst(s, 2, |inner| + 2);
    assert s[..|inner| + 4] == m;
    assert s[|inner| + 4..] == rest;
  }

  lemma {:induction false} StripConcat(a: string, b: string)
    ensures Strip(a + b) == Strip(a) + Strip(b)
  {
    if a != [] {
      StripConcat(a[1..], b);
      assert (a + b)[0] == a[0] && (a + b)[1..] == a[1..] + b;
    } else {
      assert a + b == b;
    }
  }

  lemma {:induction false} StripClean(a: string)
    requires forall i :: 0 <= i < |a| ==> a[i] != '{' && a[i] != '}' && a[i] != ' '
    ensures Strip(a) == a
  {
    if a != [] {
      StripClean(a[1..]);
      assert [a[0]] + a[1..] == a;
    }
  }

  /** Spells a placeholder the way conditions and queries write one. */
  function ArgPlaceholder(name: string): string {
    "{{ args." + name + " }}"
  }

  predicate PlainName(name: string) {
    forall i :: 0 <= i < |name| ==>
      name[i] != '.' && name[i] != '{' && name[i] != '}' && name[i] != ' ' && !IsLineTerminator(name[i])
  }

  lemma {:induction false} StripNoise(a: string)
    requires forall i :: 0 <= i < |a| ==> a[i] == '{' || a[i] == '}' || a[i] == ' '
    ensures Strip(a) == []
  {
    if a != [] {
      StripNoise(a[1..]);
    }
  }

  /** Stripping removes a frame of braces and spaces around clean text. */
  lemma StripFramed(open: string, path: string, close: string)
    requires forall i :: 0 <= i < |open| ==> open[i] == '{' || open[i] == '}' || open[i] == ' '
    requires forall i :: 0 <= i < |close| ==> close[i] == '{' || close[i] == '}' || close[i] == ' '
    requires forall i :: 0 <= i < |path| ==> path[i] != '{' && path[i] != '}' && path[i] != ' '
    ensures Strip(open + (path + close)) == path
  {
    StripNoise(open);
    StripNoise(close);
    StripClean(path);
    StripConcat(open, path + close);
    StripConcat(path, close);
  }

  lemma StripPlaceholder(name: string)
    requires PlainName(name)
    ensures Strip(ArgPlaceholder(name)) == "args." + name
  {
    var path := "args." + name;
    var open, close := "{{ ", " }}";
    assert ArgPlaceholder(name) == open + (path + close);
    assert forall i :: 0 <= i < |path| ==> path[i] != '{' && path[i] != '}' && path[i] != ' ' by {
      forall i | 0 <= i < |path|
        ensures path[i] != '{' && path[i] != '}' && path[i] != ' '
      {
        if i >= 5 {
          assert path[i] == name[i - 5];
        }
      }
    }
    StripFramed(open, path, close);
  }

  lemma SplitPath(name: string)
    requires '.' !in name
    ensures Split("args." + name, '.') == ["args", name]
  {
    assert "args." + name == "args" + ['.'] + name;
    SplitPrefix("args", name, '.');
    SplitFree(name, '.');
  }

  lemma PlaceholderNameOf(name: string)
    requires PlainName(name)
    ensures PlaceholderName(ArgPlaceholder(name)) == name
  {
    StripPlaceholder(name);
    assert '.' !in name by {
      assert forall i :: 0 <= i < |name| ==> name[i] != '.';
    }
    SplitPath(name);
  }

  /** `{{ args.name }}` in a template becomes the value of the first argument called
      `name`, or stays as it is when that argument is missing or has no value; the text
      before it (free of `{`) is copied through. */
  lemma InterpolateOnePlaceholder(before: string, name: string, after: string, args: seq<Arg>)
    requires '{' !in before
    requires PlainName(name)
    requires args != []
    ensures Interpolate(Some(before + ArgPlaceholder(name) + after), Some(args)) ==
            Some(before + ArgValue(args, name).GetOr(ArgPlaceholder(name)) + Subst(after, args))
  {
    var ph := ArgPlaceholder(name);
    var x := ArgValue(args, name).GetOr(ph);
    assert before + ph + after == before + (ph + after);
    SubstPlainPrefix(before, ph + after, args);
    SubstArgPlaceholder(name, after, args);
    assert before + (x + Subst(after, args)) == before + x + Subst(after, args);
  }

  /** A placeholder `{{ args.name }}` at the start is replaced by the argument's value,
      or kept, and the scan continues after it. */
  lemma SubstArgPlaceholder(name: string, after: string, args: seq<Arg>)
    requires PlainName(name)
    ensures Subst(ArgPlaceholder(name) + after, args) == ArgValue(args, name).GetOr(ArgPlaceholder(name)) + Subst(after, args)
  {
    var inner := " args." + name + " ";
    assert forall i :: 0 <= i < |inner| ==> inner[i] != '}' && !IsLineTerminator(inner[i]) by {
      forall i | 0 <= i < |inner|
        ensures inner[i] != '}' && !IsLineTerminator(inner[i])
      {
        if 6 <= i < 6 + |name| {
          assert inner[i] == name[i - 6];
        }
      }
    }
    assert ArgPlaceholder(name) == "{{" + inner + "}}";
    SubstPlaceholder(inner, after, args);
    PlaceholderNameOf(name);
  }
}
