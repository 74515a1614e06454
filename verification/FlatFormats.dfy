/** Formats whose braces do not nest: there every order of the replacements is the same as
    replacing all placeholders at once. */
module FlatFormats {
  import opened Template

  /** Position of the first closing brace after the first character, or the length. */
  function Close(s: string): (i: nat)
    requires s != ""
    ensures 1 <= i <= |s|
    ensures (forall j | 1 <= j < i :: s[j] != '}') && (i < |s| ==> s[i] == '}')
  {
    if |s| == 1 || s[1] == '}' then 1
    else
      var i := 1 + Close(s[1..]);
      assert forall j | 1 < j < i :: s[j] == s[1..][j - 1];
      i
  }

  /** No brace opens inside an open one. */
  predicate Flat(s: string) {
    s == "" || ((s[0] == '{' ==> '{' !in s[1..Close(s)]) && Flat(s[1..]))
  }

  /** All placeholders replaced in one pass. */
  function OnePass(values: map<string, string>, s: string): string
    decreases |s|
  {
    if s == "" then ""
    else if s[0] == '{' && Close(s) < |s| && s[1..Close(s)] in values then
      values[s[1..Close(s)]] + OnePass(values, s[Close(s) + 1..])
    else [s[0]] + OnePass(values, s[1..])
  }

  lemma {:induction false} OnePassPlain(values: map<string, string>, p: string, x: string)
    requires '{' !in p
    ensures OnePass(values, p + x) == p + OnePass(values, x)
  {
    if p == "" {
      assert p + x == x;
    } else {
      assert (p + x)[1..] == p[1..] + x;
      OnePassPlain(values, p[1..], x);
    }
  }

  lemma {:induction false} ReplacePlain(p: string, x: string, k: string, v: string)
    requires '{' !in p
    ensures ReplaceAll(p + x, Placeholder(k), v) == p + ReplaceAll(x, Placeholder(k), v)
  {
    if p == "" {
      assert p + x == x;
    } else {
      assert (p + x)[1..] == p[1..] + x;
      ReplacePlain(p[1..], x, k, v);
      assert Placeholder(k)[0] == '{';
    }
  }

  lemma {:induction false} ReplaceUnclosed(s: string, k: string, v: string)
    requires '}' !in s
    ensures ReplaceAll(s, Placeholder(k), v) == s
  {
    var pat := Placeholder(k);
    if |s| >= |pat| {
      assert s[..|pat|] != pat by { assert pat[|pat| - 1] == '}'; }
      ReplaceUnclosed(s[1..], k, v);
    }
  }

  lemma {:induction false} FlatDrop(s: string, n: nat)
    requires Flat(s) && n <= |s|
    ensures Flat(s[n..])
  {
    if n > 0 {
      FlatDrop(s[1..], n - 1);
      assert s[n..] == s[1..][n - 1..];
    }
  }

  lemma {:induction false} CloseIs(c: char, content: string, rest: string)
    requires '}' !in content
    ensures Close([c] + content + "}" + rest) == 1 + |content|
    decreases |content|
  {
    var s := [c] + content + "}" + rest;
    if content != "" {
      CloseIs(content[0], content[1..], rest);
      assert s[1..] == [content[0]] + content[1..] + "}" + rest;
    }
  }

  /** A closed brace pair is a placeholder for `k` only if `k` is its content. */
  lemma SameContent(content: string, rest: string, k: string)
    requires NoBraces(content) && NoBraces(k)
    requires |"{" + content + "}" + rest| >= |Placeholder(k)|
    requires ("{" + content + "}" + rest)[..|Placeholder(k)|] == Placeholder(k)
    ensures content == k
  {
    var s := "{" + content + "}" + rest;
    CloseIs('{', content, rest);
    assert s == "{" + k + "}" + s[|k| + 2..];
    CloseIs('{', k, s[|k| + 2..]);
    assert content == s[1..1 + |content|];
    assert k == s[1..1 + |k|];
  }

  /** Replacing one more key after a pass is a pass with one more key. */
  lemma {:induction false} PassThenReplace(values: map<string, string>, s: string, k: string, v: string)
    requires Clean(values) && NoBraces(k) && NoBraces(v) && k !in values && Flat(s)
    ensures ReplaceAll(OnePass(values, s), Placeholder(k), v) == OnePass(values[k := v], s)
    decreases |s|
  {
    var pat := Placeholder(k);
    if s == "" {
    } else if s[0] != '{' {
      PassThenReplace(values, s[1..], k, v);
      ReplacePlain([s[0]], OnePass(values, s[1..]), k, v);
    } else if Close(s) == |s| {
      OpenEnded(values, s, k, v);
    } else {
      var content, rest := s[1..Close(s)], s[Close(s) + 1..];
      FlatDrop(s, Close(s) + 1);
      PassThenReplace(values, rest, k, v);
      assert s == "{" + content + "}" + rest;
      PassPair(values, content, rest);
      PassPair(values[k := v], content, rest);
      if content in values {
        ReplacePlain(values[content], OnePass(values, rest), k, v);
      } else {
        PairThenReplace(content, OnePass(values, rest), k, v);
      }
    }
  }

  /** One pass over a closed brace pair without inner braces. */
  lemma PassPair(values: map<string, string>, content: string, rest: string)
    requires NoBraces(content)
    ensures OnePass(values, "{" + content + "}" + rest)
         == (if content in values then values[content] else "{" + content + "}") + OnePass(values, rest)
  {
    hide OnePass, Close;
    var s := "{" + content + "}" + rest;
    CloseIs('{', content, rest);
    PassAt(values, s, content, rest);
    if content !in values {
      assert s[1..] == (content + "}") + rest;
      OnePassPlain(values, content + "}", rest);
    }
  }

  lemma PassAt(values: map<string, string>, s: string, content: string, rest: string)
    requires s == "{" + content + "}" + rest && Close(s) == 1 + |content|
    ensures OnePass(values, s) == if content in values then values[content] + OnePass(values, rest)
                                  else "{" + OnePass(values, s[1..])
  {
    assert s[1..Close(s)] == content && s[Close(s) + 1..] == rest;
  }

  lemma OpenEnded(values: map<string, string>, s: string, k: string, v: string)
    requires s != "" && s[0] == '{' && Flat(s) && Close(s) == |s|
    ensures ReplaceAll(OnePass(values, s), Placeholder(k), v) == OnePass(values[k := v], s)
  {
    assert s[1..] + "" == s[1..];
    OnePassPlain(values, s[1..], "");
    OnePassPlain(values[k := v], s[1..], "");
    assert OnePass(values, s) == s == OnePass(values[k := v], s);
    ReplaceUnclosed(s, k, v);
  }

  lemma PairThenReplace(content: string, x: string, k: string, v: string)
    requires NoBraces(content) && NoBraces(k)
    ensures var pat := Placeholder(k);
            ReplaceAll("{" + content + "}" + x, pat, v)
            == (if content == k then v else "{" + content + "}") + ReplaceAll(x, pat, v)
  {
    var pat, s := Placeholder(k), "{" + content + "}" + x;
    if content == k {
      assert s[..|pat|] == pat && s[|pat|..] == x;
    } else {
      if |s| >= |pat| && s[..|pat|] == pat { SameContent(content, x, k); }
      assert s[1..] == (content + "}") + x;
      ReplacePlain(content + "}", x, k, v);
    }
  }

  function Restrict(values: map<string, string>, order: seq<string>): map<string, string>
    requires forall k | k in order :: k in values
  {
    map k | k in order :: values[k]
  }

  lemma {:induction false} OrderIsOnePass(values: map<string, string>, format: string, order: seq<string>)
    requires Clean(values) && (forall k | k in order :: k in values)
    requires Flat(format) && forall i, j | 0 <= i < j < |order| :: order[i] != order[j]
    ensures ReplaceInOrder(values, format, order) == OnePass(Restrict(values, order), format)
  {
    if order == [] {
      NothingToReplace(Restrict(values, order), format);
    } else {
      var init, k := order[..|order| - 1], order[|order| - 1];
      assert order == init + [k];
      OrderIsOnePass(values, format, init);
      PassThenReplace(Restrict(values, init), format, k, values[k]);
      assert Restrict(values, init)[k := values[k]] == Restrict(values, order);
    }
  }

  lemma {:induction false} NothingToReplace(values: map<string, string>, s: string)
    requires values == map[]
    ensures OnePass(values, s) == s
  {
    if s != "" { NothingToReplace(values, s[1..]); }
  }

  /** For a flat format every order in which the map may be walked gives the simultaneous
      substitution, braces of unknown placeholders and all. */
  lemma FlatOrderIsSimultaneous(values: map<string, string>, format: string, order: seq<string>)
    requires Clean(values) && Flat(format)
    requires forall i, j | 0 <= i < j < |order| :: order[i] != order[j]
    requires forall k :: k in order <==> k in values
    ensures ReplaceInOrder(values, format, order) == OnePass(values, format)
  {
    OrderIsOnePass(values, format, order);
    assert Restrict(values, order) == values;
  }

  lemma {:induction false} FlatPlain(p: string, x: string)
    requires '{' !in p && Flat(x)
    ensures Flat(p + x)
  {
    if p == "" {
      assert p + x == x;
    } else {
      assert (p + x)[1..] == p[1..] + x;
      FlatPlain(p[1..], x);
    }
  }

  lemma FlatPair(content: string, x: string)
    requires NoBraces(content) && Flat(x)
    ensures Flat(Placeholder(content) + x)
  {
    hide Close;
    var s := "{" + content + "}" + x;
    assert s == Placeholder(content) + x;
    CloseIs('{', content, x);
    assert s[1..Close(s)] == content && s[1..] == (content + "}") + x;
    FlatPlain(content + "}", x);
  }
}
