/** Image name templates. The renderer replaces the placeholders one after the other in the
    random order of a Go map, so a replacement may build a new placeholder for a later one,
    or too late for an earlier one. What all orders share is a meaning of the format. */
module Template {
  predicate NoBraces(s: string) {
    '{' !in s && '}' !in s
  }

  function Placeholder(key: string): string {
    "{" + key + "}"
  }

  /** strings.ReplaceAll for a non-empty pattern. */
  function ReplaceAll(s: string, pat: string, value: string): string
    requires pat != ""
  {
    if |s| < |pat| then s
    else if s[..|pat|] == pat then value + ReplaceAll(s[|pat|..], pat, value)
    else [s[0]] + ReplaceAll(s[1..], pat, value)
  }

  predicate OccursAt(s: string, t: string, i: int) {
    0 <= i <= |s| - |t| && s[i..i + |t|] == t
  }

  ghost predicate Contains(s: string, t: string) {
    exists i :: OccursAt(s, t, i)
  }

  /** Keys and values without braces: what reference parsing yields. */
  ghost predicate Clean(values: map<string, string>) {
    forall k | k in values :: NoBraces(k) && NoBraces(values[k])
  }

  /** The loop of the renderer, over the keys in the order given. */
  function ReplaceInOrder(values: map<string, string>, format: string, order: seq<string>): string
    requires forall k | k in order :: k in values
  {
    if order == [] then format
    else
      var k := order[|order| - 1];
      ReplaceAll(ReplaceInOrder(values, format, order[..|order| - 1]), Placeholder(k), values[k])
  }

  // ---------- The meaning of a format ----------

  /** One character of a format, on a stack of the texts since each open brace. */
  function Push(values: map<string, string>, fs: seq<string>, c: char): (r: seq<string>)
    requires fs != []
    ensures r != []
  {
    var n := |fs| - 1;
    if c == '{' then fs + [""]
    else if c == '}' && n > 0 then
      fs[..n - 1] + [fs[n - 1] + if fs[n] in values then values[fs[n]] else Placeholder(fs[n])]
    else fs[n := fs[n] + [c]]
  }

  function Scan(values: map<string, string>, fs: seq<string>, s: string): (r: seq<string>)
    requires fs != []
    ensures r != []
    decreases |s|
  {
    if s == "" then fs else Scan(values, Push(values, fs, s[0]), s[1..])
  }

  function Text(fs: seq<string>): string
    requires fs != []
  {
    if |fs| == 1 then fs[0] else Text(fs[..|fs| - 1]) + "{" + fs[|fs| - 1]
  }

  /** The format with every placeholder replaced, inner ones first. */
  function Meaning(values: map<string, string>, s: string): string {
    Text(Scan(values, [""], s))
  }

  lemma {:induction false} ScanConcat(values: map<string, string>, fs: seq<string>, a: string, b: string)
    requires fs != []
    ensures Scan(values, fs, a + b) == Scan(values, Scan(values, fs, a), b)
    decreases |a|
  {
    if a == "" {
      assert a + b == b;
    } else {
      assert (a + b)[1..] == a[1..] + b;
      ScanConcat(values, Push(values, fs, a[0]), a[1..], b);
    }
  }

  lemma {:induction false} ScanPlain(values: map<string, string>, fs: seq<string>, s: string)
    requires fs != [] && NoBraces(s)
    ensures Scan(values, fs, s) == fs[|fs| - 1 := fs[|fs| - 1] + s]
    decreases |s|
  {
    if s == "" {
      assert fs[|fs| - 1] + s == fs[|fs| - 1];
    } else {
      ScanPlain(values, Push(values, fs, s[0]), s[1..]);
      assert fs[|fs| - 1] + [s[0]] + s[1..] == fs[|fs| - 1] + s;
    }
  }

  /** The scanner cannot tell a placeholder from its value. */
  lemma ScanPlaceholder(values: map<string, string>, fs: seq<string>, k: string)
    requires fs != [] && Clean(values) && k in values
    ensures Scan(values, fs, Placeholder(k)) == Scan(values, fs, values[k])
  {
    var open := fs + [""];
    assert Push(values, fs, '{') == open;
    assert Placeholder(k) == "{" + (k + "}");
    ScanConcat(values, open, k, "}");
    ScanPlain(values, open, k);
    assert "" + k == k;
    assert Scan(values, open, k) == fs + [k];
    ScanPlain(values, fs, values[k]);
    assert Push(values, fs + [k], '}') == fs[|fs| - 1 := fs[|fs| - 1] + values[k]];
    assert "}"[1..] == "";
  }

  /** ReplaceAll of one placeholder, at however many places, keeps the meaning. */
  lemma {:induction false} ReplaceKeepsScan(values: map<string, string>, fs: seq<string>, s: string, k: string)
    requires fs != [] && Clean(values) && k in values
    ensures Scan(values, fs, ReplaceAll(s, Placeholder(k), values[k])) == Scan(values, fs, s)
    decreases |s|
  {
    var pat := Placeholder(k);
    if |s| < |pat| {
    } else if s[..|pat|] == pat {
      var rest := s[|pat|..];
      assert s == pat + rest;
      ScanConcat(values, fs, pat, rest);
      ScanConcat(values, fs, values[k], ReplaceAll(rest, pat, values[k]));
      ScanPlaceholder(values, fs, k);
      ReplaceKeepsScan(values, Scan(values, fs, pat), rest, k);
    } else {
      ReplaceKeepsScan(values, Push(values, fs, s[0]), s[1..], k);
      assert ([s[0]] + ReplaceAll(s[1..], pat, values[k]))[1..] == ReplaceAll(s[1..], pat, values[k]);
    }
  }

  lemma {:induction false} OrderKeepsMeaning(values: map<string, string>, format: string, order: seq<string>)
    requires Clean(values) && forall k | k in order :: k in values
    ensures Meaning(values, ReplaceInOrder(values, format, order)) == Meaning(values, format)
  {
    if order != [] {
      var init := order[..|order| - 1];
      OrderKeepsMeaning(values, format, init);
      ReplaceKeepsScan(values, [""], ReplaceInOrder(values, format, init), order[|order| - 1]);
    }
  }

  // ---------- Texts without placeholders mean themselves ----------

  ghost predicate Irreducible(values: map<string, string>, s: string) {
    forall k | k in values :: !Contains(s, Placeholder(k))
  }

  lemma TopIsUnknown(values: map<string, string>, fs: seq<string>, rest: string)
    requires |fs| > 1 && Irreducible(values, Text(fs) + "}" + rest)
    ensures fs[|fs| - 1] !in values
  {
    var top, before := fs[|fs| - 1], Text(fs[..|fs| - 1]);
    assert Text(fs) + "}" == before + Placeholder(top);
    OccursWithin(before, Placeholder(top), rest);
  }

  lemma OccursWithin(a: string, t: string, b: string)
    ensures Contains(a + t + b, t)
  {
    assert OccursAt(a + t + b, t, |a|);
  }

  lemma PushKeepsText(values: map<string, string>, fs: seq<string>, c: char, rest: string)
    requires fs != [] && Irreducible(values, Text(fs) + [c] + rest)
    ensures Text(Push(values, fs, c)) == Text(fs) + [c]
  {
    var n := |fs| - 1;
    if c == '{' {
      assert (fs + [""])[..n + 1] == fs;
    } else if c == '}' && n > 0 {
      var top, under := fs[n], fs[..n];
      assert Text(fs) + [c] == Text(under) + Placeholder(top);
      TopIsUnknown(values, fs, rest);
      var pushed := under[n - 1 := under[n - 1] + Placeholder(top)];
      assert Push(values, fs, c) == pushed;
      LastText(under, Placeholder(top));
    } else {
      LastText(fs, [c]);
    }
  }

  lemma LastText(fs: seq<string>, more: string)
    requires fs != []
    ensures Text(fs[|fs| - 1 := fs[|fs| - 1] + more]) == Text(fs) + more
  {
    var n := |fs| - 1;
    var fs' := fs[n := fs[n] + more];
    if n > 0 {
      assert fs'[..n] == fs[..n];
      assert Text(fs[..n]) + "{" + (fs[n] + more) == Text(fs[..n]) + "{" + fs[n] + more;
    }
  }

  lemma {:induction false} ScanIrreducible(values: map<string, string>, fs: seq<string>, s: string)
    requires fs != [] && Irreducible(values, Text(fs) + s)
    ensures Text(Scan(values, fs, s)) == Text(fs) + s
    decreases |s|
  {
    if s != "" {
      assert Text(fs) + s == Text(fs) + [s[0]] + s[1..];
      PushKeepsText(values, fs, s[0], s[1..]);
      ScanIrreducible(values, Push(values, fs, s[0]), s[1..]);
    } else {
      assert Text(fs) + s == Text(fs);
    }
  }

  // ---------- Texts with a placeholder do not ----------

  function Opens(s: string): nat {
    if s == "" then 0 else (if s[0] == '{' then 1 else 0) + Opens(s[1..])
  }

  lemma {:induction false} OpensConcat(a: string, b: string)
    ensures Opens(a + b) == Opens(a) + Opens(b)
  {
    if a == "" {
      assert a + b == b;
    } else {
      assert (a + b)[1..] == a[1..] + b;
      OpensConcat(a[1..], b);
    }
  }

  lemma {:induction false} OpensPlain(s: string)
    requires NoBraces(s)
    ensures Opens(s) == 0
  {
    if s != "" { OpensPlain(s[1..]); }
  }

  lemma PushOpens(values: map<string, string>, fs: seq<string>, c: char)
    requires fs != [] && Clean(values)
    ensures Opens(Text(Push(values, fs, c))) <= Opens(Text(fs)) + if c == '{' then 1 else 0
  {
    var n := |fs| - 1;
    if c == '{' {
      assert (fs + [""])[..n + 1] == fs;
      OpensConcat(Text(fs), "{");
      assert Text(fs) + "{" + "" == Text(fs) + "{";
    } else if c == '}' && n > 0 {
      var top, under := fs[n], fs[..n];
      var more := if top in values then values[top] else Placeholder(top);
      assert Push(values, fs, c) == under[n - 1 := under[n - 1] + more];
      LastText(under, more);
      OpensConcat(Text(under), more);
      assert Text(fs) == Text(under) + ("{" + top);
      OpensConcat(Text(under), "{" + top);
      if top in values { OpensPlain(values[top]); }
      else {
        assert Placeholder(top) == ("{" + top) + "}";
        OpensConcat("{" + top, "}");
      }
    } else {
      LastText(fs, [c]);
      OpensConcat(Text(fs), [c]);
    }
  }

  lemma {:induction false} ScanOpens(values: map<string, string>, fs: seq<string>, s: string)
    requires fs != [] && Clean(values)
    ensures Opens(Text(Scan(values, fs, s))) <= Opens(Text(fs)) + Opens(s)
    decreases |s|
  {
    if s != "" {
      PushOpens(values, fs, s[0]);
      ScanOpens(values, Push(values, fs, s[0]), s[1..]);
    }
  }

  lemma PlaceholderIsSpent(values: map<string, string>, s: string, k: string)
    requires Clean(values) && k in values && Contains(s, Placeholder(k))
    ensures Meaning(values, s) != s
  {
    var p, v := Placeholder(k), values[k];
    var i :| OccursAt(s, p, i);
    var u, w := s[..i], s[i + |p|..];
    assert s == u + (p + w);
    ScanConcat(values, [""], u, p + w);
    ScanConcat(values, [""], u, v + w);
    var fs := Scan(values, [""], u);
    ScanConcat(values, fs, p, w);
    ScanConcat(values, fs, v, w);
    ScanPlaceholder(values, fs, k);
    assert Meaning(values, s) == Meaning(values, u + (v + w));
    ScanOpens(values, [""], u + (v + w));
    OpensConcat(u, p + w);
    OpensConcat(p, w);
    OpensConcat(u, v + w);
    OpensConcat(v, w);
    OpensPlain(v);
    assert Opens(p) > 0;
  }

  // ---------- Confluence ----------

  /** An order of replacements yields the meaning of the format exactly if it leaves no
      placeholder behind; so any two orders that both leave none agree, for every format,
      however its braces nest. */
  lemma Confluence(values: map<string, string>, format: string, order: seq<string>)
    requires Clean(values) && forall k | k in order :: k in values
    ensures var result := ReplaceInOrder(values, format, order);
            result == Meaning(values, format) <==> Irreducible(values, result)
  {
    var result := ReplaceInOrder(values, format, order);
    OrderKeepsMeaning(values, format, order);
    if Irreducible(values, result) {
      assert "" + result == result;
      ScanIrreducible(values, [""], result);
    } else {
      var k :| k in values && Contains(result, Placeholder(k));
      PlaceholderIsSpent(values, result, k);
    }
  }

  lemma BraceFreeIsIrreducible(values: map<string, string>, s: string)
    requires NoBraces(s)
    ensures Irreducible(values, s)
  {
    forall k, i | k in values ensures !OccursAt(s, Placeholder(k), i) {
      assert Placeholder(k)[0] == '{';
    }
  }

  /** Two orders that both end without braces end in the same text. */
  lemma OrdersAgree(values: map<string, string>, format: string, o1: seq<string>, o2: seq<string>)
    requires Clean(values) && (forall k | k in o1 :: k in values) && forall k | k in o2 :: k in values
    requires NoBraces(ReplaceInOrder(values, format, o1)) && NoBraces(ReplaceInOrder(values, format, o2))
    ensures ReplaceInOrder(values, format, o1) == ReplaceInOrder(values, format, o2)
  {
    Confluence(values, format, o1);
    Confluence(values, format, o2);
    BraceFreeIsIrreducible(values, ReplaceInOrder(values, format, o1));
    BraceFreeIsIrreducible(values, ReplaceInOrder(values, format, o2));
  }
}
