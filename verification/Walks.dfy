/** Which walks over the map finish the job. One scan of the format notes which placeholders
    spell the name of another; a walk yields the meaning of the format exactly if it takes
    the keys in the order this asks for. */
module Walks {
  import A = Api
  import opened Template

  /** Taken during a scan: for each text on the stack the keys resolved in it, the keys
      resolved anywhere, and the pairs (a, b) for which a placeholder named `b` has its name
      from a text in which `a` was resolved. */
  datatype Notes = Notes(kids: seq<set<string>>, keys: set<string>, pairs: set<(string, string)>)

  function Note(values: map<string, string>, fs: seq<string>, n: Notes, c: char): (n': Notes)
    requires fs != [] && |n.kids| == |fs|
    ensures |n'.kids| == |Push(values, fs, c)|
  {
    var m := |fs| - 1;
    if c == '{' then n.(kids := n.kids + [{}])
    else if c == '}' && m > 0 then
      if fs[m] in values then
        Notes(n.kids[..m - 1] + [n.kids[m - 1] + {fs[m]}], n.keys + {fs[m]},
              n.pairs + set a | a in n.kids[m] :: (a, fs[m]))
      else n.(kids := n.kids[..m])
    else n
  }

  function Study(values: map<string, string>, fs: seq<string>, n: Notes, s: string): (n': Notes)
    requires fs != [] && |n.kids| == |fs|
    ensures |n'.kids| == |Scan(values, fs, s)|
    decreases |s|
  {
    if s == "" then n else Study(values, Push(values, fs, s[0]), Note(values, fs, n, s[0]), s[1..])
  }

  const NO_NOTES := Notes([{}], {}, {})

  /** The keys of the placeholders in a format, inner ones evaluated. */
  function Placed(values: map<string, string>, format: string): set<string> {
    Study(values, [""], NO_NOTES, format).keys
  }

  /** The pairs of which the first must be replaced before the second. */
  function Before(values: map<string, string>, format: string): set<(string, string)> {
    Study(values, [""], NO_NOTES, format).pairs
  }

  lemma {:induction false} StudyConcat(values: map<string, string>, fs: seq<string>, n: Notes, a: string, b: string)
    requires fs != [] && |n.kids| == |fs|
    ensures Study(values, fs, n, a + b) == Study(values, Scan(values, fs, a), Study(values, fs, n, a), b)
    decreases |a|
  {
    if a == "" {
      assert a + b == b;
    } else {
      assert (a + b)[1..] == a[1..] + b;
      StudyConcat(values, Push(values, fs, a[0]), Note(values, fs, n, a[0]), a[1..], b);
    }
  }

  lemma {:induction false} StudyPlain(values: map<string, string>, fs: seq<string>, n: Notes, s: string)
    requires fs != [] && |n.kids| == |fs| && NoBraces(s)
    ensures Study(values, fs, n, s) == n
    decreases |s|
  {
    if s != "" { StudyPlain(values, Push(values, fs, s[0]), n, s[1..]); }
  }

  function Resolved(n: Notes, k: string): Notes
    requires n.kids != []
  {
    var m := |n.kids| - 1;
    n.(kids := n.kids[m := n.kids[m] + {k}], keys := n.keys + {k})
  }

  lemma StudyPlaceholder(values: map<string, string>, fs: seq<string>, n: Notes, k: string)
    requires fs != [] && |n.kids| == |fs| && Clean(values) && k in values
    ensures Study(values, fs, n, Placeholder(k)) == Resolved(n, k)
  {
    var open, more := fs + [""], n.(kids := n.kids + [{}]);
    assert Push(values, fs, '{') == open && Note(values, fs, n, '{') == more;
    assert Placeholder(k) == "{" + (k + "}");
    assert Study(values, fs, n, Placeholder(k)) == Study(values, open, more, k + "}");
    StudyConcat(values, open, more, k, "}");
    StudyPlain(values, open, more, k);
    ScanPlain(values, open, k);
    assert "" + k == k;
    assert open[|open| - 1 := k] == fs + [k];
    CloseKey(values, fs, n, k);
  }

  lemma CloseKey(values: map<string, string>, fs: seq<string>, n: Notes, k: string)
    requires fs != [] && |n.kids| == |fs| && k in values
    ensures Study(values, fs + [k], n.(kids := n.kids + [{}]), "}") == Resolved(n, k)
  {
    var more := n.(kids := n.kids + [{}]);
    var m := |n.kids| - 1;
    assert "}"[1..] == "";
    assert more.kids[..m] + [more.kids[m] + {k}] == n.kids[m := n.kids[m] + {k}];
    assert (set a | a in more.kids[m + 1] :: (a, k)) == {};
  }

  // ---------- What one replacement does ----------

  /** How the notes of a text change when `k` is replaced in it: only `k` goes, and it stays
      exactly where its name was still being spelled. */
  ghost predicate Spent(k: string, n: Notes, n': Notes) {
    && |n.kids| == |n'.kids|
    && (forall i | 0 <= i < |n.kids| :: n'.kids[i] <= n.kids[i] <= n'.kids[i] + {k})
    && n'.keys <= n.keys <= n'.keys + {k}
    && n'.pairs <= n.pairs
    && (forall a, b | (a, b) in n.pairs && a != k :: (a, b) in n'.pairs)
    && (k in n'.keys <==> exists a :: (a, k) in n.pairs)
  }

  predicate Starts(s: string, t: string) {
    |t| <= |s| && s[..|t|] == t
  }

  /** What has been read since the last open brace is not the beginning of a literal `k`
      with its closing brace. */
  ghost predicate Unmatched(fs: seq<string>, n: Notes, s: string, k: string)
    requires fs != [] && |n.kids| == |fs|
  {
    var m := |fs| - 1;
    m > 0 && n.kids[m] == {} && NoBraces(fs[m]) ==> !Starts(fs[m] + s, k + "}")
  }

  lemma OpenSpent(values: map<string, string>, fs: seq<string>, n: Notes, n': Notes, rest: string, k: string)
    requires fs != [] && |n.kids| == |fs| && Spent(k, n, n')
    requires !Starts("{" + rest, Placeholder(k))
    ensures Spent(k, Note(values, fs, n, '{'), Note(values, fs, n', '{'))
    ensures Unmatched(Push(values, fs, '{'), Note(values, fs, n, '{'), rest, k)
  {
    assert "" + rest == rest;
    BehindBrace(rest, k);
  }

  lemma BehindBrace(rest: string, k: string)
    ensures Starts(rest, k + "}") ==> Starts("{" + rest, Placeholder(k))
  {
    if Starts(rest, k + "}") {
      assert ("{" + rest)[..|k| + 2] == "{" + rest[..|k| + 1];
    }
  }

  lemma CloseSpent(values: map<string, string>, fs: seq<string>, n: Notes, n': Notes, rest: string, k: string)
    requires |fs| > 1 && |n.kids| == |fs| && Spent(k, n, n') && Clean(values) && k in values
    requires Unmatched(fs, n, "}" + rest, k)
    ensures Spent(k, Note(values, fs, n, '}'), Note(values, fs, n', '}'))
    ensures Unmatched(Push(values, fs, '}'), Note(values, fs, n, '}'), rest, k)
  {
    var m, x := |fs| - 1, fs[|fs| - 1];
    if x !in values {
      var top := fs[m - 1] + Placeholder(x);
      assert top[|fs[m - 1]|] == '{';
    } else if x == k {
      assert Starts(x + ("}" + rest), k + "}");
      assert n.kids[m] != {};
      var a :| a in n.kids[m];
      assert (a, k) in Note(values, fs, n, '}').pairs;
    } else {
      assert forall a :: (a, k) in Note(values, fs, n, '}').pairs <==> (a, k) in n.pairs;
    }
  }

  lemma PlainSpent(values: map<string, string>, fs: seq<string>, n: Notes, n': Notes, c: char, rest: string, k: string)
    requires fs != [] && |n.kids| == |fs| && Spent(k, n, n') && c != '{' && (c == '}' ==> |fs| == 1)
    requires Unmatched(fs, n, [c] + rest, k)
    ensures Spent(k, Note(values, fs, n, c), Note(values, fs, n', c))
    ensures Unmatched(Push(values, fs, c), Note(values, fs, n, c), rest, k)
  {
    var m := |fs| - 1;
    assert fs[m] + [c] + rest == fs[m] + ([c] + rest);
  }

  lemma ReplaceOne(s: string, pat: string, v: string)
    requires pat != "" && s != "" && !Starts(s, pat)
    ensures ReplaceAll(s, pat, v) == [s[0]] + ReplaceAll(s[1..], pat, v)
  {
  }

  lemma {:induction false} ReplaceSpends(values: map<string, string>, fs: seq<string>, n: Notes, n': Notes, s: string, k: string)
    requires fs != [] && |n.kids| == |fs| && Spent(k, n, n') && Clean(values) && k in values
    requires Unmatched(fs, n, s, k)
    ensures Spent(k, Study(values, fs, n, s), Study(values, fs, n', ReplaceAll(s, Placeholder(k), values[k])))
    decreases |s|
  {
    hide Spent, Unmatched;
    SameLength(k, n, n');
    var pat, v := Placeholder(k), values[k];
    if s == "" {
    } else if Starts(s, pat) {
      var rest := s[|pat|..];
      assert s == pat + rest;
      StudyConcat(values, fs, n, pat, rest);
      StudyConcat(values, fs, n', v, ReplaceAll(rest, pat, v));
      StudyPlaceholder(values, fs, n, k);
      StudyPlain(values, fs, n', v);
      ScanPlaceholder(values, fs, k);
      ResolvedSpent(Scan(values, fs, pat), n, n', rest, k);
      ReplaceSpends(values, Scan(values, fs, pat), Resolved(n, k), n', rest, k);
    } else {
      var c, rest := s[0], s[1..];
      assert s == [c] + rest;
      ReplaceOne(s, pat, v);
      assert ([c] + ReplaceAll(rest, pat, v))[1..] == ReplaceAll(rest, pat, v);
      if c == '{' {
        OpenSpent(values, fs, n, n', rest, k);
      } else if c == '}' && |fs| > 1 {
        CloseSpent(values, fs, n, n', rest, k);
      } else {
        PlainSpent(values, fs, n, n', c, rest, k);
      }
      ReplaceSpends(values, Push(values, fs, c), Note(values, fs, n, c), Note(values, fs, n', c), rest, k);
    }
  }

  lemma SameLength(k: string, n: Notes, n': Notes)
    requires Spent(k, n, n')
    ensures |n.kids| == |n'.kids|
  {
  }

  lemma ResolvedSpent(fs: seq<string>, n: Notes, n': Notes, rest: string, k: string)
    requires fs != [] && |n.kids| == |fs| && Spent(k, n, n')
    ensures Spent(k, Resolved(n, k), n') && Unmatched(fs, Resolved(n, k), rest, k)
  {
    var m := |n.kids| - 1;
    assert k in Resolved(n, k).kids[m];
  }

  /** After `k` is replaced in a text, just `k` may be gone from it, and is gone exactly if no
      name of it was still being spelled; what had to wait for another key still has to. */
  lemma ReplaceEffect(values: map<string, string>, s: string, k: string)
    requires Clean(values) && k in values
    ensures var s' := ReplaceAll(s, Placeholder(k), values[k]);
            && Placed(values, s') <= Placed(values, s) <= Placed(values, s') + {k}
            && Before(values, s') <= Before(values, s)
            && (forall a, b | (a, b) in Before(values, s) && a != k :: (a, b) in Before(values, s'))
            && (k in Placed(values, s') <==> exists a :: (a, k) in Before(values, s))
  {
    ReplaceSpends(values, [""], NO_NOTES, NO_NOTES, s, k);
  }

  // ---------- Nothing left to replace ----------

  ghost predicate NotesOk(values: map<string, string>, n: Notes) {
    && n.keys <= values.Keys
    && (forall i | 0 <= i < |n.kids| :: n.kids[i] <= n.keys)
    && forall a, b | (a, b) in n.pairs :: a in n.keys && b in n.keys
  }

  lemma {:induction false} StudyOk(values: map<string, string>, fs: seq<string>, n: Notes, s: string)
    requires fs != [] && |n.kids| == |fs| && NotesOk(values, n)
    ensures NotesOk(values, Study(values, fs, n, s)) && n.keys <= Study(values, fs, n, s).keys
    decreases |s|
  {
    if s != "" { StudyOk(values, Push(values, fs, s[0]), Note(values, fs, n, s[0]), s[1..]); }
  }

  lemma PairsArePlaced(values: map<string, string>, s: string)
    ensures Placed(values, s) <= values.Keys
    ensures forall a, b | (a, b) in Before(values, s) :: a in Placed(values, s) && b in Placed(values, s)
  {
    StudyOk(values, [""], NO_NOTES, s);
  }

  lemma LiteralIsPlaced(values: map<string, string>, s: string, k: string)
    requires Clean(values) && k in values && Contains(s, Placeholder(k))
    ensures k in Placed(values, s)
  {
    var p := Placeholder(k);
    var i :| OccursAt(s, p, i);
    var u, w := s[..i], s[i + |p|..];
    assert s == u + (p + w);
    var fs, n := Scan(values, [""], u), Study(values, [""], NO_NOTES, u);
    StudyConcat(values, [""], NO_NOTES, u, p + w);
    StudyConcat(values, fs, n, p, w);
    StudyPlaceholder(values, fs, n, k);
    StudyOk(values, [""], NO_NOTES, u);
    StudyOk(values, Scan(values, fs, p), Resolved(n, k), w);
  }

  lemma {:induction false} IrreducibleStudy(values: map<string, string>, fs: seq<string>, n: Notes, s: string)
    requires fs != [] && |n.kids| == |fs| && Irreducible(values, Text(fs) + s)
    ensures Study(values, fs, n, s).keys == n.keys
    decreases |s|
  {
    if s != "" {
      assert Text(fs) + s == Text(fs) + [s[0]] + s[1..];
      PushKeepsText(values, fs, s[0], s[1..]);
      if s[0] == '}' && |fs| > 1 { TopIsUnknown(values, fs, s[1..]); }
      IrreducibleStudy(values, Push(values, fs, s[0]), Note(values, fs, n, s[0]), s[1..]);
    }
  }

  lemma PlacedNothing(values: map<string, string>, s: string)
    requires Clean(values)
    ensures Placed(values, s) == {} <==> Irreducible(values, s)
  {
    if Irreducible(values, s) {
      assert "" + s == s;
      IrreducibleStudy(values, [""], NO_NOTES, s);
    } else {
      var k :| k in values && Contains(s, Placeholder(k));
      LiteralIsPlaced(values, s, k);
    }
  }

  // ---------- Walks ----------

  /** An order in which the map may be walked: every key once. */
  ghost predicate Walk(values: map<string, string>, order: seq<string>) {
    A.NoDup(order) && forall k :: k in order <==> k in values
  }

  predicate Respects(order: seq<string>, pairs: set<(string, string)>) {
    forall i, j | 0 <= i < |order| && 0 <= j < |order| && (order[i], order[j]) in pairs :: i < j
  }

  /** The text after `n` replacements. */
  function TextAfter(values: map<string, string>, format: string, order: seq<string>, n: nat): string
    requires n <= |order| && forall k | k in order :: k in values
  {
    ReplaceInOrder(values, format, order[..n])
  }

  lemma NextText(values: map<string, string>, format: string, order: seq<string>, n: nat)
    requires n < |order| && forall k | k in order :: k in values
    ensures TextAfter(values, format, order, n + 1)
         == ReplaceAll(TextAfter(values, format, order, n), Placeholder(order[n]), values[order[n]])
  {
    assert order[..n + 1][..n] == order[..n];
  }

  /** When a key has its turn, nothing that helps to spell it is left. */
  lemma NoneWaiting(values: map<string, string>, t: string, pairs: set<(string, string)>, order: seq<string>, n: nat)
    requires Walk(values, order) && Respects(order, pairs) && n < |order|
    requires Before(values, t) <= pairs && forall i | 0 <= i < n :: order[i] !in Placed(values, t)
    ensures forall a :: (a, order[n]) !in Before(values, t)
  {
    hide Placed, Before;
    PairsArePlaced(values, t);
    forall a ensures (a, order[n]) !in Before(values, t) {
      if a in order {
        var i :| 0 <= i < |order| && order[i] == a;
        assert (order[i], order[n]) in pairs ==> i < n;
      }
    }
  }

  /** In a walk that respects the pairs every key is done with once it has had its turn. */
  lemma {:induction false} RespectingClears(values: map<string, string>, format: string, order: seq<string>, n: nat)
    requires Clean(values) && Walk(values, order) && Respects(order, Before(values, format)) && n <= |order|
    ensures var t := TextAfter(values, format, order, n);
            && Before(values, t) <= Before(values, format)
            && forall i | 0 <= i < n :: order[i] !in Placed(values, t)
  {
    hide Placed, Before, ReplaceInOrder;
    if n == 0 {
      FirstText(values, format, order);
    } else {
      var t, k := TextAfter(values, format, order, n - 1), order[n - 1];
      RespectingClears(values, format, order, n - 1);
      NextText(values, format, order, n - 1);
      ReplaceEffect(values, t, k);
      NoneWaiting(values, t, Before(values, format), order, n - 1);
    }
  }

  lemma FirstText(values: map<string, string>, format: string, order: seq<string>)
    requires forall k | k in order :: k in values
    ensures TextAfter(values, format, order, 0) == format
  {
    assert order[..0] == [];
  }

  /** A pair in the wrong order stays until its second key has had its turn, and that key
      remains ever after. */
  lemma {:induction false} WrongOrderStays(values: map<string, string>, format: string, order: seq<string>, i: nat, j: nat, n: nat)
    requires Clean(values) && Walk(values, order) && j <= i < |order| && n <= |order|
    requires (order[i], order[j]) in Before(values, format)
    ensures var t := TextAfter(values, format, order, n);
            && (n <= i ==> (order[i], order[j]) in Before(values, t))
            && (j < n ==> order[j] in Placed(values, t))
  {
    hide Placed, Before, ReplaceInOrder;
    if n == 0 {
      FirstText(values, format, order);
    } else {
      WrongOrderStays(values, format, order, i, j, n - 1);
      NextText(values, format, order, n - 1);
      ReplaceEffect(values, TextAfter(values, format, order, n - 1), order[n - 1]);
    }
  }

  /** The condition under which a walk yields the meaning of the format: it comes to every key
      after the keys that help to spell it. */
  lemma WalkFinishes(values: map<string, string>, format: string, order: seq<string>)
    requires Clean(values) && Walk(values, order)
    ensures var result := ReplaceInOrder(values, format, order);
            && (result == Meaning(values, format) <==> Respects(order, Before(values, format)))
            && (Irreducible(values, result) <==> Respects(order, Before(values, format)))
  {
    hide ReplaceInOrder, Placed, Before, Irreducible, Meaning;
    var result := ReplaceInOrder(values, format, order);
    assert order[..|order|] == order;
    Confluence(values, format, order);
    PlacedNothing(values, result);
    PairsArePlaced(values, result);
    if Respects(order, Before(values, format)) {
      RespectingClears(values, format, order, |order|);
      forall k ensures k !in Placed(values, result) {
        if k in order {
          var i :| 0 <= i < |order| && order[i] == k;
        }
      }
    } else {
      var i, j :| 0 <= i < |order| && 0 <= j < |order| && (order[i], order[j]) in Before(values, format) && !(i < j);
      WrongOrderStays(values, format, order, i, j, |order|);
    }
  }

  /** A key in two pairs of braces, of a value that is a key again. */
  lemma DoubledBraces(values: map<string, string>, k: string)
    requires Clean(values) && k in values && values[k] in values
    ensures Before(values, "{" + Placeholder(k) + "}") == {(k, values[k])}
    ensures Meaning(values, "{" + Placeholder(k) + "}") == values[values[k]]
  {
    var p, x := Placeholder(k), values[k];
    var fs, n := ["", ""], NO_NOTES.(kids := [{}, {}]);
    assert "{" + p + "}" == "{" + (p + "}") && ("{" + (p + "}"))[1..] == p + "}";
    assert Push(values, [""], '{') == fs && Note(values, [""], NO_NOTES, '{') == n;
    StudyConcat(values, fs, n, p, "}");
    ScanConcat(values, fs, p, "}");
    StudyPlaceholder(values, fs, n, k);
    ScanPlaceholder(values, fs, k);
    ScanPlain(values, fs, x);
    assert "" + x == x && "" + values[x] == values[x];
    assert Scan(values, fs, p) == ["", x];
    assert {} + {k} == {k} && Resolved(n, k).kids == [{}, {k}];
    assert "}"[1..] == "";
    assert Push(values, ["", x], '}') == [values[x]];
    assert Note(values, ["", x], Resolved(n, k), '}').pairs == {(k, x)};
  }

  // ---------- Whether there is such a walk ----------

  /** Every group of keys has one that need not wait for another of the group. */
  ghost predicate Acyclic(pairs: set<(string, string)>, keys: set<string>) {
    forall group: set<string> | group != {} && group <= keys :: HasFirst(pairs, group)
  }

  ghost predicate IsFirst(pairs: set<(string, string)>, group: set<string>, m: string) {
    m in group && forall a | a in group :: (a, m) !in pairs
  }

  ghost predicate HasFirst(pairs: set<(string, string)>, group: set<string>) {
    exists m :: IsFirst(pairs, group, m)
  }

  lemma {:induction false} SortKeys(pairs: set<(string, string)>, keys: set<string>) returns (order: seq<string>)
    requires Acyclic(pairs, keys)
    ensures A.NoDup(order) && Respects(order, pairs) && forall k :: k in order <==> k in keys
    decreases |keys|
  {
    if keys == {} {
      order := [];
    } else {
      assert HasFirst(pairs, keys);
      var m :| IsFirst(pairs, keys, m);
      var rest := SortKeys(pairs, keys - {m});
      order := [m] + rest;
      forall i, j | 0 <= i < |order| && 0 <= j < |order| && (order[i], order[j]) in pairs ensures i < j {
        assert order[i] in order && order[j] in order;
        if i > 0 && j > 0 { assert (rest[i - 1], rest[j - 1]) in pairs; }
      }
    }
  }

  lemma RespectedIsAcyclic(pairs: set<(string, string)>, keys: set<string>, order: seq<string>)
    requires Respects(order, pairs) && forall k :: k in order <==> k in keys
    ensures Acyclic(pairs, keys)
  {
    forall group: set<string> | group != {} && group <= keys ensures HasFirst(pairs, group) {
      var g :| g in group;
      assert g in order;
      var i := FirstOf(order, group);
      FirstIsFirst(pairs, group, order, i);
    }
  }

  lemma FirstIsFirst(pairs: set<(string, string)>, group: set<string>, order: seq<string>, i: nat)
    requires Respects(order, pairs) && i < |order| && order[i] in group && forall k | k in group :: k in order
    requires forall j | 0 <= j < i :: order[j] !in group
    ensures IsFirst(pairs, group, order[i])
  {
    forall a | a in group ensures (a, order[i]) !in pairs {
      var j :| 0 <= j < |order| && order[j] == a;
      assert (order[j], order[i]) in pairs ==> j < i;
    }
  }

  /** Position of the first key of the group. */
  lemma {:induction false} FirstOf(order: seq<string>, group: set<string>) returns (i: nat)
    requires exists k :: k in order && k in group
    ensures i < |order| && order[i] in group && forall j | 0 <= j < i :: order[j] !in group
  {
    if order[0] in group {
      i := 0;
    } else {
      i := FirstOf(order[1..], group);
      i := i + 1;
    }
  }

  lemma {:induction false} ListKeys(keys: set<string>) returns (order: seq<string>)
    ensures A.NoDup(order) && forall k :: k in order <==> k in keys
    decreases |keys|
  {
    if keys == {} {
      order := [];
    } else {
      var k :| k in keys;
      var rest := ListKeys(keys - {k});
      order := [k] + rest;
    }
  }

  /** A walk that takes `b` first of all comes too late to `a`. */
  lemma WalkAgainst(pairs: set<(string, string)>, keys: set<string>, a: string, b: string) returns (order: seq<string>)
    requires a in keys && b in keys && (a, b) in pairs
    ensures A.NoDup(order) && (forall k :: k in order <==> k in keys) && !Respects(order, pairs)
  {
    var rest := ListKeys(keys - {b});
    order := [b] + rest;
    assert a in order;
    var i :| 0 <= i < |order| && order[i] == a;
    assert (order[i], order[0]) in pairs;
  }
}
