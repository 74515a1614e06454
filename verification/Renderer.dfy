/** The new image name: the template filled in from the origin image, then the tag's suffix. */
module Renderer {
  import opened Api
  import opened Template
  import opened FlatFormats
  import opened Walks

  /** A parsed image reference; parsing itself is a parameter of the renderer. */
  datatype Ref = Ref(domain: string, path: string, tag: Option<string>, digest: string)

  const MARK := "snapped-"

  /** `unix` and `nonce` stand for the time and the random part. */
  function WithRandomTag(tag: string, appendSuffix: bool, unix: string, nonce: string): string {
    if !appendSuffix then tag
    else if exists i | 0 <= i <= |tag| :: OccursAt(tag, MARK, i) then tag
    else
      var suffix := MARK + unix + "-" + nonce;
      if tag == "" || tag == "latest" then suffix else tag + "-" + suffix
  }

  /** The tag is left alone if no suffix is asked for or it has one; "latest" is as good as
      none; else the suffix follows a dash. */
  lemma SuffixExactly(tag: string, appendSuffix: bool, unix: string, nonce: string)
    ensures var result := WithRandomTag(tag, appendSuffix, unix, nonce);
            && (!appendSuffix || (exists a, b :: tag == a + "snapped-" + b) ==> result == tag)
            && (appendSuffix && (tag == "" || tag == "latest") ==> result == "snapped-" + unix + "-" + nonce)
            && (appendSuffix && tag != "" && tag != "latest" && !(exists a, b :: tag == a + "snapped-" + b) ==>
                  result == tag + "-" + ("snapped-" + unix + "-" + nonce))
  {
    if a, b :| tag == a + "snapped-" + b {
      assert OccursAt(tag, MARK, |a|);
    }
    if i :| 0 <= i <= |tag| && OccursAt(tag, MARK, i) {
      assert tag == tag[..i] + "snapped-" + tag[i + |MARK|..];
    }
    assert |"latest"| < |MARK|;
  }

  /** The tag after a series of snapshots, each of the image the one before it left. */
  datatype Snapshot = Snapshot(appendSuffix: bool, unix: string, nonce: string)

  function TagAfter(tag: string, series: seq<Snapshot>): string {
    if series == [] then tag
    else
      var s := series[|series| - 1];
      WithRandomTag(TagAfter(tag, series[..|series| - 1]), s.appendSuffix, s.unix, s.nonce)
  }

  lemma SuffixCarriesMark(tag: string, unix: string, nonce: string)
    ensures exists i | 0 <= i <= |WithRandomTag(tag, true, unix, nonce)| ::
              OccursAt(WithRandomTag(tag, true, unix, nonce), MARK, i)
  {
    var result := WithRandomTag(tag, true, unix, nonce);
    var suffix := MARK + unix + "-" + nonce;
    if result == suffix {
      assert OccursAt(result, MARK, 0);
    } else if result == tag + "-" + suffix {
      assert OccursAt(result, MARK, |tag| + 1);
    }
  }

  /** The suffix is appended at most once: from the first snapshot that asks for it the tag
      stays as it is, whatever times and random parts come later. */
  lemma {:induction false} SuffixIsNeverStacked(tag: string, first: Snapshot, later: seq<Snapshot>)
    requires first.appendSuffix
    ensures TagAfter(tag, [first] + later) == WithRandomTag(tag, true, first.unix, first.nonce)
  {
    if later == [] {
      assert [first] + later == [first];
      assert [first][..0] == [];
    } else {
      var init := later[..|later| - 1];
      assert ([first] + later)[..|later|] == [first] + init;
      SuffixIsNeverStacked(tag, first, init);
      SuffixCarriesMark(tag, first.unix, first.nonce);
    }
  }

  /** The part of the path after its last slash. */
  function LastSegment(path: string): string {
    if path == "" || path[|path| - 1] == '/' then ""
    else LastSegment(path[..|path| - 1]) + [path[|path| - 1]]
  }

  /** That is all of a path without slashes, and else what stands behind one and has none. */
  lemma {:induction false} LastSegmentIs(path: string)
    ensures '/' !in LastSegment(path)
    ensures path == LastSegment(path) || exists q :: path == q + "/" + LastSegment(path)
  {
    if path != "" {
      var init, c := path[..|path| - 1], path[|path| - 1];
      assert path == init + [c];
      if c == '/' {
        assert path == init + "/" + "";
      } else {
        LastSegmentIs(init);
        if init != LastSegment(init) {
          var q :| init == q + "/" + LastSegment(init);
          assert path == q + "/" + (LastSegment(init) + [c]);
        }
      }
    }
  }

  lemma {:induction false} SegmentBehind(q: string, s: string)
    requires '/' !in s
    ensures LastSegment(q + "/" + s) == s
    decreases |s|
  {
    var path := q + "/" + s;
    if s == "" {
      assert path == q + "/";
    } else {
      assert path[..|path| - 1] == q + "/" + s[..|s| - 1];
      SegmentBehind(q, s[..|s| - 1]);
    }
  }

  function OwnTag(r: Ref): string {
    if r.tag.Some? then r.tag.value else r.digest
  }

  function Values(r: Ref): map<string, string> {
    map["domain" := r.domain, "repository" := r.path, "last_repository" := LastSegment(r.path),
        "tag" := OwnTag(r)]
  }

  const KEYS := {"domain", "repository", "last_repository", "tag"}

  /** References have no braces, neither as text nor in their parts. */
  ghost predicate ParsesCleanly(parse: string -> Option<Ref>) {
    forall s: string :: parse(s).Some? ==>
      var r := parse(s).value;
      NoBraces(s) && NoBraces(r.domain) && NoBraces(r.path) && NoBraces(r.digest) && (r.tag.Some? ==> NoBraces(r.tag.value))
  }

  function Finish(parse: string -> Option<Ref>, withTag: (Ref, string) -> Option<string>,
                  text: string, appendSuffix: bool, unix: string, nonce: string): Option<string> {
    match parse(text)
    case None => None
    case Some(r) =>
      withTag(r, WithRandomTag(if r.tag.Some? then r.tag.value else "", appendSuffix, unix, nonce))
  }

  /** The renderer for one walk over the map; None when a reference does not parse. */
  function Render(parse: string -> Option<Ref>, withTag: (Ref, string) -> Option<string>,
                  origin: string, format: string, order: seq<string>,
                  appendSuffix: bool, unix: string, nonce: string): Option<string>
    requires forall k | k in order :: k in KEYS
  {
    match parse(origin)
    case None => None
    case Some(r) =>
      Finish(parse, withTag, ReplaceInOrder(Values(r), format, order), appendSuffix, unix, nonce)
  }

  /** The last of the path's parts between slashes. */
  method LastPart(path: string) returns (part: string)
    ensures part == LastSegment(path)
  {
    var i := |path|;
    assert path[..i] == path;
    while i > 0 && path[i - 1] != '/'
      invariant 0 <= i <= |path|
      invariant LastSegment(path) == LastSegment(path[..i]) + path[i..]
    {
      assert path[..i][..i - 1] == path[..i - 1];
      assert [path[i - 1]] + path[i..] == path[i - 1..];
      i := i - 1;
    }
    part := path[i..];
  }

  method RenderNewImageName(parse: string -> Option<Ref>, withTag: (Ref, string) -> Option<string>,
                            origin: string, format: string, order: seq<string>,
                            appendSuffix: bool, unix: string, nonce: string) returns (image: Option<string>)
    requires forall k | k in order :: k in KEYS
    ensures image == Render(parse, withTag, origin, format, order, appendSuffix, unix, nonce)
  {
    var ref := parse(origin);
    if ref.None? {
      return None;
    }
    var tag := ref.value.digest;
    if ref.value.tag.Some? {
      tag := ref.value.tag.value;
    }
    var lr := LastPart(ref.value.path);
    var m := map["domain" := ref.value.domain, "repository" := ref.value.path, "last_repository" := lr, "tag" := tag];
    assert m == Values(ref.value) && m.Keys == KEYS;
    var text, i := format, 0;
    while i < |order|
      invariant 0 <= i <= |order|
      invariant text == ReplaceInOrder(m, format, order[..i])
    {
      assert order[..i + 1][..i] == order[..i];
      text := ReplaceAll(text, "{" + order[i] + "}", m[order[i]]);
      i := i + 1;
    }
    assert order[..i] == order;
    ref := parse(text);
    if ref.None? {
      return None;
    }
    var newTag := "";
    if ref.value.tag.Some? {
      newTag := ref.value.tag.value;
    }
    image := withTag(ref.value, WithRandomTag(newTag, appendSuffix, unix, nonce));
  }

  lemma {:induction false} SegmentIsClean(path: string)
    requires NoBraces(path)
    ensures NoBraces(LastSegment(path))
  {
    if path != "" && path[|path| - 1] != '/' { SegmentIsClean(path[..|path| - 1]); }
  }

  lemma KeysAreClean(k: string)
    requires k in KEYS
    ensures NoBraces(k)
  {
  }

  lemma ValuesAreClean(parse: string -> Option<Ref>, origin: string)
    requires ParsesCleanly(parse) && parse(origin).Some?
    ensures Clean(Values(parse(origin).value))
  {
    var r := parse(origin).value;
    SegmentIsClean(r.path);
    forall k | k in Values(r) ensures NoBraces(k) && NoBraces(Values(r)[k]) {
      KeysAreClean(k);
    }
  }

  /** The random walk over the map decides at most whether there is an image name, never
      which: two walks that both get past parsing yield the same name. */
  lemma RenderedNameIsUnique(parse: string -> Option<Ref>, withTag: (Ref, string) -> Option<string>,
                             origin: string, format: string, o1: seq<string>, o2: seq<string>,
                             appendSuffix: bool, unix: string, nonce: string)
    requires ParsesCleanly(parse)
    requires (forall k | k in o1 :: k in KEYS) && forall k | k in o2 :: k in KEYS
    requires Render(parse, withTag, origin, format, o1, appendSuffix, unix, nonce).Some?
    requires Render(parse, withTag, origin, format, o2, appendSuffix, unix, nonce).Some?
    ensures Render(parse, withTag, origin, format, o1, appendSuffix, unix, nonce)
         == Render(parse, withTag, origin, format, o2, appendSuffix, unix, nonce)
  {
    ValuesAreClean(parse, origin);
    var values := Values(parse(origin).value);
    assert parse(ReplaceInOrder(values, format, o1)).Some? && parse(ReplaceInOrder(values, format, o2)).Some?;
    OrdersAgree(values, format, o1, o2);
  }

  /** For a flat format the walk decides nothing at all: the name is that of the simultaneous
      substitution. */
  lemma FlatRenderIsDetermined(parse: string -> Option<Ref>, withTag: (Ref, string) -> Option<string>,
                               origin: string, format: string, order: seq<string>,
                               appendSuffix: bool, unix: string, nonce: string)
    requires ParsesCleanly(parse) && Flat(format) && parse(origin).Some?
    requires NoDup(order) && forall k :: k in order <==> k in KEYS
    ensures Render(parse, withTag, origin, format, order, appendSuffix, unix, nonce)
         == Finish(parse, withTag, OnePass(Values(parse(origin).value), format), appendSuffix, unix, nonce)
  {
    ValuesAreClean(parse, origin);
    FlatOrderIsSimultaneous(Values(parse(origin).value), format, order);
  }

  // ---------- Which walks give an image name ----------

  /** An order in which Go may walk over the renderer's map. */
  ghost predicate IsWalk(order: seq<string>) {
    NoDup(order) && forall k :: k in order <==> k in KEYS
  }

  lemma WalksAllValues(r: Ref, order: seq<string>)
    requires IsWalk(order)
    ensures Walk(Values(r), order)
  {
    assert Values(r).Keys == KEYS;
  }

  /** The rendering for every format and every walk: an image name comes out only if the walk
      comes to each key after those that help to spell it, and then it is that of the format's
      meaning. */
  lemma RenderExactly(parse: string -> Option<Ref>, withTag: (Ref, string) -> Option<string>,
                      origin: string, format: string, order: seq<string>,
                      appendSuffix: bool, unix: string, nonce: string)
    requires ParsesCleanly(parse) && parse(origin).Some? && IsWalk(order)
    ensures var values := Values(parse(origin).value);
            Render(parse, withTag, origin, format, order, appendSuffix, unix, nonce)
            == if Respects(order, Before(values, format))
               then Finish(parse, withTag, Meaning(values, format), appendSuffix, unix, nonce) else None
  {
    hide Before, Meaning, ReplaceInOrder;
    var values := Values(parse(origin).value);
    ValuesAreClean(parse, origin);
    WalksAllValues(parse(origin).value, order);
    WalkFinishes(values, format, order);
    var text := ReplaceInOrder(values, format, order);
    if parse(text).Some? { BraceFreeIsIrreducible(values, text); }
  }

  /** Two walks give different results. */
  ghost predicate WalksDiffer(parse: string -> Option<Ref>, withTag: (Ref, string) -> Option<string>,
                              origin: string, format: string, appendSuffix: bool, unix: string, nonce: string)
  {
    exists o1, o2 :: IsWalk(o1) && IsWalk(o2) &&
      Render(parse, withTag, origin, format, o1, appendSuffix, unix, nonce)
      != Render(parse, withTag, origin, format, o2, appendSuffix, unix, nonce)
  }

  /** The random walk matters exactly if the meaning of the format is an image name and some
      keys must come before others, though not in a circle. */
  lemma WalksDifferExactly(parse: string -> Option<Ref>, withTag: (Ref, string) -> Option<string>,
                           origin: string, format: string, appendSuffix: bool, unix: string, nonce: string)
    requires ParsesCleanly(parse) && parse(origin).Some?
    ensures var values := Values(parse(origin).value);
            WalksDiffer(parse, withTag, origin, format, appendSuffix, unix, nonce)
            <==> && Finish(parse, withTag, Meaning(values, format), appendSuffix, unix, nonce).Some?
                 && Before(values, format) != {} && Acyclic(Before(values, format), KEYS)
  {
    hide Before, Meaning, Render, Finish, Acyclic, ParsesCleanly;
    var values := Values(parse(origin).value);
    var pairs := Before(values, format);
    forall order | IsWalk(order)
      ensures Render(parse, withTag, origin, format, order, appendSuffix, unix, nonce)
           == if Respects(order, pairs) then Finish(parse, withTag, Meaning(values, format), appendSuffix, unix, nonce) else None
    {
      RenderExactly(parse, withTag, origin, format, order, appendSuffix, unix, nonce);
    }
    if WalksDiffer(parse, withTag, origin, format, appendSuffix, unix, nonce) {
      var o1, o2 :| IsWalk(o1) && IsWalk(o2) &&
        Render(parse, withTag, origin, format, o1, appendSuffix, unix, nonce)
        != Render(parse, withTag, origin, format, o2, appendSuffix, unix, nonce);
      RespectedIsAcyclic(pairs, KEYS, if Respects(o1, pairs) then o1 else o2);
    }
    if pairs != {} && Acyclic(pairs, KEYS) {
      var o1, o2 := TwoWalks(values, format);
      assert IsWalk(o1) && IsWalk(o2);
    }
  }

  lemma TwoWalks(values: map<string, string>, format: string) returns (o1: seq<string>, o2: seq<string>)
    requires values.Keys == KEYS && Before(values, format) != {} && Acyclic(Before(values, format), KEYS)
    ensures IsWalk(o1) && IsWalk(o2)
    ensures Respects(o1, Before(values, format)) && !Respects(o2, Before(values, format))
  {
    hide Before, Acyclic;
    var pairs := Before(values, format);
    PairsArePlaced(values, format);
    o1 := SortKeys(pairs, KEYS);
    var pair :| pair in pairs;
    var (a, b) := pair;
    assert (a, b) in pairs;
    o2 := WalkAgainst(pairs, KEYS, a, b);
  }

  /** For an image tagged "domain" and the format "{{tag}}" it does matter: a walk that takes
      the tag first yields a name, one that takes the domain first yields none. */
  lemma NestedOrderMatters(parse: string -> Option<Ref>, withTag: (Ref, string) -> Option<string>, origin: string,
                           o1: seq<string>, o2: seq<string>, appendSuffix: bool, unix: string, nonce: string)
    requires ParsesCleanly(parse) && parse(origin).Some? && parse(origin).value.tag == Some("domain")
    requires Finish(parse, withTag, parse(origin).value.domain, appendSuffix, unix, nonce).Some?
    requires IsWalk(o1) && IsWalk(o2) && Respects(o1, {("tag", "domain")}) && !Respects(o2, {("tag", "domain")})
    ensures Render(parse, withTag, origin, "{{tag}}", o1, appendSuffix, unix, nonce).Some?
    ensures Render(parse, withTag, origin, "{{tag}}", o2, appendSuffix, unix, nonce).None?
  {
    hide Render, Finish, Before, Meaning;
    var values := Values(parse(origin).value);
    ValuesAreClean(parse, origin);
    assert values["tag"] == "domain";
    DoubledBraces(values, "tag");
    assert "{" + Placeholder("tag") + "}" == "{{tag}}";
    RenderExactly(parse, withTag, origin, "{{tag}}", o1, appendSuffix, unix, nonce);
    RenderExactly(parse, withTag, origin, "{{tag}}", o2, appendSuffix, unix, nonce);
  }

  const TAG_FIRST := ["tag", "domain", "repository", "last_repository"]
  const DOMAIN_FIRST := ["domain", "tag", "repository", "last_repository"]

  /** For example a parser that rejects nothing but braces and always finds that tag. */
  function ParseAny(s: string): Option<Ref> {
    if NoBraces(s) then Some(Ref("host", "team/app", Some("domain"), "")) else None
  }

  function JoinTag(r: Ref, t: string): Option<string> {
    Some(r.domain + "/" + r.path + ":" + t)
  }

  lemma ParseAnyIsClean()
    ensures ParsesCleanly(ParseAny)
  {
    assert NoBraces("host") && NoBraces("team/app") && NoBraces("domain");
  }

  lemma FourKeys(a: string, b: string)
    requires (a == "tag" && b == "domain") || (a == "domain" && b == "tag")
    ensures IsWalk([a, b, "repository", "last_repository"])
  {
    assert |"tag"| == 3 && |"domain"| == 6 && |"repository"| == 10 && |"last_repository"| == 15;
  }

  lemma WalksCanDiffer(appendSuffix: bool, unix: string, nonce: string)
    ensures ParsesCleanly(ParseAny) && IsWalk(TAG_FIRST) && IsWalk(DOMAIN_FIRST)
    ensures Render(ParseAny, JoinTag, "host/team/app:domain", "{{tag}}", TAG_FIRST, appendSuffix, unix, nonce).Some?
    ensures Render(ParseAny, JoinTag, "host/team/app:domain", "{{tag}}", DOMAIN_FIRST, appendSuffix, unix, nonce).None?
  {
    hide ParsesCleanly, IsWalk, Render, WithRandomTag;
    ParseAnyIsClean();
    FourKeys("tag", "domain");
    FourKeys("domain", "tag");
    assert NoBraces("host/team/app:domain") && NoBraces("host");
    TagBeforeDomain();
    NestedOrderMatters(ParseAny, JoinTag, "host/team/app:domain", TAG_FIRST, DOMAIN_FIRST, appendSuffix, unix, nonce);
  }

  lemma TagBeforeDomain()
    ensures Respects(TAG_FIRST, {("tag", "domain")}) && !Respects(DOMAIN_FIRST, {("tag", "domain")})
  {
    assert |"tag"| == 3 && |"domain"| == 6 && |"repository"| == 10 && |"last_repository"| == 15;
    assert (DOMAIN_FIRST[1], DOMAIN_FIRST[0]) in {("tag", "domain")};
  }
}
