/** Runs of snapshots of snapshots with a small parser of references, domain/path:tag with tags
    of at most 128 characters: with text around {tag} the tag grows, and without {tag} every
    image gets a suffix of its own. */
module GrowingTag {
  import opened Api
  import opened Template
  import opened Renderer
  import opened Cycles

  const MAX_TAG := 128

  function FirstSlash(s: string): (i: nat)
    ensures i <= |s| && '/' !in s[..i] && (i < |s| ==> s[i] == '/')
  {
    if s == "" || s[0] == '/' then 0
    else
      var i := 1 + FirstSlash(s[1..]);
      assert s[..i] == [s[0]] + s[1..][..i - 1];
      i
  }

  predicate Plain(s: string) {
    NoBraces(s) && '@' !in s
  }

  /** Where the path ends: at the tag's colon, if there is one. */
  function PathEnd(s: string): (i: nat)
    ensures i <= |s|
  {
    var i := LastColon(s);
    if i < |s| && '/' !in s[i + 1..] then i else |s|
  }

  function Parse(s: string): Option<Ref> {
    var j, i := FirstSlash(s), PathEnd(s);
    if j >= i || !Plain(s) then None
    else
      var r := Ref(s[..j], s[j + 1..i], Some(TagRead(s, "latest")), "");
      if LegalRef(r) && |TagRead(s, "latest")| <= MAX_TAG then Some(r) else None
  }

  function Show(r: Ref, tag: string): string {
    r.domain + "/" + r.path + ":" + tag
  }

  function Name(r: Ref): string {
    Show(r, OwnTag(r))
  }

  /** Like the library's function, an error if the tag is not one. */
  function SetTag(r: Ref, tag: string): Option<string> {
    if Parse(Show(r, tag)) == Some(r.(tag := Some(tag))) then Some(Show(r, tag)) else None
  }

  lemma ParserIsLawful()
    ensures Lawful(Parse, SetTag, "latest") && Bounded(Parse, MAX_TAG)
  {
    hide LegalRef, LastColon, FirstSlash;
    forall s: string | Parse(s).Some?
      ensures var r := Parse(s).value; NoBraces(r.domain) && NoBraces(r.path) && NoBraces(TagRead(s, "latest"))
    {
      TagIsWithin(s);
    }
    assert NoBraces("");
  }

  lemma TagIsWithin(s: string)
    requires NoBraces(s)
    ensures NoBraces(TagRead(s, "latest"))
  {
    hide LastColon;
    assert NoBraces("latest");
  }

  /** A tagged reference, its domain without a port. */
  predicate Good(r: Ref) {
    && LegalRef(r) && Plain(r.domain) && '/' !in r.domain && ':' !in r.domain && Plain(r.path) && r.digest == ""
    && r.tag.Some? && Plain(r.tag.value) && |r.tag.value| <= MAX_TAG
  }

  lemma {:induction false} FirstSlashIs(d: string, x: string)
    requires '/' !in d
    ensures FirstSlash(d + "/" + x) == |d|
  {
    if d != "" {
      assert (d + "/" + x)[1..] == d[1..] + "/" + x;
      FirstSlashIs(d[1..], x);
    }
  }

  lemma ParseShown(r: Ref)
    requires Good(r)
    ensures Parse(Name(r)) == Some(r)
  {
    hide LastColon, FirstSlash, LegalRef;
    var x, t := r.domain + "/" + r.path, r.tag.value;
    assert TagText(t) by { TagOfLegal(r); }
    var s := x + ":" + t;
    LastColonIs(x, t);
    assert s == r.domain + "/" + (r.path + ":" + t);
    FirstSlashIs(r.domain, r.path + ":" + t);
    assert s[|x| + 1..] == t;
    assert s[..|r.domain|] == r.domain && s[|r.domain| + 1..|x|] == r.path;
  }

  lemma TagOfLegal(r: Ref)
    requires LegalRef(r) && r.tag.Some?
    ensures TagText(r.tag.value)
  {
  }

  lemma NewTagIsSet(r: Ref, tag: string)
    requires Good(r) && Plain(tag) && TagText(tag) && 0 < |tag| <= MAX_TAG
    ensures Good(r.(tag := Some(tag))) && SetTag(r, tag) == Some(Name(r.(tag := Some(tag))))
  {
    ParseShown(r.(tag := Some(tag)));
  }

  /** Times and random parts as they are: digits and hex digits. */
  predicate Usual(s: Snapshot) {
    s.appendSuffix && Plain(s.unix) && TagText(s.unix) && Plain(s.nonce) && TagText(s.nonce)
  }

  lemma SuffixedIsGood(tag: string, s: Snapshot)
    requires Plain(tag) && TagText(tag) && Usual(s)
    ensures Plain(Suffixed(tag, s)) && TagText(Suffixed(tag, s))
    ensures 0 < |Suffixed(tag, s)| <= |tag| + |MARK| + |s.unix| + |s.nonce| + 2
  {
    assert Plain(MARK) && TagText(MARK);
    if tag == "" { SuffixIsMarked(tag, s); }
  }

  /** A cycle of a format in pieces that fills in as `text` goes through. */
  lemma GoesOn(image: Ref, ps: seq<Piece>, filled: Ref, text: string, c: Cycle) returns (next: Ref)
    requires Good(image) && PiecesOk(ps) && IsWalk(c.order)
    requires Fill(image, ps) == text && Parse(text) == Some(filled) && Good(filled)
    requires var t := Suffixed(filled.tag.value, c.snapshot); Plain(t) && TagText(t) && 0 < |t| <= MAX_TAG
    ensures Good(next) && next == filled.(tag := Some(Suffixed(filled.tag.value, c.snapshot)))
    ensures Snap(Parse, SetTag, Name(image), Spell(ps), c) == Some(Name(next))
  {
    hide Parse, SetTag, LegalRef, Suffixed, Fill, Spell, Name, Plain, TagText;
    next := filled.(tag := Some(Suffixed(filled.tag.value, c.snapshot)));
    ParserIsLawful();
    ParseShown(image);
    CleanAndLegal(Parse, SetTag, "latest", Name(image));
    PiecesMean(image, ps);
    RenderExactly(Parse, SetTag, Name(image), Spell(ps), c.order, c.snapshot.appendSuffix, c.snapshot.unix, c.snapshot.nonce);
    NewTagIsSet(filled, Suffixed(filled.tag.value, c.snapshot));
    AsSuffixed(filled.tag.value, c.snapshot);
  }

  lemma AsSuffixed(t: string, s: Snapshot)
    ensures WithRandomTag(t, s.appendSuffix, s.unix, s.nonce) == Suffixed(t, s)
  {
  }

  // ---------- Text around {tag} ----------

  const MIRROR := [Text("mirror/"), Key("domain")] + [Text("/"), Key("repository")]

  lemma KeysFill(r: Ref)
    ensures FillPiece(r, Key("domain")) == r.domain && FillPiece(r, Key("repository")) == r.path
    ensures FillPiece(r, Key("last_repository")) == LastSegment(r.path)
  {
  }

  lemma MirrorFills(r: Ref)
    ensures Fill(r, MIRROR) == "mirror/" + r.domain + ("/" + r.path)
  {
    hide Fill, LastSegment;
    KeysFill(r);
    FillTwo(r, Text("mirror/"), Key("domain"));
    FillTwo(r, Text("/"), Key("repository"));
    FillConcat(r, [Text("mirror/"), Key("domain")], [Text("/"), Key("repository")]);
  }

  lemma SegmentEnds(x: string, p: string)
    requires LastSegment(p) != ""
    ensures LastSegment(x + p) != ""
  {
    assert (x + p)[|x + p| - 1] == p[|p| - 1];
  }

  /** What the filled-in format reads as. */
  lemma Filler(r: Ref, pre: string, post: string) returns (filled: Ref)
    requires Good(r) && Plain(pre) && TagText(pre) && Plain(post) && TagText(post)
    requires |pre| + |r.tag.value| + |post| <= MAX_TAG
    ensures Good(filled) && filled.tag == Some(pre + r.tag.value + post)
    ensures Fill(r, Colon(MIRROR, Around(pre, post))) == Name(filled)
  {
    hide Fill, LastSegment;
    assert Plain("mirror") && '/' !in "mirror" && ':' !in "mirror" && Plain("/");
    filled := Ref("mirror", r.domain + "/" + r.path, Some(pre + r.tag.value + post), "");
    SegmentEnds(r.domain + "/", r.path);
    FillColon(r, MIRROR, Around(pre, post));
    MirrorFills(r);
    AroundFills(r, pre, post);
    assert "mirror/" + r.domain + ("/" + r.path) == "mirror" + "/" + (r.domain + "/" + r.path);
  }

  /** One cycle. */
  lemma MirrorGoesOn(r: Ref, pre: string, post: string, c: Cycle) returns (next: Ref)
    requires Good(r) && Plain(pre) && TagText(pre) && Plain(post) && TagText(post) && IsWalk(c.order) && Usual(c.snapshot)
    requires |pre| + |r.tag.value| + |post| <= MAX_TAG
    requires |Suffixed(pre + r.tag.value + post, c.snapshot)| <= MAX_TAG
    ensures Good(next) && next.tag == Some(Suffixed(pre + r.tag.value + post, c.snapshot))
    ensures Snap(Parse, SetTag, Name(r), Spell(Colon(MIRROR, Around(pre, post))), c) == Some(Name(next))
  {
    hide Fill, Spell, LegalRef, Parse, SetTag, Name, Suffixed, Around, Colon;
    var filled := Filler(r, pre, post);
    ParseShown(filled);
    TagOfLegal(filled);
    SuffixedIsGood(pre + r.tag.value + post, c.snapshot);
    MirrorPiecesOk(pre, post);
    next := GoesOn(r, Colon(MIRROR, Around(pre, post)), filled, Name(filled), c);
  }

  lemma MirrorPiecesOk(pre: string, post: string)
    requires Plain(pre) && Plain(post)
    ensures PiecesOk(Colon(MIRROR, Around(pre, post)))
  {
    assert PieceOk(Text("mirror/")) && PieceOk(Text("/")) && PieceOk(Text(":"));
  }

  /** With text around {tag}, before it or after it, the tag does not come to rest: two cycles
      that both yield images, under the length limit, and the second tag is longer. */
  lemma TagGrows(r: Ref, pre: string, post: string, first: Cycle, second: Cycle) returns (one: Ref, two: Ref)
    requires Good(r) && Plain(pre) && TagText(pre) && Plain(post) && TagText(post) && pre + post != ""
    requires IsWalk(first.order) && IsWalk(second.order) && Usual(first.snapshot) && Usual(second.snapshot)
    requires |r.tag.value| + 2 * (|pre| + |post|) + |MARK| + |first.snapshot.unix| + |first.snapshot.nonce| + 2 <= MAX_TAG
    ensures var format := Spell(Colon(MIRROR, Around(pre, post)));
            && Snap(Parse, SetTag, Name(r), format, first) == Some(Name(one))
            && Snap(Parse, SetTag, Name(one), format, second) == Some(Name(two))
    ensures Good(one) && Good(two) && one.tag != two.tag
    ensures |two.tag.value| == |one.tag.value| + |pre| + |post|
  {
    hide Fill, Spell, LegalRef, Parse, SetTag, Name, Suffixed, Around, Colon, IsWalk, Marked;
    var t := pre + r.tag.value + post;
    TagOfLegal(r);
    SuffixedIsGood(t, first.snapshot);
    one := MirrorGoesOn(r, pre, post, first);
    SuffixIsMarked(t, first.snapshot);
    StaysMarked(pre, one.tag.value, post);
    MarkedIsKept(pre + one.tag.value + post, second.snapshot);
    two := MirrorGoesOn(one, pre, post, second);
  }

  // ---------- A format without {tag} ----------

  const SAMPLE := [Text("mirror/team")] + [Text("/"), Key("last_repository")]

  lemma SampleFills(r: Ref)
    ensures PiecesOk(SAMPLE) && Fill(r, SAMPLE) == "mirror/team" + ("/" + LastSegment(r.path))
  {
    hide Fill, LastSegment;
    KeysFill(r);
    FillOne(r, Text("mirror/team"));
    FillTwo(r, Text("/"), Key("last_repository"));
    FillConcat(r, [Text("mirror/team")], [Text("/"), Key("last_repository")]);
    assert PieceOk(Text("mirror/team")) && PieceOk(Text("/"));
  }

  lemma SampleParses(seg: string)
    requires Plain(seg) && seg != "" && '/' !in seg && ':' !in seg
    ensures var filled := Ref("mirror", "team/" + seg, Some("latest"), "");
            Good(filled) && Parse("mirror/team" + ("/" + seg)) == Some(filled)
  {
    hide LastColon, FirstSlash, LastSegment;
    var s := "mirror/team" + ("/" + seg);
    SampleParts(seg);
    assert s == "mirror" + "/" + ("team/" + seg);
    FirstSlashIs("mirror", "team/" + seg);
    assert s[..6] == "mirror" && s[7..|s|] == "team/" + seg;
  }

  lemma SampleParts(seg: string)
    requires Plain(seg) && seg != "" && '/' !in seg && ':' !in seg
    ensures Good(Ref("mirror", "team/" + seg, Some("latest"), ""))
    ensures Plain("mirror/team" + ("/" + seg)) && ':' !in "mirror/team" + ("/" + seg)
  {
    hide LastSegment;
    LiteralParts();
    SameSegment("team/", seg);
    PlainBoth("team/", seg);
    PlainBoth("/", seg);
    PlainBoth("mirror/team", "/" + seg);
  }

  lemma LiteralParts()
    ensures PlainPath("mirror") && PlainPath("team/") && PlainPath("/") && PlainPath("mirror/team") && '/' !in "mirror"
    ensures Plain("latest") && TagText("latest")
  {
  }

  predicate PlainPath(s: string) {
    Plain(s) && ':' !in s
  }

  lemma PlainBoth(a: string, b: string)
    requires PlainPath(a) && PlainPath(b)
    ensures PlainPath(a + b)
  {
  }

  lemma SampleReads(r: Ref) returns (filled: Ref)
    requires Good(r)
    ensures Good(filled) && filled.tag == Some("latest") && PiecesOk(SAMPLE)
    ensures Parse(Fill(r, SAMPLE)) == Some(filled)
  {
    hide Fill, Parse, LastSegment;
    SegmentOfClean(r.path);
    SegmentHasNoColon(r.path);
    SegmentIsClean(r.path);
    SampleFills(r);
    SampleParses(LastSegment(r.path));
    filled := Ref("mirror", "team/" + LastSegment(r.path), Some("latest"), "");
  }

  lemma SameSegment(x: string, seg: string)
    requires seg != "" && '/' !in seg
    ensures LastSegment(x + seg) != ""
  {
    assert (x + seg)[|x + seg| - 1] == seg[|seg| - 1];
  }

  /** Without {tag} every image gets a suffix of its own, so the tag changes as soon as time
      and random part do. */
  lemma TagChanges(r: Ref, first: Cycle, second: Cycle) returns (one: Ref, two: Ref)
    requires Good(r) && IsWalk(first.order) && IsWalk(second.order) && Usual(first.snapshot) && Usual(second.snapshot)
    requires |MARK| + |first.snapshot.unix| + |first.snapshot.nonce| + 8 <= MAX_TAG
    requires |MARK| + |second.snapshot.unix| + |second.snapshot.nonce| + 8 <= MAX_TAG
    requires first.snapshot.unix + "-" + first.snapshot.nonce != second.snapshot.unix + "-" + second.snapshot.nonce
    ensures Snap(Parse, SetTag, Name(r), Spell(SAMPLE), first) == Some(Name(one))
    ensures Snap(Parse, SetTag, Name(one), Spell(SAMPLE), second) == Some(Name(two))
    ensures Good(one) && Good(two) && one.tag != two.tag
  {
    hide Fill, Spell, LegalRef, Parse, SetTag, Name, Suffixed, IsWalk, Marked;
    assert Plain("latest") && TagText("latest");
    SuffixedIsGood("latest", first.snapshot);
    SuffixedIsGood("latest", second.snapshot);
    var filled := SampleReads(r);
    one := GoesOn(r, SAMPLE, filled, Fill(r, SAMPLE), first);
    filled := SampleReads(one);
    two := GoesOn(one, SAMPLE, filled, Fill(one, SAMPLE), second);
    LatestIsPlain();
    RenewedAgree("latest", first.snapshot, second.snapshot);
  }

  lemma LatestIsPlain()
    ensures !Marked("latest")
  {
  }
}
