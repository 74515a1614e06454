/** Snapshots of snapshots: a container that runs on an image is snapshot, its successor is
    given the new image, and so on. What becomes of the tag depends on what the format has in
    the place of the tag. */
module Cycles {
  import opened Api
  import opened Template
  import opened Walks
  import opened Renderer

  datatype Cycle = Cycle(order: seq<string>, snapshot: Snapshot)

  ghost predicate Walkable(series: seq<Cycle>) {
    forall c | c in series :: IsWalk(c.order)
  }

  function Suffixed(tag: string, s: Snapshot): string {
    WithRandomTag(tag, s.appendSuffix, s.unix, s.nonce)
  }

  function Snap(parse: string -> Option<Ref>, withTag: (Ref, string) -> Option<string>,
                image: string, format: string, c: Cycle): Option<string>
    requires forall k | k in c.order :: k in KEYS
  {
    Render(parse, withTag, image, format, c.order, c.snapshot.appendSuffix, c.snapshot.unix, c.snapshot.nonce)
  }

  ghost function ImageAfter(parse: string -> Option<Ref>, withTag: (Ref, string) -> Option<string>,
                            image: string, format: string, series: seq<Cycle>): Option<string>
    requires Walkable(series)
  {
    if series == [] then Some(image)
    else
      match ImageAfter(parse, withTag, image, format, series[..|series| - 1])
      case None => None
      case Some(i) => Snap(parse, withTag, i, format, series[|series| - 1])
  }

  // ---------- What is assumed of references ----------

  /** Position of the last colon, or the length. */
  function LastColon(s: string): (i: nat)
    ensures i <= |s| && (i < |s| ==> s[i] == ':' && ':' !in s[i + 1..])
  {
    if s == "" then 0
    else if s[|s| - 1] == ':' then |s| - 1
    else
      var init := s[..|s| - 1];
      var i := LastColon(init);
      if i < |init| then assert s[i + 1..] == init[i + 1..] + [s[|s| - 1]]; i else |s|
  }

  predicate TagText(t: string) {
    '/' !in t && ':' !in t && '@' !in t
  }

  /** The tag in the text of a reference without a digest: what follows the last colon, unless
      that is part of the domain; then it is a default. */
  function TagRead(s: string, default: string): string {
    var i := LastColon(s);
    if i < |s| && '/' !in s[i + 1..] then s[i + 1..] else default
  }

  predicate LegalRef(r: Ref) {
    && r.domain != "" && LastSegment(r.path) != "" && '@' !in r.domain && '@' !in r.path && ':' !in r.path
    && (r.tag.Some? ==> r.tag.value != "" && TagText(r.tag.value))
    && (r.tag.None? ==> r.digest != "" && TagText(r.digest))
  }

  ghost predicate ReadsTags(parse: string -> Option<Ref>, default: string) {
    forall s: string | parse(s).Some? ::
      LegalRef(parse(s).value) && ('@' !in s ==> parse(s).value.tag == Some(TagRead(s, default)))
  }

  /** What WithTag makes of a tagged reference reads back as that reference with that tag. */
  ghost predicate ReadsBack(parse: string -> Option<Ref>, withTag: (Ref, string) -> Option<string>) {
    forall r: Ref, t | r.tag.Some? && withTag(r, t).Some? :: parse(withTag(r, t).value) == Some(r.(tag := Some(t)))
  }

  ghost predicate Lawful(parse: string -> Option<Ref>, withTag: (Ref, string) -> Option<string>, default: string) {
    ParsesCleanly(parse) && ReadsTags(parse, default) && ReadsBack(parse, withTag)
  }

  // ---------- One cycle ----------

  /** The tag that the filled-in format reads as. */
  function TagFilled(r: Ref, format: string, default: string): string {
    TagRead(Meaning(Values(r), format), default)
  }

  /** For every format without a digest: the new tag is the filled-in one with its suffix. */
  lemma OneCycle(parse: string -> Option<Ref>, withTag: (Ref, string) -> Option<string>, default: string,
                 image: string, format: string, c: Cycle)
    requires Lawful(parse, withTag, default) && IsWalk(c.order) && Snap(parse, withTag, image, format, c).Some?
    requires parse(image).Some? ==> '@' !in Meaning(Values(parse(image).value), format)
    ensures parse(image).Some?
    ensures var next := parse(Snap(parse, withTag, image, format, c).value);
            next.Some? && next.value.tag == Some(Suffixed(TagFilled(parse(image).value, format, default), c.snapshot))
  {
    hide WithRandomTag, Meaning, TagRead, LegalRef;
    RenderExactly(parse, withTag, image, format, c.order, c.snapshot.appendSuffix, c.snapshot.unix, c.snapshot.nonce);
    var r := parse(Meaning(Values(parse(image).value), format)).value;
    assert r.tag.Some? && withTag(r, Suffixed(r.tag.value, c.snapshot)).Some?;
  }

  ghost predicate Marked(t: string) {
    Contains(t, MARK)
  }

  lemma MarkedIsKept(t: string, s: Snapshot)
    requires s.appendSuffix ==> Marked(t)
    ensures Suffixed(t, s) == t
  {
  }

  lemma SuffixIsMarked(t: string, s: Snapshot)
    requires s.appendSuffix
    ensures Marked(Suffixed(t, s))
  {
    SuffixCarriesMark(t, s.unix, s.nonce);
  }

  lemma StaysMarked(a: string, t: string, b: string)
    requires Marked(t)
    ensures Marked(a + t + b)
  {
    var i :| OccursAt(t, MARK, i);
    assert (a + t + b)[|a| + i..|a| + i + |MARK|] == t[i..i + |MARK|];
    assert OccursAt(a + t + b, MARK, |a| + i);
  }

  // ---------- Formats in pieces ----------

  /** A format without nested braces, in pieces: texts and placeholders. */
  datatype Piece = Text(s: string) | Key(k: string)

  predicate PieceClean(p: Piece) {
    match p case Text(s) => NoBraces(s) case Key(k) => k in KEYS
  }

  predicate PiecesClean(ps: seq<Piece>) {
    forall p | p in ps :: PieceClean(p)
  }

  /** And nothing that would begin a digest. */
  predicate PieceOk(p: Piece) {
    PieceClean(p) && (p.Text? ==> '@' !in p.s)
  }

  predicate PiecesOk(ps: seq<Piece>) {
    forall p | p in ps :: PieceOk(p)
  }

  function SpellPiece(p: Piece): string {
    match p case Text(s) => s case Key(k) => Placeholder(k)
  }

  function Spell(ps: seq<Piece>): string {
    if ps == [] then "" else SpellPiece(ps[0]) + Spell(ps[1..])
  }

  function FillPiece(r: Ref, p: Piece): string {
    match p case Text(s) => s case Key(k) => if k in Values(r) then Values(r)[k] else ""
  }

  function Fill(r: Ref, ps: seq<Piece>): string {
    if ps == [] then "" else FillPiece(r, ps[0]) + Fill(r, ps[1..])
  }

  lemma ScanPiece(r: Ref, f: string, n: Notes, p: Piece)
    requires Clean(Values(r)) && PieceClean(p) && |n.kids| == 1
    ensures Scan(Values(r), [f], SpellPiece(p)) == [f + FillPiece(r, p)]
    ensures Study(Values(r), [f], n, SpellPiece(p)).pairs == n.pairs
  {
    if p.Text? {
      ScanPlain(Values(r), [f], p.s);
      StudyPlain(Values(r), [f], n, p.s);
    } else {
      assert p.k in Values(r);
      ScanPlaceholder(Values(r), [f], p.k);
      ScanPlain(Values(r), [f], Values(r)[p.k]);
      StudyPlaceholder(Values(r), [f], n, p.k);
    }
  }

  lemma {:induction false} ScanPieces(r: Ref, f: string, n: Notes, ps: seq<Piece>)
    requires Clean(Values(r)) && PiecesClean(ps) && |n.kids| == 1
    ensures Scan(Values(r), [f], Spell(ps)) == [f + Fill(r, ps)]
    ensures Study(Values(r), [f], n, Spell(ps)).pairs == n.pairs
    decreases ps
  {
    hide Values, SpellPiece, FillPiece, PieceClean;
    if ps == [] {
      assert f + "" == f;
    } else {
      var a, b := SpellPiece(ps[0]), Spell(ps[1..]);
      ScanPiece(r, f, n, ps[0]);
      ScanConcat(Values(r), [f], a, b);
      StudyConcat(Values(r), [f], n, a, b);
      ScanPieces(r, f + FillPiece(r, ps[0]), Study(Values(r), [f], n, a), ps[1..]);
      assert f + FillPiece(r, ps[0]) + Fill(r, ps[1..]) == f + (FillPiece(r, ps[0]) + Fill(r, ps[1..]));
    }
  }

  /** Such a format means its pieces, filled in, and no key has to wait for another. */
  lemma PiecesMean(r: Ref, ps: seq<Piece>)
    requires Clean(Values(r)) && PiecesClean(ps)
    ensures Meaning(Values(r), Spell(ps)) == Fill(r, ps)
    ensures Before(Values(r), Spell(ps)) == {}
  {
    ScanPieces(r, "", NO_NOTES, ps);
    assert "" + Fill(r, ps) == Fill(r, ps);
  }

  lemma {:induction false} SpellConcat(a: seq<Piece>, b: seq<Piece>)
    ensures Spell(a + b) == Spell(a) + Spell(b)
  {
    if a == [] {
      assert a + b == b;
    } else {
      assert (a + b)[1..] == a[1..] + b;
      SpellConcat(a[1..], b);
    }
  }

  lemma {:induction false} FillConcat(r: Ref, a: seq<Piece>, b: seq<Piece>)
    ensures Fill(r, a + b) == Fill(r, a) + Fill(r, b)
  {
    if a == [] {
      assert a + b == b;
    } else {
      assert (a + b)[1..] == a[1..] + b;
      FillConcat(r, a[1..], b);
    }
  }

  lemma FillOne(r: Ref, p: Piece)
    ensures Fill(r, [p]) == FillPiece(r, p)
  {
    assert FillPiece(r, p) + "" == FillPiece(r, p);
  }

  lemma FillTwo(r: Ref, p: Piece, q: Piece)
    ensures Fill(r, [p, q]) == FillPiece(r, p) + FillPiece(r, q)
  {
    hide Fill, FillPiece;
    assert [p] + [q] == [p, q];
    FillConcat(r, [p], [q]);
    FillOne(r, p);
    FillOne(r, q);
  }

  lemma {:induction false} SegmentOfClean(path: string)
    requires '@' !in path
    ensures '@' !in LastSegment(path) && '/' !in LastSegment(path)
  {
    if path != "" && path[|path| - 1] != '/' { SegmentOfClean(path[..|path| - 1]); }
  }

  lemma LegalValues(r: Ref, k: string)
    requires LegalRef(r) && k in Values(r)
    ensures '@' !in Values(r)[k] && Values(r)[k] != ""
  {
    SegmentOfClean(r.path);
  }

  lemma {:induction false} NoDigestIn(r: Ref, ps: seq<Piece>)
    requires LegalRef(r) && PiecesOk(ps)
    ensures '@' !in Fill(r, ps)
  {
    if ps != [] {
      assert PieceOk(ps[0]);
      if ps[0].Key? { LegalValues(r, ps[0].k); }
      NoDigestIn(r, ps[1..]);
    }
  }

  /** With pieces the walk does not matter: an image name is what the filled-in pieces parse
      as, with the tag's suffix. */
  lemma RenderPieces(parse: string -> Option<Ref>, withTag: (Ref, string) -> Option<string>, origin: string,
                     ps: seq<Piece>, order: seq<string>, appendSuffix: bool, unix: string, nonce: string)
    requires ParsesCleanly(parse) && parse(origin).Some? && IsWalk(order) && PiecesClean(ps)
    ensures Render(parse, withTag, origin, Spell(ps), order, appendSuffix, unix, nonce)
         == match parse(Fill(parse(origin).value, ps))
            case None => None
            case Some(r) => withTag(r, WithRandomTag(if r.tag.Some? then r.tag.value else "", appendSuffix, unix, nonce))
  {
    hide Spell, Fill, Meaning, Before, WithRandomTag;
    ValuesAreClean(parse, origin);
    PiecesMean(parse(origin).value, ps);
    RenderExactly(parse, withTag, origin, Spell(ps), order, appendSuffix, unix, nonce);
  }

  /** For the placeholders' values: of an image at domain d with path q/s, s without a slash,
      the format f/{last_repository} is filled in as f/s, however the map is walked. */
  lemma RenderLastRepository(parse: string -> Option<Ref>, withTag: (Ref, string) -> Option<string>, origin: string,
                             f: string, q: string, s: string, order: seq<string>,
                             appendSuffix: bool, unix: string, nonce: string)
    requires ParsesCleanly(parse) && parse(origin).Some? && IsWalk(order) && NoBraces(f)
    requires '/' !in s && (parse(origin).value.path == q + "/" + s || parse(origin).value.path == s)
    ensures Render(parse, withTag, origin, f + "/{last_repository}", order, appendSuffix, unix, nonce)
         == match parse(f + "/" + s)
            case None => None
            case Some(r) => withTag(r, WithRandomTag(if r.tag.Some? then r.tag.value else "", appendSuffix, unix, nonce))
  {
    hide WithRandomTag, LastSegment;
    var r := parse(origin).value;
    var ps := [Text(f)] + [Text("/"), Key("last_repository")];
    if r.path == q + "/" + s { SegmentBehind(q, s); } else { WholeSegment(s); }
    FillConcat(r, [Text(f)], [Text("/"), Key("last_repository")]);
    FillOne(r, Text(f));
    FillTwo(r, Text("/"), Key("last_repository"));
    assert f + ("/" + s) == f + "/" + s;
    SpellLast(f);
    RenderPieces(parse, withTag, origin, ps, order, appendSuffix, unix, nonce);
  }

  lemma WholeSegment(s: string)
    requires '/' !in s
    ensures LastSegment(s) == s
  {
    LastSegmentIs(s);
  }

  lemma SpellOne(p: Piece)
    ensures Spell([p]) == SpellPiece(p)
  {
    assert SpellPiece(p) + "" == SpellPiece(p);
  }

  lemma SpellLast(f: string)
    ensures Spell([Text(f)] + [Text("/"), Key("last_repository")]) == f + "/{last_repository}"
  {
    hide Spell;
    var slash, key := Text("/"), Key("last_repository");
    SpellOne(Text(f));
    SpellOne(slash);
    SpellOne(key);
    SpellConcat([Text(f)], [slash] + [key]);
    SpellConcat([slash], [key]);
    assert [slash] + [key] == [slash, key];
    assert f + ("/" + "{last_repository}") == f + "/{last_repository}";
  }

  // ---------- What such a format reads as ----------

  /** The pieces before the tag's colon, and those after it. */
  function Colon(head: seq<Piece>, tail: seq<Piece>): seq<Piece> {
    head + ([Text(":")] + tail)
  }

  lemma {:induction false} LastColonIs(x: string, t: string)
    requires ':' !in t
    ensures LastColon(x + ":" + t) == |x|
    decreases |t|
  {
    var s := x + ":" + t;
    if t == "" {
      assert s == x + ":";
    } else {
      assert s[..|s| - 1] == x + ":" + t[..|t| - 1];
      LastColonIs(x, t[..|t| - 1]);
    }
  }

  /** Where the pieces after the colon make a tag, they are the tag. */
  lemma TailIsRead(r: Ref, head: seq<Piece>, tail: seq<Piece>, default: string)
    requires Clean(Values(r)) && LegalRef(r) && PiecesOk(head) && PiecesOk(tail) && TagText(Fill(r, tail))
    ensures TagFilled(r, Spell(Colon(head, tail)), default) == Fill(r, tail)
    ensures '@' !in Meaning(Values(r), Spell(Colon(head, tail)))
  {
    hide Meaning, Spell, Fill;
    var x, t := Fill(r, head), Fill(r, tail);
    PiecesMean(r, Colon(head, tail));
    FillColon(r, head, tail);
    LastColonIs(x, t);
    assert (x + ":" + t)[|x| + 1..] == t;
    NoDigestIn(r, Colon(head, tail));
  }

  lemma FillColon(r: Ref, head: seq<Piece>, tail: seq<Piece>)
    ensures Fill(r, Colon(head, tail)) == Fill(r, head) + ":" + Fill(r, tail)
  {
    FillConcat(r, head, [Text(":")] + tail);
    assert ([Text(":")] + tail)[1..] == tail;
    assert Fill(r, [Text(":")] + tail) == ":" + Fill(r, tail);
    assert Fill(r, head) + (":" + Fill(r, tail)) == Fill(r, head) + ":" + Fill(r, tail);
  }

  // ---------- Formats that keep the tag ----------

  /** The pieces without the empty texts. */
  function Trim(ps: seq<Piece>): seq<Piece> {
    if ps == [] then [] else (if ps[0] == Text("") then [] else [ps[0]]) + Trim(ps[1..])
  }

  /** Just {tag}. */
  predicate Alone(tail: seq<Piece>) {
    Trim(tail) == [Key("tag")]
  }

  lemma {:induction false} FillAtLeast(r: Ref, ps: seq<Piece>)
    requires LegalRef(r) && PiecesOk(ps)
    ensures |Fill(r, ps)| >= |Trim(ps)| && (Trim(ps) == [] ==> Fill(r, ps) == "")
  {
    if ps != [] {
      assert PieceOk(ps[0]);
      if ps[0].Key? { LegalValues(r, ps[0].k); }
      FillAtLeast(r, ps[1..]);
    }
  }

  lemma TrimPiece(r: Ref, ps: seq<Piece>)
    requires LegalRef(r) && PiecesOk(ps) && ps != []
    ensures |Trim(ps)| == |Trim(ps[1..])| + (if ps[0] == Text("") then 0 else 1)
    ensures |FillPiece(r, ps[0])| >= |Trim(ps)| - |Trim(ps[1..])|
    ensures ps[0] == Text("") ==> Trim(ps) == Trim(ps[1..]) && FillPiece(r, ps[0]) == ""
    ensures ps[0] != Text("") ==> Trim(ps) == [ps[0]] + Trim(ps[1..])
  {
    assert PieceOk(ps[0]);
    if ps[0].Key? { LegalValues(r, ps[0].k); }
  }

  /** A tail with {tag} holds the tag, and is longer by at least each other piece. */
  lemma {:induction false} FillHolds(r: Ref, tail: seq<Piece>) returns (a: string, b: string)
    requires LegalRef(r) && PiecesOk(tail) && Key("tag") in tail
    ensures Fill(r, tail) == a + OwnTag(r) + b && |a| + |b| + 1 >= |Trim(tail)| >= 1
    ensures Alone(tail) ==> a == b == ""
  {
    hide LegalRef, OwnTag, FillPiece, PieceOk, Trim;
    var v, rest := OwnTag(r), tail[1..];
    TrimPiece(r, tail);
    if tail[0] == Key("tag") {
      a, b := "", Fill(r, rest);
      TagPiece(r);
      assert v + b == a + v + b;
      FillAtLeast(r, rest);
    } else {
      var a', b' := FillHolds(r, rest);
      a, b := FillPiece(r, tail[0]) + a', b';
      assert FillPiece(r, tail[0]) + (a' + v + b') == a + v + b;
    }
  }

  lemma TagPiece(r: Ref)
    ensures FillPiece(r, Key("tag")) == OwnTag(r)
  {
  }

  lemma NotAlone(tail: seq<Piece>)
    requires Key("tag") in tail && !Alone(tail)
    ensures |Trim(tail)| >= 2
  {
    TrimKeeps(tail, Key("tag"));
  }

  lemma {:induction false} TrimKeeps(ps: seq<Piece>, p: Piece)
    requires p in ps && p != Text("")
    ensures p in Trim(ps)
  {
    if ps[0] != p { TrimKeeps(ps[1..], p); }
  }

  /** Along the series the pieces after the colon make a tag. */
  ghost predicate TagTails(parse: string -> Option<Ref>, withTag: (Ref, string) -> Option<string>,
                           image: string, format: string, tail: seq<Piece>, series: seq<Cycle>)
    requires Walkable(series)
  {
    forall n | 0 <= n < |series| ::
      var i := ImageAfter(parse, withTag, image, format, series[..n]);
      i.Some? && parse(i.value).Some? ==> TagText(Fill(parse(i.value).value, tail))
  }

  /** No further suffix is appended after the first cycle: it has appended one, or none of the
      later ones asks for one. */
  predicate OneSuffix(first: Cycle, later: seq<Cycle>) {
    first.snapshot.appendSuffix || forall c | c in later :: !c.snapshot.appendSuffix
  }

  /** One cycle of an image whose tag carries the mark, or one that asks for no suffix. */
  lemma MarkedCycle(parse: string -> Option<Ref>, withTag: (Ref, string) -> Option<string>, default: string,
                    image: string, head: seq<Piece>, tail: seq<Piece>, c: Cycle)
    requires Lawful(parse, withTag, default) && IsWalk(c.order) && PiecesOk(head) && PiecesOk(tail) && Key("tag") in tail
    requires Snap(parse, withTag, image, Spell(Colon(head, tail)), c).Some? && parse(image).Some?
    requires c.snapshot.appendSuffix && parse(image).value.tag.Some? ==> Marked(parse(image).value.tag.value)
    requires parse(image).value.tag.Some? && TagText(Fill(parse(image).value, tail))
    ensures var next := parse(Snap(parse, withTag, image, Spell(Colon(head, tail)), c).value);
            && next.Some? && next.value.tag == Some(Fill(parse(image).value, tail))
            && (Marked(parse(image).value.tag.value) ==> Marked(next.value.tag.value))
            && |next.value.tag.value| >= |parse(image).value.tag.value| + |Trim(tail)| - 1
            && (Alone(tail) ==> next.value.tag == parse(image).value.tag)
  {
    hide Snap, Suffixed, Spell, Marked, Fill, LegalRef, TagFilled, ReadsBack, Colon, Trim;
    var r := parse(image).value;
    CleanAndLegal(parse, withTag, default, image);
    TailIsRead(r, head, tail, default);
    OneCycle(parse, withTag, default, image, Spell(Colon(head, tail)), c);
    var a, b := FillHolds(r, tail);
    if Marked(r.tag.value) { StaysMarked(a, r.tag.value, b); }
    MarkedIsKept(Fill(r, tail), c.snapshot);
    assert "" + r.tag.value + "" == r.tag.value;
  }

  lemma CleanAndLegal(parse: string -> Option<Ref>, withTag: (Ref, string) -> Option<string>, default: string, image: string)
    requires Lawful(parse, withTag, default) && parse(image).Some?
    ensures Clean(Values(parse(image).value)) && LegalRef(parse(image).value)
  {
    ValuesAreClean(parse, image);
  }

  /** The first cycle. */
  lemma FirstCycle(parse: string -> Option<Ref>, withTag: (Ref, string) -> Option<string>, default: string,
                   image: string, head: seq<Piece>, tail: seq<Piece>, first: Cycle)
    requires Lawful(parse, withTag, default) && IsWalk(first.order) && PiecesOk(head) && PiecesOk(tail)
    requires Snap(parse, withTag, image, Spell(Colon(head, tail)), first).Some?
    requires parse(image).Some? ==> TagText(Fill(parse(image).value, tail))
    ensures parse(image).Some?
    ensures var one := parse(Snap(parse, withTag, image, Spell(Colon(head, tail)), first).value);
            && one.Some? && one.value.tag == Some(Suffixed(Fill(parse(image).value, tail), first.snapshot))
            && (first.snapshot.appendSuffix ==> Marked(one.value.tag.value))
  {
    hide Suffixed, Spell, Marked, Fill, LegalRef, TagFilled, ReadsBack, Colon;
    if parse(image).Some? {
      CleanAndLegal(parse, withTag, default, image);
      TailIsRead(parse(image).value, head, tail, default);
    }
    OneCycle(parse, withTag, default, image, Spell(Colon(head, tail)), first);
    if first.snapshot.appendSuffix { SuffixIsMarked(Fill(parse(image).value, tail), first.snapshot); }
  }

  lemma AfterOne(parse: string -> Option<Ref>, withTag: (Ref, string) -> Option<string>, image: string, format: string, c: Cycle)
    requires IsWalk(c.order)
    ensures Walkable([c]) && ImageAfter(parse, withTag, image, format, [c]) == Snap(parse, withTag, image, format, c)
  {
    assert [c][..0] == [];
  }

  lemma AfterMore(parse: string -> Option<Ref>, withTag: (Ref, string) -> Option<string>, image: string, format: string,
                  first: Cycle, later: seq<Cycle>)
    requires Walkable([first] + later) && later != []
    ensures var init, c := later[..|later| - 1], later[|later| - 1];
            && Walkable([first] + init) && IsWalk(c.order)
            && var before := ImageAfter(parse, withTag, image, format, [first] + init);
               ImageAfter(parse, withTag, image, format, [first] + later)
               == if before.None? then None else Snap(parse, withTag, before.value, format, c)
  {
    hide Snap, IsWalk;
    var init, c := later[..|later| - 1], later[|later| - 1];
    assert ([first] + later)[..|later|] == [first] + init;
    assert c in [first] + later && forall x | x in [first] + init :: x in [first] + later;
  }

  lemma TailsBefore(parse: string -> Option<Ref>, withTag: (Ref, string) -> Option<string>, image: string, format: string,
                    tail: seq<Piece>, first: Cycle, later: seq<Cycle>)
    requires Walkable([first] + later) && TagTails(parse, withTag, image, format, tail, [first] + later)
    ensures parse(image).Some? ==> TagText(Fill(parse(image).value, tail))
    ensures later != [] ==>
              var init := later[..|later| - 1];
              && Walkable([first] + init) && TagTails(parse, withTag, image, format, tail, [first] + init)
              && var i := ImageAfter(parse, withTag, image, format, [first] + init);
                 i.Some? && parse(i.value).Some? ==> TagText(Fill(parse(i.value).value, tail))
  {
    var series := [first] + later;
    assert series[..0] == [];
    if later != [] {
      var init := later[..|later| - 1];
      assert series[..|later|] == [first] + init;
      assert forall x | x in [first] + init :: x in series;
      forall n | 0 <= n < |[first] + init| ensures series[..n] == ([first] + init)[..n] {
      }
    }
  }

  /** A series of cycles, as far as it yields images, with {tag} in the tag's place. */
  lemma {:induction false} TailThroughCycles(parse: string -> Option<Ref>, withTag: (Ref, string) -> Option<string>, default: string,
                                             image: string, head: seq<Piece>, tail: seq<Piece>, first: Cycle, later: seq<Cycle>)
    requires Lawful(parse, withTag, default) && PiecesOk(head) && PiecesOk(tail) && Key("tag") in tail
    requires Walkable([first] + later) && OneSuffix(first, later) && IsWalk(first.order)
    requires TagTails(parse, withTag, image, Spell(Colon(head, tail)), tail, [first] + later)
    requires ImageAfter(parse, withTag, image, Spell(Colon(head, tail)), [first] + later).Some?
    ensures Snap(parse, withTag, image, Spell(Colon(head, tail)), first).Some?
    ensures var one := parse(Snap(parse, withTag, image, Spell(Colon(head, tail)), first).value);
            var last := parse(ImageAfter(parse, withTag, image, Spell(Colon(head, tail)), [first] + later).value);
            && one.Some? && one.value.tag.Some? && last.Some? && last.value.tag.Some?
            && (first.snapshot.appendSuffix ==> Marked(last.value.tag.value))
            && |last.value.tag.value| >= |one.value.tag.value| + |later| * (|Trim(tail)| - 1)
            && (Alone(tail) ==> last.value.tag == one.value.tag)
  {
    hide Lawful, ImageAfter, Snap, Suffixed, Spell, Marked, Fill, Colon, Trim, IsWalk, TagTails, PiecesOk, Alone;
    var format := Spell(Colon(head, tail));
    TailsBefore(parse, withTag, image, format, tail, first, later);
    if later == [] {
      assert [first] + later == [first];
      AfterOne(parse, withTag, image, format, first);
      FirstCycle(parse, withTag, default, image, head, tail, first);
    } else {
      var init, c := later[..|later| - 1], later[|later| - 1];
      AfterMore(parse, withTag, image, format, first, later);
      TailThroughCycles(parse, withTag, default, image, head, tail, first, init);
      MarkedCycle(parse, withTag, default, ImageAfter(parse, withTag, image, format, [first] + init).value, head, tail, c);
      assert |later| * (|Trim(tail)| - 1) == |init| * (|Trim(tail)| - 1) + (|Trim(tail)| - 1);
    }
  }

  /** With {tag} in the tag's place, the tag of the first suffixed image, or of any image if no
      suffix is asked for, stays through all cycles, walks, times and random parts exactly if
      there is nothing else in that place; else every cycle makes it longer, by a character
      for each other piece at least. */
  lemma TagIsFixedExactly(parse: string -> Option<Ref>, withTag: (Ref, string) -> Option<string>, default: string,
                          image: string, head: seq<Piece>, tail: seq<Piece>, first: Cycle, later: seq<Cycle>)
    requires Lawful(parse, withTag, default) && PiecesOk(head) && PiecesOk(tail) && Key("tag") in tail
    requires Walkable([first] + later) && OneSuffix(first, later) && IsWalk(first.order) && later != []
    requires TagTails(parse, withTag, image, Spell(Colon(head, tail)), tail, [first] + later)
    requires ImageAfter(parse, withTag, image, Spell(Colon(head, tail)), [first] + later).Some?
    ensures Snap(parse, withTag, image, Spell(Colon(head, tail)), first).Some?
    ensures var one := parse(Snap(parse, withTag, image, Spell(Colon(head, tail)), first).value);
            var last := parse(ImageAfter(parse, withTag, image, Spell(Colon(head, tail)), [first] + later).value);
            && one.Some? && one.value.tag.Some? && last.Some? && last.value.tag.Some?
            && (last.value.tag == one.value.tag <==> Alone(tail))
            && |last.value.tag.value| >= |one.value.tag.value| + |later| * (|Trim(tail)| - 1)
            && (!Alone(tail) ==> |last.value.tag.value| >= |one.value.tag.value| + |later|)
  {
    hide Lawful, ImageAfter, Snap, Spell, Colon, Trim, IsWalk, TagTails, PiecesOk, Alone;
    TailThroughCycles(parse, withTag, default, image, head, tail, first, later);
    if !Alone(tail) {
      NotAlone(tail);
      AtLeastTimes(|later|, |Trim(tail)| - 1);
    }
  }

  lemma AtLeastTimes(n: nat, k: nat)
    requires k >= 1
    ensures n * k >= n
  {
  }

  // ---------- Text around {tag} ----------

  function Times(text: string, n: nat): string {
    if n == 0 then "" else text + Times(text, n - 1)
  }

  lemma {:induction false} TimesSnoc(text: string, n: nat)
    ensures Times(text, n) + text == text + Times(text, n)
  {
    if n > 0 {
      TimesSnoc(text, n - 1);
      assert text + Times(text, n - 1) + text == text + (Times(text, n - 1) + text);
    } else {
      assert "" + text == text + "";
    }
  }

  lemma {:induction false} TimesLength(text: string, n: nat)
    ensures |Times(text, n)| == n * |text|
  {
    if n > 0 { TimesLength(text, n - 1); }
  }

  /** {tag} with `pre` before it and `post` after it. */
  function Around(pre: string, post: string): seq<Piece> {
    [Text(pre), Key("tag"), Text(post)]
  }

  lemma AroundFills(r: Ref, pre: string, post: string)
    requires LegalRef(r) && TagText(pre) && TagText(post)
    ensures Fill(r, Around(pre, post)) == pre + OwnTag(r) + post && TagText(Fill(r, Around(pre, post)))
  {
    var tail := Around(pre, post);
    assert tail[1..] == [Key("tag"), Text(post)] && tail[1..][1..] == [Text(post)] && tail[1..][1..][1..] == [];
    assert Fill(r, [Text(post)]) == post + "" == post;
    assert Fill(r, [Key("tag"), Text(post)]) == OwnTag(r) + post;
    assert pre + (OwnTag(r) + post) == pre + OwnTag(r) + post;
  }

  lemma AroundAlone(pre: string, post: string)
    ensures Alone(Around(pre, post)) <==> pre == "" && post == ""
  {
    var tail := Around(pre, post);
    assert tail[1..] == [Key("tag"), Text(post)] && tail[1..][1..] == [Text(post)] && tail[1..][1..][1..] == [];
    assert Trim([Text(post)]) == if post == "" then [] else [Text(post)];
    assert Trim([Key("tag"), Text(post)]) == [Key("tag")] + Trim([Text(post)]);
    assert Trim(tail) == (if pre == "" then [] else [Text(pre)]) + Trim(tail[1..]);
  }

  lemma AroundIsTail(parse: string -> Option<Ref>, withTag: (Ref, string) -> Option<string>, default: string,
                     image: string, format: string, pre: string, post: string, series: seq<Cycle>)
    requires Lawful(parse, withTag, default) && Walkable(series) && TagText(pre) && TagText(post)
    ensures TagTails(parse, withTag, image, format, Around(pre, post), series)
  {
    hide ImageAfter, Values, Fill, TagText, Around;
    forall n | 0 <= n < |series|
      ensures var i := ImageAfter(parse, withTag, image, format, series[..n]);
              i.Some? && parse(i.value).Some? ==> TagText(Fill(parse(i.value).value, Around(pre, post)))
    {
      var i := ImageAfter(parse, withTag, image, format, series[..n]);
      if i.Some? && parse(i.value).Some? { AroundFills(parse(i.value).value, pre, post); }
    }
  }

  lemma AroundOk(pre: string, post: string)
    requires NoBraces(pre) && NoBraces(post) && TagText(pre) && TagText(post)
    ensures PiecesOk(Around(pre, post)) && Key("tag") in Around(pre, post)
  {
    assert Around(pre, post)[1] == Key("tag");
  }

  /** With text around {tag} the suffix is appended once, and each cycle puts the text around
      the tag once more. */
  lemma {:induction false} TagThroughCycles(parse: string -> Option<Ref>, withTag: (Ref, string) -> Option<string>, default: string,
                                            image: string, head: seq<Piece>, pre: string, post: string,
                                            first: Cycle, later: seq<Cycle>)
    requires Lawful(parse, withTag, default) && PiecesOk(head)
    requires NoBraces(pre) && NoBraces(post) && TagText(pre) && TagText(post)
    requires Walkable([first] + later) && OneSuffix(first, later) && IsWalk(first.order)
    requires ImageAfter(parse, withTag, image, Spell(Colon(head, Around(pre, post))), [first] + later).Some?
    ensures parse(image).Some?
    ensures var t := pre + OwnTag(parse(image).value) + post;
            var last := parse(ImageAfter(parse, withTag, image, Spell(Colon(head, Around(pre, post))), [first] + later).value);
            last.Some? && last.value.tag == Some(Times(pre, |later|) + Suffixed(t, first.snapshot) + Times(post, |later|))
    ensures first.snapshot.appendSuffix ==> Marked(Suffixed(pre + OwnTag(parse(image).value) + post, first.snapshot))
  {
    hide Lawful, ImageAfter, Snap, Suffixed, Spell, Marked, Fill, Colon, Trim, IsWalk, TagTails, PiecesOk, Alone, Around, Times, TagText;
    hide LegalRef, Values;
    var tail := Around(pre, post);
    var format := Spell(Colon(head, tail));
    AroundOk(pre, post);
    AroundIsTail(parse, withTag, default, image, format, pre, post, [first] + later);
    TailsBefore(parse, withTag, image, format, tail, first, later);
    if later == [] {
      assert [first] + later == [first];
      AfterOne(parse, withTag, image, format, first);
      FirstCycle(parse, withTag, default, image, head, tail, first);
      CleanAndLegal(parse, withTag, default, image);
      AroundFills(parse(image).value, pre, post);
      NoTimes(pre, post, Suffixed(Fill(parse(image).value, tail), first.snapshot));
      if first.snapshot.appendSuffix { SuffixIsMarked(Fill(parse(image).value, tail), first.snapshot); }
    } else {
      var init, c := later[..|later| - 1], later[|later| - 1];
      AfterMore(parse, withTag, image, format, first, later);
      TagThroughCycles(parse, withTag, default, image, head, pre, post, first, init);
      var before := ImageAfter(parse, withTag, image, format, [first] + init).value;
      var t := Suffixed(pre + OwnTag(parse(image).value) + post, first.snapshot);
      if first.snapshot.appendSuffix { StaysMarked(Times(pre, |init|), t, Times(post, |init|)); }
      MarkedCycle(parse, withTag, default, before, head, tail, c);
      CleanAndLegal(parse, withTag, default, before);
      AroundFills(parse(before).value, pre, post);
      OnceMore(pre, t, post, |init|);
    }
  }

  lemma NoTimes(pre: string, post: string, t: string)
    ensures Times(pre, 0) + t + Times(post, 0) == t
  {
  }

  lemma OnceMore(pre: string, t: string, post: string, n: nat)
    ensures pre + (Times(pre, n) + t + Times(post, n)) + post == Times(pre, n + 1) + t + Times(post, n + 1)
  {
    TimesSnoc(post, n);
    assert pre + (Times(pre, n) + t + Times(post, n)) + post == (pre + Times(pre, n)) + t + (Times(post, n) + post);
  }

  /** So each cycle adds exactly the length of that text. */
  lemma GrowthExactly(parse: string -> Option<Ref>, withTag: (Ref, string) -> Option<string>, default: string,
                      image: string, head: seq<Piece>, pre: string, post: string, first: Cycle, later: seq<Cycle>)
    requires Lawful(parse, withTag, default) && PiecesOk(head)
    requires NoBraces(pre) && NoBraces(post) && TagText(pre) && TagText(post)
    requires Walkable([first] + later) && OneSuffix(first, later) && IsWalk(first.order) && later != []
    requires ImageAfter(parse, withTag, image, Spell(Colon(head, Around(pre, post))), [first] + later).Some?
    ensures Snap(parse, withTag, image, Spell(Colon(head, Around(pre, post))), first).Some?
    ensures var one := parse(Snap(parse, withTag, image, Spell(Colon(head, Around(pre, post))), first).value);
            var last := parse(ImageAfter(parse, withTag, image, Spell(Colon(head, Around(pre, post))), [first] + later).value);
            && one.Some? && one.value.tag.Some? && last.Some? && last.value.tag.Some?
            && (last.value.tag == one.value.tag <==> pre == "" && post == "")
            && |last.value.tag.value| == |one.value.tag.value| + |later| * (|pre| + |post|)
  {
    hide Lawful, ImageAfter, Snap, Suffixed, Spell, Marked, Fill, Colon, Trim, IsWalk, TagTails, PiecesOk, Alone, Around, Times, TagText;
    hide LegalRef, Values;
    var format := Spell(Colon(head, Around(pre, post)));
    AroundOk(pre, post);
    AroundIsTail(parse, withTag, default, image, format, pre, post, [first] + later);
    TagIsFixedExactly(parse, withTag, default, image, head, Around(pre, post), first, later);
    AroundAlone(pre, post);
    assert [first] + [] == [first];
    AfterOne(parse, withTag, image, format, first);
    TagThroughCycles(parse, withTag, default, image, head, pre, post, first, []);
    NoTimes(pre, post, Suffixed(pre + OwnTag(parse(image).value) + post, first.snapshot));
    TagThroughCycles(parse, withTag, default, image, head, pre, post, first, later);
    TimesLength(pre, |later|);
    TimesLength(post, |later|);
    assert |later| * |pre| + |later| * |post| == |later| * (|pre| + |post|);
  }

  // ---------- Formats without {tag} ----------

  /** Along the series every image makes the format read as a reference of this tag. */
  ghost predicate ReadsAlways(parse: string -> Option<Ref>, withTag: (Ref, string) -> Option<string>, default: string,
                              image: string, format: string, text: string, series: seq<Cycle>)
    requires Walkable(series)
  {
    forall n | 0 <= n < |series| ::
      var i := ImageAfter(parse, withTag, image, format, series[..n]);
      i.Some? && parse(i.value).Some? ==> ReadsAs(parse(i.value).value, format, text, default)
  }

  predicate ReadsAs(r: Ref, format: string, text: string, default: string) {
    TagFilled(r, format, default) == text && '@' !in Meaning(Values(r), format)
  }

  /** A format that always reads as the same tag gives every image that tag with a suffix of
      its own, whatever tag came before. */
  lemma TagIsRenewed(parse: string -> Option<Ref>, withTag: (Ref, string) -> Option<string>, default: string,
                     image: string, format: string, text: string, series: seq<Cycle>)
    requires Lawful(parse, withTag, default) && Walkable(series) && series != []
    requires ReadsAlways(parse, withTag, default, image, format, text, series)
    requires ImageAfter(parse, withTag, image, format, series).Some?
    ensures var last := parse(ImageAfter(parse, withTag, image, format, series).value);
            last.Some? && last.value.tag == Some(Suffixed(text, series[|series| - 1].snapshot))
  {
    hide Snap, Suffixed, TagFilled, Meaning, Lawful;
    var n := |series| - 1;
    var before := ImageAfter(parse, withTag, image, format, series[..n]).value;
    assert Snap(parse, withTag, before, format, series[n]).Some?;
    SnapParses(parse, withTag, before, format, series[n]);
    OneCycle(parse, withTag, default, before, format, series[n]);
  }

  lemma SnapParses(parse: string -> Option<Ref>, withTag: (Ref, string) -> Option<string>, image: string, format: string, c: Cycle)
    requires IsWalk(c.order) && Snap(parse, withTag, image, format, c).Some?
    ensures parse(image).Some?
  {
  }

  /** When that tag is the one of the first suffixed image: if the text itself carries the
      mark, or if the last cycle asks for a suffix and time and random part happen to agree. */
  lemma RenewedAgree(text: string, a: Snapshot, b: Snapshot)
    requires a.appendSuffix
    ensures Suffixed(text, b) == Suffixed(text, a)
            <==> Marked(text) || (b.appendSuffix && b.unix + "-" + b.nonce == a.unix + "-" + a.nonce)
  {
    if Marked(text) {
      MarkedIsKept(text, a);
      MarkedIsKept(text, b);
    } else {
      SuffixIsMarked(text, a);
      SuffixText(text, a);
      SuffixText(text, b);
      if b.appendSuffix {
        SameTail(if text == "" || text == "latest" then "" else text + "-", MARK, a.unix + "-" + a.nonce, b.unix + "-" + b.nonce);
      }
    }
  }

  lemma SuffixText(text: string, s: Snapshot)
    requires !Marked(text)
    ensures Suffixed(text, s)
         == if !s.appendSuffix then text
            else (if text == "" || text == "latest" then "" else text + "-") + MARK + (s.unix + "-" + s.nonce)
  {
    assert !exists i | 0 <= i <= |text| :: OccursAt(text, MARK, i);
    assert MARK + s.unix + "-" + s.nonce == MARK + (s.unix + "-" + s.nonce);
    assert text + "-" + (MARK + (s.unix + "-" + s.nonce)) == text + "-" + MARK + (s.unix + "-" + s.nonce);
    assert "" + MARK + (s.unix + "-" + s.nonce) == MARK + (s.unix + "-" + s.nonce);
  }

  lemma SameTail(a: string, m: string, x: string, y: string)
    ensures a + m + x == a + m + y <==> x == y
  {
    assert (a + m + x)[|a + m|..] == x;
    assert (a + m + y)[|a + m|..] == y;
  }

  /** A plain text in the tag's place always reads as that text. */
  lemma FixedTagText(r: Ref, head: seq<Piece>, text: string, default: string)
    requires Clean(Values(r)) && LegalRef(r) && PiecesOk(head) && NoBraces(text) && TagText(text)
    ensures ReadsAs(r, Spell(Colon(head, [Text(text)])), text, default)
  {
    hide Meaning, Spell, Colon, TagFilled;
    assert [Text(text)][1..] == [] && text + "" == text;
    assert Fill(r, [Text(text)]) == text;
    TailIsRead(r, head, [Text(text)], default);
  }

  /** A format that ends in a slash and {last_repository} has no tag and always reads as the
      default one. */
  lemma UntaggedFormat(r: Ref, head: seq<Piece>, default: string)
    requires Clean(Values(r)) && LegalRef(r) && PiecesOk(head)
    ensures ReadsAs(r, Spell(head + [Text("/"), Key("last_repository")]), default, default)
  {
    hide Meaning, Spell, LastColon;
    var ps := head + [Text("/"), Key("last_repository")];
    var x, seg := Fill(r, head), LastSegment(r.path);
    var end := [Text("/"), Key("last_repository")];
    assert end[1..] == [Key("last_repository")] && end[1..][1..] == [];
    assert Fill(r, [Key("last_repository")]) == seg + "" == seg;
    FillConcat(r, head, end);
    PiecesMean(r, ps);
    NoDigestIn(r, ps);
    SegmentHasNoColon(r.path);
    assert x + ("/" + seg) == x + "/" + seg;
    SlashReads(x, seg, default);
  }

  lemma {:induction false} SegmentHasNoColon(path: string)
    requires ':' !in path
    ensures ':' !in LastSegment(path)
  {
    if path != "" && path[|path| - 1] != '/' { SegmentHasNoColon(path[..|path| - 1]); }
  }

  lemma SlashReads(x: string, seg: string, default: string)
    requires ':' !in seg
    ensures TagRead(x + "/" + seg, default) == default
  {
    hide LastColon;
    var s := x + "/" + seg;
    var i := LastColon(s);
    assert forall j | |x| < j < |s| :: s[j] == seg[j - |x| - 1];
    if i < |s| {
      assert i < |x|;
      assert s[i + 1..][|x| - i - 1] == '/';
    }
  }

  // ---------- Bounded tags ----------

  /** Tags have at most `max` characters. */
  ghost predicate Bounded(parse: string -> Option<Ref>, max: nat) {
    forall s: string | parse(s).Some? && parse(s).value.tag.Some? :: |parse(s).value.tag.value| <= max
  }

  /** Where tags are bounded, a tag that grows comes to an end: with anything besides {tag} in
      its place no series is longer than the room that the first suffixed tag leaves. */
  lemma GrowthEnds(parse: string -> Option<Ref>, withTag: (Ref, string) -> Option<string>, default: string, max: nat,
                   image: string, head: seq<Piece>, tail: seq<Piece>, first: Cycle, later: seq<Cycle>)
    requires Lawful(parse, withTag, default) && PiecesOk(head) && PiecesOk(tail) && Key("tag") in tail
    requires Walkable([first] + later) && OneSuffix(first, later) && IsWalk(first.order) && later != []
    requires TagTails(parse, withTag, image, Spell(Colon(head, tail)), tail, [first] + later)
    requires ImageAfter(parse, withTag, image, Spell(Colon(head, tail)), [first] + later).Some?
    requires Bounded(parse, max) && !Alone(tail)
    ensures Snap(parse, withTag, image, Spell(Colon(head, tail)), first).Some?
    ensures var one := parse(Snap(parse, withTag, image, Spell(Colon(head, tail)), first).value);
            one.Some? && one.value.tag.Some? && |one.value.tag.value| + |later| <= max
  {
    hide Lawful, ImageAfter, Snap, Spell, Colon, Trim, IsWalk, TagTails, PiecesOk, Alone;
    TagIsFixedExactly(parse, withTag, default, image, head, tail, first, later);
  }
}
