/** One line of a bookmark file: parse_bookmark_line in marks2json.py, against the documented form
    "title | url | description | tags". */
module BookmarkLine {
  import opened Wrappers
  import opened PyString

  /** A bookmark dict; icon is a key that may be absent. */
  datatype Bookmark = Bookmark(
    title: string,
    url: string,
    description: string,
    tags: seq<string>,
    domain: string,
    icon: Option<string>)

  /** The local variables the classification loop fills. */
  datatype Fields = Fields(title: string, url: string, description: string, tags: seq<string>)

  const NO_FIELDS := Fields("", "", "", [])

  predicate IsUrl(p: string) { "http://" <= p || "https://" <= p }

  /** The three kinds of part the loop tells apart. */
  datatype Kind = UrlPart | TagPart | TextPart

  function KindOf(p: string): Kind
  {
    if IsUrl(p) then UrlPart else if "#" <= p then TagPart else TextPart
  }

  predicate IsTag(w: string) { "#" <= w && Strip(w[1..]) != "" }

  /** The tags among some words. */
  function TagWords(ws: seq<string>): seq<string>
  {
    if |ws| == 0 then [] else (if IsTag(ws[0]) then [Strip(ws[0])] else []) + TagWords(ws[1..])
  }

  function TagsOf(p: string): seq<string> { TagWords(Words(p)) }

  /** One turn of the loop: each part is a url, a tag field, the title or the description; later
      texts are ignored and a later url replaces an earlier one. */
  function AddPart(f: Fields, p: string): Fields
  {
    if IsUrl(p) then f.(url := p)
    else if "#" <= p then f.(tags := f.tags + TagsOf(p))
    else if f.title == "" then f.(title := p)
    else if f.description == "" then f.(description := p)
    else f
  }

  function Classify(parts: seq<string>): Fields
  {
    if |parts| == 0 then NO_FIELDS else AddPart(Classify(parts[..|parts| - 1]), parts[|parts| - 1])
  }

  function ParseFields(line: string): Option<Fields>
  {
    if line == "" || "#" <= Strip(line) then None
    else if !Contains(line, "http://") && !Contains(line, "https://") then None
    else
      var parts := Parts(SplitBar(Strip(line)));
      if |parts| > 4 then None
      else
        var f := Classify(parts);
        if f.url == "" then None else Some(f)
  }

  // ---------------------------------------------------------------- what the parts decide

  /** The parts with some property, in order. */
  function Select(parts: seq<string>, q: string -> bool): seq<string>
  {
    if |parts| == 0 then [] else Select(parts[..|parts| - 1], q) + When(q(parts[|parts| - 1]), parts[|parts| - 1])
  }

  function When(b: bool, f: string): seq<string> { if b then [f] else [] }

  function Of(k: Kind): string -> bool { (p: string) => KindOf(p) == k }

  function Texts(parts: seq<string>): seq<string> { Select(parts, Of(TextPart)) }

  function Urls(parts: seq<string>): seq<string> { Select(parts, Of(UrlPart)) }

  function TagFields(parts: seq<string>): seq<string> { Select(parts, Of(TagPart)) }

  function AllTags(fields: seq<string>): seq<string>
  {
    if |fields| == 0 then [] else AllTags(fields[..|fields| - 1]) + TagsOf(fields[|fields| - 1])
  }

  function Nth(s: seq<string>, i: nat): string { if i < |s| then s[i] else "" }

  function Last(s: seq<string>): string { if |s| > 0 then s[|s| - 1] else "" }

  predicate NonEmpty(parts: seq<string>) { forall i :: 0 <= i < |parts| ==> parts[i] != "" }

  lemma {:induction false} SelectNonEmpty(parts: seq<string>, q: string -> bool)
    requires NonEmpty(parts)
    ensures NonEmpty(Select(parts, q))
  {
    if |parts| > 0 { SelectNonEmpty(parts[..|parts| - 1], q); }
  }

  lemma AllTagsSnoc(fields: seq<string>, g: string)
    ensures AllTags(fields + [g]) == AllTags(fields) + TagsOf(g)
  {
    assert (fields + [g])[..|fields|] == fields;
  }

  function Summary(t: seq<string>, u: seq<string>, g: seq<string>): Fields
  {
    Fields(Nth(t, 0), Last(u), Nth(t, 1), AllTags(g))
  }

  lemma AddPartByKind(t: seq<string>, u: seq<string>, g: seq<string>, p: string)
    requires NonEmpty(t) && p != ""
    ensures AddPart(Summary(t, u, g), p)
         == Summary(t + When(KindOf(p) == TextPart, p),
                    u + When(KindOf(p) == UrlPart, p),
                    g + When(KindOf(p) == TagPart, p))
  {
    AllTagsSnoc(g, p);
    assert t + [] == t && u + [] == u && g + [] == g;
    assert t != [] ==> t[0] != "";
    assert |t| > 1 ==> t[1] != "";
  }

  /** The loop's result depends only on the texts, the urls and the tag fields, each in their own
      order: not on how the three kinds are interleaved. */
  lemma {:induction false} ClassifyByKind(parts: seq<string>)
    requires NonEmpty(parts)
    ensures Classify(parts) ==
      Fields(Nth(Texts(parts), 0), Last(Urls(parts)), Nth(Texts(parts), 1), AllTags(TagFields(parts)))
  {
    if |parts| > 0 {
      var init, p := parts[..|parts| - 1], parts[|parts| - 1];
      ClassifyByKind(init);
      SelectNonEmpty(init, Of(TextPart));
      AddPartByKind(Texts(init), Urls(init), TagFields(init), p);
    }
  }

  lemma {:induction false} PartsNonEmpty(ps: seq<string>)
    ensures NonEmpty(Parts(ps))
  {
    if |ps| > 0 { PartsNonEmpty(ps[1..]); }
  }

  /** A url among the parts of a line means the line passes the substring test. */
  lemma {:induction false} PartComesFromPiece(ps: seq<string>, i: nat) returns (k: nat)
    requires i < |Parts(ps)|
    ensures k < |ps| && Strip(ps[k]) == Parts(ps)[i]
  {
    if Strip(ps[0]) != "" && i == 0 {
      k := 0;
    } else {
      var j := PartComesFromPiece(ps[1..], if Strip(ps[0]) != "" then i - 1 else i);
      k := j + 1;
    }
  }

  lemma {:induction false} UrlComesFromPart(parts: seq<string>) returns (i: nat)
    requires |Urls(parts)| > 0
    ensures i < |parts| && KindOf(parts[i]) == UrlPart
  {
    if KindOf(parts[|parts| - 1]) == UrlPart { i := |parts| - 1; } else { i := UrlComesFromPart(parts[..|parts| - 1]); }
  }

  lemma UrlPassesTest(line: string)
    requires |Urls(Parts(SplitBar(line)))| > 0
    ensures Contains(line, "http://") || Contains(line, "https://")
  {
    var parts := Parts(SplitBar(line));
    var i := UrlComesFromPart(parts);
    var k := PartComesFromPiece(SplitBar(line), i);
    PieceOccurs(line, k);
    StripOccurs(SplitBar(line)[k]);
    ContainsTransitive(line, SplitBar(line)[k], parts[i]);
    var scheme := if "http://" <= parts[i] then "http://" else "https://";
    assert scheme <= parts[i][0..];
    ContainsTransitive(line, parts[i], scheme);
  }

  lemma PartsNeedText(line: string)
    ensures line == "" ==> Parts(SplitBar(line)) == []
  {
  }

  /** What some fields of a line, split at the bars, yield. */
  function Result(comment: bool, parts: seq<string>): Option<Fields>
  {
    if comment || |parts| > 4 || Urls(parts) == [] then None
    else Some(Fields(Nth(Texts(parts), 0), Last(Urls(parts)), Nth(Texts(parts), 1), AllTags(TagFields(parts))))
  }

  /** Exactly what a line yields: nothing if its first character after blanks is '#', if it has more
      than four fields, or if no field is a url; otherwise the first two texts as title and
      description, the last url and all tags. The substring test for a scheme decides nothing more. */
  lemma ParsedByKind(line: string)
    ensures ParseFields(line) == Result("#" <= Strip(line), Parts(SplitBar(line)))
  {
    var parts := Parts(SplitBar(line));
    PartsNeedText(line);
    SplitStrip(line);
    PartsNonEmpty(SplitBar(line));
    ClassifyByKind(parts);
    SelectNonEmpty(parts, Of(UrlPart));
    if Urls(parts) != [] {
      UrlPassesTest(line);
      assert Last(Urls(parts)) != "";
    }
  }

  /** Two lines with the same texts, urls and tag fields parse alike, however the three kinds are
      interleaved, provided neither line starts with a tag field. */
  lemma OrderDoesNotMatter(line: string, other: string)
    requires !("#" <= Strip(line)) && !("#" <= Strip(other))
    requires var p, q := Parts(SplitBar(line)), Parts(SplitBar(other));
      Urls(p) == Urls(q) && Texts(p) == Texts(q) && TagFields(p) == TagFields(q)
    ensures ParseFields(line) == ParseFields(other)
  {
    ParsedByKind(line);
    ParsedByKind(other);
    KindsPartition(Parts(SplitBar(line)));
    KindsPartition(Parts(SplitBar(other)));
  }

  // ---------------------------------------------------------------- printing and parsing back

  predicate CleanText(t: string)
  {
    BAR !in t && Strip(t) == t && !("#" <= t) && !("http://" <= t) && !("https://" <= t)
  }

  predicate CleanUrl(u: string) { BAR !in u && Strip(u) == u && ("http://" <= u || "https://" <= u) }

  predicate CleanTag(w: string) { IsWord(w) && BAR !in w && "#" <= w && |w| >= 2 }

  predicate CleanTags(tags: seq<string>) { forall i :: 0 <= i < |tags| ==> CleanTag(tags[i]) }

  /** The fields that are there. */
  function Present(fields: seq<string>): seq<string>
  {
    if |fields| == 0 then [] else (if fields[0] != "" then [fields[0]] else []) + Present(fields[1..])
  }

  lemma {:induction false} KindsPartition(parts: seq<string>)
    ensures |parts| == |Texts(parts)| + |Urls(parts)| + |TagFields(parts)|
  {
    if |parts| > 0 { KindsPartition(parts[..|parts| - 1]); }
  }

  lemma WordIsSolid(w: string)
    requires IsWord(w)
    ensures Strip(w) == w
  {
    assert !IsSpace(w[0]) && !IsSpace(w[|w| - 1]);
    StripSolid(w);
  }

  lemma CleanTagIsTag(w: string)
    requires CleanTag(w)
    ensures IsTag(w) && Strip(w) == w
  {
    WordIsSolid(w);
    TailIsWord(w);
    WordIsSolid(w[1..]);
  }

  lemma TailIsWord(w: string)
    requires IsWord(w) && |w| >= 2
    ensures IsWord(w[1..])
  {
  }

  lemma {:induction false} CleanTagWords(tags: seq<string>)
    requires CleanTags(tags)
    ensures TagWords(tags) == tags
  {
    if |tags| > 0 {
      CleanTagIsTag(tags[0]);
      CleanTagWords(tags[1..]);
      assert [tags[0]] + tags[1..] == tags;
    }
  }

  /** A word that counts as a tag: a '#' with something after it. */
  function MarksTag(): string -> bool { (w: string) => |w| >= 2 && w[0] == '#' }

  lemma WordIsTagIff(w: string)
    requires IsWord(w)
    ensures IsTag(w) <==> MarksTag()(w)
    ensures Strip(w) == w
  {
    WordIsSolid(w);
    if |w| >= 2 {
      TailIsWord(w);
      WordIsSolid(w[1..]);
    }
  }

  lemma {:induction false} TagWordsSelect(ws: seq<string>)
    requires forall i :: 0 <= i < |ws| ==> IsWord(ws[i])
    ensures TagWords(ws) == Select(ws, MarksTag())
  {
    if |ws| > 0 {
      WordIsTagIff(ws[0]);
      TagWordsSelect(ws[1..]);
      SelectConcat([ws[0]], ws[1..], MarksTag());
      assert [ws[0]] + ws[1..] == ws && [ws[0]][..0] == [];
      assert Select([ws[0]], MarksTag()) == When(MarksTag()(ws[0]), ws[0]);
    }
  }

  /** Of any tag field, the words that start with '#' and have something after it are the tags; a bare '#'
      and other words are not. */
  lemma TagsOfField(ws: seq<string>)
    requires forall i :: 0 <= i < |ws| ==> IsWord(ws[i])
    ensures TagsOf(JoinSpace(ws)) == Select(ws, MarksTag())
  {
    WordsOfJoin(ws);
    TagWordsSelect(ws);
  }

  lemma TagsOfCleanField(tags: seq<string>)
    requires CleanTags(tags)
    ensures AllTags(Present([JoinSpace(tags)])) == tags
  {
    var g := JoinSpace(tags);
    if |tags| == 0 {
      assert Present([g]) == [];
    } else {
      assert CleanTag(tags[0]);
      assert [g][1..] == [] && Present([g]) == [g];
      assert forall i :: 0 <= i < |tags| ==> IsWord(tags[i]) by {
        forall i | 0 <= i < |tags| ensures IsWord(tags[i]) { assert CleanTag(tags[i]); }
      }
      WordsOfJoin(tags);
      CleanTagWords(tags);
      AllTagsSnoc([], g);
      assert [] + [g] == [g];
    }
  }

  /** Any line whose pieces, however padded and in whatever order, hold a clean url, a clean title
      before a clean description, and a clean tag list, parses back to exactly those fields, unless
      it starts with its tag field. */
  lemma FieldsParseBack(ps: seq<string>, t: string, u: string, d: string, tags: seq<string>)
    requires |ps| >= 1 && forall i :: 0 <= i < |ps| ==> BAR !in ps[i]
    requires CleanUrl(u) && CleanTags(tags) && (d != "" ==> t != "")
    requires Urls(Parts(ps)) == [u] && Texts(Parts(ps)) == Present([t, d])
    requires TagFields(Parts(ps)) == Present([JoinSpace(tags)])
    ensures ParseFields(JoinBar(ps)) == if "#" <= Strip(JoinBar(ps)) then None else Some(Fields(t, u, d, tags))
  {
    SplitJoin(ps);
    KindsPartition(Parts(ps));
    PresentTwo(t, d);
    TagsOfCleanField(tags);
    assert |Present([JoinSpace(tags)])| <= 1;
    ParsedByKind(JoinBar(ps));
  }

  lemma PresentTwo(t: string, d: string)
    requires d != "" ==> t != ""
    ensures |Present([t, d])| <= 2 && Nth(Present([t, d]), 0) == t && Nth(Present([t, d]), 1) == d
  {
    assert [t, d][1..] == [d] && [d][1..] == [];
    assert Present([d]) == if d != "" then [d] else [];
  }

  /** The documented form. */
  function Pieces(t: string, u: string, d: string, tags: seq<string>): seq<string>
  {
    [t + " ", " " + u + " ", " " + d + " ", " " + JoinSpace(tags)]
  }

  lemma {:induction false} CleanTagFieldShape(tags: seq<string>)
    requires CleanTags(tags) && |tags| > 0
    ensures var g := JoinSpace(tags);
      BAR !in g && |g| > 0 && "#" <= g && !IsSpace(g[0]) && !IsSpace(g[|g| - 1])
  {
    assert CleanTag(tags[0]);
    if |tags| > 1 { CleanTagFieldShape(tags[1..]); }
  }

  lemma TagFieldIsClean(tags: seq<string>)
    requires CleanTags(tags)
    ensures var g := JoinSpace(tags); BAR !in g && Strip(g) == g && (g != "" ==> KindOf(g) == TagPart)
  {
    if |tags| > 0 {
      CleanTagFieldShape(tags);
    }
    StripSolid(JoinSpace(tags));
  }

  lemma PartsCons(p: string, f: string, rest: seq<string>)
    requires Strip(p) == f
    ensures Parts([p] + rest) == Present([f]) + Parts(rest)
  {
    PresentOne(f);
    assert ([p] + rest)[1..] == rest;
  }

  lemma PresentCons(f: string, rest: seq<string>)
    ensures Present([f] + rest) == Present([f]) + Present(rest)
  {
    PresentOne(f);
    assert ([f] + rest)[1..] == rest;
  }

  lemma PresentFour(t: string, u: string, d: string, g: string)
    ensures Present([t, u, d, g]) == Present([t]) + (Present([u]) + (Present([d]) + Present([g])))
  {
    PresentCons(t, [u, d, g]);
    PresentCons(u, [d, g]);
    PresentCons(d, [g]);
    assert [t] + [u, d, g] == [t, u, d, g] && [u] + [d, g] == [u, d, g] && [d] + [g] == [d, g];
  }

  lemma PartsOfFour(p0: string, p1: string, p2: string, p3: string)
    ensures Parts([p0, p1, p2, p3]) == Present([Strip(p0), Strip(p1), Strip(p2), Strip(p3)])
  {
    PartsCons(p0, Strip(p0), [p1, p2, p3]);
    PartsCons(p1, Strip(p1), [p2, p3]);
    PartsCons(p2, Strip(p2), [p3]);
    PartsCons(p3, Strip(p3), []);
    assert [p0] + [p1, p2, p3] == [p0, p1, p2, p3] && [p1] + [p2, p3] == [p1, p2, p3];
    assert [p2] + [p3] == [p2, p3] && [p3] + [] == [p3] && Present([Strip(p3)]) + [] == Present([Strip(p3)]);
    PresentFour(Strip(p0), Strip(p1), Strip(p2), Strip(p3));
  }

  lemma PartsOfPieces(t: string, u: string, d: string, tags: seq<string>)
    requires CleanText(t) && CleanUrl(u) && CleanText(d) && CleanTags(tags)
    ensures Parts(Pieces(t, u, d, tags)) == Present([t, u, d, JoinSpace(tags)])
  {
    TagFieldIsClean(tags);
    StripPadded(t);
    StripPadded(u);
    StripPadded(d);
    StripPadded(JoinSpace(tags));
    PartsOfFour(t + " ", " " + u + " ", " " + d + " ", " " + JoinSpace(tags));
  }

  lemma {:induction false} SelectConcat(a: seq<string>, b: seq<string>, q: string -> bool)
    ensures Select(a + b, q) == Select(a, q) + Select(b, q)
  {
    if |b| == 0 {
      assert a + b == a;
    } else {
      assert (a + b)[..|a + b| - 1] == a + b[..|b| - 1];
      SelectConcat(a, b[..|b| - 1], q);
    }
  }

  lemma SelectOne(f: string, q: string -> bool)
    ensures Select(Present([f]), q) == When(f != "" && q(f), f)
  {
    PresentOne(f);
    assert [f][..0] == [];
  }

  lemma SelectOfFour(t: string, u: string, d: string, g: string, q: string -> bool)
    ensures Select(Present([t, u, d, g]), q)
         == When(t != "" && q(t), t)
            + (When(u != "" && q(u), u) + (When(d != "" && q(d), d) + When(g != "" && q(g), g)))
  {
    PresentFour(t, u, d, g);
    var a, b, c, e := Present([t]), Present([u]), Present([d]), Present([g]);
    SelectConcat(a, b + (c + e), q);
    SelectConcat(b, c + e, q);
    SelectConcat(c, e, q);
    SelectOne(t, q);
    SelectOne(u, q);
    SelectOne(d, q);
    SelectOne(g, q);
  }

  /** The four fields of a line in the documented order are of the kinds their names say. */
  predicate InOrder(t: string, u: string, d: string, g: string)
  {
    && (t != "" ==> KindOf(t) == TextPart)
    && u != "" && KindOf(u) == UrlPart
    && (d != "" ==> KindOf(d) == TextPart)
    && (g != "" ==> KindOf(g) == TagPart)
  }

  lemma UrlsInOrder(t: string, u: string, d: string, g: string)
    requires InOrder(t, u, d, g)
    ensures Urls(Present([t, u, d, g])) == [u]
  {
    SelectOfFour(t, u, d, g, Of(UrlPart));
  }

  lemma TagsInOrder(t: string, u: string, d: string, g: string)
    requires InOrder(t, u, d, g)
    ensures TagFields(Present([t, u, d, g])) == Present([g])
  {
    SelectOfFour(t, u, d, g, Of(TagPart));
    PresentOne(g);
  }

  lemma TextsInOrder(t: string, u: string, d: string, g: string)
    requires InOrder(t, u, d, g)
    ensures Texts(Present([t, u, d, g])) == Present([t, d])
  {
    SelectOfFour(t, u, d, g, Of(TextPart));
    PresentBoth(t, d);
  }

  lemma PresentBoth(t: string, d: string)
    ensures Present([t, d]) == When(t != "", t) + When(d != "", d)
  {
    PresentOne(t);
    PresentOne(d);
    PresentCons(t, [d]);
    assert [t] + [d] == [t, d];
  }

  lemma PresentOne(f: string)
    ensures Present([f]) == if f != "" then [f] else []
  {
    assert [f][1..] == [];
  }

  lemma StartsWithText(t: string, rest: string)
    requires CleanText(t)
    ensures !("#" <= Strip(t + " " + [BAR] + rest))
  {
    var line := t + " " + [BAR] + rest;
    if t != "" {
      assert LStrip(t) == t && line[0] == t[0];
      assert LStrip(line) == line;
    } else {
      assert line[1..] == [BAR] + rest;
      assert LStrip(line) == [BAR] + rest;
    }
  }

  /** Clean fields printed in the documented form parse back to exactly those fields. */
  lemma PrintedLineParses(t: string, u: string, d: string, tags: seq<string>)
    requires CleanText(t) && CleanUrl(u) && CleanText(d) && CleanTags(tags) && (d != "" ==> t != "")
    ensures ParseFields(JoinBar(Pieces(t, u, d, tags))) == Some(Fields(t, u, d, tags))
  {
    var ps := Pieces(t, u, d, tags);
    PartsOfPieces(t, u, d, tags);
    TagFieldIsClean(tags);
    assert forall i :: 0 <= i < 4 ==> BAR !in ps[i];
    UrlsInOrder(t, u, d, JoinSpace(tags));
    TagsInOrder(t, u, d, JoinSpace(tags));
    TextsInOrder(t, u, d, JoinSpace(tags));
    FieldsParseBack(ps, t, u, d, tags);
    StartsWithText(t, JoinBar(ps[1..]));
  }

  // ---------------------------------------------------------------- the classification loop

  method ClassifyParts(parts: seq<string>) returns (f: Fields)
    ensures f == Classify(parts)
  {
    f := NO_FIELDS;
    for i := 0 to |parts|
      invariant f == Classify(parts[..i])
    {
      assert parts[..i + 1][..i] == parts[..i];
      var part := parts[i];
      if "http://" <= part || "https://" <= part {
        f := f.(url := part);
      } else if "#" <= part {
        f := f.(tags := f.tags + TagsOf(part));
      } else if f.title == "" {
        f := f.(title := part);
      } else if f.description == "" {
        f := f.(description := part);
      }
    }
    assert parts[..|parts|] == parts;
  }
}
