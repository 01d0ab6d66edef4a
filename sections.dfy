/** `extract_content_sections`: metadata, the heading sections with their sibling walk, the
    substantial paragraphs, links and images of a parsed page, with the caps of its result.
    The parsed page is given as values: what BeautifulSoup would find in it. */
module Sections {
  import opened PyStr
  import opened Outcome
  import opened Normalise

  // ---------------------------------------------------------------- the parsed page

  /** A sibling of a heading: its tag name (`None` for a node without one) and its `get_text()`. */
  datatype Node = Node(tag: Option<string>, text: string)

  /** A heading found by `find_all(['h1', ..., 'h6'])` with `int(heading.name[1])`, its
      `get_text()` and the siblings that follow it, in document order. */
  datatype Heading = Heading(level: nat, text: string, following: seq<Node>)

  /** The main content container: its headings and the `get_text()` of its `<p>` descendants. */
  datatype Container = Container(headings: seq<Heading>, paragraphs: seq<string>)

  /** An `<a href=...>`: the attribute's value and the anchor's text. */
  datatype Anchor = Anchor(href: string, text: string)

  /** An `<img src=...>`: the `src` value and the `alt` value (`''` when it is missing). */
  datatype ImageTag = ImageTag(src: string, alt: string)

  /** A parsed page. `candidates` holds `soup.select_one(selector)` for the selectors of
      `ContentSelectors`, in order; `body` is `soup.find('body')`; `metaDescription` is the
      `content` of `<meta name="description">`, `''` when either is missing. */
  datatype Page = Page(
    title: Option<string>,
    metaDescription: string,
    candidates: seq<Option<Container>>,
    body: Option<Container>,
    anchors: seq<Anchor>,
    images: seq<ImageTag>)

  /** The content selectors tried in order (main.py:82-85). */
  const ContentSelectors: seq<string> :=
    ["main", "article", ".main-content", "#main-content", ".content", "#content",
     ".post-content", ".entry-content"]

  // ---------------------------------------------------------------- results

  datatype Section = Section(level: nat, heading: string, content: string)
  datatype Link = Link(text: string, url: string)
  datatype Image = Image(url: string, alt: string)

  datatype Structured = Structured(
    title: string,
    description: string,
    url: string,
    sections: seq<Section>,
    summaryParagraphs: seq<string>,
    links: seq<Link>,
    images: seq<Image>,
    totalSections: nat,
    totalLinks: nat,
    totalImages: nat)

  /** The exception `int(current.name[1])` raises: `IndexError` for the one-letter name "h",
      `ValueError` when the second letter is no digit ("hr", "header", "hgroup"). */
  datatype WalkError = IndexError | ValueError

  // ---------------------------------------------------------------- main content

  /** The first candidate that is present. */
  function FirstPresent<T>(candidates: seq<Option<T>>): (r: Option<T>)
  {
    if candidates == [] then None
    else if candidates[0].Some? then candidates[0]
    else FirstPresent(candidates[1..])
  }

  /** The first present candidate is the one at the least index that holds a value. */
  lemma {:induction false} FirstPresentIsFirst<T>(candidates: seq<Option<T>>)
    ensures FirstPresent(candidates).None? <==> forall k :: 0 <= k < |candidates| ==> candidates[k].None?
    ensures FirstPresent(candidates).Some? ==>
      exists k :: 0 <= k < |candidates| && candidates[k] == FirstPresent(candidates)
        && forall j :: 0 <= j < k ==> candidates[j].None?
  {
    if candidates != [] && candidates[0].None? {
      var rest := candidates[1..];
      FirstPresentIsFirst(rest);
      assert forall k :: 0 < k < |candidates| ==> candidates[k] == rest[k - 1];
      if FirstPresent(rest).Some? {
        var k :| 0 <= k < |rest| && rest[k] == FirstPresent(rest) && forall j :: 0 <= j < k ==> rest[j].None?;
        assert candidates[k + 1] == rest[k];
      }
    }
  }

  /** The selector loop of main.py:87-93: the first selector that matches, else `<body>`. */
  method ChooseMainContent(candidates: seq<Option<Container>>, body: Option<Container>)
    returns (main: Option<Container>)
    ensures main == if FirstPresent(candidates).Some? then FirstPresent(candidates) else body
  {
    main := None;
    var i := 0;
    while i < |candidates|
      invariant 0 <= i <= |candidates| && main.None?
      invariant FirstPresent(candidates) == FirstPresent(candidates[i..])
    {
      main := candidates[i];
      if main.Some? {
        break;
      }
      assert candidates[i..][1..] == candidates[i + 1..];
      i := i + 1;
      main := None;
    }
    if main.None? {
      main := body;
    }
  }

  // ---------------------------------------------------------------- the sibling walk

  predicate StartsWithH(n: Node) {
    n.tag.Some? && n.tag.value != [] && n.tag.value[0] == 'h'
  }

  /** `int(name[1])`: `IndexError` on a name of one character, `ValueError` when the second
      character is not a decimal digit of some script, otherwise that digit's value. */
  function HeadingLevel(name: string): (r: Result<nat, WalkError>)
    ensures r == Err(IndexError) <==> |name| < 2
    ensures r == Err(ValueError) <==> |name| >= 2 && DecimalOfChar(name[1]).None?
    ensures r.Ok? ==> |name| >= 2 && DecimalOfChar(name[1]) == Some(r.value)
  {
    if |name| < 2 then Err(IndexError)
    else match DecimalOfChar(name[1])
      case None => Err(ValueError)
      case Some(d) => Ok(d)
  }

  /** A sibling `<h٣>` (ARABIC-INDIC DIGIT THREE) has level 3, as `int` reads it. */
  lemma HeadingLevelOfArabicIndicThree()
    ensures HeadingLevel("h\U{663}") == Ok(3)
  {
    DecimalOfArabicIndicThree();
  }

  /** The walk ends at this sibling, by a `break` or by an exception. */
  predicate Halts(n: Node, level: nat) {
    StartsWithH(n)
    && (HeadingLevel(n.tag.value).Err? || HeadingLevel(n.tag.value).value <= level)
  }

  predicate IsContentTag(name: string) {
    name in ["p", "div", "ul", "ol", "blockquote"]
  }

  /** What one sibling adds to the section: its cleaned text when it is a content tag whose
      cleaned text is not empty. */
  function Contribution(n: Node): seq<string>
  {
    if n.tag.Some? && IsContentTag(n.tag.value) && CleanText(n.text) != [] then [CleanText(n.text)]
    else []
  }

  function Prefixed(xs: seq<string>, r: Result<seq<string>, WalkError>): Result<seq<string>, WalkError>
  {
    match r
    case Ok(ys) => Ok(xs + ys)
    case Err(e) => Err(e)
  }

  lemma PrefixedTwice(xs: seq<string>, ys: seq<string>, r: Result<seq<string>, WalkError>)
    ensures Prefixed(xs, Prefixed(ys, r)) == Prefixed(xs + ys, r)
  {
    if r.Ok? {
      assert xs + (ys + r.value) == (xs + ys) + r.value;
    }
  }

  /** The texts the walk from a heading of `level` collects over the siblings `s`, or the
      exception it raises. */
  function SectionBody(s: seq<Node>, level: nat): Result<seq<string>, WalkError>
    decreases |s|
  {
    if s == [] then Ok([])
    else if StartsWithH(s[0]) && HeadingLevel(s[0].tag.value).Err? then Err(HeadingLevel(s[0].tag.value).error)
    else if StartsWithH(s[0]) && HeadingLevel(s[0].tag.value).value <= level then Ok([])
    else Prefixed(Contribution(s[0]), SectionBody(s[1..], level))
  }

  /** One sibling of the walk: the exception it raises, the halt, or its contribution. */
  lemma SectionBodyAt(s: seq<Node>, level: nat)
    requires s != []
    ensures StartsWithH(s[0]) && |s[0].tag.value| < 2 ==> SectionBody(s, level) == Err(IndexError)
    ensures StartsWithH(s[0]) && |s[0].tag.value| >= 2 && DecimalOfChar(s[0].tag.value[1]).None? ==>
              SectionBody(s, level) == Err(ValueError)
    ensures StartsWithH(s[0]) && |s[0].tag.value| >= 2 && DecimalOfChar(s[0].tag.value[1]).Some? &&
            DecimalOfChar(s[0].tag.value[1]).value <= level ==>
              SectionBody(s, level) == Ok([])
    ensures !StartsWithH(s[0]) ||
            (|s[0].tag.value| >= 2 && DecimalOfChar(s[0].tag.value[1]).Some? &&
             DecimalOfChar(s[0].tag.value[1]).value > level) ==>
              SectionBody(s, level) == Prefixed(Contribution(s[0]), SectionBody(s[1..], level))
  {
  }

  /** What the walk does at one sibling: raise, halt at a heading, or go on with what the
      sibling adds. */
  datatype Step = Raise(error: WalkError) | Halt | GoOn(added: seq<string>)

  /** The `while current:` loop of main.py:104-115. */
  method WalkSiblings(following: seq<Node>, level: nat) returns (r: Result<seq<string>, WalkError>)
    ensures r == SectionBody(following, level)
  {
    var collected: seq<string> := [];
    var i := 0;
    assert following[0..] == following;
    assert Prefixed([], SectionBody(following, level)) == SectionBody(following, level) by {
      var r := SectionBody(following, level);
      if r.Ok? {
        assert [] + r.value == r.value;
      }
    }
    while i < |following|
      invariant 0 <= i <= |following|
      invariant SectionBody(following, level) == Prefixed(collected, SectionBody(following[i..], level))
    {
      var step := VisitSibling(following[i..], level);
      match step {
        case Raise(e) =>
          return Err(e);
        case Halt =>
          break;
        case GoOn(added) =>
          assert following[i..][1..] == following[i + 1..];
          PrefixedTwice(collected, added, SectionBody(following[i + 1..], level));
          collected := collected + added;
      }
      i := i + 1;
    }
    assert collected + [] == collected;
    return Ok(collected);
  }

  /** The body of the loop of main.py:104-115 for the sibling `s[0]`. */
  method VisitSibling(s: seq<Node>, level: nat) returns (step: Step)
    requires s != []
    ensures step.Raise? ==> SectionBody(s, level) == Err(step.error)
    ensures step.Halt? ==> SectionBody(s, level) == Ok([])
    ensures step.GoOn? ==> SectionBody(s, level) == Prefixed(step.added, SectionBody(s[1..], level))
  {
    var current := s[0];
    SectionBodyAt(s, level);
    if current.tag.Some? && current.tag.value != [] && current.tag.value[0] == 'h' {
      var name := current.tag.value;
      if |name| < 2 {
        return Raise(IndexError);
      }
      var digit := DecimalOfChar(name[1]);
      if digit.None? {
        return Raise(ValueError);
      }
      if digit.value <= level {
        return Halt;
      }
    }
    var added: seq<string> := [];
    if current.tag.Some? && IsContentTag(current.tag.value) {
      var text := CleanText(current.text);
      if text != [] {
        added := [text];
      }
    }
    assert added == Contribution(current);
    return GoOn(added);
  }

  /** Index of the first sibling at which the walk halts, or `|s|`. */
  function FirstHalt(s: seq<Node>, level: nat): (j: nat)
    ensures j <= |s| && (j < |s| ==> Halts(s[j], level))
    ensures forall k :: 0 <= k < j ==> !Halts(s[k], level)
  {
    if s == [] then 0
    else if Halts(s[0], level) then 0
    else 1 + FirstHalt(s[1..], level)
  }

  /** The contributions of all siblings in `s`, in order. */
  function Contributions(s: seq<Node>): seq<string>
  {
    if s == [] then [] else Contribution(s[0]) + Contributions(s[1..])
  }

  /** The walk, described without the loop: it takes the siblings up to the first one that is
      a heading of the same or a higher level or an `h`-named tag without a digit, and keeps the
      content-tag texts among them; the halting sibling raises when its level cannot be read. */
  lemma {:induction false} SectionBodyIsTakeWhile(s: seq<Node>, level: nat)
    ensures var j := FirstHalt(s, level);
      SectionBody(s, level) ==
        if j < |s| && HeadingLevel(s[j].tag.value).Err? then Err(HeadingLevel(s[j].tag.value).error)
        else Ok(Contributions(s[..j]))
  {
    if s != [] && !Halts(s[0], level) {
      SectionBodyIsTakeWhile(s[1..], level);
      var j := FirstHalt(s, level);
      assert s[1..][..j - 1] == s[..j][1..];
      assert s[..j][0] == s[0];
    }
  }

  /** Every text the walk collects is a non-empty output of `clean_text`. */
  lemma {:induction false} SectionBodyTextsClean(s: seq<Node>, level: nat)
    requires SectionBody(s, level).Ok?
    ensures forall k :: 0 <= k < |SectionBody(s, level).value| ==>
      SectionBody(s, level).value[k] != [] && Clean(SectionBody(s, level).value[k])
  {
    if s != [] && !Halts(s[0], level) {
      SectionBodyTextsClean(s[1..], level);
    }
  }

  // ---------------------------------------------------------------- sections

  /** `' '.join(content_elements)[:1000]` followed by "..." when the joined text is longer. */
  function Truncate(s: string): string
  {
    if |s| > 1000 then s[..1000] + "..." else s
  }

  /** A text of at most 1000 characters is kept whole; a longer one keeps its first 1000 and
      gains "..."; so the result is at most 1003 long and truncating twice changes nothing. */
  lemma TruncateSpec(s: string)
    ensures |s| <= 1000 ==> Truncate(s) == s
    ensures |s| > 1000 ==>
              |Truncate(s)| == 1003 && Truncate(s)[..1000] == s[..1000] && Truncate(s)[1000..] == "..."
    ensures |Truncate(s)| <= 1003
    ensures Truncate(Truncate(s)) == Truncate(s)
  {
    if |s| > 1000 {
      var t := Truncate(s);
      assert t[..1000] == s[..1000];
    }
  }

  /** The section main.py:117-121 makes of a heading and the texts its walk collected. */
  function MakeSection(h: Heading, body: seq<string>): Section {
    Section(h.level, CleanText(h.text), Truncate(Join(" ", body)))
  }

  /** A heading's walk over its following siblings (main.py:100-115). */
  function WalkOf(h: Heading): Result<seq<string>, WalkError> {
    SectionBody(h.following, h.level)
  }

  /** The sections `make` builds of each heading and what `walk` collects for it, in order, or
      the exception of the first walk that raises. */
  function BuildWith(make: (Heading, seq<string>) -> Section, walk: Heading -> Result<seq<string>, WalkError>,
    headings: seq<Heading>): Result<seq<Section>, WalkError>
  {
    if headings == [] then Ok([])
    else
      match BuildWith(make, walk, headings[..|headings| - 1])
      case Err(e) => Err(e)
      case Ok(done) =>
        var h := headings[|headings| - 1];
        match walk(h)
        case Err(e) => Err(e)
        case Ok(body) => Ok(done + [make(h, body)])
  }

  /** The sections of `headings`, in order, or the exception of the first walk that raises. */
  function BuildSections(headings: seq<Heading>): Result<seq<Section>, WalkError>
  {
    BuildWith(MakeSection, WalkOf, headings)
  }

  lemma {:induction false} BuildWithCount(make: (Heading, seq<string>) -> Section,
    walk: Heading -> Result<seq<string>, WalkError>, headings: seq<Heading>)
    requires BuildWith(make, walk, headings).Ok?
    ensures |BuildWith(make, walk, headings).value| == |headings|
  {
    if headings != [] {
      BuildWithCount(make, walk, headings[..|headings| - 1]);
    }
  }

  lemma {:induction false} BuildWithAt(make: (Heading, seq<string>) -> Section,
    walk: Heading -> Result<seq<string>, WalkError>, headings: seq<Heading>, k: nat)
    requires BuildWith(make, walk, headings).Ok? && k < |headings|
    ensures walk(headings[k]).Ok?
    ensures |BuildWith(make, walk, headings).value| == |headings|
    ensures BuildWith(make, walk, headings).value[k] == make(headings[k], walk(headings[k]).value)
  {
    BuildWithCount(make, walk, headings);
    var init := headings[..|headings| - 1];
    if k < |init| {
      BuildWithAt(make, walk, init, k);
      assert init[k] == headings[k];
    }
  }

  lemma {:induction false} BuildWithKeepsError(make: (Heading, seq<string>) -> Section,
    walk: Heading -> Result<seq<string>, WalkError>, headings: seq<Heading>, n: nat)
    requires n <= |headings| && BuildWith(make, walk, headings[..n]).Err?
    ensures BuildWith(make, walk, headings) == BuildWith(make, walk, headings[..n])
    decreases |headings| - n
  {
    if n < |headings| {
      var init := headings[..|headings| - 1];
      assert init[..n] == headings[..n];
      BuildWithKeepsError(make, walk, init, n);
    } else {
      assert headings[..n] == headings;
    }
  }

  /** One section per heading, in order, when no walk raises. */
  lemma BuildSectionsCount(headings: seq<Heading>)
    requires BuildSections(headings).Ok?
    ensures |BuildSections(headings).value| == |headings|
  {
    BuildWithCount(MakeSection, WalkOf, headings);
  }

  /** Section `k` has the level and the cleaned text of heading `k`, whose walk did not raise,
      and the truncated join of that walk's texts. */
  lemma BuildSectionsAt(headings: seq<Heading>, k: nat)
    requires BuildSections(headings).Ok? && k < |headings|
    ensures |BuildSections(headings).value| == |headings|
    ensures SectionBody(headings[k].following, headings[k].level).Ok?
    ensures BuildSections(headings).value[k] ==
      MakeSection(headings[k], SectionBody(headings[k].following, headings[k].level).value)
  {
    BuildWithAt(MakeSection, WalkOf, headings, k);
  }

  /** Once a walk raises, the sections of any longer list of headings raise the same way. */
  lemma BuildSectionsKeepsError(headings: seq<Heading>, n: nat)
    requires n <= |headings| && BuildSections(headings[..n]).Err?
    ensures BuildSections(headings) == BuildSections(headings[..n])
  {
    BuildWithKeepsError(MakeSection, WalkOf, headings, n);
  }

  /** The loop over the headings of main.py:98-122. */
  method CollectSections(headings: seq<Heading>) returns (r: Result<seq<Section>, WalkError>)
    ensures r == BuildSections(headings)
  {
    var sections: seq<Section> := [];
    for i := 0 to |headings|
      invariant BuildSections(headings[..i]) == Ok(sections)
    {
      var h := headings[i];
      assert headings[..i + 1][..i] == headings[..i];
      var body := WalkSiblings(h.following, h.level);
      if body.Err? {
        BuildSectionsKeepsError(headings, i + 1);
        return Err(body.error);
      }
      sections := sections + [Section(h.level, CleanText(h.text), Truncate(Join(" ", body.value)))];
    }
    assert headings[..|headings|] == headings;
    return Ok(sections);
  }

  // ---------------------------------------------------------------- paragraphs, links, images

  /** `f` applied to each of `xs`. */
  function MapStrings(f: string -> string, xs: seq<string>): (ys: seq<string>)
    ensures |ys| == |xs|
  {
    if xs == [] then [] else MapStrings(f, xs[..|xs| - 1]) + [f(xs[|xs| - 1])]
  }

  lemma {:induction false} MapStringsAt(f: string -> string, xs: seq<string>, i: nat)
    requires i < |xs|
    ensures MapStrings(f, xs)[i] == f(xs[i])
  {
    var init := xs[..|xs| - 1];
    if i < |init| {
      MapStringsAt(f, init, i);
      assert init[i] == xs[i];
    }
  }

  /** The cleaned text of each paragraph. */
  function CleanEach(texts: seq<string>): (cleaned: seq<string>)
    ensures |cleaned| == |texts|
  {
    MapStrings(CleanText, texts)
  }

  lemma CleanEachAt(texts: seq<string>, i: nat)
    requires i < |texts|
    ensures CleanEach(texts)[i] == CleanText(texts[i])
  {
    MapStringsAt(CleanText, texts, i);
  }

  /** The texts longer than 50 characters, in order (`text and len(text) > 50`). */
  function LongOnes(cleaned: seq<string>): seq<string>
  {
    if cleaned == [] then []
    else
      var t := cleaned[|cleaned| - 1];
      LongOnes(cleaned[..|cleaned| - 1]) + (if t != [] && |t| > 50 then [t] else [])
  }

  /** The cleaned paragraph texts longer than 50 characters, in order. */
  function Substantial(texts: seq<string>): seq<string>
  {
    LongOnes(CleanEach(texts))
  }

  method SubstantialParagraphs(texts: seq<string>) returns (paragraphs: seq<string>)
    ensures paragraphs == Substantial(texts)
  {
    ghost var cleaned := CleanEach(texts);
    paragraphs := [];
    for i := 0 to |texts|
      invariant paragraphs == LongOnes(cleaned[..i])
    {
      LongOnesStep(cleaned, i);
      CleanEachAt(texts, i);
      var text := CleanText(texts[i]);
      if text != [] && |text| > 50 {
        paragraphs := paragraphs + [text];
      }
    }
    assert cleaned[..|texts|] == cleaned;
  }

  lemma LongOnesStep(cleaned: seq<string>, i: nat)
    requires i < |cleaned|
    ensures var t := cleaned[i];
      LongOnes(cleaned[..i + 1]) == LongOnes(cleaned[..i]) + (if t != [] && |t| > 50 then [t] else [])
  {
    assert cleaned[..i + 1][..i] == cleaned[..i];
  }

  lemma {:induction false} LongOnesKeeps(cleaned: seq<string>, k: nat)
    requires k < |cleaned| && |cleaned[k]| > 50
    ensures cleaned[k] in LongOnes(cleaned)
  {
    var init := cleaned[..|cleaned| - 1];
    if k < |init| {
      assert init[k] == cleaned[k];
      LongOnesKeeps(init, k);
    }
  }

  lemma {:induction false} LongOnesOnly(cleaned: seq<string>, j: nat)
    requires j < |LongOnes(cleaned)|
    ensures |LongOnes(cleaned)[j]| > 50
    ensures exists k :: 0 <= k < |cleaned| && cleaned[k] == LongOnes(cleaned)[j]
  {
    var init := cleaned[..|cleaned| - 1];
    if j < |LongOnes(init)| {
      LongOnesOnly(init, j);
      var k :| 0 <= k < |init| && init[k] == LongOnes(init)[j];
      assert cleaned[k] == init[k];
    } else {
      assert cleaned[|cleaned| - 1] == LongOnes(cleaned)[j];
    }
  }

  /** A paragraph whose cleaned text is longer than 50 characters is kept, as that text. */
  lemma SubstantialKeeps(texts: seq<string>, k: nat)
    requires k < |texts| && |CleanText(texts[k])| > 50
    ensures CleanText(texts[k]) in Substantial(texts)
  {
    CleanEachAt(texts, k);
    LongOnesKeeps(CleanEach(texts), k);
  }

  /** Every kept paragraph is the cleaned text, longer than 50 characters, of a paragraph. */
  lemma SubstantialOnly(texts: seq<string>, j: nat)
    requires j < |Substantial(texts)|
    ensures |Substantial(texts)[j]| > 50
    ensures exists k :: 0 <= k < |texts| && CleanText(texts[k]) == Substantial(texts)[j]
  {
    var cleaned := CleanEach(texts);
    LongOnesOnly(cleaned, j);
    var k :| 0 <= k < |cleaned| && cleaned[k] == LongOnes(cleaned)[j];
    CleanEachAt(texts, k);
  }

  /** The links of main.py:132-142: anchors with a non-empty `href` and a non-empty cleaned
      text, the `href` resolved by `join` (which stands for `urljoin(url, href)`). */
  function Links(anchors: seq<Anchor>, join: string -> string): seq<Link>
  {
    if anchors == [] then []
    else Links(anchors[..|anchors| - 1], join) + AnchorLink(anchors[|anchors| - 1], join)
  }

  /** What one anchor adds: its link when both its `href` and its cleaned text are non-empty. */
  function AnchorLink(a: Anchor, join: string -> string): seq<Link>
  {
    var text := CleanText(a.text);
    if a.href != [] && text != [] then [Link(text, join(a.href))] else []
  }

  method CollectLinks(anchors: seq<Anchor>, join: string -> string) returns (links: seq<Link>)
    ensures links == Links(anchors, join)
  {
    links := [];
    for i := 0 to |anchors|
      invariant links == Links(anchors[..i], join)
    {
      assert anchors[..i + 1][..i] == anchors[..i];
      var href := anchors[i].href;
      var text := CleanText(anchors[i].text);
      if href != [] && text != [] {
        links := links + [Link(text, join(href))];
      }
    }
    assert anchors[..|anchors|] == anchors;
  }

  /** Every link has a non-empty cleaned text; there are at most as many links as anchors. */
  lemma {:induction false} LinksShape(anchors: seq<Anchor>, join: string -> string)
    ensures |Links(anchors, join)| <= |anchors|
    ensures forall k :: 0 <= k < |Links(anchors, join)| ==>
      Links(anchors, join)[k].text != [] && Clean(Links(anchors, join)[k].text)
  {
    if anchors != [] {
      LinksShape(anchors[..|anchors| - 1], join);
    }
  }

  /** Every link is made of one anchor with a non-empty `href`. */
  lemma {:induction false} LinkFromAnchor(anchors: seq<Anchor>, join: string -> string, k: nat)
    requires k < |Links(anchors, join)|
    ensures exists i ::
      0 <= i < |anchors| && anchors[i].href != [] && Links(anchors, join)[k] == Link(CleanText(anchors[i].text), join(anchors[i].href))
  {
    var init := anchors[..|anchors| - 1];
    var a := anchors[|anchors| - 1];
    if k < |Links(init, join)| {
      LinkFromAnchor(init, join, k);
      var i :| 0 <= i < |init| && init[i].href != [] && Links(init, join)[k] == Link(CleanText(init[i].text), join(init[i].href));
      assert init[i] == anchors[i];
    } else {
      assert Links(anchors, join)[k] == Link(CleanText(a.text), join(a.href));
    }
  }

  /** Every anchor with a non-empty `href` and a non-empty cleaned text gives a link. */
  lemma AnchorGivesLink(anchors: seq<Anchor>, join: string -> string, i: nat)
    requires i < |anchors| && anchors[i].href != [] && CleanText(anchors[i].text) != []
    ensures Link(CleanText(anchors[i].text), join(anchors[i].href)) in Links(anchors, join)
  {
    var link := Link(CleanText(anchors[i].text), join(anchors[i].href));
    var f := (a: Anchor) => AnchorLink(a, join);
    assert f(anchors[i]) == [link];
    LinksAreFlatMap(anchors, join);
    InFlatMap(anchors, f, i, link);
  }

  /** The pieces `f` gives for each element, in order. */
  function FlatMap<A, B>(xs: seq<A>, f: A -> seq<B>): seq<B>
  {
    if xs == [] then [] else FlatMap(xs[..|xs| - 1], f) + f(xs[|xs| - 1])
  }

  lemma {:induction false} LinksAreFlatMap(anchors: seq<Anchor>, join: string -> string)
    ensures Links(anchors, join) == FlatMap(anchors, (a: Anchor) => AnchorLink(a, join))
  {
    if anchors != [] {
      LinksAreFlatMap(anchors[..|anchors| - 1], join);
    }
  }

  lemma {:induction false} InFlatMap<A, B>(xs: seq<A>, f: A -> seq<B>, i: nat, x: B)
    requires i < |xs| && x in f(xs[i])
    ensures x in FlatMap(xs, f)
  {
    var init := xs[..|xs| - 1];
    if i < |init| {
      assert init[i] == xs[i];
      InFlatMap(init, f, i, x);
    }
  }

  /** The images of main.py:145-154: every `<img>` with a non-empty `src`, resolved by `join`,
      with its cleaned `alt`. */
  function Images(tags: seq<ImageTag>, join: string -> string): seq<Image>
  {
    if tags == [] then []
    else
      var t := tags[|tags| - 1];
      Images(tags[..|tags| - 1], join) + (if t.src != [] then [Image(join(t.src), CleanText(t.alt))] else [])
  }

  method CollectImages(tags: seq<ImageTag>, join: string -> string) returns (images: seq<Image>)
    ensures images == Images(tags, join)
  {
    images := [];
    for i := 0 to |tags|
      invariant images == Images(tags[..i], join)
    {
      assert tags[..i + 1][..i] == tags[..i];
      var src := tags[i].src;
      var alt := tags[i].alt;
      if src != [] {
        images := images + [Image(join(src), CleanText(alt))];
      }
    }
    assert tags[..|tags|] == tags;
  }

  /** Every image's `alt` is cleaned, and the images with an empty `src` are the only ones
      dropped. */
  lemma {:induction false} ImagesShape(tags: seq<ImageTag>, join: string -> string)
    ensures |Images(tags, join)| <= |tags|
    ensures (forall k :: 0 <= k < |tags| ==> tags[k].src != []) ==> |Images(tags, join)| == |tags|
    ensures forall k :: 0 <= k < |Images(tags, join)| ==> Clean(Images(tags, join)[k].alt)
  {
    if tags != [] {
      ImagesShape(tags[..|tags| - 1], join);
    }
  }

  /** Every image is made of one tag with a non-empty `src`. */
  lemma {:induction false} ImageFromTag(tags: seq<ImageTag>, join: string -> string, k: nat)
    requires k < |Images(tags, join)|
    ensures exists i ::
      0 <= i < |tags| && tags[i].src != [] && Images(tags, join)[k] == Image(join(tags[i].src), CleanText(tags[i].alt))
  {
    var init := tags[..|tags| - 1];
    var t := tags[|tags| - 1];
    if k < |Images(init, join)| {
      ImageFromTag(init, join, k);
      var i :| 0 <= i < |init| && init[i].src != [] && Images(init, join)[k] == Image(join(init[i].src), CleanText(init[i].alt));
      assert init[i] == tags[i];
    } else {
      assert Images(tags, join)[k] == Image(join(t.src), CleanText(t.alt));
    }
  }

  /** Every tag with a non-empty `src` gives an image. */
  lemma {:induction false} TagGivesImage(tags: seq<ImageTag>, join: string -> string, i: nat)
    requires i < |tags| && tags[i].src != []
    ensures Image(join(tags[i].src), CleanText(tags[i].alt)) in Images(tags, join)
  {
    var init := tags[..|tags| - 1];
    if i < |init| {
      TagGivesImage(init, join, i);
      assert init[i] == tags[i];
    }
  }

  // ---------------------------------------------------------------- the whole result

  /** `xs[:n]`. */
  function Take<T>(xs: seq<T>, n: nat): (r: seq<T>)
    ensures |r| == if |xs| <= n then |xs| else n
    ensures r == xs[..|r|]
  {
    if |xs| <= n then xs else xs[..n]
  }

  function TitleText(title: Option<string>): string {
    if title.Some? then CleanText(title.value) else "No title found"
  }

  /** The dictionary `extract_content_sections(soup, url)` returns, or the exception it raises.
      `join` stands for `urljoin(url, ·)`. */
  function ContentSections(page: Page, url: string, join: string -> string): Result<Structured, WalkError>
  {
    var main := if FirstPresent(page.candidates).Some? then FirstPresent(page.candidates) else page.body;
    var built := if main.Some? then BuildSections(main.value.headings) else Ok([]);
    match built
    case Err(e) => Err(e)
    case Ok(sections) =>
      var paragraphs := if main.Some? then Substantial(main.value.paragraphs) else [];
      var links := Links(page.anchors, join);
      var images := Images(page.images, join);
      Ok(Structured(TitleText(page.title), CleanText(page.metaDescription), url,
        Take(sections, 10), Take(paragraphs, 5), Take(links, 20), Take(images, 10),
        |sections|, |links|, |images|))
  }

  method ExtractContentSections(page: Page, url: string, join: string -> string)
    returns (r: Result<Structured, WalkError>)
    ensures r == ContentSections(page, url, join)
  {
    var title := TitleText(page.title);
    var main := ChooseMainContent(page.candidates, page.body);
    var sections: seq<Section> := [];
    var paragraphs: seq<string> := [];
    if main.Some? {
      var built := CollectSections(main.value.headings);
      if built.Err? {
        return Err(built.error);
      }
      sections := built.value;
      paragraphs := SubstantialParagraphs(main.value.paragraphs);
    }
    var links := CollectLinks(page.anchors, join);
    var images := CollectImages(page.images, join);
    return Ok(Structured(title, CleanText(page.metaDescription), url,
      Take(sections, 10), Take(paragraphs, 5), Take(links, 20), Take(images, 10),
      |sections|, |links|, |images|));
  }

  /** The caps of main.py:162-168: at most 10 sections, 5 paragraphs, 20 links and 10 images,
      each list the start of the full one, with the totals counting the full lists; every
      summary paragraph is a cleaned text longer than 50 characters. */
  lemma ContentSectionsCaps(page: Page, url: string, join: string -> string)
    requires ContentSections(page, url, join).Ok?
    ensures var s := ContentSections(page, url, join).value;
      |s.sections| <= 10 && |s.summaryParagraphs| <= 5 && |s.links| <= 20 && |s.images| <= 10
      && |s.sections| == (if s.totalSections <= 10 then s.totalSections else 10)
      && |s.links| == (if s.totalLinks <= 20 then s.totalLinks else 20)
      && |s.images| == (if s.totalImages <= 10 then s.totalImages else 10)
      && s.url == url
      && forall k :: 0 <= k < |s.summaryParagraphs| ==> |s.summaryParagraphs[k]| > 50 && Clean(s.summaryParagraphs[k])
  {
    var s := ContentSections(page, url, join).value;
    forall k | 0 <= k < |s.summaryParagraphs|
      ensures |s.summaryParagraphs[k]| > 50 && Clean(s.summaryParagraphs[k])
    {
      var t := s.summaryParagraphs[k];
      var main := if FirstPresent(page.candidates).Some? then FirstPresent(page.candidates) else page.body;
      assert main.Some?;
      SubstantialOnly(main.value.paragraphs, k);
    }
  }

  /** A walk raises only through a sibling whose name starts with 'h' and whose second
      character is missing or is not a decimal digit. */
  lemma {:induction false} SectionBodyRaisesOnlyAtH(s: seq<Node>, level: nat)
    requires SectionBody(s, level).Err?
    ensures exists k :: 0 <= k < |s| && StartsWithH(s[k]) && HeadingLevel(s[k].tag.value).Err?
  {
    SectionBodyIsTakeWhile(s, level);
    var j := FirstHalt(s, level);
    assert j < |s| && StartsWithH(s[j]) && HeadingLevel(s[j].tag.value).Err?;
  }
}
