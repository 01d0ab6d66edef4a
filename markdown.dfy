/** The Markdown text `extract_url_content_structured` builds from the result of
    `extract_content_sections`. */
module Markdown {
  import opened PyStr
  import opened Outcome
  import opened Normalise
  import opened Sections

  /** The lines for the sections: a "## Content Sections" title, then per section its heading
      line with `level + 1` '#' characters, its content when it is not empty, and an empty line. */
  function SectionLines(sections: seq<Section>): seq<string>
  {
    if sections == [] then []
    else SectionLines(sections[..|sections| - 1]) + SectionBlock(sections[|sections| - 1])
  }

  function SectionBlock(s: Section): seq<string>
  {
    [Repeat('#', s.level + 1) + " " + s.heading] + (if s.content != [] then [s.content] else []) + [""]
  }

  /** The numbered summary lines "1. ...", "2. ...", in order. */
  function ParagraphLines(paragraphs: seq<string>): seq<string>
  {
    if paragraphs == [] then []
    else
      var n := |paragraphs|;
      ParagraphLines(paragraphs[..n - 1]) + [NatToString(n) + ". " + paragraphs[n - 1]]
  }

  /** All lines of the output, in order. */
  function MarkdownLines(s: Structured): seq<string>
  {
    ["# " + s.title, "**URL:** " + s.url]
    + (if s.description != [] then ["**Description:** " + s.description] else [])
    + [""]
    + (if s.sections != [] then ["## Content Sections"] + SectionLines(s.sections) else [])
    + (if s.summaryParagraphs != [] then ["## Key Content"] + ParagraphLines(s.summaryParagraphs) + [""] else [])
    + StatisticLines(s)
  }

  function StatisticLines(s: Structured): seq<string>
  {
    ["## Content Statistics",
     "- Total sections: " + NatToString(s.totalSections),
     "- Total links: " + NatToString(s.totalLinks),
     "- Total images: " + NatToString(s.totalImages)]
  }

  /** The loop over the sections of main.py:414-421. */
  method AppendSections(sections: seq<Section>) returns (lines: seq<string>)
    ensures lines == SectionLines(sections)
  {
    lines := [];
    for i := 0 to |sections|
      invariant lines == SectionLines(sections[..i])
    {
      assert sections[..i + 1][..i] == sections[..i];
      var section := sections[i];
      var headingPrefix := Repeat('#', section.level + 1);
      var block := [headingPrefix + " " + section.heading];
      if section.content != [] {
        block := block + [section.content];
      }
      block := block + [""];
      assert block == SectionBlock(section);
      lines := lines + block;
    }
    assert sections[..|sections|] == sections;
  }

  /** The numbered loop over the summary paragraphs of main.py:424-428. */
  method AppendParagraphs(paragraphs: seq<string>) returns (lines: seq<string>)
    ensures lines == ParagraphLines(paragraphs)
  {
    lines := [];
    for i := 0 to |paragraphs|
      invariant lines == ParagraphLines(paragraphs[..i])
    {
      assert paragraphs[..i + 1][..i] == paragraphs[..i];
      lines := lines + [NatToString(i + 1) + ". " + paragraphs[i]];
    }
    assert paragraphs[..|paragraphs|] == paragraphs;
  }

  /** The `result` list of main.py:404-434, built line by line. */
  method FormatLines(s: Structured) returns (result: seq<string>)
    ensures result == MarkdownLines(s)
  {
    var head := ["# " + s.title, "**URL:** " + s.url];
    if s.description != [] {
      head := head + ["**Description:** " + s.description];
    }
    head := head + [""];
    var sectionPart: seq<string> := [];
    if s.sections != [] {
      var lines := AppendSections(s.sections);
      sectionPart := ["## Content Sections"] + lines;
    }
    var paragraphPart: seq<string> := [];
    if s.summaryParagraphs != [] {
      var lines := AppendParagraphs(s.summaryParagraphs);
      paragraphPart := ["## Key Content"] + lines + [""];
    }
    var statistics := ["## Content Statistics",
      "- Total sections: " + NatToString(s.totalSections),
      "- Total links: " + NatToString(s.totalLinks),
      "- Total images: " + NatToString(s.totalImages)];
    result := head + sectionPart + paragraphPart + statistics;
  }

  /** `'\n'.join(result)`. */
  method Format(s: Structured) returns (text: string)
    ensures text == Join("\n", MarkdownLines(s))
  {
    var lines := FormatLines(s);
    text := Join("\n", lines);
  }

  /** The lines a section contributes: two, or three when its content is not empty. */
  lemma {:induction false} SectionLinesCount(sections: seq<Section>)
    ensures |SectionLines(sections)| == 2 * |sections| + |NonEmptyContents(sections)|
  {
    if sections != [] {
      SectionLinesCount(sections[..|sections| - 1]);
    }
  }

  function NonEmptyContents(sections: seq<Section>): seq<string>
  {
    if sections == [] then []
    else
      var s := sections[|sections| - 1];
      NonEmptyContents(sections[..|sections| - 1]) + (if s.content != [] then [s.content] else [])
  }

  /** Summary line `k` carries the number `k + 1`, which parses back, and the paragraph. */
  lemma {:induction false} ParagraphLineAt(paragraphs: seq<string>, k: nat)
    requires k < |paragraphs|
    ensures |ParagraphLines(paragraphs)| == |paragraphs|
    ensures ParagraphLines(paragraphs)[k] == NatToString(k + 1) + ". " + paragraphs[k]
    ensures ParseDecimal(NatToString(k + 1)) == k + 1
  {
    ParseNatToString(k + 1);
    var init := paragraphs[..|paragraphs| - 1];
    ParagraphLinesCount(init);
    if k < |init| {
      ParagraphLineAt(init, k);
      assert init[k] == paragraphs[k];
    }
  }

  lemma {:induction false} ParagraphLinesCount(paragraphs: seq<string>)
    ensures |ParagraphLines(paragraphs)| == |paragraphs|
  {
    if paragraphs != [] {
      ParagraphLinesCount(paragraphs[..|paragraphs| - 1]);
    }
  }

  /** The layout of the output: the title line, the URL line, the description line exactly
      when there is a description, then an empty line; the four statistics lines close it; and
      the number of lines adds up over the optional blocks. */
  lemma MarkdownLayout(s: Structured)
    ensures var lines := MarkdownLines(s);
      var d := if s.description != [] then 1 else 0;
      var secs := if s.sections != [] then 1 + 2 * |s.sections| + |NonEmptyContents(s.sections)| else 0;
      var paras := if s.summaryParagraphs != [] then |s.summaryParagraphs| + 2 else 0;
      |lines| == 3 + d + secs + paras + 4
      && lines[0] == "# " + s.title
      && lines[1] == "**URL:** " + s.url
      && (s.description != [] <==> lines[2] == "**Description:** " + s.description)
      && lines[2 + d] == ""
      && lines[|lines| - 4..] == StatisticLines(s)
  {
    SectionLinesCount(s.sections);
    ParagraphLinesCount(s.summaryParagraphs);
    var lines := MarkdownLines(s);
    if s.description == [] {
      assert lines[2] == "";
      assert "" != "**Description:** " + s.description;
    }
  }

  /** A section's heading line starts with `level + 1` '#' characters and a space. */
  lemma SectionHeadingLine(s: Section)
    ensures var line := SectionBlock(s)[0];
      line[..s.level + 1] == Repeat('#', s.level + 1) && line[s.level + 1] == ' '
      && line[s.level + 2..] == s.heading
  {
    var line := SectionBlock(s)[0];
    assert line == Repeat('#', s.level + 1) + " " + s.heading;
  }

  // ---------------------------------------------------------------- one line per entry

  predicate OneLine(t: string) {
    '\n' !in t
  }

  /** No line of the output holds '\n' when the URL does not, so splitting the text at '\n'
      gives the lines back. */
  lemma FormatSplitsBack(s: Structured)
    requires OneLine(s.title) && OneLine(s.url) && OneLine(s.description)
    requires forall k :: 0 <= k < |s.sections| ==> OneLine(s.sections[k].heading) && OneLine(s.sections[k].content)
    requires forall k :: 0 <= k < |s.summaryParagraphs| ==> OneLine(s.summaryParagraphs[k])
    ensures Split(Join("\n", MarkdownLines(s)), "\n") == MarkdownLines(s)
  {
    var lines := MarkdownLines(s);
    SectionLinesOneLine(s.sections);
    ParagraphLinesOneLine(s.summaryParagraphs);
    StatisticsOneLine(s);
    LinesOneLine(s);
    SplitJoinChar('\n', lines);
  }

  lemma LinesOneLine(s: Structured)
    requires OneLine(s.title) && OneLine(s.url) && OneLine(s.description)
    requires forall k :: 0 <= k < |SectionLines(s.sections)| ==> OneLine(SectionLines(s.sections)[k])
    requires forall k :: 0 <= k < |ParagraphLines(s.summaryParagraphs)| ==> OneLine(ParagraphLines(s.summaryParagraphs)[k])
    requires forall k :: 0 <= k < 4 ==> OneLine(StatisticLines(s)[k])
    ensures forall k :: 0 <= k < |MarkdownLines(s)| ==> '\n' !in MarkdownLines(s)[k]
  {
    var a := ["# " + s.title, "**URL:** " + s.url];
    var b := if s.description != [] then ["**Description:** " + s.description] else [];
    var c := if s.sections != [] then ["## Content Sections"] + SectionLines(s.sections) else [];
    var d := if s.summaryParagraphs != [] then ["## Key Content"] + ParagraphLines(s.summaryParagraphs) + [""] else [];
    var e := StatisticLines(s);
    assert forall k :: 0 <= k < |a| ==> OneLine(a[k]);
    assert forall k :: 0 <= k < |b| ==> OneLine(b[k]);
    assert forall k :: 0 <= k < |c| ==> OneLine(c[k]);
    assert forall k :: 0 <= k < |d| ==> OneLine(d[k]);
    AllOneLine(a, b + [""]);
    AllOneLine(a + b + [""], c);
    AllOneLine(a + b + [""] + c, d);
    AllOneLine(a + b + [""] + c + d, e);
  }

  lemma AllOneLine(x: seq<string>, y: seq<string>)
    requires forall k :: 0 <= k < |x| ==> OneLine(x[k])
    requires forall k :: 0 <= k < |y| ==> OneLine(y[k])
    ensures forall k :: 0 <= k < |x + y| ==> OneLine((x + y)[k])
  {
  }

  lemma StatisticsOneLine(s: Structured)
    ensures forall k :: 0 <= k < 4 ==> OneLine(StatisticLines(s)[k])
  {
    DecimalOneLine(NatToString(s.totalSections));
    DecimalOneLine(NatToString(s.totalLinks));
    DecimalOneLine(NatToString(s.totalImages));
  }

  lemma DecimalOneLine(d: string)
    requires IsDecimal(d)
    ensures OneLine(d)
  {
    forall i | 0 <= i < |d| ensures d[i] != '\n' {
      assert IsDigit(d[i]);
    }
  }

  lemma {:induction false} SectionLinesOneLine(sections: seq<Section>)
    requires forall k :: 0 <= k < |sections| ==> OneLine(sections[k].heading) && OneLine(sections[k].content)
    ensures forall k :: 0 <= k < |SectionLines(sections)| ==> OneLine(SectionLines(sections)[k])
  {
    if sections != [] {
      var init := sections[..|sections| - 1];
      var s := sections[|sections| - 1];
      assert forall k :: 0 <= k < |init| ==> init[k] == sections[k];
      SectionLinesOneLine(init);
      var prefix := Repeat('#', s.level + 1) + " ";
      assert OneLine(prefix);
      assert OneLine(prefix + s.heading);
      assert (prefix + s.heading) == Repeat('#', s.level + 1) + " " + s.heading;
      AllOneLine(SectionLines(init), SectionBlock(s));
    }
  }

  lemma {:induction false} ParagraphLinesOneLine(paragraphs: seq<string>)
    requires forall k :: 0 <= k < |paragraphs| ==> OneLine(paragraphs[k])
    ensures forall k :: 0 <= k < |ParagraphLines(paragraphs)| ==> OneLine(ParagraphLines(paragraphs)[k])
  {
    if paragraphs != [] {
      var n := |paragraphs|;
      var init := paragraphs[..n - 1];
      assert forall k :: 0 <= k < |init| ==> init[k] == paragraphs[k];
      ParagraphLinesOneLine(init);
      DecimalOneLine(NatToString(n));
      assert OneLine(NatToString(n) + ". " + paragraphs[n - 1]);
      AllOneLine(ParagraphLines(init), [NatToString(n) + ". " + paragraphs[n - 1]]);
    }
  }

  // ---------------------------------------------------------------- the tool

  /** `extract_url_content_structured(url)`. `fetched` is the parsed response, or the text of
      the exception the request raised; `describe` stands for `str(e)` of an exception of the
      sibling walk; `join` for `urljoin(url, ·)`. */
  method ExtractUrlContentStructured(url: string, fetched: Result<Page, string>, join: string -> string,
                                     describe: WalkError -> string)
    returns (text: string)
    ensures fetched.Err? ==> text == "Error extracting structured content from " + url + ": " + fetched.error
    ensures fetched.Ok? && ContentSections(fetched.value, url, join).Err? ==>
      text == "Error extracting structured content from " + url + ": "
        + describe(ContentSections(fetched.value, url, join).error)
    ensures fetched.Ok? && ContentSections(fetched.value, url, join).Ok? ==>
      text == Join("\n", MarkdownLines(ContentSections(fetched.value, url, join).value))
  {
    if fetched.Err? {
      return "Error extracting structured content from " + url + ": " + fetched.error;
    }
    var structured := ExtractContentSections(fetched.value, url, join);
    if structured.Err? {
      return "Error extracting structured content from " + url + ": " + describe(structured.error);
    }
    text := Format(structured.value);
  }

  /** The text produced for a page that parses splits back into its lines at '\n' whenever the
      URL holds no '\n': every other entry has been through `clean_text`. */
  lemma StructuredOutputLines(page: Page, url: string, join: string -> string)
    requires ContentSections(page, url, join).Ok? && OneLine(url)
    ensures var s := ContentSections(page, url, join).value;
      Split(Join("\n", MarkdownLines(s)), "\n") == MarkdownLines(s)
  {
    var s := ContentSections(page, url, join).value;
    CleanOneLine(s.title, page.title);
    assert OneLine(s.description) by { NoLineBreakOneLine(s.description); }
    forall k | 0 <= k < |s.summaryParagraphs| ensures OneLine(s.summaryParagraphs[k]) {
      ContentSectionsCaps(page, url, join);
      NoLineBreakOneLine(s.summaryParagraphs[k]);
    }
    forall k | 0 <= k < |s.sections|
      ensures OneLine(s.sections[k].heading) && OneLine(s.sections[k].content)
    {
      SectionsOneLine(page, url, join, k);
    }
    FormatSplitsBack(s);
  }

  lemma NoLineBreakOneLine(t: string)
    requires NoLineBreak(t)
    ensures OneLine(t)
  {
    assert IsLineBreak('\n');
  }

  lemma CleanOneLine(title: string, given: Option<string>)
    requires title == TitleText(given)
    ensures OneLine(title)
  {
    if given.Some? {
      NoLineBreakOneLine(title);
    }
  }

  /** Section headings and contents of a parsed page hold no '\n'. */
  lemma SectionsOneLine(page: Page, url: string, join: string -> string, k: nat)
    requires ContentSections(page, url, join).Ok?
    requires k < |ContentSections(page, url, join).value.sections|
    ensures var sec := ContentSections(page, url, join).value.sections[k];
      OneLine(sec.heading) && OneLine(sec.content)
  {
    var main := if FirstPresent(page.candidates).Some? then FirstPresent(page.candidates) else page.body;
    assert main.Some?;
    var headings := main.value.headings;
    var all := BuildSections(headings).value;
    assert ContentSections(page, url, join).value.sections == Take(all, 10);
    BuiltSectionOneLine(headings, k);
  }

  lemma BuiltSectionOneLine(headings: seq<Heading>, k: nat)
    requires BuildSections(headings).Ok? && k < |BuildSections(headings).value|
    ensures OneLine(BuildSections(headings).value[k].heading) && OneLine(BuildSections(headings).value[k].content)
  {
    BuildSectionsCount(headings);
    BuildSectionsAt(headings, k);
    var h := headings[k];
    var body := SectionBody(h.following, h.level).value;
    BodyOneLine(h, body);
    NoLineBreakOneLine(CleanText(h.text));
  }

  lemma BodyOneLine(h: Heading, body: seq<string>)
    requires SectionBody(h.following, h.level) == Ok(body)
    ensures OneLine(MakeSection(h, body).content)
  {
    SectionBodyTextsClean(h.following, h.level);
    forall j | 0 <= j < |body| ensures '\n' !in body[j] {
      NoLineBreakOneLine(body[j]);
    }
    JoinWithoutChar(" ", body, '\n');
    TruncateOneLine(Join(" ", body));
  }

  lemma TruncateOneLine(t: string)
    requires OneLine(t)
    ensures OneLine(Truncate(t))
  {
    if |t| > 1000 {
      assert Truncate(t) == t[..1000] + "...";
      assert '\n' !in t[..1000];
    }
  }
}
