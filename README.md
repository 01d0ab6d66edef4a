# mcp-dynamic-extractor, modelled in Dafny

`main.py` of mcp-dynamic-extractor is an MCP server. Its tools fetch web pages over HTTP or
drive a browser with Playwright, then turn the page into text. This project models the logic
inside those tools as sequential Dafny, with the page replaced by plain inputs and proves what
that logic promises:

- **Normalise**: the line/chunk flattening idiom every tool applies to page text, and
  `clean_text`. The flattened text is a single line with no space at either end and no double
  space; flattening is idempotent and keeps every non-space character. `clean_text` is
  idempotent, its result is clean, and its second substitution never fires.
- **Parsers**: `parse_cookies`, the key:value fallback of `parse_headers`, and the cookie
  records built by `extract_with_browser_session`.
- **Sections**: `extract_content_sections`. This covers:
  - the choice of the main container;
  - the sibling walk under each heading, which raises on a tag such as `hr` or `header`;
  - the truncation to 1000 characters;
  - the paragraph filter, the links, the images and the list caps.
- **Markdown**: the text `extract_url_content_structured` builds from those sections. When the
  URL holds no line break, its lines split back at `"\n"` into the title, the description,
  the section headings and bodies and the statistics.
- **Stabilise**: the two scroll loops that wait for a dynamic page to stop growing. One stops on
  three unchanged samples within at most 50 attempts. The other stops on five equal samples
  within at most 100 attempts.
- **Strategies**: `extract_dynamic_content` after its scroll loop. This is the conversation
  selector probe, the longest JavaScript result and the three-way choice of the result.
- **Merge**: `extract_unlimited_dynamic_content` after its scroll loop. Three strategies fill
  one set of stripped texts, which is sorted by length, longest first, and joined.
- **Browser**: the sign-in test of `login_google_with_help` and the choice of an open page in
  `extract_from_open_browser`.
- **PyStr** and **Outcome**: the Python `str` builtins these rely on (`strip`, `find`, `in`,
  `split`, `split(sep, 1)`, `splitlines`, `join`, `str(int)`), and `Option`/`Result`.

The browser and the network are replaced by inputs:

- The length of `page.content()` after each scroll attempt is a function `nat -> nat`.
- Whether that attempt's page call raised is a function `nat -> bool`.
- What each selector query returns, at each probe attempt, is a function of the attempt and the
  selector.
- Each element read is an `Option<string>`, where `None` means the call raised. Each evaluated
  script is an `Option<string>` too, where `None` means the script raised or gave a falsy
  result.
- A parsed HTML page is a datatype holding:
  - the title;
  - the meta description;
  - the candidate containers;
  - for each heading, its level, its text and its following siblings as (tag, text) pairs;
  - the texts of the `<p>` elements;
  - the anchors and the image tags.
- `urljoin`, `json.loads` and `str(e)` of an exception are parameters.

Python's whitespace for `strip` and `\s` is the set `str.isspace` accepts. `splitlines` splits
at every line boundary Python recognises, and `"\r\n"` counts as one boundary.

- The unlimited extractor removes duplicates by exact string equality only. No block is dropped
  for being contained in another.
- Neither extractor has an overall deadline. Each loop is bounded only by its attempt cap.

## Model

| member | source | states |
|---|---|---|
| Normalise.Flatten | main.py:951-954 | the flattened text is a single line, has no space at either end and no two adjacent spaces |
| Normalise.FlattenIdempotent | main.py:951-954 | flattening an already flattened text gives it back |
| Normalise.FlattenOfFlat | main.py:951-954 | a text that is already one line, stripped and without double spaces is left unchanged |
| Normalise.FlattenKeepsText | main.py:951-954 | flattening drops whitespace only: the sequence of non-space characters is unchanged |
| Normalise.FlattenKeepsWords | main.py:951-954 | flattening keeps `split()`: the whitespace-separated words of the flattened text are those of the text, in order |
| Normalise.LinesKeepNonSpace | main.py:952 | `splitlines` loses only the line boundaries: the non-space characters of the lines are those of the text |
| Normalise.JoinOfFlat | main.py:954 | joining non-empty flat chunks with one space gives a flat, non-empty text |
| Normalise.NonEmptyKeeps | main.py:954 | the kept chunks are non-empty and each is one of the chunks |
| Normalise.CollapseSpaces | main.py:65 | `re.sub(r'\s+', ' ', ·)` leaves only plain spaces, never two in a row, and is empty exactly when its input is; it keeps whether the text starts or ends with a space |
| Normalise.CollapseKeepsNonSpace | main.py:65 | collapsing whitespace keeps every non-space character in order |
| Normalise.CollapseOfPlain | main.py:65 | a text with only plain, single spaces is left unchanged |
| Normalise.CollapseSpacesByWords | main.py:65 | `re.sub(r'\s+', ' ', s)` is `" ".join(s.split())`, with one `' '` before it when `s` starts with whitespace and one after it when `s` has a word and ends with whitespace |
| Normalise.SubTripleBreaksWithoutNewline | main.py:67 | the triple-newline substitution changes nothing in a text without `'\n'` |
| Normalise.CleanTextSecondStepIdle | main.py:65-67 | after the first substitution the second never fires |
| Normalise.CleanText | main.py:59-68 | the cleaned text is stripped, one line, and uses only plain spaces, never two in a row |
| Normalise.CleanTextKeepsText | main.py:59-68 | cleaning keeps every non-space character in order |
| Normalise.CleanTextOfClean | main.py:59-68 | a clean text is its own cleaning |
| Normalise.CleanTextIdempotent | main.py:59-68 | cleaning twice is cleaning once |
| Normalise.CleanTextByWords | main.py:59-68 | `clean_text(t)` is `" ".join(t.split())`: the words of the text joined by single spaces |
| Parsers.CookiePairSplits | main.py:38-40 | a segment with `'='` splits after stripping at its first `'='`; the key holds no `'='` and key, `=` and value give back the stripped segment |
| Parsers.AssignCookies | main.py:36-41 | the dictionary built item by item is the cookie map of the segments |
| Parsers.ParseCookies | main.py:31-41 | `""` gives `{}`; otherwise the result is the cookie map of the input split at `';'` |
| Parsers.CookieKeys | main.py:37-40 | a key is present exactly when some segment holding `'='` sets it |
| Parsers.CookieLastWins | main.py:40 | a key maps to the value of the last segment that sets it |
| Parsers.CookieSkipsBareSegment | main.py:38 | a segment without `'='` changes nothing |
| Parsers.HeaderPair | main.py:55-56 | a header line gives a stripped key and a stripped value |
| Parsers.HeaderPairSplits | main.py:55-56 | the pair is the stripped halves around the first `':'` of the line |
| Parsers.AssignHeaders | main.py:52-57 | the dictionary built line by line is the header map of the lines |
| Parsers.HeadersFallback | main.py:52-57 | the fallback maps the stripped input split at `'\n'` |
| Parsers.ParseHeaders | main.py:43-57 | `""` gives `{}`; a decoded JSON object is returned as it is; otherwise the result comes from the key:value fallback |
| Parsers.HeaderEntries | main.py:53-56 | a key is present exactly when some line with `':'` sets it, and every key and value is stripped |
| Parsers.CollectBrowserCookies | main.py:518-527 | the list built in the loop is the cookie records of the segments |
| Parsers.BrowserCookies | main.py:518-527 | the records come from the cookie string split at `';'` |
| Parsers.CookieRecordsCount | main.py:519-520 | there is one record per segment that holds `'='` |
| Parsers.CookieRecordsFields | main.py:521-527 | each record has a stripped name and value, the given domain and the path `/` |
| Parsers.CookieRecordsNames | main.py:518-527 | every key `parse_cookies` finds in the same segments appears, stripped, as a record name |
| Sections.FirstPresentIsFirst | main.py:87-90 | the chosen container is absent exactly when no selector matched, and otherwise comes from the first selector that did |
| Sections.ChooseMainContent | main.py:81-93 | the main container is the first matching selector's, else `<body>` |
| Sections.WalkSiblings | main.py:104-115 | the `while` walk over the following siblings computes the section body, or the exception it raises |
| Sections.VisitSibling | main.py:105-115 | one turn of the loop raises, halts at a heading or goes on with the sibling's contribution, each exactly as the section body says |
| Sections.SectionBodyAt | main.py:105-115 | at a sibling tag shorter than two characters the body raises `IndexError`; at one whose second character is no decimal digit it raises `ValueError`; at a heading of level up to the walk's it is empty; past any other sibling it is that sibling's contribution followed by the rest |
| Sections.HeadingLevel | main.py:109 | `int(name[1])` raises `IndexError` exactly when the tag has fewer than two characters and `ValueError` exactly when its second character is not a decimal digit; otherwise it is that digit's value |
| Sections.HeadingLevelOfArabicIndicThree | main.py:109 | the tag `h٣` (ARABIC-INDIC DIGIT THREE) has level 3, as `int` reads any decimal digit |
| Sections.SectionBodyIsTakeWhile | main.py:108-115 | the walk reads the siblings up to the first one that stops it, and only those |
| Sections.SectionBodyTextsClean | main.py:111-114 | every collected text is non-empty and clean |
| Sections.SectionBodyRaisesOnlyAtH | main.py:109 | the walk raises only at a sibling tag that starts with `h` and whose second character is missing or is not a decimal digit of any script |
| Sections.TruncateSpec | main.py:120 | a text of up to 1000 characters is kept; a longer one becomes its first 1000 characters and `"..."`; the result has at most 1003 characters and is its own truncation |
| Sections.BuildSectionsCount | main.py:100-121 | there is one section per heading when no walk raises |
| Sections.BuildSectionsAt | main.py:100-121 | section `k` has heading `k`'s level and cleaned text and the truncated join of its walk's texts |
| Sections.BuildSectionsKeepsError | main.py:100-121 | once one walk raises, the whole extraction raises that exception |
| Sections.CollectSections | main.py:96-121 | the loop over the headings builds exactly those sections, or stops at the first walk that raises |
| Sections.SubstantialParagraphs | main.py:124-129 | the loop keeps the cleaned paragraph texts longer than 50 characters, in order |
| Sections.SubstantialKeeps | main.py:127-129 | every paragraph whose cleaned text is longer than 50 is kept |
| Sections.SubstantialOnly | main.py:127-129 | every kept paragraph is longer than 50 and is the cleaned text of some paragraph |
| Sections.CollectLinks | main.py:132-142 | the loop builds the links of the anchors |
| Sections.LinksShape | main.py:133-142 | there are no more links than anchors, and each link's text is non-empty and clean |
| Sections.LinkFromAnchor | main.py:133-142 | every link is the cleaned text and the joined URL of one anchor with a non-empty `href` |
| Sections.AnchorGivesLink | main.py:136-142 | every anchor with a non-empty `href` and a non-empty cleaned text gives its link |
| Sections.CollectImages | main.py:145-154 | the loop builds the images of the image tags |
| Sections.ImagesShape | main.py:146-154 | there are no more images than tags, one per tag when every `src` is non-empty, and each alt text is clean |
| Sections.ImageFromTag | main.py:146-154 | every image is the joined URL and the cleaned alt text of one tag with a non-empty `src` |
| Sections.TagGivesImage | main.py:149-154 | every tag with a non-empty `src` gives its image |
| Sections.Take | main.py:162-165 | a slice `xs[:n]` is the first `min(n, len(xs))` elements |
| Sections.ExtractContentSections | main.py:70-169 | the whole extraction computes the structured content, or the exception of a sibling walk |
| Sections.ContentSectionsCaps | main.py:156-169 | at most 10 sections, 5 paragraphs, 20 links and 10 images; the totals count the lists before the caps; the kept paragraphs are clean and longer than 50 |
| Markdown.AppendSections | main.py:414-421 | the section loop appends the section lines |
| Markdown.AppendParagraphs | main.py:424-428 | the numbered paragraph loop appends the paragraph lines |
| Markdown.FormatLines | main.py:404-434 | the `result` list built line by line is the Markdown layout of the content |
| Markdown.Format | main.py:404-436 | the output is those lines joined with `"\n"` |
| Markdown.SectionLinesCount | main.py:416-421 | each section gives a heading line, its content line when the content is non-empty, and an empty line |
| Markdown.ParagraphLineAt | main.py:426-427 | paragraph `k` appears as `"k+1. "` and its text, and its number reads back as `k + 1` |
| Markdown.MarkdownLayout | main.py:404-434 | title line, URL line, a description line exactly when there is a description, then an empty line and the four statistics lines at the end; the line count adds up |
| Markdown.SectionHeadingLine | main.py:417-418 | a heading line is `level + 1` `'#'`, a space and the heading |
| Markdown.FormatSplitsBack | main.py:436 | when no field holds `'\n'`, splitting the output at `'\n'` gives the lines back |
| Markdown.StructuredOutputLines | main.py:401-436 | for content the extractor produced, the output splits back into its lines whenever the URL holds no `'\n'` |
| Markdown.ExtractUrlContentStructured | main.py:389-439 | a failed fetch or a raising walk gives the error message with `str(e)`; otherwise the output is the formatted content |
| Stabilise.TargetByRemainder | main.py:822-833 | attempt `a` scrolls to bottom, top, middle or three quarters as `a % 4` is 0, 1, 2 or 3 |
| Stabilise.CounterStep | main.py:843-850 | on an unchanged sample the run grows and the previous length stays; on a changed one the run restarts at 0 and the previous length becomes the sample |
| Stabilise.CounterCompare | main.py:843-850 | the comparison stops the loop exactly when the counter reaches 3, and otherwise hands on the next previous length and run |
| Stabilise.CounterScroll | main.py:816-850 | the loop ends as the counter-loop end says, after scrolling to the targets of the attempts it started |
| Stabilise.CounterEndIsEvent | main.py:820-850 | the loop ends at a raising attempt, at a stop at attempt 2 or later where three samples in a row equal the previous length, or after 50 attempts |
| Stabilise.CounterEndIsFirst | main.py:820-850 | no attempt before the one the loop ends at raises or stops it |
| Stabilise.ChangingPageRunsFifty | main.py:820 | a page whose length changes at every attempt runs all 50 attempts |
| Stabilise.PlateauStopsAfterThree | main.py:843-847 | a page that grows for `n` attempts and then stays put stops at attempt `n + 2` |
| Stabilise.WindowStep | main.py:1057-1066 | after an attempt the history is the samples so far, and the loop stops exactly when its last five entries are equal |
| Stabilise.WindowAttempt | main.py:1046-1066 | one attempt records its interaction, appends its sample unless the page call raises, and ends the loop as the window-loop end says |
| Stabilise.WindowScroll | main.py:1020-1068 | the loop ends as the window-loop end says; the history holds one sample per completed attempt; the trace holds the interaction of every started attempt |
| Stabilise.ActionTraceAt | main.py:1046-1050 | attempt `i` performs interaction `i % 10`, and a raising interaction is recorded and passed over |
| Stabilise.InteractionByRemainder | main.py:1046 | the interaction of attempt `i` is `scroll_actions[i % 10]` |
| Stabilise.WindowEndIsEvent | main.py:1025-1066 | the loop ends at a raising attempt, at attempt 4 or later whose last five samples are equal, or after 100 attempts |
| Stabilise.WindowEndIsFirst | main.py:1025-1066 | no attempt before the one the loop ends at raises or stops it |
| Stabilise.ChangingPageRunsHundred | main.py:1025 | a page whose length changes at every attempt runs all 100 attempts |
| Stabilise.CounterNoLaterThanWindow | main.py:843-847 | on a page that never raises, the counter loop stops no later than the window loop would |
| Strategies.SubstantialMeansLong | main.py:879 | the probe's filter holds exactly for a non-empty text longer than 10 once stripped |
| Strategies.ReadElements | main.py:877-880 | the loop over the elements appends each substantial text and `"\n\n"`, and reports whether a read raised |
| Strategies.ProbeAttempt | main.py:873-881 | one attempt reads the elements of the first selector that has any, and only those |
| Strategies.ConversationProbe | main.py:856-888 | the retry loop computes the probed text and the number of attempts it used |
| Strategies.FirstMatchingSelectorIsRead | main.py:873-881 | the first selector with at least one element is read even when none of its texts passes the filter |
| Strategies.ReadTextsRaises | main.py:877-880 | reading raises exactly when some element's read raises |
| Strategies.ReadTextsAddsNothing | main.py:877-880 | nothing is appended exactly when no text read before the first raise is substantial |
| Strategies.ReadTextsEndsWithBlankLine | main.py:880 | anything appended ends with `"\n\n"` |
| Strategies.ProbeKeepsAndStops | main.py:857-888 | the returned text is everything the attempts made gathered, raising ones included; every attempt before the last one made either raised or left the gathered text empty, so the loop stops at the first attempt that leaves non-empty text without raising; at most 20 attempts run, and empty text means all 20 ran |
| Strategies.GatheredShift | main.py:857-888 | the text gathered from an attempt on is that attempt's text followed by what the later attempts gather |
| Strategies.ProbeStops | main.py:857-888 | the loop makes between 1 and 20 attempts; it ends before 20 only after an attempt that did not raise and left non-empty text |
| Strategies.ProbeGathers | main.py:857-888 | the returned text is what the attempts made gathered, and every attempt but the last raised or left the gathered text empty |
| Strategies.ProbeStep | main.py:870-888 | one pass of the retry loop stops exactly where the probe ends, with its text, and otherwise hands the gathered text to the next attempt |
| Strategies.PickJavaScriptResult | main.py:930-937 | the script loop keeps what the pick function says |
| Strategies.JavaScriptPickGrows | main.py:933-934 | the kept length never decreases, and a raising script leaves the kept text unchanged |
| Strategies.JavaScriptPickAllFail | main.py:930-937 | when every script raises the kept text stays `""` |
| Strategies.JavaScriptPickIsLongest | main.py:933-934 | the kept text is at least as long as every result stripped, and is `""` or one of the results |
| Strategies.ChooseSpec | main.py:957-966 | conversation wins exactly when its stripped length exceeds 100; else the JavaScript text wins exactly when its stripped length does; else the HTML text; the label names the text returned |
| Strategies.DynamicReportShape | main.py:971 | the message carries the method label and the content length, which reads back as the length of the text at its end |
| Strategies.ExtractDynamicContent | main.py:816-979 | a raising scroll or page read gives the error message; otherwise the report of the chosen text among the probe, the JavaScript pick and the flattened page |
| Merge.MeaningfulMeansLong | main.py:1083 | the filter holds exactly for a non-empty text longer than 5 once stripped |
| Merge.KeptTextsMembers | main.py:1080-1145 | a block is in the set exactly when some text that was read strips to it and passes the filter |
| Merge.KeptBlocksAreStripped | main.py:1084 | every block is stripped and longer than 5 |
| Merge.KeptTextsAppend | main.py:1073-1145 | adding two lists of texts one after the other gives the union of what each adds, so order and repeats do not matter |
| Merge.AddTexts | main.py:1080-1086 | each strategy's loop adds exactly the kept texts of its list to the set |
| Merge.GatherBlocks | main.py:1073-1150 | the three strategies fill the set with the merged blocks; a strategy that raises adds nothing |
| Merge.LongestExists | main.py:1153 | a non-empty set of blocks has a longest block |
| Merge.OrderByLength | main.py:1153 | the sorted list holds each block of the set exactly once, in non-increasing length |
| Merge.BlockInFinal | main.py:1153 | every block appears in the joined text |
| Merge.UnlimitedReportShape | main.py:1159 | the message reports the number of blocks and the content length, which read back, and ends with the joined text |
| Merge.ExtractUnlimitedContent | main.py:1020-1167 | a raising scroll gives the error message; otherwise the sorted blocks are the merged set and the message reports its size |
| Browser.AccountPageIsSignedIn | main.py:322 | any URL containing the account host counts as signed in |
| Browser.WaitForLogin | main.py:317-336 | sign-in completes exactly when a check within the timeout succeeds, and then at the first such check |
| Browser.IntToString | main.py:338 | `str(n)` is the decimal digits, after a `'-'` for a negative `n` |
| Browser.LoginTimeoutReadsBack | main.py:337-338 | the timeout message reports the timeout, which reads back from its digits |
| Browser.ChoosePage | main.py:680-698 | the two error messages come exactly when there is no context or no page in the first context, so a first context with a page always gives a page; that page is the first whose URL contains the target, else the first page, to be navigated |
| PyStr.Strip | main.py:39 | `strip` gives a stripped substring of the text, and a stripped text is its own strip |
| PyStr.StripKeepsNonSpace | main.py:39 | `strip` removes whitespace only |
| PyStr.Find | main.py:38 | `find` gives the least index where the substring occurs, or -1 exactly when it does not occur |
| PyStr.Split | main.py:37 | `split` gives pieces free of the separator that join back to the text, each cut made at the leftmost separator left |
| PyStr.SplitFirst | main.py:39 | `split(sep, 1)` gives the text before the first separator and the rest, which join back to the text |
| PyStr.SplitJoinChar | main.py:436 | splitting at a character undoes joining with it when no part holds it |
| PyStr.WordsOfJoinedWords | main.py:954 | `" ".join(words).split()` gives the words back when each is non-empty and free of whitespace |
| PyStr.WordsKeepNonSpace | main.py:953 | the words of a text, put together, are its non-space characters in order |
| PyStr.WordsOfStrip | main.py:953 | `s.strip().split()` is `s.split()` |
| PyStr.DecimalOfChar | main.py:109 | `int` of one character is defined exactly when it is one of the ten digits of a Unicode decimal-digit run, and then it is the character's offset in its run, below 10 |
| PyStr.DecimalOfAsciiDigit | main.py:109 | on `'0'` to `'9'`, `int` gives the digit's value |
| PyStr.DecimalOfArabicIndicThree | main.py:109 | `int("٣")` is 3 |
| PyStr.ParseNatToString | main.py:1159 | the decimal digits of `str(n)` read back as `n` |

## Left out

- Playwright: the browser launch, sign-in form filling, navigation, the `wait_for_*` calls and
  every `asyncio.sleep`. The page is the oracle described above.
- httpx: the fetches, `raise_for_status` and the HEAD-only `get_url_info`. A fetch is given as
  either its parsed page or the text of its exception.
- BeautifulSoup parsing, `select_one`, `find_all`, `decompose` and `get_text`; `urljoin` and
  `urlparse`; `json.loads`. Their results are inputs or function parameters.
- The JavaScript sources evaluated in the page. Their results are inputs.
- `print` logging, the MCP tool registration and `mcp.run()`.
- The interactive test scripts (`simple_test.py`, `test_extractor.py`, `test_structured.py`,
  `test_full_content.py`). They hold no logic beyond prompts and printing.
  `web_extractor` is not part of this model.
- Strategies.PickJavaScriptResult: a script result is taken to be a string. The `str(result)`
  of a non-string value (a list or a number) is not modelled.
- Parsers.ParseHeaders: a JSON value that decodes to something other than an object is not
  modelled.
- Browser.WaitForLogin: an exception raised when `page.url` is read is not modelled. Only the
  element query may raise.
- Merge.ExtractUnlimitedContent: blocks of equal length are ordered by Python's set
  iteration, which depends on string hashing. The model picks any one of them. The sort's
  stability over a fixed iteration order is not captured.
- The window loop's `previous_content_length` and `stable_count` are assigned but never read.
  They are not modelled.
- `str(e)` of the exception that ends a tool is a parameter, not derived from the failing call.
- PyStr.DecimalOfChar: the decimal digits `int` accepts are the 68 runs of ten that Unicode 15.0,
  the database of Python 3.12, gives the property Nd. Other Python versions may know a few runs
  more or fewer.
- The message a raising sibling walk produces is a parameter of
  Markdown.ExtractUrlContentStructured. Python's two exception kinds, `IndexError` and
  `ValueError`, are kept apart.
