/** The three extraction strategies of `extract_dynamic_content` and the choice between them:
    the conversation-selector probe, the JavaScript result pick, and the flattened HTML text
    as the fallback. The page answers are oracles (see each datatype). */
module Strategies {
  import opened PyStr
  import opened Outcome
  import opened Normalise
  import opened Stabilise

  // ---------------------------------------------------------------- conversation probe

  /** The selectors the probe tries, in this order. */
  const ConversationSelectors: seq<string> := [
    "[data-message-author-role]", ".conversation-turn", ".message", "[role=\"presentation\"]",
    ".model-response", ".user-message", "[data-testid*=\"conversation\"]",
    "[data-testid*=\"message\"]", ".chat-message", ".response-container"
  ]

  const ProbeAttempts: nat := 20

  /** What `page.query_selector_all(selector)` gave on one attempt: it raised, or it found
      elements, listed by what their `inner_text()` gives (`None` when that call raised). */
  datatype Answer = QueryRaised | Elements(texts: seq<Option<string>>)

  /** `text and len(text.strip()) > 10` (see `SubstantialMeansLong`). */
  predicate Substantial(t: string) {
    StripLength(t) > 10
  }

  lemma SubstantialMeansLong(t: string)
    ensures Substantial(t) <==> t != [] && |Strip(t)| > 10
  {
    StripLengthIsLength(t);
  }

  /** What reading part of a page added to the conversation text, and whether it ended in an
      exception. */
  datatype Read = Read(added: string, raised: bool)

  /** What one substantial text adds: the text and a blank line. */
  function Block(t: string): string {
    if Substantial(t) then t + "\n\n" else ""
  }

  /** Reading the elements of the selector that matched, in order: each substantial text is
      appended with a blank line after it, and an `inner_text()` that raises ends the attempt. */
  function ReadTexts(texts: seq<Option<string>>): Read
  {
    if texts == [] then Read("", false)
    else match texts[0]
      case None => Read("", true)
      case Some(t) =>
        var rest := ReadTexts(texts[1..]);
        Read(Block(t) + rest.added, rest.raised)
  }

  /** Reading from element `i` on after `prefix`: a raise ends the reading there, a text
      contributes its block and the reading goes on at `i + 1`. */
  lemma ReadAdvance(prefix: string, texts: seq<Option<string>>, i: nat)
    requires i < |texts|
    ensures texts[i].None? ==> prefix + ReadTexts(texts[i..]).added == prefix && ReadTexts(texts[i..]).raised
    ensures texts[i].Some? ==>
      prefix + ReadTexts(texts[i..]).added == (prefix + Block(texts[i].value)) + ReadTexts(texts[i + 1..]).added
      && ReadTexts(texts[i..]).raised == ReadTexts(texts[i + 1..]).raised
  {
    assert texts[i..][1..] == texts[i + 1..];
  }

  /** The inner loop at main.py:877-880, appending to `content`. */
  method ReadElements(content: string, texts: seq<Option<string>>) returns (content': string, raised: bool)
    ensures content' == content + ReadTexts(texts).added
    ensures raised == ReadTexts(texts).raised
  {
    content' := content;
    var i := 0;
    while i < |texts|
      invariant 0 <= i <= |texts|
      invariant content + ReadTexts(texts).added == content' + ReadTexts(texts[i..]).added
      invariant ReadTexts(texts).raised == ReadTexts(texts[i..]).raised
    {
      ReadAdvance(content', texts, i);
      match texts[i] {
        case None =>
          return content', true;
        case Some(text) =>
          if Substantial(text) {
            content' := content' + (text + "\n\n");
          } else {
            assert content' + Block(text) == content';
          }
      }
      i := i + 1;
    }
    assert content' + ReadTexts(texts[i..]).added == content';
    raised := false;
  }

  /** One attempt of the probe from selector `j` on: a selector that finds no element passes
      the turn to the next one, the first that finds any is read and ends the walk, and a query
      that raises ends the attempt. */
  function SelectorWalk(query: (nat, string) -> Answer, attempt: nat, j: nat): Read
    decreases |ConversationSelectors| - j
  {
    if j >= |ConversationSelectors| then Read("", false)
    else match query(attempt, ConversationSelectors[j])
      case QueryRaised => Read("", true)
      case Elements(texts) => if texts == [] then SelectorWalk(query, attempt, j + 1) else ReadTexts(texts)
  }

  /** The selector loop at main.py:873-881 of one attempt. */
  method ProbeAttempt(query: (nat, string) -> Answer, attempt: nat, content: string)
    returns (content': string, raised: bool)
    ensures content' == content + SelectorWalk(query, attempt, 0).added
    ensures raised == SelectorWalk(query, attempt, 0).raised
  {
    var j := 0;
    while j < |ConversationSelectors|
      invariant 0 <= j <= |ConversationSelectors|
      invariant SelectorWalk(query, attempt, 0) == SelectorWalk(query, attempt, j)
    {
      var elements := query(attempt, ConversationSelectors[j]);
      SelectorWalkAt(query, attempt, j);
      match elements {
        case QueryRaised =>
          assert content + "" == content;
          return content, true;
        case Elements(texts) =>
          if texts != [] {
            content', raised := ReadElements(content, texts);
            return;
          }
      }
      j := j + 1;
    }
    assert content + "" == content;
    return content, false;
  }

  /** The selector at `j`: its query raises, finds nothing, or finds elements. */
  lemma SelectorWalkAt(query: (nat, string) -> Answer, attempt: nat, j: nat)
    requires j < |ConversationSelectors|
    ensures query(attempt, ConversationSelectors[j]).QueryRaised? ==>
              SelectorWalk(query, attempt, j) == Read("", true)
    ensures query(attempt, ConversationSelectors[j]) == Elements([]) ==>
              SelectorWalk(query, attempt, j) == SelectorWalk(query, attempt, j + 1)
    ensures query(attempt, ConversationSelectors[j]).Elements? && query(attempt, ConversationSelectors[j]).texts != [] ==>
              SelectorWalk(query, attempt, j) == ReadTexts(query(attempt, ConversationSelectors[j]).texts)
  {
  }

  /** The attempts' reads as a function of the attempt number. */
  function Walk(query: (nat, string) -> Answer): nat -> Read {
    (attempt: nat) => SelectorWalk(query, attempt, 0)
  }

  /** The retry loop from attempt `attempt` on with the text gathered so far, where `walk`
      gives what each attempt reads: the conversation text and the number of attempts made. */
  function ProbeFrom(walk: nat -> Read, attempt: nat, content: string): (string, nat)
    decreases ProbeAttempts - attempt
  {
    if attempt >= ProbeAttempts then (content, attempt)
    else
      var gathered := content + walk(attempt).added;
      if !walk(attempt).raised && gathered != [] then (gathered, attempt + 1)
      else ProbeFrom(walk, attempt + 1, gathered)
  }

  /** One attempt of the retry loop, given what the attempt read: stop on a clean attempt that
      left the text non-empty, otherwise go on to the next attempt with the text gathered. */
  lemma ProbeAdvance(query: (nat, string) -> Answer, attempt: nat, content: string, content': string, raised: bool)
    requires attempt < ProbeAttempts
    requires content' == content + SelectorWalk(query, attempt, 0).added
    requires raised == SelectorWalk(query, attempt, 0).raised
    ensures ProbeFrom(Walk(query), attempt, content)
      == if !raised && content' != [] then (content', attempt + 1) else ProbeFrom(Walk(query), attempt + 1, content')
  {
    assert Walk(query)(attempt) == SelectorWalk(query, attempt, 0);
  }

  /** The probe loop at main.py:856-888. */
  method ConversationProbe(query: (nat, string) -> Answer) returns (content: string, attempts: nat)
    ensures (content, attempts) == ProbeFrom(Walk(query), 0, "")
  {
    content := "";
    var attempt := 0;
    while attempt < ProbeAttempts
      invariant 0 <= attempt <= ProbeAttempts
      invariant ProbeFrom(Walk(query), 0, "") == ProbeFrom(Walk(query), attempt, content)
    {
      var stop;
      content, stop := ProbeStep(query, attempt, content);
      if stop {
        return content, attempt + 1;
      }
      attempt := attempt + 1;
    }
    return content, attempt;
  }

  /** One attempt of the probe loop: the text gathered, and whether the loop stops there. */
  method ProbeStep(query: (nat, string) -> Answer, attempt: nat, content: string)
    returns (content': string, stop: bool)
    requires attempt < ProbeAttempts
    ensures stop ==> ProbeFrom(Walk(query), attempt, content) == (content', attempt + 1)
    ensures !stop ==> ProbeFrom(Walk(query), attempt, content) == ProbeFrom(Walk(query), attempt + 1, content')
  {
    var raised;
    content', raised := ProbeAttempt(query, attempt, content);
    ProbeAdvance(query, attempt, content, content', raised);
    stop := !raised && content' != [];
  }

  /** Only the first selector, in list order, that finds an element is read, even when none
      of its texts is substantial. */
  lemma {:induction false} FirstMatchingSelectorIsRead(query: (nat, string) -> Answer, attempt: nat, j: nat, k: nat)
    requires k <= j < |ConversationSelectors|
    requires forall i :: k <= i < j ==> query(attempt, ConversationSelectors[i]) == Elements([])
    requires query(attempt, ConversationSelectors[j]).Elements?
    requires query(attempt, ConversationSelectors[j]).texts != []
    ensures SelectorWalk(query, attempt, k) == ReadTexts(query(attempt, ConversationSelectors[j]).texts)
    decreases j - k
  {
    if k < j {
      FirstMatchingSelectorIsRead(query, attempt, j, k + 1);
    }
  }

  /** An attempt ends in an exception exactly when one of the element texts it reads raises. */
  lemma {:induction false} ReadTextsRaises(texts: seq<Option<string>>)
    ensures ReadTexts(texts).raised <==> exists i :: 0 <= i < |texts| && texts[i].None?
  {
    if texts != [] {
      ReadTextsRaises(texts[1..]);
      if texts[0].Some? && ReadTexts(texts).raised {
        var i :| 0 <= i < |texts[1..]| && texts[1..][i].None?;
        assert texts[i + 1].None?;
      }
      if texts[0].Some? && exists i :: 0 <= i < |texts| && texts[i].None? {
        var i :| 0 <= i < |texts| && texts[i].None?;
        assert texts[1..][i - 1].None?;
      }
    }
  }

  /** No element before index `i` raised when its text was read. */
  predicate NoRaiseBefore(texts: seq<Option<string>>, i: nat)
    requires i <= |texts|
  {
    forall k :: 0 <= k < i ==> texts[k].Some?
  }

  /** Reading adds nothing exactly when no substantial text is reached before the first text
      that raises. */
  lemma {:induction false} ReadTextsAddsNothing(texts: seq<Option<string>>)
    ensures ReadTexts(texts).added == [] <==>
      forall i :: 0 <= i < |texts| && NoRaiseBefore(texts, i) && texts[i].Some? ==> !Substantial(texts[i].value)
  {
    if texts != [] {
      var tail := texts[1..];
      ReadTextsAddsNothing(tail);
      if texts[0].Some? {
        forall i | 1 <= i < |texts|
          ensures texts[i] == tail[i - 1]
          ensures NoRaiseBefore(texts, i) <==> NoRaiseBefore(tail, i - 1)
        {
          if NoRaiseBefore(tail, i - 1) {
            forall k | 1 <= k < i ensures texts[k].Some? {
              assert tail[k - 1] == texts[k];
            }
          }
        }
        assert NoRaiseBefore(texts, 0);
      } else {
        forall i | 1 <= i < |texts| ensures !NoRaiseBefore(texts, i) {
          assert texts[0].None?;
        }
      }
    }
  }

  /** What reading adds, when anything, ends with the blank line after the last text. */
  lemma {:induction false} ReadTextsEndsWithBlankLine(texts: seq<Option<string>>)
    ensures var added := ReadTexts(texts).added;
      added != [] ==> |added| >= 2 && added[|added| - 2..] == "\n\n"
  {
    if texts != [] && texts[0].Some? {
      ReadTextsEndsWithBlankLine(texts[1..]);
      var rest := ReadTexts(texts[1..]).added;
      var added := Block(texts[0].value) + rest;
      if rest != [] {
        assert added[|added| - 2..] == rest[|rest| - 2..];
      }
    }
  }

  /** The text gathered from `content` on by attempts `attempt` up to, not including, `b`. */
  function Gathered(walk: nat -> Read, attempt: nat, b: nat, content: string): (text: string)
    requires attempt <= b
    ensures content <= text
    decreases b
  {
    if b == attempt then content else Gathered(walk, attempt, b - 1, content) + walk(b - 1).added
  }

  /** Gathering from the next attempt on, after this attempt's text, is gathering from this one. */
  lemma {:induction false} GatheredShift(walk: nat -> Read, attempt: nat, b: nat, content: string)
    requires attempt < b
    ensures Gathered(walk, attempt + 1, b, content + walk(attempt).added) == Gathered(walk, attempt, b, content)
    decreases b
  {
    if b > attempt + 1 {
      GatheredShift(walk, attempt, b - 1, content);
    }
  }

  /** The retry loop stops at the first attempt that finished without an exception and left
      the text non-empty, and at the latest after 20 attempts. The conversation text it
      returns is everything the attempts made gathered, so text gathered on an attempt that
      raised is kept. */
  lemma ProbeKeepsAndStops(walk: nat -> Read, attempt: nat, content: string)
    requires attempt <= ProbeAttempts
    ensures var (text, used) := ProbeFrom(walk, attempt, content);
      attempt <= used <= ProbeAttempts && (used == attempt <==> attempt == ProbeAttempts)
      && content <= text && text == Gathered(walk, attempt, used, content)
      && (forall b :: attempt < b < used ==>
            walk(b - 1).raised || Gathered(walk, attempt, b, content) == [])
      && (used < ProbeAttempts ==> text != [] && used >= 1 && !walk(used - 1).raised)
      && (text == [] ==> used == ProbeAttempts)
  {
    ProbeStops(walk, attempt, content);
    ProbeGathers(walk, attempt, content);
  }

  /** The bounds on the attempts made, and why the loop ended early if it did. */
  lemma {:induction false} ProbeStops(walk: nat -> Read, attempt: nat, content: string)
    requires attempt <= ProbeAttempts
    ensures var (text, used) := ProbeFrom(walk, attempt, content);
      attempt <= used <= ProbeAttempts && (used == attempt <==> attempt == ProbeAttempts)
      && (used < ProbeAttempts ==> text != [] && used >= 1 && !walk(used - 1).raised)
      && (text == [] ==> used == ProbeAttempts)
    decreases ProbeAttempts - attempt
  {
    if attempt < ProbeAttempts {
      var gathered := content + walk(attempt).added;
      if walk(attempt).raised || gathered == [] {
        ProbeStops(walk, attempt + 1, gathered);
      }
    }
  }

  /** The text returned is what the attempts made gathered, and every attempt before the last
      one made either raised or left the text empty. */
  lemma {:induction false} ProbeGathers(walk: nat -> Read, attempt: nat, content: string)
    requires attempt <= ProbeAttempts
    ensures var (text, used) := ProbeFrom(walk, attempt, content);
      attempt <= used && text == Gathered(walk, attempt, used, content)
      && forall b :: attempt < b < used ==> walk(b - 1).raised || Gathered(walk, attempt, b, content) == []
    decreases ProbeAttempts - attempt
  {
    if attempt < ProbeAttempts {
      var gathered := content + walk(attempt).added;
      assert Gathered(walk, attempt, attempt + 1, content) == gathered;
      if walk(attempt).raised || gathered == [] {
        ProbeGathers(walk, attempt + 1, gathered);
        var (text, used) := ProbeFrom(walk, attempt + 1, gathered);
        GatheredShift(walk, attempt, used, content);
        forall b | attempt + 1 < b < used
          ensures Gathered(walk, attempt + 1, b, gathered) == Gathered(walk, attempt, b, content)
        {
          GatheredShift(walk, attempt, b, content);
        }
      }
    }
  }

  // ---------------------------------------------------------------- JavaScript pick

  /** `js_extracted_content` after the scripts with results `results`, where `None` stands for a
      script that raised or gave nothing: a result replaces the kept text only when its stripped
      length exceeds the kept text's length. */
  function JavaScriptPick(results: seq<Option<string>>): string
  {
    if results == [] then ""
    else
      var kept := JavaScriptPick(results[..|results| - 1]);
      var result := results[|results| - 1];
      if result.Some? && result.value != [] && |Strip(result.value)| > |kept| then result.value else kept
  }

  /** The script loop at main.py:930-937. */
  method PickJavaScriptResult(results: seq<Option<string>>) returns (kept: string)
    ensures kept == JavaScriptPick(results)
  {
    kept := "";
    for i := 0 to |results|
      invariant kept == JavaScriptPick(results[..i])
    {
      assert results[..i + 1][..i] == results[..i];
      var result := results[i];
      if result.Some? && result.value != [] && |Strip(result.value)| > |kept| {
        kept := result.value;
      }
    }
    assert results[..|results|] == results;
  }

  /** The kept length never decreases, and a failing script leaves the kept text as it was. */
  lemma JavaScriptPickGrows(results: seq<Option<string>>, result: Option<string>)
    ensures |JavaScriptPick(results)| <= |JavaScriptPick(results + [result])|
    ensures result.None? ==> JavaScriptPick(results + [result]) == JavaScriptPick(results)
  {
    assert (results + [result])[..|results|] == results;
  }

  /** When every script fails, the kept text stays "". */
  lemma {:induction false} JavaScriptPickAllFail(results: seq<Option<string>>)
    requires forall i :: 0 <= i < |results| ==> results[i].None?
    ensures JavaScriptPick(results) == ""
  {
    if results != [] {
      JavaScriptPickAllFail(results[..|results| - 1]);
    }
  }

  /** The kept text is either "" or one of the results, and no non-empty result is longer,
      once stripped, than the kept text. */
  lemma {:induction false} JavaScriptPickIsLongest(results: seq<Option<string>>, i: nat)
    requires i < |results| && results[i].Some?
    ensures |Strip(results[i].value)| <= |JavaScriptPick(results)|
    ensures JavaScriptPick(results) == "" || Some(JavaScriptPick(results)) in results
  {
    var init := results[..|results| - 1];
    var last := results[|results| - 1];
    JavaScriptPickGrows(init, last);
    assert init + [last] == results;
    if i < |results| - 1 {
      assert init[i] == results[i];
      JavaScriptPickIsLongest(init, i);
      if JavaScriptPick(results) == JavaScriptPick(init) && JavaScriptPick(init) != "" {
        assert Some(JavaScriptPick(init)) in init;
      }
    } else if JavaScriptPick(results) == JavaScriptPick(init) && JavaScriptPick(init) != "" {
      if init != [] && exists k :: 0 <= k < |init| && init[k].Some? {
        var k :| 0 <= k < |init| && init[k].Some?;
        JavaScriptPickIsLongest(init, k);
      } else {
        JavaScriptPickAllFail(init);
      }
    }
  }

  // ---------------------------------------------------------------- choosing the result

  /** The three methods the tool may report. */
  datatype Method = ConversationSpecific | JavaScriptBased | HtmlParsing

  function MethodName(m: Method): string {
    match m
    case ConversationSpecific => "conversation-specific"
    case JavaScriptBased => "javascript-based"
    case HtmlParsing => "html-parsing"
  }

  /** The `if`/`elif`/`else` at main.py:957-966: the first of the conversation text and the
      JavaScript text whose stripped length exceeds 100, else the HTML text. */
  function Choose(conversation: string, javascript: string, html: string): (string, Method)
  {
    if conversation != [] && |Strip(conversation)| > 100 then (conversation, ConversationSpecific)
    else if javascript != [] && |Strip(javascript)| > 100 then (javascript, JavaScriptBased)
    else (html, HtmlParsing)
  }

  /** Each method is chosen exactly under its threshold condition, and the label always names
      the text returned. */
  lemma ChooseSpec(conversation: string, javascript: string, html: string)
    ensures var (text, m) := Choose(conversation, javascript, html);
      (m == ConversationSpecific <==> |Strip(conversation)| > 100)
      && (m == JavaScriptBased <==> |Strip(conversation)| <= 100 && |Strip(javascript)| > 100)
      && (m == HtmlParsing <==> |Strip(conversation)| <= 100 && |Strip(javascript)| <= 100)
      && text == (match m
        case ConversationSpecific => conversation
        case JavaScriptBased => javascript
        case HtmlParsing => html)
  {
  }

  // ---------------------------------------------------------------- the tool

  /** The success message of `extract_dynamic_content`. */
  function DynamicReport(url: string, m: Method, final: string): string {
    "Successfully extracted UNLIMITED dynamic content from " + url + " using " + MethodName(m)
    + " method:\n\nContent length: " + NatToString(|final|) + " characters\n\n" + final
  }

  /** The message names the method, and the length it reports reads back as the length of the
      text at its end. */
  lemma DynamicReportShape(url: string, m: Method, final: string)
    ensures var out := DynamicReport(url, m, final);
      var head := "Successfully extracted UNLIMITED dynamic content from " + url + " using " + MethodName(m)
        + " method:\n\nContent length: ";
      var digits := NatToString(|final|);
      out == head + digits + " characters\n\n" + final
      && out[|out| - |final|..] == final
      && ParseDecimal(digits) == |final|
  {
    ParseNatToString(|final|);
  }

  /** What stands in for the browser session's answers. */
  datatype DynamicPage = DynamicPage(
    length: nat -> nat,             // len(page.content()) after each scroll of the counter loop
    fails: nat -> bool,             // a page call of that scroll attempt raised
    query: (nat, string) -> Answer, // the probe's query results per attempt and selector
    scripts: seq<Option<string>>,   // the three scripts' results
    pageText: Option<string>        // soup.get_text() of the final page, or None if page.content() raised
  )

  /** `extract_dynamic_content` after navigation: scroll until stable, run the three strategies
      and report the chosen text. `errorText` stands for `str(e)` of the exception that ends the
      tool, if any. */
  method ExtractDynamicContent(url: string, page: DynamicPage, errorText: string) returns (out: string)
    ensures CounterEnd(page.length, page.fails, 0).Raised? || page.pageText.None? ==>
      out == "Error during dynamic content extraction: " + errorText
    ensures !CounterEnd(page.length, page.fails, 0).Raised? && page.pageText.Some? ==>
      var (final, m) := Choose(ProbeFrom(Walk(page.query), 0, "").0, JavaScriptPick(page.scripts), Flatten(page.pageText.value));
      out == DynamicReport(url, m, final)
  {
    var end, targets := CounterScroll(page.length, page.fails);
    if end.Raised? {
      return "Error during dynamic content extraction: " + errorText;
    }
    var conversation, attempts := ConversationProbe(page.query);
    var javascript := PickJavaScriptResult(page.scripts);
    if page.pageText.None? {
      return "Error during dynamic content extraction: " + errorText;
    }
    var html := Flatten(page.pageText.value);
    var (final, m) := Choose(conversation, javascript, html);
    out := DynamicReport(url, m, final);
  }
}
