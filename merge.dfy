/** `extract_unlimited_dynamic_content` after its scroll loop: three strategies pour the
    meaningful texts of the page into one set, which is then ordered longest first and joined
    with blank lines. */
module Merge {
  import opened PyStr
  import opened Outcome
  import opened Stabilise

  /** `text and len(text.strip()) > 5`, the filter every strategy applies (see
      `MeaningfulMeansLong`). */
  predicate Meaningful(t: string) {
    StripLength(t) > 5
  }

  lemma MeaningfulMeansLong(t: string)
    ensures Meaningful(t) <==> t != [] && |Strip(t)| > 5
  {
    StripLengthIsLength(t);
  }

  /** The stripped meaningful texts among `texts`, where `None` stands for a text whose read
      raised and was skipped. */
  function KeptTexts(texts: seq<Option<string>>): set<string>
  {
    if texts == [] then {}
    else
      var last := texts[|texts| - 1];
      KeptTexts(texts[..|texts| - 1]) + (if last.Some? && Meaningful(last.value) then {Strip(last.value)} else {})
  }

  /** Texts that are read without fail. */
  function AllRead(texts: seq<string>): (r: seq<Option<string>>)
    ensures |r| == |texts| && forall i :: 0 <= i < |texts| ==> r[i] == Some(texts[i])
  {
    seq(|texts|, i requires 0 <= i < |texts| => Some(texts[i]))
  }

  /** A text that was read and is meaningful is kept as its stripped form. */
  predicate KeepsAs(text: Option<string>, b: string) {
    text.Some? && Meaningful(text.value) && Strip(text.value) == b
  }

  /** A text block is kept exactly when some text that was read strips to it and is longer
      than 5 once stripped. */
  lemma {:induction false} KeptTextsMembers(texts: seq<Option<string>>, b: string)
    ensures b in KeptTexts(texts) <==> exists i :: 0 <= i < |texts| && KeepsAs(texts[i], b)
  {
    if texts != [] {
      var init := texts[..|texts| - 1];
      KeptTextsMembers(init, b);
      assert forall i :: 0 <= i < |init| ==> init[i] == texts[i];
      assert b in KeptTexts(texts) <==> b in KeptTexts(init) || KeepsAs(texts[|init|], b);
    }
  }

  /** Every block is a stripped text of more than 5 characters. */
  lemma KeptBlocksAreStripped(texts: seq<Option<string>>, b: string)
    requires b in KeptTexts(texts)
    ensures Stripped(b) && |b| > 5
  {
    KeptTextsMembers(texts, b);
    var i :| 0 <= i < |texts| && KeepsAs(texts[i], b);
    MeaningfulMeansLong(texts[i].value);
  }

  /** Keeping the texts of two lists one after the other keeps the union of what each keeps,
      so the order of the strategies and repeated texts do not matter. */
  lemma {:induction false} KeptTextsAppend(xs: seq<Option<string>>, ys: seq<Option<string>>)
    ensures KeptTexts(xs + ys) == KeptTexts(xs) + KeptTexts(ys)
    decreases |ys|
  {
    if ys == [] {
      assert xs + ys == xs;
    } else {
      var init := ys[..|ys| - 1];
      assert (xs + ys)[..|xs + ys| - 1] == xs + init;
      KeptTextsAppend(xs, init);
    }
  }

  /** Each strategy's loop (main.py:1080-1086, 1121-1124 and 1141-1145): add the stripped
      meaningful texts to the set of blocks. */
  method AddTexts(blocks: set<string>, texts: seq<Option<string>>) returns (blocks': set<string>)
    ensures blocks' == blocks + KeptTexts(texts)
  {
    blocks' := blocks;
    for i := 0 to |texts|
      invariant blocks' == blocks + KeptTexts(texts[..i])
    {
      assert texts[..i + 1][..i] == texts[..i];
      match texts[i] {
        case None =>
        case Some(text) =>
          if Meaningful(text) {
            blocks' := blocks' + {Strip(text)};
          }
      }
    }
    assert texts[..|texts|] == texts;
  }

  /** What stands in for the browser session's answers after the window loop. */
  datatype UnlimitedPage = UnlimitedPage(
    length: nat -> nat,                       // len(page.content()) after each round of the window loop
    fails: nat -> bool,                       // a page call of that round raised
    actionRaises: nat -> bool,                // that round's interaction raised (and was skipped)
    elements: Option<seq<Option<string>>>,    // inner_text() of every element, or None if the query raised
    walker: Option<seq<string>>,              // the text-node walker's list, or None if the script raised
    soupTexts: Option<seq<string>>            // the text nodes of the parsed page, or None if page.content() raised
  )

  function OrNone<T>(o: Option<seq<T>>): seq<T> {
    if o.Some? then o.value else []
  }

  /** All blocks the three strategies gather; a strategy that raises adds nothing. */
  function MergedBlocks(page: UnlimitedPage): set<string> {
    KeptTexts(OrNone(page.elements)) + KeptTexts(AllRead(OrNone(page.walker)))
    + KeptTexts(AllRead(OrNone(page.soupTexts)))
  }

  /** `ordered` lists the blocks of `blocks`, each once, longest first. */
  ghost predicate LengthOrder(ordered: seq<string>, blocks: set<string>) {
    |ordered| == |blocks|
    && (forall x :: x in ordered <==> x in blocks)
    && (forall i, j :: 0 <= i < j < |ordered| ==> ordered[i] != ordered[j])
    && (forall i, j :: 0 <= i < j < |ordered| ==> |ordered[i]| >= |ordered[j]|)
  }

  /** A non-empty set of blocks has a longest one. */
  lemma {:induction false} LongestExists(blocks: set<string>)
    requires blocks != {}
    ensures exists b :: b in blocks && forall c :: c in blocks ==> |c| <= |b|
    decreases |blocks|
  {
    var x :| x in blocks;
    var rest := blocks - {x};
    if rest != {} {
      LongestExists(rest);
      var b :| b in rest && forall c :: c in rest ==> |c| <= |b|;
      if |x| > |b| {
        assert forall c :: c in blocks ==> |c| <= |x|;
      } else {
        assert forall c :: c in blocks ==> |c| <= |b|;
      }
    } else {
      assert blocks == {x};
    }
  }

  /** `sorted(all_extracted_content, key=len, reverse=True)` at main.py:1153; blocks of equal
      length come in an order the set's iteration decides, so any one is taken. */
  method OrderByLength(blocks: set<string>) returns (ordered: seq<string>)
    ensures LengthOrder(ordered, blocks)
  {
    var rest := blocks;
    ordered := [];
    while rest != {}
      invariant rest <= blocks
      invariant forall x :: x in ordered <==> x in blocks && x !in rest
      invariant |ordered| + |rest| == |blocks|
      invariant forall i, j :: 0 <= i < j < |ordered| ==> ordered[i] != ordered[j]
      invariant forall i, j :: 0 <= i < j < |ordered| ==> |ordered[i]| >= |ordered[j]|
      invariant forall i, x :: 0 <= i < |ordered| && x in rest ==> |x| <= |ordered[i]|
      decreases |rest|
    {
      LongestExists(rest);
      var b :| b in rest && forall c :: c in rest ==> |c| <= |b|;
      ordered := ordered + [b];
      rest := rest - {b};
    }
  }

  /** The success message of `extract_unlimited_dynamic_content`. */
  function UnlimitedReport(url: string, count: nat, final: string): string {
    "Successfully extracted UNLIMITED dynamic content from " + url + ":\n\nTotal text blocks: "
    + NatToString(count) + "\nContent length: " + NatToString(|final|) + " characters\n\n" + final
  }

  /** Every block appears in the joined text. */
  lemma BlockInFinal(ordered: seq<string>, blocks: set<string>, b: string)
    requires LengthOrder(ordered, blocks) && b in blocks
    ensures exists o :: OccursAt(Join("\n\n", ordered), b, o)
  {
    var k :| 0 <= k < |ordered| && ordered[k] == b;
    PartOccurs("\n\n", ordered, k);
  }

  /** The two numbers of the message read back as the number of blocks and the length of the
      text at its end. */
  lemma UnlimitedReportShape(url: string, count: nat, final: string)
    ensures var out := UnlimitedReport(url, count, final);
      var head := "Successfully extracted UNLIMITED dynamic content from " + url + ":\n\nTotal text blocks: ";
      out == head + NatToString(count) + "\nContent length: " + NatToString(|final|) + " characters\n\n" + final
      && out[|out| - |final|..] == final
      && ParseDecimal(NatToString(count)) == count && ParseDecimal(NatToString(|final|)) == |final|
  {
    ParseNatToString(count);
    ParseNatToString(|final|);
  }

  /** `extract_unlimited_dynamic_content` after navigation (main.py:1020-1167): the window
      loop, the three strategies, the ordering and the message. `errorText` stands for `str(e)`
      of the exception that ends the tool. */
  method ExtractUnlimitedContent(url: string, page: UnlimitedPage, errorText: string)
    returns (out: string, ordered: seq<string>)
    ensures WindowEnd(page.length, page.fails, 0).Raised? ==>
      out == "Error during unlimited dynamic content extraction: " + errorText
    ensures !WindowEnd(page.length, page.fails, 0).Raised? ==>
      LengthOrder(ordered, MergedBlocks(page))
      && out == UnlimitedReport(url, |MergedBlocks(page)|, Join("\n\n", ordered))
  {
    var end, history, actions := WindowScroll(page.length, page.fails, page.actionRaises);
    if end.Raised? {
      return "Error during unlimited dynamic content extraction: " + errorText, [];
    }
    var blocks := GatherBlocks(page);
    ordered := OrderByLength(blocks);
    var final := Join("\n\n", ordered);
    out := UnlimitedReport(url, |blocks|, final);
  }

  /** The three strategies at main.py:1073-1150, each adding to one set of blocks. */
  method GatherBlocks(page: UnlimitedPage) returns (blocks: set<string>)
    ensures blocks == MergedBlocks(page)
  {
    blocks := {};
    if page.elements.Some? {
      blocks := AddTexts(blocks, page.elements.value);
    }
    if page.walker.Some? {
      blocks := AddTexts(blocks, AllRead(page.walker.value));
    }
    if page.soupTexts.Some? {
      blocks := AddTexts(blocks, AllRead(page.soupTexts.value));
    }
  }
}
