/** The text normalisers of main.py: the line/chunk flattening idiom that every extraction tool
    applies to the text of a parsed page, and `clean_text`. */
module Normalise {
  import opened PyStr

  /** Text the flattening idiom leaves as it is: a single line, no space at either end, and no
      two adjacent ' '. */
  predicate Flat(s: string) {
    NoLineBreak(s) && Stripped(s) && NoDoubleSpace(s)
  }

  /** `phrase.strip() for phrase in line.strip().split("  ")`: the chunks of one line. */
  function LineChunks(line: string): seq<string>
  {
    var phrases := Split(Strip(line), "  ");
    seq(|phrases|, i requires 0 <= i < |phrases| => Strip(phrases[i]))
  }

  /** The chunks of all lines, in order. */
  function Chunks(lines: seq<string>): seq<string>
  {
    if lines == [] then [] else LineChunks(lines[0]) + Chunks(lines[1..])
  }

  /** `chunk for chunk in chunks if chunk`. */
  function NonEmpty(chunks: seq<string>): seq<string>
  {
    if chunks == [] then []
    else (if chunks[0] != [] then [chunks[0]] else []) + NonEmpty(chunks[1..])
  }

  /** The flattening idiom: split into lines, strip each line, split each line at every "  ",
      strip each piece, drop the empty pieces and join the rest with one ' '. The result is a
      single line with no space at either end and no two adjacent ' '. */
  function Flatten(text: string): (r: string)
    ensures Flat(r)
  {
    var chunks := NonEmpty(Chunks(SplitLines(text)));
    ChunksAreFlat(SplitLines(text));
    NonEmptyKeeps(Chunks(SplitLines(text)));
    JoinOfFlat(chunks);
    Join(" ", chunks)
  }

  lemma ChunkIsFlat(line: string, k: nat)
    requires NoLineBreak(line) && k < |LineChunks(line)|
    ensures Flat(LineChunks(line)[k])
  {
    var stripped := Strip(line);
    var phrases := Split(stripped, "  ");
    var o1 :| OccursAt(line, stripped, o1);
    NoLineBreakWithin(line, stripped, o1);
    PartOccurs("  ", phrases, k);
    var o2 :| OccursAt(stripped, phrases[k], o2);
    NoLineBreakWithin(stripped, phrases[k], o2);
    var chunk := Strip(phrases[k]);
    var o3 :| OccursAt(phrases[k], chunk, o3);
    NoLineBreakWithin(phrases[k], chunk, o3);
    NoOccurrenceWithin(phrases[k], chunk, o3, "  ");
    NoDoubleSpaceIffNoOccurrence(chunk);
  }

  lemma {:induction false} ChunksAreFlat(lines: seq<string>)
    requires forall k :: 0 <= k < |lines| ==> NoLineBreak(lines[k])
    ensures forall i :: 0 <= i < |Chunks(lines)| ==> Flat(Chunks(lines)[i])
  {
    if lines != [] {
      ChunksAreFlat(lines[1..]);
      forall k | 0 <= k < |LineChunks(lines[0])| ensures Flat(LineChunks(lines[0])[k]) {
        ChunkIsFlat(lines[0], k);
      }
    }
  }

  lemma {:induction false} NonEmptyKeeps(chunks: seq<string>)
    ensures forall i :: 0 <= i < |NonEmpty(chunks)| ==> NonEmpty(chunks)[i] != [] && NonEmpty(chunks)[i] in chunks
  {
    if chunks != [] {
      NonEmptyKeeps(chunks[1..]);
    }
  }

  /** ' ' between two flat non-empty texts keeps the whole flat. */
  lemma FlatGlue(a: string, b: string)
    requires a != [] && b != [] && Flat(a) && Flat(b)
    ensures Flat(a + " " + b)
  {
    var s := a + " " + b;
    forall i | 0 <= i < |s| - 1 ensures !(s[i] == ' ' && s[i + 1] == ' ') {
      if i < |a| - 1 {
        assert s[i] == a[i] && s[i + 1] == a[i + 1];
      } else if i == |a| - 1 {
        assert s[i] == a[|a| - 1];
      } else if i == |a| {
        assert s[i + 1] == b[0];
      } else {
        assert s[i] == b[i - |a| - 1] && s[i + 1] == b[i - |a|];
      }
    }
    forall j | 0 <= j < |s| ensures !IsLineBreak(s[j]) {
      if j < |a| {
        assert s[j] == a[j];
      } else if j > |a| {
        assert s[j] == b[j - |a| - 1];
      }
    }
    assert s[0] == a[0] && s[|s| - 1] == b[|b| - 1];
  }

  lemma {:induction false} JoinOfFlat(parts: seq<string>)
    requires forall i :: 0 <= i < |parts| ==> parts[i] != [] && Flat(parts[i])
    ensures Flat(Join(" ", parts))
    ensures parts != [] ==> Join(" ", parts) != []
  {
    if |parts| > 1 {
      JoinOfFlat(parts[1..]);
      FlatGlue(parts[0], Join(" ", parts[1..]));
    }
  }

  /** A flat text flattens to itself. */
  lemma FlattenOfFlat(t: string)
    requires Flat(t)
    ensures Flatten(t) == t
  {
    SplitLinesOfOneLine(t);
    if t != [] {
      NoDoubleSpaceIffNoOccurrence(t);
      assert Split(t, "  ") == [t];
      assert LineChunks(t) == [t];
      assert Chunks([t]) == [t] + Chunks([]);
      assert NonEmpty([t]) == [t] + NonEmpty([]);
    }
  }

  /** Flattening twice gives what flattening once gives. */
  lemma FlattenIdempotent(text: string)
    ensures Flatten(Flatten(text)) == Flatten(text)
  {
    FlattenOfFlat(Flatten(text));
  }

  lemma {:induction false} NonEmptyConcat(chunks: seq<string>)
    ensures Concat(NonEmpty(chunks)) == Concat(chunks)
  {
    if chunks != [] {
      NonEmptyConcat(chunks[1..]);
      var head := if chunks[0] != [] then [chunks[0]] else [];
      ConcatAppend(head, NonEmpty(chunks[1..]));
      assert Concat(head) == chunks[0] by {
        if head != [] {
          assert Concat(head) == chunks[0] + Concat([]);
        }
      }
    }
  }

  lemma {:induction false} NonSpaceOfStripped(ps: seq<string>)
    ensures NonSpace(Concat(seq(|ps|, i requires 0 <= i < |ps| => Strip(ps[i])))) == NonSpace(Concat(ps))
  {
    var qs := seq(|ps|, i requires 0 <= i < |ps| => Strip(ps[i]));
    if ps != [] {
      var qs' := seq(|ps[1..]|, i requires 0 <= i < |ps[1..]| => Strip(ps[1..][i]));
      assert qs[1..] == qs';
      NonSpaceOfStripped(ps[1..]);
      NonSpaceConcat(qs[0], Concat(qs[1..]));
      NonSpaceConcat(ps[0], Concat(ps[1..]));
      StripKeepsNonSpace(ps[0]);
    }
  }

  lemma LineChunksKeepNonSpace(line: string)
    ensures NonSpace(Concat(LineChunks(line))) == NonSpace(line)
  {
    var phrases := Split(Strip(line), "  ");
    NonSpaceOfStripped(phrases);
    NonSpaceJoin("  ", phrases);
    StripKeepsNonSpace(line);
  }

  lemma {:induction false} ChunksKeepNonSpace(lines: seq<string>)
    ensures NonSpace(Concat(Chunks(lines))) == NonSpace(Concat(lines))
  {
    if lines != [] {
      ChunksKeepNonSpace(lines[1..]);
      ConcatAppend(LineChunks(lines[0]), Chunks(lines[1..]));
      NonSpaceConcat(Concat(LineChunks(lines[0])), Concat(Chunks(lines[1..])));
      LineChunksKeepNonSpace(lines[0]);
      NonSpaceConcat(lines[0], Concat(lines[1..]));
    }
  }

  lemma {:induction false} LinesKeepNonSpace(s: string)
    ensures NonSpace(Concat(SplitLines(s))) == NonSpace(s)
    decreases |s|
  {
    if s != [] {
      var i := LineEnd(s);
      if i == |s| {
        assert SplitLines(s) == [s];
        assert Concat([s]) == s + Concat([]);
        assert s + [] == s;
      } else {
        var width := if s[i] == '\r' && i + 1 < |s| && s[i + 1] == '\n' then 2 else 1;
        var rest := s[i + width..];
        var tail := SplitLines(rest);
        assert SplitLines(s) == [s[..i]] + tail;
        LinesKeepNonSpace(rest);
        LineBreakSplit(s, i, width);
        ConcatCons(s[..i], tail);
        NonSpaceConcat(s[..i], Concat(tail));
      }
    }
  }

  lemma ConcatCons(head: string, tail: seq<string>)
    ensures Concat([head] + tail) == head + Concat(tail)
  {
    assert ([head] + tail)[1..] == tail;
  }

  /** Cutting a text at a line boundary loses only spaces. */
  lemma LineBreakSplit(s: string, i: nat, width: nat)
    requires 1 <= width <= 2 && i + width <= |s| && IsLineBreak(s[i])
    requires width == 2 ==> s[i + 1] == '\n'
    ensures NonSpace(s) == NonSpace(s[..i]) + NonSpace(s[i + width..])
  {
    var w, rest := s[i..i + width], s[i + width..];
    BreakIsSpaces(s, i, width);
    NonSpaceSkip(s[..i], w, rest);
    SplitAround(s, i, i + width);
  }

  lemma NonSpaceSkip(a: string, w: string, rest: string)
    requires NonSpace(w) == []
    ensures NonSpace(a + (w + rest)) == NonSpace(a) + NonSpace(rest)
  {
    NonSpaceConcat(w, rest);
    NonSpaceConcat(a, w + rest);
  }

  lemma BreakIsSpaces(s: string, i: nat, width: nat)
    requires 1 <= width <= 2 && i + width <= |s| && IsLineBreak(s[i])
    requires width == 2 ==> s[i + 1] == '\n'
    ensures NonSpace(s[i..i + width]) == []
  {
    var w := s[i..i + width];
    assert IsSpace(w[0]);
    if width == 2 {
      assert w[1] == '\n';
    }
    NonSpaceOfSpaces(w);
  }

  /** Flattening removes and replaces spaces only: the non-space characters of the text all
      survive, in their order. */
  lemma FlattenKeepsText(text: string)
    ensures NonSpace(Flatten(text)) == NonSpace(text)
  {
    var lines := SplitLines(text);
    var chunks := NonEmpty(Chunks(lines));
    NonSpaceJoin(" ", chunks);
    NonEmptyConcat(Chunks(lines));
    ChunksKeepNonSpace(lines);
    LinesKeepNonSpace(text);
  }

  /** Flattening keeps the words of the text: `Flatten(t).split() == t.split()`. Together with
      `Flatten` being flat, the words stay apart and in order, each line break and each run
      of spaces between two words turning into one separator. */
  lemma FlattenKeepsWords(text: string)
    ensures Words(Flatten(text)) == Words(text)
  {
    var lines := SplitLines(text);
    var chunks := NonEmpty(Chunks(lines));
    WordsOfJoin(" ", chunks);
    WordsOfNonEmpty(Chunks(lines));
    ChunksKeepWords(lines);
    LinesKeepWords(text);
  }

  lemma {:induction false} WordsOfNonEmpty(chunks: seq<string>)
    ensures WordsOf(NonEmpty(chunks)) == WordsOf(chunks)
  {
    if chunks != [] {
      WordsOfNonEmpty(chunks[1..]);
      var head := if chunks[0] != [] then [chunks[0]] else [];
      WordsOfAppend(head, NonEmpty(chunks[1..]));
      assert WordsOf(head) == Words(chunks[0]) by {
        if head != [] {
          assert WordsOf(head) == Words(chunks[0]) + WordsOf([]);
        }
      }
    }
  }

  lemma {:induction false} WordsOfStripped(ps: seq<string>)
    ensures WordsOf(seq(|ps|, i requires 0 <= i < |ps| => Strip(ps[i]))) == WordsOf(ps)
  {
    var qs := seq(|ps|, i requires 0 <= i < |ps| => Strip(ps[i]));
    if ps != [] {
      var qs' := seq(|ps[1..]|, i requires 0 <= i < |ps[1..]| => Strip(ps[1..][i]));
      assert qs[1..] == qs';
      WordsOfStripped(ps[1..]);
      WordsOfStrip(ps[0]);
    }
  }

  lemma LineChunksKeepWords(line: string)
    ensures WordsOf(LineChunks(line)) == Words(line)
  {
    var stripped := Strip(line);
    var phrases := Split(stripped, "  ");
    calc {
      WordsOf(LineChunks(line));
      WordsOf(seq(|phrases|, i requires 0 <= i < |phrases| => Strip(phrases[i])));
      { WordsOfStripped(phrases); }
      WordsOf(phrases);
      { assert forall i :: 0 <= i < |"  "| ==> IsSpace("  "[i]);
        WordsOfJoin("  ", phrases); }
      Words(Join("  ", phrases));
      Words(stripped);
      { WordsOfStrip(line); }
      Words(line);
    }
  }

  lemma {:induction false} ChunksKeepWords(lines: seq<string>)
    ensures WordsOf(Chunks(lines)) == WordsOf(lines)
  {
    if lines != [] {
      ChunksKeepWords(lines[1..]);
      WordsOfAppend(LineChunks(lines[0]), Chunks(lines[1..]));
      LineChunksKeepWords(lines[0]);
    }
  }

  lemma {:induction false} LinesKeepWords(s: string)
    ensures WordsOf(SplitLines(s)) == Words(s)
    decreases |s|
  {
    if s != [] {
      var i := LineEnd(s);
      if i == |s| {
        assert SplitLines(s) == [s];
        assert WordsOf([s]) == Words(s) + WordsOf([]);
      } else {
        var width := if s[i] == '\r' && i + 1 < |s| && s[i + 1] == '\n' then 2 else 1;
        var rest := s[i + width..];
        var tail := SplitLines(rest);
        assert SplitLines(s) == [s[..i]] + tail;
        assert ([s[..i]] + tail)[1..] == tail;
        LinesKeepWords(rest);
        LineBreakWords(s, i, width);
      }
    }
  }

  /** Cutting a text at a line boundary separates its words there. */
  lemma LineBreakWords(s: string, i: nat, width: nat)
    requires 1 <= width <= 2 && i + width <= |s| && IsLineBreak(s[i])
    requires width == 2 ==> s[i + 1] == '\n'
    ensures Words(s) == Words(s[..i]) + Words(s[i + width..])
  {
    assert forall k :: i <= k < i + width ==> IsSpace(s[k]);
    WordsAcrossSpacesAt(s, i, i + width);
  }

  lemma WordsAcrossSpacesAt(s: string, i: nat, j: nat)
    requires i < j <= |s| && forall k :: i <= k < j ==> IsSpace(s[k])
    ensures Words(s) == Words(s[..i]) + Words(s[j..])
  {
    var w := s[i..j];
    assert forall k :: 0 <= k < |w| ==> w[k] == s[i + k];
    SplitAround(s, i, j);
    WordsAcrossSpaces(s[..i], w, s[j..]);
  }

  /** A run of spaces separates the words before it from the words after it. */
  lemma WordsAcrossSpaces(a: string, w: string, b: string)
    requires w != [] && forall i :: 0 <= i < |w| ==> IsSpace(w[i])
    ensures Words(a + (w + b)) == Words(a) + Words(b)
  {
    assert Words(w + b) == Words(b) by {
      WordsOfSpaces(w);
      WordsConcat(w, b);
    }
    assert (w + b)[0] == w[0];
    WordsConcat(a, w + b);
  }

  /** Every space character in `s` is a plain ' '. */
  predicate PlainSpaces(s: string) {
    forall i :: 0 <= i < |s| ==> IsSpace(s[i]) ==> s[i] == ' '
  }

  /** What `clean_text` produces: no space at either end, every space a plain ' ', and no two
      adjacent ' '. */
  predicate Clean(s: string) {
    Stripped(s) && PlainSpaces(s) && NoDoubleSpace(s)
  }

  /** Length of the run of spaces at the start of `s`. */
  function SpaceRun(s: string): (n: nat)
    ensures n <= |s| && (n < |s| ==> !IsSpace(s[n]))
    ensures forall i :: 0 <= i < n ==> IsSpace(s[i])
  {
    if s != [] && IsSpace(s[0]) then 1 + SpaceRun(s[1..]) else 0
  }

  /** `re.sub(r'\s+', ' ', s)`: every maximal run of spaces becomes a single ' '. */
  function CollapseSpaces(s: string): (r: string)
    ensures PlainSpaces(r) && NoDoubleSpace(r)
    ensures r == [] <==> s == []
    ensures s != [] ==> (IsSpace(r[0]) <==> IsSpace(s[0]))
    ensures s != [] ==> (IsSpace(r[|r| - 1]) <==> IsSpace(s[|s| - 1]))
    decreases |s|
  {
    if s == [] then []
    else if IsSpace(s[0]) then [' '] + CollapseSpaces(s[SpaceRun(s)..])
    else [s[0]] + CollapseSpaces(s[1..])
  }

  lemma {:induction false} CollapseKeepsNonSpace(s: string)
    ensures NonSpace(CollapseSpaces(s)) == NonSpace(s)
    decreases |s|
  {
    if s != [] {
      if IsSpace(s[0]) {
        var n := SpaceRun(s);
        CollapseKeepsNonSpace(s[n..]);
        assert s == s[..n] + s[n..];
        NonSpaceOfSpaces(s[..n]);
        NonSpaceConcat(s[..n], s[n..]);
        NonSpaceConcat([' '], CollapseSpaces(s[n..]));
      } else {
        CollapseKeepsNonSpace(s[1..]);
        NonSpaceConcat([s[0]], CollapseSpaces(s[1..]));
        assert s == [s[0]] + s[1..];
        NonSpaceConcat([s[0]], s[1..]);
      }
    }
  }

  /** A text already free of other spaces and of double ' ' is left alone. */
  lemma {:induction false} CollapseOfPlain(s: string)
    requires PlainSpaces(s) && NoDoubleSpace(s)
    ensures CollapseSpaces(s) == s
    decreases |s|
  {
    if s != [] {
      PlainTail(s);
      CollapsePlainHead(s);
      CollapseOfPlain(s[1..]);
      HeadTail(s);
    }
  }

  lemma PlainTail(s: string)
    requires s != [] && PlainSpaces(s) && NoDoubleSpace(s)
    ensures PlainSpaces(s[1..]) && NoDoubleSpace(s[1..])
  {
    var t := s[1..];
    assert forall i :: 0 <= i < |t| ==> t[i] == s[i + 1];
  }

  /** In a text of single plain spaces, `re.sub(r'\s+', ' ', ·)` keeps the first character. */
  lemma CollapsePlainHead(s: string)
    requires s != [] && PlainSpaces(s) && NoDoubleSpace(s)
    ensures CollapseSpaces(s) == [s[0]] + CollapseSpaces(s[1..])
  {
    if IsSpace(s[0]) {
      assert SpaceRun(s) == 1 by {
        if |s| > 1 {
          assert !IsSpace(s[1]);
        }
      }
      assert s[0] == ' ';
    }
  }

  lemma HeadTail<T>(s: seq<T>)
    requires s != []
    ensures s == [s[0]] + s[1..]
  {
  }

  /** Number of '\n' in `s`. */
  function NewlineCount(s: string): nat
  {
    if s == [] then 0 else (if s[0] == '\n' then 1 else 0) + NewlineCount(s[1..])
  }

  /** Index of the last '\n' in `s`, or -1. */
  function LastNewline(s: string): (i: int)
    ensures -1 <= i < |s| && (i >= 0 ==> s[i] == '\n')
  {
    if s == [] then -1 else if s[|s| - 1] == '\n' then |s| - 1 else LastNewline(s[..|s| - 1])
  }

  /** Length of the match of the regular expression `\n\s*\n\s*\n` at the start of `s`, or 0
      when it does not match there. A match starts with '\n', stays inside the leading run of
      spaces and needs three '\n' in it; both `\s*` being greedy, it ends just after the last
      '\n' of that run. */
  function TripleBreakMatch(s: string): (m: nat)
    ensures m <= |s|
  {
    if s == [] || s[0] != '\n' then 0
    else
      var run := s[..SpaceRun(s)];
      if NewlineCount(run) >= 3 then LastNewline(run) + 1 else 0
  }

  /** `re.sub(r'\n\s*\n\s*\n', '\n\n', s)`: scanning from the left, each match becomes
      "\n\n" and the scan resumes just after it. */
  function SubTripleBreaks(s: string): string
    decreases |s|
  {
    if s == [] then []
    else
      var m := TripleBreakMatch(s);
      if m > 0 then "\n\n" + SubTripleBreaks(s[m..]) else [s[0]] + SubTripleBreaks(s[1..])
  }

  lemma {:induction false} SubTripleBreaksWithoutNewline(s: string)
    requires '\n' !in s
    ensures SubTripleBreaks(s) == s
  {
    if s != [] {
      assert TripleBreakMatch(s) == 0;
      SubTripleBreaksWithoutNewline(s[1..]);
      assert s == [s[0]] + s[1..];
    }
  }

  /** `clean_text(text)`: strip, turn every run of spaces into one ' ', then replace runs of
      three or more line breaks by two. The result is in clean form and has no line break. */
  function CleanText(text: string): (r: string)
    ensures Clean(r) && NoLineBreak(r)
  {
    if text == [] then []
    else
      CleanTextSecondStepIdle(text);
      CollapseOfStripped(Strip(text));
      SubTripleBreaks(CollapseSpaces(Strip(text)))
  }

  /** `clean_text` removes and replaces spaces only: every non-space character of the text
      survives, in order. */
  lemma CleanTextKeepsText(text: string)
    ensures NonSpace(CleanText(text)) == NonSpace(text)
  {
    if text != [] {
      CleanTextSecondStepIdle(text);
      CollapseKeepsNonSpace(Strip(text));
      StripKeepsNonSpace(text);
    }
  }

  /** `clean_text(text) == " ".join(text.split())`: an independent definition of the cleaning,
      which keeps the words apart and in order and puts exactly one ' ' between two of them. */
  lemma CleanTextByWords(text: string)
    ensures CleanText(text) == Join(" ", Words(text))
  {
    if text != [] {
      var t := Strip(text);
      CleanTextSecondStepIdle(text);
      WordsOfStrip(text);
      if t == [] {
        assert Words(t) == [];
      } else {
        CollapseSpacesByWords(t);
        assert Join(" ", Words(t)) + "" == Join(" ", Words(t));
      }
    }
  }

  /** `re.sub(r'\s+', ' ', s)` is `" ".join(s.split())`, with one ' ' in front when `s` starts
      with a space and one ' ' behind when `s` has a word and ends with a space. */
  lemma CollapseSpacesByWords(s: string)
    ensures s != [] && IsSpace(s[0]) ==>
              CollapseSpaces(s) == " " + Join(" ", Words(s))
                + (if Words(s) != [] && IsSpace(s[|s| - 1]) then " " else "")
    ensures s != [] && !IsSpace(s[0]) ==>
              Words(s) != [] &&
              CollapseSpaces(s) == Join(" ", Words(s)) + (if IsSpace(s[|s| - 1]) then " " else "")
  {
    if s != [] {
      if IsSpace(s[0]) {
        CollapseFromSpaces(s);
      } else {
        CollapseFromWord(s);
      }
    }
  }

  /** From a text that starts with spaces, the leading run becomes one ' '. */
  lemma CollapseFromSpaces(s: string)
    requires s != [] && IsSpace(s[0])
    ensures CollapseSpaces(s)
      == " " + Join(" ", Words(s)) + (if Words(s) != [] && IsSpace(s[|s| - 1]) then " " else "")
  {
    var m := SpaceRun(s);
    if m < |s| {
      var u := s[m..];
      CollapseAtSpaces(s);
      LastOfSuffix(s, m);
      CollapseFromWord(u);
      AppendAssoc(" ", Join(" ", Words(u)), if IsSpace(u[|u| - 1]) then " " else "");
    } else {
      CollapseOfSpaceRun(s);
    }
  }

  /** A text made only of spaces has no words and collapses to one ' '. */
  lemma CollapseOfSpaceRun(s: string)
    requires s != [] && SpaceRun(s) == |s|
    ensures Words(s) == [] && CollapseSpaces(s) == " " && IsSpace(s[|s| - 1])
  {
    CollapseAtSpaces(s);
    assert s[|s|..] == [];
  }

  lemma AppendAssoc(a: string, b: string, c: string)
    ensures a + (b + c) == a + b + c
  {
  }

  /** A non-empty suffix ends where the text ends. */
  lemma LastOfSuffix(s: string, m: nat)
    requires m < |s|
    ensures s[m..][|s[m..]| - 1] == s[|s| - 1]
  {
  }

  /** From a text that starts with a word, `re.sub(r'\s+', ' ', ·)` joins the words with one
      ' ' and keeps one ' ' for a run of spaces at the end. */
  lemma {:induction false} CollapseFromWord(s: string)
    requires s != [] && !IsSpace(s[0])
    ensures CollapseSpaces(s) == Join(" ", Words(s)) + (if IsSpace(s[|s| - 1]) then " " else "")
    ensures Words(s) != []
    decreases |s|, 1
  {
    var n := WordEnd(s);
    if n == |s| {
      CollapseOfWordOnly(s);
    } else if n + SpaceRun(s[n..]) == |s| {
      CollapseOfWordThenSpaces(s);
    } else {
      CollapseOfWordSpacesWord(s);
    }
  }

  /** A word, spaces, then a text starting with a word: the spaces become the ' ' that joins. */
  lemma {:induction false} CollapseOfWordSpacesWord(s: string)
    requires s != [] && !IsSpace(s[0]) && WordEnd(s) < |s|
    requires WordEnd(s) + SpaceRun(s[WordEnd(s)..]) < |s|
    ensures CollapseSpaces(s) == Join(" ", Words(s)) + (if IsSpace(s[|s| - 1]) then " " else "")
    ensures Words(s) != []
    decreases |s|, 0
  {
    var n := WordEnd(s);
    var w, rest := s[..n], s[n..];
    var u := rest[SpaceRun(rest)..];
    CollapseAtWord(s);
    CollapseAtSpaces(rest);
    LastOfSuffix(rest, SpaceRun(rest));
    LastOfSuffix(s, n);
    CollapseFromWord(u);
    JoinStep(CollapseSpaces(s), w, CollapseSpaces(rest), CollapseSpaces(u), Words(u),
      if IsSpace(s[|s| - 1]) then " " else "");
  }

  /** A single word is its own only word and collapses to itself. */
  lemma CollapseOfWordOnly(s: string)
    requires s != [] && !IsSpace(s[0]) && WordEnd(s) == |s|
    ensures CollapseSpaces(s) == Join(" ", Words(s)) + (if IsSpace(s[|s| - 1]) then " " else "")
    ensures Words(s) != []
  {
    CollapseAtWord(s);
    assert s[..|s|] == s && s[|s|..] == [];
    assert Words(s) == [s];
  }

  /** A word followed by spaces to the end collapses to the word and one ' '. */
  lemma CollapseOfWordThenSpaces(s: string)
    requires s != [] && !IsSpace(s[0]) && WordEnd(s) < |s|
    requires WordEnd(s) + SpaceRun(s[WordEnd(s)..]) == |s|
    ensures CollapseSpaces(s) == Join(" ", Words(s)) + (if IsSpace(s[|s| - 1]) then " " else "")
    ensures Words(s) != []
  {
    var n := WordEnd(s);
    var w, rest := s[..n], s[n..];
    CollapseAtWord(s);
    CollapseOfSpaceRun(rest);
    LastOfSuffix(s, n);
    assert Words(s) == [w];
  }

  /** A text starting with a word: both the words and the collapsed text start with it. */
  lemma CollapseAtWord(s: string)
    requires s != [] && !IsSpace(s[0])
    ensures Words(s) == [s[..WordEnd(s)]] + Words(s[WordEnd(s)..])
    ensures CollapseSpaces(s) == s[..WordEnd(s)] + CollapseSpaces(s[WordEnd(s)..])
  {
    var n := WordEnd(s);
    SplitAt(s, n);
    CollapseOfWordPrefix(s[..n], s[n..]);
  }

  /** A text starting with spaces: the run is skipped by the words and becomes one ' '. */
  lemma CollapseAtSpaces(s: string)
    requires s != [] && IsSpace(s[0])
    ensures Words(s) == Words(s[SpaceRun(s)..])
    ensures CollapseSpaces(s) == " " + CollapseSpaces(s[SpaceRun(s)..])
  {
    var m := SpaceRun(s);
    WordsDropFront(s, m);
  }

  lemma JoinStep(joined: string, head: string, rest: string, tail: string, words: seq<string>,
    trail: string)
    requires words != [] && tail == Join(" ", words) + trail
    requires joined == head + rest && rest == " " + tail
    ensures joined == Join(" ", [head] + words) + trail
  {
    assert ([head] + words)[1..] == words;
  }

  lemma {:induction false} CollapseOfWordPrefix(w: string, rest: string)
    requires forall i :: 0 <= i < |w| ==> !IsSpace(w[i])
    ensures CollapseSpaces(w + rest) == w + CollapseSpaces(rest)
  {
    if w == [] {
      assert w + rest == rest;
    } else {
      ConcatSlices(w, rest, 1);
      CollapseOfWordPrefix(w[1..], rest);
      assert CollapseSpaces(w + rest) == [w[0]] + CollapseSpaces(w[1..] + rest);
      ConsAppend(w[0], w[1..], CollapseSpaces(rest));
      assert [w[0]] + w[1..] == w;
    }
  }

  lemma CollapseOfStripped(s: string)
    requires Stripped(s)
    ensures Clean(CollapseSpaces(s)) && NoLineBreak(CollapseSpaces(s))
  {
    var c := CollapseSpaces(s);
    forall j | 0 <= j < |c| ensures !IsLineBreak(c[j]) {
      assert c[j] == ' ' || !IsSpace(c[j]);
    }
  }

  /** The substitution at main.py:67 never fires: after the first one no '\n' is left. */
  lemma CleanTextSecondStepIdle(text: string)
    ensures SubTripleBreaks(CollapseSpaces(Strip(text))) == CollapseSpaces(Strip(text))
  {
    var c := CollapseSpaces(Strip(text));
    assert '\n' !in c by {
      forall i | 0 <= i < |c| ensures c[i] != '\n' {
        assert IsSpace('\n');
      }
    }
    SubTripleBreaksWithoutNewline(c);
  }

  /** A text in clean form is its own `clean_text`. */
  lemma CleanTextOfClean(t: string)
    requires Clean(t)
    ensures CleanText(t) == t
  {
    if t != [] {
      CollapseOfPlain(t);
      CleanTextSecondStepIdle(t);
    }
  }

  /** `clean_text(clean_text(x)) == clean_text(x)`. */
  lemma CleanTextIdempotent(text: string)
    ensures CleanText(CleanText(text)) == CleanText(text)
  {
    CleanTextOfClean(CleanText(text));
  }
}
