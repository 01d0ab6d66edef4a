/** The Python `str` operations that main.py relies on, over Dafny strings (sequences of
    Unicode scalar values, so `|s|` is Python's `len(s)`). */
module PyStr {
  import opened Outcome

  /** `c.isspace()`: the characters `str.strip()` removes and `\s` matches in a `str` regex. */
  predicate IsSpace(c: char) {
    ('\t' <= c <= '\r') || ('\U{1c}' <= c <= ' ') || c == '\U{85}' || c == '\U{a0}'
    || c == '\U{1680}' || ('\U{2000}' <= c <= '\U{200a}') || c == '\U{2028}' || c == '\U{2029}'
    || c == '\U{202f}' || c == '\U{205f}' || c == '\U{3000}'
  }

  /** The line boundaries `str.splitlines()` splits at; every one of them is also a space. */
  predicate IsLineBreak(c: char)
    ensures IsLineBreak(c) ==> IsSpace(c)
  {
    c == '\n' || c == '\r' || c == '\U{b}' || c == '\U{c}' || c == '\U{1c}' || c == '\U{1d}'
    || c == '\U{1e}' || c == '\U{85}' || c == '\U{2028}' || c == '\U{2029}'
  }

  predicate NoLineBreak(s: string) {
    forall j :: 0 <= j < |s| ==> !IsLineBreak(s[j])
  }

  /** Neither end of `s` is a space: `s.strip() == s`. */
  predicate Stripped(s: string) {
    s == [] || (!IsSpace(s[0]) && !IsSpace(s[|s| - 1]))
  }

  /** No two adjacent ' ' characters. */
  predicate NoDoubleSpace(s: string) {
    forall i :: 0 <= i < |s| - 1 ==> !(s[i] == ' ' && s[i + 1] == ' ')
  }

  /** The number of spaces at the start of `s`: `len(s) - len(s.lstrip())`. */
  function LeadingSpaces(s: string): (n: nat)
    ensures n <= |s| && forall i :: 0 <= i < n ==> IsSpace(s[i])
    ensures n < |s| ==> !IsSpace(s[n])
  {
    if s != [] && IsSpace(s[0]) then 1 + LeadingSpaces(s[1..]) else 0
  }

  /** The number of spaces at the end of `s`: `len(s) - len(s.rstrip())`. */
  function TrailingSpaces(s: string): (n: nat)
    ensures n <= |s| && forall i :: |s| - n <= i < |s| ==> IsSpace(s[i])
    ensures n < |s| ==> !IsSpace(s[|s| - 1 - n])
  {
    if s != [] && IsSpace(s[|s| - 1]) then 1 + TrailingSpaces(s[..|s| - 1]) else 0
  }

  /** `s.strip()`: the longest substring of `s` whose ends are not spaces, obtained by
      removing only spaces from both ends. */
  function Strip(s: string): (r: string)
    ensures Stripped(r) && |r| <= |s|
    ensures exists i :: OccursAt(s, r, i)
    ensures Stripped(s) ==> r == s
  {
    var a := LeadingSpaces(s);
    var t := s[a..];
    var r := t[..|t| - TrailingSpaces(t)];
    assert r != [] ==> r[0] == s[a];
    assert OccursAt(s, r, a) by {
      assert r == s[a..a + |r|];
    }
    r
  }

  /** `len(s.strip())` computed without slicing `s`. */
  function StripLength(s: string): nat
  {
    if LeadingSpaces(s) == |s| then 0 else |s| - LeadingSpaces(s) - TrailingSpaces(s)
  }

  lemma {:induction false} TrailingSpacesOfSuffix(s: string, a: nat)
    requires a < |s| && !IsSpace(s[a])
    ensures TrailingSpaces(s[a..]) == TrailingSpaces(s)
    decreases |s|
  {
    if IsSpace(s[|s| - 1]) {
      assert s[a..][..|s[a..]| - 1] == s[..|s| - 1][a..];
      TrailingSpacesOfSuffix(s[..|s| - 1], a);
    }
  }

  lemma StripLengthIsLength(s: string)
    ensures StripLength(s) == |Strip(s)|
  {
    var a := LeadingSpaces(s);
    if a < |s| {
      TrailingSpacesOfSuffix(s, a);
    }
  }

  /** `sub` occurs in `s` starting at index `i`. */
  predicate OccursAt(s: string, sub: string, i: int) {
    0 <= i && i + |sub| <= |s| && s[i..i + |sub|] == sub
  }

  lemma OccursShift(s: string, sub: string, i: int)
    requires s != [] && i >= 0
    ensures OccursAt(s, sub, i + 1) <==> OccursAt(s[1..], sub, i)
  {
    if 0 <= i && i + 1 + |sub| <= |s| {
      assert s[i + 1..i + 1 + |sub|] == s[1..][i..i + |sub|];
    }
  }

  /** `s.find(sub)`: the least index where `sub` occurs in `s`, or -1 when it does not occur. */
  function Find(s: string, sub: string): (r: int)
    ensures -1 <= r <= |s|
    ensures r == -1 <==> forall i :: !OccursAt(s, sub, i)
    ensures r >= 0 ==> OccursAt(s, sub, r) && forall i :: 0 <= i < r ==> !OccursAt(s, sub, i)
    decreases |s|
  {
    if |s| < |sub| then -1
    else if sub <= s then
      assert OccursAt(s, sub, 0);
      0
    else
      var k := Find(s[1..], sub);
      FindShift(s, sub);
      if k < 0 then -1 else assert OccursAt(s, sub, k + 1); k + 1
  }

  /** When `sub` is not a prefix of `s`, its occurrences in `s` are those in `s[1..]`, one
      place further on. */
  lemma FindShift(s: string, sub: string)
    requires |sub| <= |s| && !(sub <= s)
    ensures forall i :: OccursAt(s, sub, i) <==> 1 <= i && OccursAt(s[1..], sub, i - 1)
  {
    assert !OccursAt(s, sub, 0);
    forall i | i >= 1 ensures OccursAt(s, sub, i) <==> OccursAt(s[1..], sub, i - 1) {
      OccursShift(s, sub, i - 1);
    }
  }

  /** `sub in s`. */
  function Contains(s: string, sub: string): (b: bool)
    ensures b <==> exists i :: OccursAt(s, sub, i)
  {
    Find(s, sub) >= 0
  }

  lemma ContainsChar(s: string, c: char)
    ensures Contains(s, [c]) <==> c in s
  {
    if c in s {
      var i :| 0 <= i < |s| && s[i] == c;
      assert OccursAt(s, [c], i);
    } else {
      forall i | 0 <= i && i + 1 <= |s| ensures OccursAt(s, [c], i) ==> s[i] == c {
        assert s[i..i + 1][0] == s[i];
      }
    }
  }

  /** An occurrence inside a prefix of `s` is an occurrence in `s`. */
  lemma OccursInPrefix(s: string, sub: string, n: nat, j: int)
    requires n <= |s|
    ensures OccursAt(s[..n], sub, j) ==> OccursAt(s, sub, j) && j + |sub| <= n
  {
    if 0 <= j && j + |sub| <= n {
      assert s[..n][j..j + |sub|] == s[j..j + |sub|];
    }
  }

  /** An occurrence inside an occurrence of `mid` in `s` is an occurrence in `s`. */
  lemma OccursWithin(s: string, mid: string, i: int, sub: string, j: int)
    requires OccursAt(s, mid, i) && OccursAt(mid, sub, j)
    ensures OccursAt(s, sub, i + j)
  {
    forall k | 0 <= k < |sub| ensures s[i + j + k] == sub[k] {
      assert s[i..i + |mid|][j + k] == s[i + j + k];
      assert mid[j..j + |sub|][k] == mid[j + k];
    }
    assert s[i + j..i + j + |sub|] == sub;
  }

  /** A character of an occurrence of `mid` in `s` is a character of `s`. */
  lemma CharWithin(s: string, mid: string, i: int, k: int)
    requires OccursAt(s, mid, i) && 0 <= k < |mid|
    ensures mid[k] == s[i + k]
  {
    assert mid[k] == s[i..i + |mid|][k];
  }

  /** "  " occurs at `i` exactly where two adjacent ' ' stand. */
  lemma NoDoubleSpaceIffNoOccurrence(s: string)
    ensures NoDoubleSpace(s) <==> forall i :: !OccursAt(s, "  ", i)
  {
    forall i ensures OccursAt(s, "  ", i) <==> 0 <= i < |s| - 1 && s[i] == ' ' && s[i + 1] == ' ' {
      if 0 <= i < |s| - 1 && s[i] == ' ' && s[i + 1] == ' ' {
        assert s[i..i + 2] == "  ";
      }
      if OccursAt(s, "  ", i) {
        assert s[i..i + 2][0] == s[i] && s[i..i + 2][1] == s[i + 1];
      }
    }
    if !NoDoubleSpace(s) {
      var i :| 0 <= i < |s| - 1 && s[i] == ' ' && s[i + 1] == ' ';
      assert OccursAt(s, "  ", i);
    } else {
      forall i ensures !OccursAt(s, "  ", i) {
        if 0 <= i < |s| - 1 {
          assert !(s[i] == ' ' && s[i + 1] == ' ');
        }
      }
    }
  }

  /** The non-space characters of `s`, in order. */
  function NonSpace(s: string): string
  {
    if s == [] then [] else (if IsSpace(s[0]) then [] else [s[0]]) + NonSpace(s[1..])
  }

  lemma {:induction false} NonSpaceConcat(a: string, b: string)
    ensures NonSpace(a + b) == NonSpace(a) + NonSpace(b)
  {
    if a != [] {
      assert (a + b)[1..] == a[1..] + b;
      NonSpaceConcat(a[1..], b);
    } else {
      assert a + b == b;
    }
  }

  lemma {:induction false} NonSpaceOfSpaces(s: string)
    requires forall i :: 0 <= i < |s| ==> IsSpace(s[i])
    ensures NonSpace(s) == []
  {
    if s != [] {
      NonSpaceOfSpaces(s[1..]);
    }
  }

  lemma SplitAt(s: string, k: nat)
    requires k <= |s|
    ensures s == s[..k] + s[k..]
  {
  }

  /** Cutting `a + b` inside `a`. */
  lemma ConcatSlices(a: string, b: string, n: nat)
    requires n <= |a|
    ensures (a + b)[..n] == a[..n] && (a + b)[n..] == a[n..] + b
    ensures a != [] ==> (a + b)[0] == a[0]
  {
  }

  lemma SplitAround(s: string, i: nat, j: nat)
    requires i <= j <= |s|
    ensures s == s[..i] + (s[i..j] + s[j..])
  {
  }

  /** Dropping leading spaces keeps the other characters. */
  lemma NonSpaceDropFront(s: string, k: nat)
    requires k <= |s| && forall i :: 0 <= i < k ==> IsSpace(s[i])
    ensures NonSpace(s[k..]) == NonSpace(s)
  {
    var lead := s[..k];
    SplitAt(s, k);
    forall i | 0 <= i < |lead| ensures IsSpace(lead[i]) {
      assert lead[i] == s[i];
    }
    NonSpaceOfSpaces(lead);
    NonSpaceConcat(lead, s[k..]);
  }

  /** Dropping trailing spaces keeps the other characters. */
  lemma NonSpaceDropBack(t: string, n: nat)
    requires n <= |t| && forall i :: |t| - n <= i < |t| ==> IsSpace(t[i])
    ensures NonSpace(t[..|t| - n]) == NonSpace(t)
  {
    var trail := t[|t| - n..];
    SplitAt(t, |t| - n);
    forall i | 0 <= i < |trail| ensures IsSpace(trail[i]) {
      assert trail[i] == t[|t| - n + i];
    }
    NonSpaceOfSpaces(trail);
    NonSpaceConcat(t[..|t| - n], trail);
  }

  /** `s.strip()` removes spaces only. */
  lemma StripKeepsNonSpace(s: string)
    ensures NonSpace(Strip(s)) == NonSpace(s)
  {
    var k := LeadingSpaces(s);
    var t := s[k..];
    NonSpaceDropFront(s, k);
    NonSpaceDropBack(t, TrailingSpaces(t));
  }

  /** The concatenation of all `parts`. */
  function Concat(parts: seq<string>): string
  {
    if parts == [] then [] else parts[0] + Concat(parts[1..])
  }

  lemma {:induction false} ConcatAppend(a: seq<string>, b: seq<string>)
    ensures Concat(a + b) == Concat(a) + Concat(b)
  {
    if a != [] {
      assert (a + b)[1..] == a[1..] + b;
      ConcatAppend(a[1..], b);
    } else {
      assert a + b == b;
    }
  }

  /** `sep.join(parts)`. */
  function Join(sep: string, parts: seq<string>): string
  {
    if |parts| == 0 then ""
    else if |parts| == 1 then parts[0]
    else parts[0] + sep + Join(sep, parts[1..])
  }

  /** Joining with a separator made of spaces keeps exactly the non-space text of the parts. */
  lemma {:induction false} NonSpaceJoin(sep: string, parts: seq<string>)
    requires NonSpace(sep) == []
    ensures NonSpace(Join(sep, parts)) == NonSpace(Concat(parts))
  {
    if |parts| == 1 {
      assert Concat(parts) == parts[0] + Concat([]);
      assert parts[0] + [] == parts[0];
    } else if |parts| > 1 {
      NonSpaceJoin(sep, parts[1..]);
      NonSpaceConcat(parts[0] + sep, Join(sep, parts[1..]));
      NonSpaceConcat(parts[0], sep);
      NonSpaceConcat(parts[0], Concat(parts[1..]));
    }
  }

  /** Each part of a join occurs in the joined text. */
  lemma {:induction false} PartOccurs(sep: string, parts: seq<string>, k: nat)
    requires k < |parts|
    ensures exists o :: OccursAt(Join(sep, parts), parts[k], o)
  {
    if |parts| > 1 {
      var j := Join(sep, parts);
      var rest := Join(sep, parts[1..]);
      assert j == parts[0] + sep + rest;
      if k == 0 {
        assert j[..|parts[0]|] == parts[0];
        assert OccursAt(j, parts[0], 0);
      } else {
        PartOccurs(sep, parts[1..], k - 1);
        var o :| OccursAt(rest, parts[1..][k - 1], o);
        var off := |parts[0]| + |sep|;
        assert j[off..] == rest;
        assert OccursAt(j, rest, off);
        OccursWithin(j, rest, off, parts[k], o);
      }
    } else {
      assert OccursAt(Join(sep, parts), parts[k], 0);
    }
  }

  /** A line-free text has line-free substrings. */
  lemma NoLineBreakWithin(s: string, mid: string, i: int)
    requires OccursAt(s, mid, i) && NoLineBreak(s)
    ensures NoLineBreak(mid)
  {
    forall k | 0 <= k < |mid| ensures !IsLineBreak(mid[k]) {
      CharWithin(s, mid, i, k);
    }
  }

  /** A text free of `sub` has substrings free of `sub`. */
  lemma NoOccurrenceWithin(s: string, mid: string, i: int, sub: string)
    requires OccursAt(s, mid, i) && forall j :: !OccursAt(s, sub, j)
    ensures forall j :: !OccursAt(mid, sub, j)
  {
    forall j | OccursAt(mid, sub, j) ensures OccursAt(s, sub, i + j) {
      OccursWithin(s, mid, i, sub, j);
    }
  }

  /** `s.split(sep)` for a non-empty `sep`: the pieces between the leftmost non-overlapping
      occurrences of `sep`. No piece contains `sep`, and joining the pieces with `sep` gives
      `s` back. */
  function Split(s: string, sep: string): (parts: seq<string>)
    requires sep != []
    ensures |parts| >= 1
    ensures forall k, i :: 0 <= k < |parts| ==> !OccursAt(parts[k], sep, i)
    ensures forall k, i :: 0 <= k < |parts| - 1 && 0 <= i < |parts[k]| ==> !OccursAt(parts[k] + sep, sep, i)
    ensures Join(sep, parts) == s
    decreases |s|
  {
    var i := Find(s, sep);
    if i < 0 then [s]
    else
      var rest := Split(s[i + |sep|..], sep);
      SplitHead(s, sep, i);
      SplitCons(s[..i], sep, rest);
      [s[..i]] + rest
  }

  /** The text before the leftmost occurrence of `sep` holds no `sep`, even followed by
      `sep`, other than at its end. */
  lemma SplitHead(s: string, sep: string, i: nat)
    requires sep != [] && OccursAt(s, sep, i) && forall j :: 0 <= j < i ==> !OccursAt(s, sep, j)
    ensures forall j :: !OccursAt(s[..i], sep, j)
    ensures forall j :: 0 <= j < i ==> !OccursAt(s[..i] + sep, sep, j)
    ensures s == s[..i] + sep + s[i + |sep|..]
  {
    forall j ensures !OccursAt(s[..i], sep, j) {
      OccursInPrefix(s, sep, i, j);
    }
    assert s[..i] + sep == s[..i + |sep|];
    forall j | 0 <= j < i ensures !OccursAt(s[..i] + sep, sep, j) {
      OccursInPrefix(s, sep, i + |sep|, j);
    }
  }

  /** The properties `Split` promises carry over from the later pieces to the whole list. */
  lemma SplitCons(head: string, sep: string, rest: seq<string>)
    requires rest != []
    requires forall j :: !OccursAt(head, sep, j)
    requires forall j :: 0 <= j < |head| ==> !OccursAt(head + sep, sep, j)
    requires forall k, i :: 0 <= k < |rest| ==> !OccursAt(rest[k], sep, i)
    requires forall k, i :: 0 <= k < |rest| - 1 && 0 <= i < |rest[k]| ==> !OccursAt(rest[k] + sep, sep, i)
    ensures var parts := [head] + rest;
      (forall k, i :: 0 <= k < |parts| ==> !OccursAt(parts[k], sep, i))
      && (forall k, i :: 0 <= k < |parts| - 1 && 0 <= i < |parts[k]| ==> !OccursAt(parts[k] + sep, sep, i))
      && Join(sep, parts) == head + sep + Join(sep, rest)
  {
    var parts := [head] + rest;
    assert parts[1..] == rest;
    forall k | 1 <= k < |parts| ensures parts[k] == rest[k - 1] {
    }
  }

  /** A character that is in no part and not in the separator is not in the join. */
  lemma {:induction false} JoinWithoutChar(sep: string, parts: seq<string>, c: char)
    requires c !in sep && forall k :: 0 <= k < |parts| ==> c !in parts[k]
    ensures c !in Join(sep, parts)
  {
    if |parts| >= 2 {
      JoinWithoutChar(sep, parts[1..], c);
    }
  }

  /** In `(c).join(parts)`, the first `c` ends the first part. */
  lemma JoinCharHead(c: char, parts: seq<string>)
    requires |parts| >= 2 && c !in parts[0]
    ensures var s, p0 := Join([c], parts), parts[0];
      Find(s, [c]) == |p0| && s[..|p0|] == p0 && s[|p0| + 1..] == Join([c], parts[1..])
  {
    var s := Join([c], parts);
    var p0 := parts[0];
    var rest := Join([c], parts[1..]);
    assert s == p0 + [c] + rest;
    assert OccursAt(s, [c], |p0|) by {
      assert s[|p0|..|p0| + 1] == [c];
    }
    forall i | 0 <= i < |p0| ensures !OccursAt(s, [c], i) {
      assert s[i] == p0[i];
      assert s[i..i + 1] == [p0[i]];
    }
    assert s[..|p0|] == p0;
    assert s[|p0| + 1..] == rest;
  }

  /** Splitting at a one-character separator undoes joining with it, when no part holds that
      character: `(c).join(parts).split(c) == parts`. */
  lemma {:induction false} SplitJoinChar(c: char, parts: seq<string>)
    requires |parts| >= 1 && forall k :: 0 <= k < |parts| ==> c !in parts[k]
    ensures Split(Join([c], parts), [c]) == parts
  {
    var s := Join([c], parts);
    if |parts| == 1 {
      assert s == parts[0];
      forall i | 0 <= i < |s| ensures !OccursAt(s, [c], i) {
        assert s[i..i + 1] == [s[i]];
      }
      assert Find(s, [c]) == -1;
    } else {
      JoinCharHead(c, parts);
      var rest := Join([c], parts[1..]);
      assert Split(s, [c]) == [parts[0]] + Split(rest, [c]);
      SplitJoinChar(c, parts[1..]);
      assert parts == [parts[0]] + parts[1..];
    }
  }

  /** `s.split(sep, 1)` when `sep in s`: the text before the first occurrence of `sep` and the
      text after it. */
  function SplitFirst(s: string, sep: string): (r: (string, string))
    requires sep != [] && Contains(s, sep)
    ensures r.0 + sep + r.1 == s
    ensures forall i :: !OccursAt(r.0, sep, i)
  {
    var i := Find(s, sep);
    forall j ensures !OccursAt(s[..i], sep, j) {
      OccursInPrefix(s, sep, i, j);
    }
    assert s == s[..i] + sep + s[i + |sep|..];
    (s[..i], s[i + |sep|..])
  }

  /** `s.split(c, 1)` for a character `c` of `s`: the cut is at the first `c`. */
  lemma SplitFirstChar(s: string, c: char)
    requires c in s
    ensures Contains(s, [c])
    ensures var r := SplitFirst(s, [c]);
      |r.0| < |s| && s[|r.0|] == c && c !in r.0 && r.0 == s[..|r.0|] && r.1 == s[|r.0| + 1..]
  {
    ContainsChar(s, c);
    var r := SplitFirst(s, [c]);
    assert s == r.0 + [c] + r.1;
    assert s[..|r.0|] == r.0;
    assert s[|r.0| + 1..] == r.1;
    ContainsChar(r.0, c);
  }

  /** `s.index(c)`: the position of the first `c` in `s`. */
  function FirstIndex(s: string, c: char): (i: nat)
    requires c in s
    ensures i < |s| && s[i] == c
    ensures forall j :: 0 <= j < i ==> s[j] != c
  {
    if s[0] == c then 0
    else
      assert c in s[1..] by {
        var k :| 0 <= k < |s| && s[k] == c;
        assert s[1..][k - 1] == c;
      }
      1 + FirstIndex(s[1..], c)
  }

  /** `s.split(c, 1)` cuts at `s.index(c)`. */
  lemma SplitFirstAtIndex(s: string, c: char)
    requires c in s
    ensures Contains(s, [c])
    ensures SplitFirst(s, [c]) == (s[..FirstIndex(s, c)], s[FirstIndex(s, c) + 1..])
  {
    SplitFirstChar(s, c);
    var r := SplitFirst(s, [c]);
    var i := FirstIndex(s, c);
    assert forall j :: 0 <= j < |r.0| ==> r.0[j] == s[j];
    assert |r.0| == i;
  }

  /** `s.strip()` keeps every non-space character. */
  lemma StripKeepsChar(s: string, c: char)
    requires c in s && !IsSpace(c)
    ensures c in Strip(s)
  {
    var k := LeadingSpaces(s);
    var t := s[k..];
    var r := t[..|t| - TrailingSpaces(t)];
    var i :| 0 <= i < |s| && s[i] == c;
    assert i >= k;
    assert t[i - k] == c;
    assert i - k < |r|;
    assert r[i - k] == c;
  }

  /** Index of the first line boundary in `s`, or `|s|` when there is none. */
  function LineEnd(s: string): (i: nat)
    ensures i <= |s| && (i < |s| ==> IsLineBreak(s[i]))
    ensures forall j :: 0 <= j < i ==> !IsLineBreak(s[j])
  {
    if s == [] || IsLineBreak(s[0]) then 0 else 1 + LineEnd(s[1..])
  }

  /** `s.splitlines()`: "\r\n" is one boundary, a boundary at the very end opens no further
      line, and the empty string has no lines. */
  function SplitLines(s: string): (lines: seq<string>)
    ensures forall k :: 0 <= k < |lines| ==> NoLineBreak(lines[k])
    decreases |s|
  {
    if s == [] then []
    else
      var i := LineEnd(s);
      if i == |s| then [s]
      else
        var width := if s[i] == '\r' && i + 1 < |s| && s[i + 1] == '\n' then 2 else 1;
        [s[..i]] + SplitLines(s[i + width..])
  }

  lemma SplitLinesOfOneLine(s: string)
    requires NoLineBreak(s)
    ensures SplitLines(s) == if s == [] then [] else [s]
  {
    if s != [] {
      assert LineEnd(s) == |s|;
    }
  }

  /** `c * n`. */
  function Repeat(c: char, n: nat): (r: string)
    ensures |r| == n && forall i :: 0 <= i < n ==> r[i] == c
  {
    if n == 0 then "" else [c] + Repeat(c, n - 1)
  }

  predicate IsDigit(c: char) {
    '0' <= c <= '9'
  }

  predicate IsDecimal(s: string) {
    forall i :: 0 <= i < |s| ==> IsDigit(s[i])
  }

  function DigitChar(d: nat): (c: char)
    requires d < 10
    ensures IsDigit(c)
  {
    ('0' as int + d) as char
  }

  function DigitValue(c: char): (d: nat)
    requires IsDigit(c)
    ensures d < 10
  {
    c as int - '0' as int
  }

  /** The code points of the digit zero of every run of ten decimal digits in the Unicode 15.0
      character database (general category Nd), in increasing order. Each run holds the
      digits zero to nine at consecutive code points, and these are exactly the characters
      `int()` accepts as a one-character string. */
  const DecimalZeros: seq<int> :=
    [0x30, 0x660, 0x6F0, 0x7C0, 0x966, 0x9E6, 0xA66, 0xAE6, 0xB66, 0xBE6]
    + [0xC66, 0xCE6, 0xD66, 0xDE6, 0xE50, 0xED0, 0xF20, 0x1040, 0x1090, 0x17E0]
    + [0x1810, 0x1946, 0x19D0, 0x1A80, 0x1A90, 0x1B50, 0x1BB0, 0x1C40, 0x1C50, 0xA620]
    + [0xA8D0, 0xA900, 0xA9D0, 0xA9F0, 0xAA50, 0xABF0, 0xFF10, 0x104A0, 0x10D30, 0x11066]
    + [0x110F0, 0x11136, 0x111D0, 0x112F0, 0x11450, 0x114D0, 0x11650, 0x116C0, 0x11730, 0x118E0]
    + [0x11950, 0x11C50, 0x11D50, 0x11DA0, 0x11F50, 0x16A60, 0x16AC0, 0x16B50, 0x1D7CE, 0x1D7D8]
    + [0x1D7E2, 0x1D7EC, 0x1D7F6, 0x1E140, 0x1E2F0, 0x1E4F0, 0x1E950, 0x1FBF0]

  /** `c` is one of the ten digits of the `k`-th run. */
  predicate InRun(c: char, k: nat) {
    k < |DecimalZeros| && DecimalZeros[k] <= c as int < DecimalZeros[k] + 10
  }

  /** `int(c)` for the one-character string `c`: the value of a decimal digit of any script,
      or `None` where Python raises `ValueError`. */
  function DecimalOfChar(c: char): (r: Option<nat>)
    ensures r.Some? <==> exists k: nat :: InRun(c, k)
    ensures r.Some? ==> r.value < 10 && exists k: nat :: InRun(c, k) && c as int == DecimalZeros[k] + r.value
  {
    DecimalFrom(c, 0)
  }

  /** The search of `DecimalOfChar` through the runs from the `k`-th on. */
  function DecimalFrom(c: char, k: nat): (r: Option<nat>)
    requires k <= |DecimalZeros|
    ensures r.Some? <==> exists j: nat :: k <= j && InRun(c, j)
    ensures r.Some? ==> r.value < 10 && exists j: nat :: k <= j && InRun(c, j) && c as int == DecimalZeros[j] + r.value
    decreases |DecimalZeros| - k
  {
    if k == |DecimalZeros| then None
    else if InRun(c, k) then Some(c as int - DecimalZeros[k])
    else
      var r := DecimalFrom(c, k + 1);
      assert forall j: nat :: k <= j && InRun(c, j) ==> k + 1 <= j;
      r
  }

  /** On the ASCII digits `int()` agrees with the digit's value. */
  lemma DecimalOfAsciiDigit(c: char)
    requires IsDigit(c)
    ensures DecimalOfChar(c) == Some(DigitValue(c))
  {
  }

  /** `int("\u0663") == 3`: ARABIC-INDIC DIGIT THREE. */
  lemma DecimalOfArabicIndicThree()
    ensures DecimalOfChar('\U{663}') == Some(3)
  {
    assert DecimalZeros[0] == 0x30 && DecimalZeros[1] == 0x660;
  }

  /** `str(n)` for a count, as f-strings print it: decimal digits, no leading zero. */
  function NatToString(n: nat): (s: string)
    ensures |s| >= 1 && IsDecimal(s)
    ensures s[0] == '0' ==> n == 0
  {
    if n < 10 then [DigitChar(n)] else NatToString(n / 10) + [DigitChar(n % 10)]
  }

  /** `int(s)` for a string of decimal digits. */
  function ParseDecimal(s: string): nat
    requires IsDecimal(s)
  {
    if s == [] then 0 else 10 * ParseDecimal(s[..|s| - 1]) + DigitValue(s[|s| - 1])
  }

  /** The printed count reads back as the count: `int(str(n)) == n`. */
  lemma {:induction false} ParseNatToString(n: nat)
    ensures ParseDecimal(NatToString(n)) == n
  {
    var s := NatToString(n);
    if n >= 10 {
      ParseNatToString(n / 10);
      assert s[..|s| - 1] == NatToString(n / 10);
    }
  }

  /** A word of `s.split()`: a non-empty run of non-space characters. */
  predicate IsWord(w: string) {
    w != [] && forall i :: 0 <= i < |w| ==> !IsSpace(w[i])
  }

  /** Length of the run of non-space characters at the start of `s`. */
  function WordEnd(s: string): (n: nat)
    ensures n <= |s| && (n < |s| ==> IsSpace(s[n]))
    ensures forall i :: 0 <= i < n ==> !IsSpace(s[i])
  {
    if s == [] || IsSpace(s[0]) then 0 else 1 + WordEnd(s[1..])
  }

  /** `s.split()` with no argument: the maximal runs of non-space characters, in order. */
  function Words(s: string): seq<string>
    decreases |s|
  {
    if s == [] then []
    else if IsSpace(s[0]) then Words(s[1..])
    else
      var n := WordEnd(s);
      [s[..n]] + Words(s[n..])
  }

  /** Every piece `Words` gives is a word. */
  lemma {:induction false} WordsAreWords(s: string)
    ensures forall k :: 0 <= k < |Words(s)| ==> IsWord(Words(s)[k])
    decreases |s|
  {
    if s != [] {
      if IsSpace(s[0]) {
        WordsAreWords(s[1..]);
      } else {
        var n := WordEnd(s);
        WordsAreWords(s[n..]);
        assert Words(s) == [s[..n]] + Words(s[n..]);
        assert IsWord(s[..n]);
      }
    }
  }

  /** A text of spaces only has no words. */
  lemma {:induction false} WordsOfSpaces(s: string)
    requires forall i :: 0 <= i < |s| ==> IsSpace(s[i])
    ensures Words(s) == []
  {
    if s != [] {
      WordsOfSpaces(s[1..]);
    }
  }

  /** A word is its own only word. */
  lemma WordsOfWord(w: string)
    requires IsWord(w)
    ensures Words(w) == [w]
  {
    var n := WordEnd(w);
    assert !IsSpace(w[0]);
    assert Words(w) == [w[..n]] + Words(w[n..]);
    assert w[..n] == w && w[n..] == [];
  }

  lemma {:induction false} WordEndConcat(a: string, b: string)
    requires WordEnd(a) < |a| || b == [] || IsSpace(b[0])
    ensures WordEnd(a + b) == WordEnd(a)
  {
    if a == [] {
      assert a + b == b;
    } else if !IsSpace(a[0]) {
      assert (a + b)[1..] == a[1..] + b;
      WordEndConcat(a[1..], b);
    }
  }

  /** Text on either side of a space splits into words independently. */
  lemma {:induction false} WordsConcat(a: string, b: string)
    requires a == [] || b == [] || IsSpace(a[|a| - 1]) || IsSpace(b[0])
    ensures Words(a + b) == Words(a) + Words(b)
    decreases |a|
  {
    if a == [] {
      assert a + b == b;
    } else if b == [] {
      assert a + b == a;
    } else if IsSpace(a[0]) {
      WordsConcat(a[1..], b);
      WordsConcatAfterSpace(a, b);
    } else {
      var n := WordEnd(a);
      if n == |a| {
        assert !IsSpace(a[|a| - 1]);
      }
      WordEndConcat(a, b);
      WordsConcat(a[n..], b);
      WordsConcatAfterWord(a, b);
    }
  }

  lemma WordsConcatAfterSpace(a: string, b: string)
    requires a != [] && IsSpace(a[0])
    requires Words(a[1..] + b) == Words(a[1..]) + Words(b)
    ensures Words(a + b) == Words(a) + Words(b)
  {
    ConcatSlices(a, b, 1);
  }

  lemma WordsConcatAfterWord(a: string, b: string)
    requires a != [] && !IsSpace(a[0]) && WordEnd(a + b) == WordEnd(a)
    requires Words(a[WordEnd(a)..] + b) == Words(a[WordEnd(a)..]) + Words(b)
    ensures Words(a + b) == Words(a) + Words(b)
  {
    var n := WordEnd(a);
    ConcatSlices(a, b, n);
    assert Words(a + b) == [a[..n]] + Words(a[n..] + b);
    assert Words(a) == [a[..n]] + Words(a[n..]);
    ConsAppend(a[..n], Words(a[n..]), Words(b));
  }

  lemma ConsAppend<T>(x: T, p: seq<T>, q: seq<T>)
    ensures [x] + (p + q) == ([x] + p) + q
  {
  }

  /** The words of every part, in order. */
  function WordsOf(parts: seq<string>): seq<string>
  {
    if parts == [] then [] else Words(parts[0]) + WordsOf(parts[1..])
  }

  lemma {:induction false} WordsOfAppend(a: seq<string>, b: seq<string>)
    ensures WordsOf(a + b) == WordsOf(a) + WordsOf(b)
  {
    if a != [] {
      assert (a + b)[1..] == a[1..] + b;
      WordsOfAppend(a[1..], b);
    } else {
      assert a + b == b;
    }
  }

  /** Joining with a separator made of spaces: the words of the join are the words of the
      parts. */
  lemma {:induction false} WordsOfJoin(sep: string, parts: seq<string>)
    requires sep != [] && forall i :: 0 <= i < |sep| ==> IsSpace(sep[i])
    ensures Words(Join(sep, parts)) == WordsOf(parts)
  {
    if |parts| == 1 {
      assert WordsOf(parts) == Words(parts[0]) + WordsOf([]);
    } else if |parts| > 1 {
      WordsOfJoin(sep, parts[1..]);
      WordsConcat(parts[0], sep);
      WordsOfSpaces(sep);
      WordsConcat(parts[0] + sep, Join(sep, parts[1..]));
    }
  }

  lemma {:induction false} WordsOfWords(words: seq<string>)
    requires forall k :: 0 <= k < |words| ==> IsWord(words[k])
    ensures WordsOf(words) == words
  {
    if words != [] {
      WordsOfWords(words[1..]);
      WordsOfWord(words[0]);
    }
  }

  /** `" ".join(words).split() == words` for a list of words. */
  lemma WordsOfJoinedWords(words: seq<string>)
    requires forall k :: 0 <= k < |words| ==> IsWord(words[k])
    ensures Words(Join(" ", words)) == words
  {
    WordsOfJoin(" ", words);
    WordsOfWords(words);
  }

  /** The words hold exactly the non-space characters of the text, in order. */
  lemma {:induction false} WordsKeepNonSpace(s: string)
    ensures Concat(Words(s)) == NonSpace(s)
    decreases |s|
  {
    if s != [] {
      if IsSpace(s[0]) {
        WordsKeepNonSpace(s[1..]);
      } else {
        var n := WordEnd(s);
        WordsKeepNonSpace(s[n..]);
        ConcatAppend([s[..n]], Words(s[n..]));
        assert Concat([s[..n]]) == s[..n] + Concat([]);
        SplitAt(s, n);
        NonSpaceConcat(s[..n], s[n..]);
        NonSpaceOfWord(s[..n]);
      }
    }
  }

  lemma {:induction false} NonSpaceOfWord(w: string)
    requires forall i :: 0 <= i < |w| ==> !IsSpace(w[i])
    ensures NonSpace(w) == w
  {
    if w != [] {
      NonSpaceOfWord(w[1..]);
      assert w == [w[0]] + w[1..];
    }
  }

  /** `s.strip().split() == s.split()`. */
  lemma WordsOfStrip(s: string)
    ensures Words(Strip(s)) == Words(s)
  {
    var k := LeadingSpaces(s);
    var t := s[k..];
    var n := TrailingSpaces(t);
    assert Strip(s) == t[..|t| - n];
    calc {
      Words(Strip(s));
      Words(t[..|t| - n]);
      { WordsDropBack(t, n); }
      Words(t);
      { WordsDropFront(s, k); }
      Words(s);
    }
  }

  /** Dropping leading spaces keeps the words. */
  lemma WordsDropFront(s: string, k: nat)
    requires k <= |s| && forall i :: 0 <= i < k ==> IsSpace(s[i])
    ensures Words(s[k..]) == Words(s)
  {
    var lead := s[..k];
    SplitAt(s, k);
    forall i | 0 <= i < |lead| ensures IsSpace(lead[i]) {
      assert lead[i] == s[i];
    }
    WordsOfSpaces(lead);
    WordsConcat(lead, s[k..]);
  }

  /** Dropping trailing spaces keeps the words. */
  lemma WordsDropBack(t: string, n: nat)
    requires n <= |t| && forall i :: |t| - n <= i < |t| ==> IsSpace(t[i])
    ensures Words(t[..|t| - n]) == Words(t)
  {
    var trail := t[|t| - n..];
    SplitAt(t, |t| - n);
    forall i | 0 <= i < |trail| ensures IsSpace(trail[i]) {
      assert trail[i] == t[|t| - n + i];
    }
    WordsOfSpaces(trail);
    WordsConcat(t[..|t| - n], trail);
  }
}
