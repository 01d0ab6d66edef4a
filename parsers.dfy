/** The small parsers of main.py: `parse_cookies`, the key:value fallback of `parse_headers`,
    and the cookie records that `extract_with_browser_session` builds for the browser. */
module Parsers {
  import opened PyStr
  import opened Outcome

  // ---------------------------------------------------------------- parse_cookies

  /** `key, value = item.strip().split('=', 1)` for a segment that holds '='. */
  function CookiePair(item: string): (string, string)
    requires '=' in item
  {
    StripKeepsChar(item, '=');
    var s := Strip(item);
    var i := FirstIndex(s, '=');
    (s[..i], s[i + 1..])
  }

  /** The cut is at the first '=' of the stripped segment: the key holds no '=', the value may,
      and key + "=" + value is the stripped segment. */
  lemma CookiePairSplits(item: string)
    requires '=' in item
    ensures '=' in Strip(item) && Contains(Strip(item), "=")
    ensures CookiePair(item) == SplitFirst(Strip(item), "=")
    ensures CookiePair(item).0 + "=" + CookiePair(item).1 == Strip(item)
    ensures '=' !in CookiePair(item).0
  {
    StripKeepsChar(item, '=');
    SplitFirstAtIndex(Strip(item), '=');
  }

  /** The segment sets `key`. */
  predicate SetsCookie(item: string, key: string) {
    '=' in item && CookiePair(item).0 == key
  }

  /** The dictionary the loop of `parse_cookies` has built after the segments `items`: each
      segment holding '=' assigns its key, later segments overwriting earlier ones. */
  function CookieMap(items: seq<string>): map<string, string>
  {
    if items == [] then map[]
    else
      var m := CookieMap(items[..|items| - 1]);
      var item := items[|items| - 1];
      if '=' in item then m[CookiePair(item).0 := CookiePair(item).1] else m
  }

  /** The loop of `parse_cookies` over the `;`-separated segments. */
  method AssignCookies(items: seq<string>) returns (cookies: map<string, string>)
    ensures cookies == CookieMap(items)
  {
    cookies := map[];
    for i := 0 to |items|
      invariant cookies == CookieMap(items[..i])
    {
      var item := items[i];
      if '=' in item {
        var kv := CookiePair(item);
        cookies := cookies[kv.0 := kv.1];
      }
      assert items[..i + 1][..i] == items[..i];
    }
    assert items[..|items|] == items;
  }

  /** `parse_cookies(cookie_string)`. */
  method ParseCookies(cookieString: string) returns (cookies: map<string, string>)
    ensures cookieString == [] ==> cookies == map[]
    ensures cookieString != [] ==> cookies == CookieMap(Split(cookieString, ";"))
  {
    if cookieString == [] {
      return map[];
    }
    cookies := AssignCookies(Split(cookieString, ";"));
  }

  /** Some segment of `items` sets `key`. */
  predicate SomeSegmentSets(items: seq<string>, key: string) {
    exists i :: 0 <= i < |items| && SetsCookie(items[i], key)
  }

  lemma SomeSegmentSetsSnoc(items: seq<string>, key: string)
    requires items != []
    ensures SomeSegmentSets(items, key)
        <==> SomeSegmentSets(items[..|items| - 1], key) || SetsCookie(items[|items| - 1], key)
  {
    var init := items[..|items| - 1];
    if SomeSegmentSets(items, key) && !SetsCookie(items[|items| - 1], key) {
      var i :| 0 <= i < |items| && SetsCookie(items[i], key);
      assert init[i] == items[i];
    }
    if SomeSegmentSets(init, key) {
      var i :| 0 <= i < |init| && SetsCookie(init[i], key);
      assert init[i] == items[i];
    }
  }

  /** The keys of the parsed cookies are exactly the keys of the segments that hold '='. */
  lemma {:induction false} CookieKeys(items: seq<string>, key: string)
    ensures key in CookieMap(items) <==> SomeSegmentSets(items, key)
  {
    if items != [] {
      CookieKeys(items[..|items| - 1], key);
      SomeSegmentSetsSnoc(items, key);
    }
  }

  /** A key gets the value of the last segment that sets it. */
  lemma {:induction false} CookieLastWins(items: seq<string>, i: nat, key: string)
    requires i < |items| && SetsCookie(items[i], key)
    requires forall j :: i < j < |items| ==> !SetsCookie(items[j], key)
    ensures key in CookieMap(items) && CookieMap(items)[key] == CookiePair(items[i]).1
  {
    var init := items[..|items| - 1];
    if i < |items| - 1 {
      assert init[i] == items[i];
      forall j | i < j < |init| ensures !SetsCookie(init[j], key) {
        assert init[j] == items[j];
      }
      CookieLastWins(init, i, key);
    }
  }

  /** A segment without '=' changes nothing. */
  lemma CookieSkipsBareSegment(items: seq<string>, item: string)
    requires '=' !in item
    ensures CookieMap(items + [item]) == CookieMap(items)
  {
    assert (items + [item])[..|items|] == items;
  }

  // ---------------------------------------------------------------- parse_headers

  /** `key, value = line.split(':', 1)` with both sides stripped. */
  function HeaderPair(line: string): (kv: (string, string))
    requires ':' in line
    ensures Stripped(kv.0) && Stripped(kv.1)
  {
    var i := FirstIndex(line, ':');
    (Strip(line[..i]), Strip(line[i + 1..]))
  }

  /** The cut is at the first ':' of the line. */
  lemma HeaderPairSplits(line: string)
    requires ':' in line
    ensures Contains(line, ":")
    ensures var (k, v) := SplitFirst(line, ":"); HeaderPair(line) == (Strip(k), Strip(v))
    ensures ':' !in SplitFirst(line, ":").0
  {
    SplitFirstAtIndex(line, ':');
  }

  predicate SetsHeader(line: string, key: string) {
    ':' in line && HeaderPair(line).0 == key
  }

  /** The dictionary the fallback loop of `parse_headers` has built after `lines`. */
  function HeaderMap(lines: seq<string>): map<string, string>
  {
    if lines == [] then map[]
    else
      var m := HeaderMap(lines[..|lines| - 1]);
      var line := lines[|lines| - 1];
      if ':' in line then m[HeaderPair(line).0 := HeaderPair(line).1] else m
  }

  /** The loop of the key:value fallback over the lines. */
  method AssignHeaders(lines: seq<string>) returns (headers: map<string, string>)
    ensures headers == HeaderMap(lines)
  {
    headers := map[];
    for i := 0 to |lines|
      invariant headers == HeaderMap(lines[..i])
    {
      var line := lines[i];
      if ':' in line {
        var kv := HeaderPair(line);
        headers := headers[kv.0 := kv.1];
      }
      assert lines[..i + 1][..i] == lines[..i];
    }
    assert lines[..|lines|] == lines;
  }

  /** The key:value fallback: each line of the stripped string (split at '\n' only) that holds
      ':' contributes a stripped key and a stripped value. */
  method HeadersFallback(headersString: string) returns (headers: map<string, string>)
    ensures headers == HeaderMap(Split(Strip(headersString), "\n"))
  {
    headers := AssignHeaders(Split(Strip(headersString), "\n"));
  }

  /** `parse_headers(headers_string)`. `decoded` is what `json.loads` gives for the string:
      `Some` of the decoded object, or `None` when it raises `JSONDecodeError`. */
  method ParseHeaders(headersString: string, decoded: Option<map<string, string>>)
    returns (headers: map<string, string>)
    ensures headersString == [] ==> headers == map[]
    ensures headersString != [] && decoded.Some? ==> headers == decoded.value
    ensures headersString != [] && decoded.None? ==> headers == HeaderMap(Split(Strip(headersString), "\n"))
  {
    if headersString == [] {
      return map[];
    }
    match decoded {
      case Some(m) =>
        headers := m;
      case None =>
        headers := HeadersFallback(headersString);
    }
  }

  /** Every parsed header key and value is stripped, and the keys are exactly those of the lines
      that hold ':'. */
  lemma {:induction false} HeaderEntries(lines: seq<string>, key: string)
    ensures key in HeaderMap(lines) <==> exists i :: 0 <= i < |lines| && SetsHeader(lines[i], key)
    ensures key in HeaderMap(lines) ==> Stripped(key) && Stripped(HeaderMap(lines)[key])
  {
    if lines != [] {
      var init := lines[..|lines| - 1];
      HeaderEntries(init, key);
      assert forall i :: 0 <= i < |init| ==> init[i] == lines[i];
    }
  }

  // ---------------------------------------------------------------- browser cookie records

  /** The record `extract_with_browser_session` hands to the browser context. */
  datatype BrowserCookie = BrowserCookie(name: string, value: string, domain: string, path: string)

  /** The record built from one segment that holds '='. */
  function CookieRecord(item: string, domain: string): BrowserCookie
    requires '=' in item
  {
    var kv := CookiePair(item);
    BrowserCookie(Strip(kv.0), Strip(kv.1), domain, "/")
  }

  /** The records built from the segments `items`, one per segment holding '=', in order. */
  function CookieRecords(items: seq<string>, domain: string): seq<BrowserCookie>
  {
    if items == [] then []
    else
      var init := CookieRecords(items[..|items| - 1], domain);
      var item := items[|items| - 1];
      if '=' in item then init + [CookieRecord(item, domain)] else init
  }

  /** The loop at main.py:518-527 over the `;`-separated segments; `domain` stands for
      `urlparse(url).netloc`. */
  method CollectBrowserCookies(items: seq<string>, domain: string) returns (cookies: seq<BrowserCookie>)
    ensures cookies == CookieRecords(items, domain)
  {
    cookies := [];
    for i := 0 to |items|
      invariant cookies == CookieRecords(items[..i], domain)
    {
      var item := items[i];
      assert items[..i + 1][..i] == items[..i];
      if '=' in item {
        var kv := CookiePair(item);
        var record := BrowserCookie(Strip(kv.0), Strip(kv.1), domain, "/");
        assert record == CookieRecord(item, domain);
        cookies := cookies + [record];
      }
    }
    assert items[..|items|] == items;
  }

  /** The cookie records for a `browser_cookies` string. */
  method BrowserCookies(browserCookies: string, domain: string) returns (cookies: seq<BrowserCookie>)
    ensures cookies == CookieRecords(Split(browserCookies, ";"), domain)
  {
    cookies := CollectBrowserCookies(Split(browserCookies, ";"), domain);
  }

  /** Number of segments that hold '='. */
  function CountWithEquals(items: seq<string>): nat
  {
    if items == [] then 0
    else CountWithEquals(items[..|items| - 1]) + (if '=' in items[|items| - 1] then 1 else 0)
  }

  /** There is one record per segment holding '=': duplicates are kept, unlike in the
      dictionary of `parse_cookies`. */
  lemma {:induction false} CookieRecordsCount(items: seq<string>, domain: string)
    ensures |CookieRecords(items, domain)| == CountWithEquals(items)
  {
    if items != [] {
      CookieRecordsCount(items[..|items| - 1], domain);
    }
  }

  /** Every record has a stripped name and value, the given domain and the path "/". */
  lemma {:induction false} CookieRecordsFields(items: seq<string>, domain: string, j: nat)
    requires j < |CookieRecords(items, domain)|
    ensures var r := CookieRecords(items, domain)[j];
      Stripped(r.name) && Stripped(r.value) && r.domain == domain && r.path == "/"
  {
    var init := items[..|items| - 1];
    var rs0 := CookieRecords(init, domain);
    if j < |rs0| {
      CookieRecordsFields(init, domain, j);
    }
  }

  /** Every key of `parse_cookies`, stripped once more, is the name of a record. */
  lemma {:induction false} CookieRecordsNames(items: seq<string>, domain: string, key: string)
    requires key in CookieMap(items)
    ensures exists j :: 0 <= j < |CookieRecords(items, domain)| && CookieRecords(items, domain)[j].name == Strip(key)
  {
    var init := items[..|items| - 1];
    var item := items[|items| - 1];
    var rs := CookieRecords(items, domain);
    if '=' in item && CookiePair(item).0 == key {
      assert rs[|rs| - 1].name == Strip(key);
    } else {
      CookieRecordsNames(init, domain, key);
      var rs0 := CookieRecords(init, domain);
      var j :| 0 <= j < |rs0| && rs0[j].name == Strip(key);
      assert rs[j] == rs0[j];
    }
  }
}
