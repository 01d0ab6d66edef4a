/** The two decisions main.py makes about browser pages: whether the Google sign-in has
    finished, and which already open page to read. */
module Browser {
  import opened PyStr
  import opened Outcome

  // ---------------------------------------------------------------- waiting for the sign-in

  /** main.py:322: the page has left the sign-in host, or it is on the account page. */
  predicate LoginDetected(url: string) {
    !Contains(url, "accounts.google.com") || Contains(url, "myaccount.google.com")
  }

  /** Check `i` of the waiting loop succeeds: the URL test holds, or the query for account
      elements found at least one. `accounts(i)` is the number found, or `None` when the
      query raised (the exception is swallowed and the loop waits on). */
  predicate LoginCheck(url: nat -> string, accounts: nat -> Option<nat>, i: nat) {
    LoginDetected(url(i)) || (accounts(i).Some? && accounts(i).value > 0)
  }

  /** Any URL on the account page counts as signed in, wherever the sign-in host appears. */
  lemma AccountPageIsSignedIn(before: string, after: string)
    ensures LoginDetected(before + "myaccount.google.com" + after)
  {
    var url := before + "myaccount.google.com" + after;
    assert OccursAt(url, "myaccount.google.com", |before|) by {
      assert url[|before|..|before| + 20] == "myaccount.google.com";
    }
  }

  /** The loop at main.py:318-336: one check per second for `timeout` seconds (none when the
      timeout is not positive, as with `range`), stopping at the first that succeeds. */
  method WaitForLogin(url: nat -> string, accounts: nat -> Option<nat>, timeout: int)
    returns (complete: bool, at: nat)
    ensures complete <==> exists i: nat :: i < timeout && LoginCheck(url, accounts, i)
    ensures complete ==>
      at < timeout && LoginCheck(url, accounts, at) && forall j: nat :: j < at ==> !LoginCheck(url, accounts, j)
  {
    complete := false;
    var i: nat := 0;
    while i < timeout
      invariant forall j: nat :: j < i ==> !LoginCheck(url, accounts, j)
      invariant i <= timeout || i == 0
      decreases timeout - i
    {
      var currentUrl := url(i);
      if LoginDetected(currentUrl) {
        assert LoginCheck(url, accounts, i);
        return true, i;
      }
      var accountElements := accounts(i);
      if accountElements.Some? && accountElements.value > 0 {
        assert LoginCheck(url, accounts, i);
        return true, i;
      }
      i := i + 1;
    }
    at := 0;
  }

  /** Python's `str(n)` of an integer. */
  function IntToString(n: int): (s: string)
    ensures n >= 0 ==> s == NatToString(n)
    ensures n < 0 ==> |s| >= 2 && s[0] == '-' && s[1..] == NatToString(-n)
  {
    if n < 0 then "-" + NatToString(-n) else NatToString(n)
  }

  /** main.py:338: the message when no check succeeded. */
  function LoginTimeout(timeout: int): string {
    "Login timeout after " + IntToString(timeout) + " seconds. Please try again."
  }

  /** The message reports the timeout it was given. */
  lemma LoginTimeoutReadsBack(timeout: int)
    requires timeout >= 0
    ensures var m := LoginTimeout(timeout);
      var digits := NatToString(timeout);
      m[..20] == "Login timeout after " && m[20..20 + |digits|] == digits
      && ParseDecimal(m[20..20 + |digits|]) == timeout
  {
    ParseNatToString(timeout);
  }

  // ---------------------------------------------------------------- choosing an open page

  /** The page `extract_from_open_browser` reads: its index among the first context's pages,
      or the first page after navigating it to the target. */
  datatype PageChoice = Existing(index: nat) | NavigateFirst

  const NoContextsMessage := "No browser contexts found. Please open a browser window first."
  const NoPagesMessage := "No pages found in browser context."

  /** main.py:680-698, given the URLs of the pages of each open context: the first page of the
      first context whose URL contains the target, else the first page, which is then sent to
      the target. */
  method ChoosePage(contexts: seq<seq<string>>, target: string) returns (r: Result<PageChoice, string>)
    ensures r == Err(NoContextsMessage) <==> contexts == []
    ensures r == Err(NoPagesMessage) <==> contexts != [] && contexts[0] == []
    ensures contexts != [] && contexts[0] != [] ==> r.Ok?
    ensures r.Ok? && r.value.Existing? ==>
      r.value.index < |contexts[0]| && Contains(contexts[0][r.value.index], target)
      && forall j :: 0 <= j < r.value.index ==> !Contains(contexts[0][j], target)
    ensures r == Ok(NavigateFirst) <==>
      contexts != [] && contexts[0] != [] && forall j :: 0 <= j < |contexts[0]| ==> !Contains(contexts[0][j], target)
  {
    if contexts == [] {
      return Err(NoContextsMessage);
    }
    var pages := contexts[0];
    if pages == [] {
      return Err(NoPagesMessage);
    }
    for i := 0 to |pages|
      invariant forall j :: 0 <= j < i ==> !Contains(pages[j], target)
    {
      if Contains(pages[i], target) {
        return Ok(Existing(i));
      }
    }
    return Ok(NavigateFirst);
  }
}
