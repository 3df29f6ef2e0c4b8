/**
  The bookkeeping in src/WebDriver.ts. `initializeWebDriver` dispatches on the browser
  kind; a `WebDriver` instance sets its cookies on its first visit only; `visitURL` picks
  the window width; `getAllLinks` retries on failure.

  Selenium is not modelled. Each command a visit sends is recorded in `commands`, and what
  the browser answers (the scroll height, the URL after redirects, the anchors on the page)
  is passed in as parameters.
*/
module WebDriverSession {
  import opened Wrappers
  import opened Strings
  import Types
  import Utils

  /** The `Browser` enumeration, WebDriver.ts:14-18. */
  datatype DriverBrowser = EDGE | CHROME | FIREFOX

  function DriverBrowserValue(b: DriverBrowser): string {
    match b
    case EDGE => "EDGE"
    case CHROME => "CHROME"
    case FIREFOX => "FIREFOX"
  }

  /** The arguments every browser kind is started with. */
  const StartArguments: seq<string> :=
    ["--headless", "--window-size=1920,1080", "--no-sandbox", "--disable-gpu", "--disable-extensions", "--disable-popup-blocking"]

  const SeleniumServer := "http://localhost:4444/"

  /** The implicit wait in milliseconds. */
  const ImplicitTimeout: nat := 100000

  /** What `initializeWebDriver` asks the builder for. */
  datatype DriverConfig = DriverConfig(browser: DriverBrowser, arguments: seq<string>, server: string, implicitTimeout: nat)

  datatype SessionError = UnsupportedBrowser

  /** The browser kind whose enumeration value is `value`, if any. */
  function BrowserOfValue(value: string): (r: Option<DriverBrowser>)
    ensures r.Some? ==> DriverBrowserValue(r.value) == value
    ensures r.None? ==> forall b: DriverBrowser :: DriverBrowserValue(b) != value
  {
    if value == "EDGE" then Some(EDGE)
    else if value == "CHROME" then Some(CHROME)
    else if value == "FIREFOX" then Some(FIREFOX)
    else None
  }

  /**
    `initializeWebDriver(browserType)`: the three known kinds get the same arguments,
    server and timeout; anything else throws "Unsupported browser type".
  */
  function InitializeWebDriver(browserType: string): (r: Result<DriverConfig, SessionError>)
    ensures r.Success? <==> exists b: DriverBrowser :: DriverBrowserValue(b) == browserType
    ensures r.Success? ==> DriverBrowserValue(r.value.browser) == browserType
    ensures r.Success? ==> r.value.arguments == StartArguments && r.value.server == SeleniumServer
    ensures r.Success? ==> r.value.implicitTimeout == ImplicitTimeout
  {
    match BrowserOfValue(browserType)
    case Some(b) =>
      assert DriverBrowserValue(b) == browserType;
      Success(DriverConfig(b, StartArguments, SeleniumServer, ImplicitTimeout))
    case None => Failure(UnsupportedBrowser)
  }

  /** Every browser kind is built from its own value. */
  lemma InitializeEachBrowser(b: DriverBrowser)
    ensures InitializeWebDriver(DriverBrowserValue(b)) == Success(DriverConfig(b, StartArguments, SeleniumServer, ImplicitTimeout))
  {
  }

  datatype Cookie = Cookie(name: string, value: string)

  /** The browser commands `visitURL` sends, in order. */
  datatype Command = Get(url: string) | AddCookie(cookie: Cookie) | Refresh | SetRect(width: nat, height: int)

  /** The `options` argument of `visitURL`. */
  datatype VisitOptions = VisitOptions(fullHeight: bool, width: Option<nat>)

  /** `options.width || DEVICE_WIDTH.DESKTOP`: a missing width, and a width of 0, fall back to 1920. */
  function WindowWidth(options: VisitOptions): (w: nat)
    ensures w > 0
    ensures options.width.Some? && options.width.value > 0 ==> w == options.width.value
    ensures options.width.None? || options.width == Some(0) ==> w == Types.Pixels(Types.Desktop)
  {
    match options.width
    case Some(v) => if v != 0 then v else Types.Pixels(Types.Desktop)
    case None => Types.Pixels(Types.Desktop)
  }

  /** `setCookies`: one `addCookie` per cookie. */
  function CookieCommands(cookies: seq<Cookie>): (r: seq<Command>)
    ensures |r| == |cookies|
    ensures forall i :: 0 <= i < |r| ==> r[i] == AddCookie(cookies[i])
  {
    seq(|cookies|, i requires 0 <= i < |cookies| => AddCookie(cookies[i]))
  }

  /** The commands of one `visitURL`, given whether the instance has set its cookies already. */
  function VisitCommands(url: string, options: Option<VisitOptions>, cookiesInitialized: bool,
                         cookies: seq<Cookie>, scrollHeight: int): seq<Command>
  {
    [Get(url)]
    + (if cookiesInitialized then [] else CookieCommands(cookies) + [Refresh])
    + (if options.Some? && options.value.fullHeight then [SetRect(WindowWidth(options.value), scrollHeight)] else [])
  }

  /** How many `Refresh` commands a command list holds. */
  function Refreshes(cmds: seq<Command>): nat {
    if |cmds| == 0 then 0 else Refreshes(cmds[..|cmds| - 1]) + (if cmds[|cmds| - 1].Refresh? then 1 else 0)
  }

  lemma {:induction false} RefreshesAppend(a: seq<Command>, b: seq<Command>)
    ensures Refreshes(a + b) == Refreshes(a) + Refreshes(b)
    decreases |b|
  {
    if |b| == 0 {
      assert a + b == a;
    } else {
      RefreshesAppend(a, b[..|b| - 1]);
      assert (a + b)[..|a + b| - 1] == a + b[..|b| - 1];
      assert (a + b)[|a + b| - 1] == b[|b| - 1];
    }
  }

  lemma {:induction false} NoRefreshAmongCookies(cookies: seq<Cookie>)
    ensures Refreshes(CookieCommands(cookies)) == 0
    decreases |cookies|
  {
    if |cookies| > 0 {
      var init := cookies[..|cookies| - 1];
      NoRefreshAmongCookies(init);
      assert CookieCommands(cookies)[..|cookies| - 1] == CookieCommands(init);
    }
  }

  /** A visit refreshes the page exactly when the instance has not set its cookies yet, and an initialized instance adds no cookie. */
  lemma VisitRefreshesOnlyFirst(url: string, options: Option<VisitOptions>, initialized: bool, cookies: seq<Cookie>, h: int)
    ensures Refreshes(VisitCommands(url, options, initialized, cookies, h)) == if initialized then 0 else 1
    ensures initialized ==> forall c :: c in VisitCommands(url, options, initialized, cookies, h) ==> !c.AddCookie?
  {
    var tail := if options.Some? && options.value.fullHeight then [SetRect(WindowWidth(options.value), h)] else [];
    var mid := if initialized then [] else CookieCommands(cookies) + [Refresh];
    RefreshesAppend([Get(url)] + mid, tail);
    RefreshesAppend([Get(url)], mid);
    assert Refreshes([Get(url)]) == 0 by { assert [Get(url)][..0] == []; }
    assert Refreshes(tail) == 0 by {
      if |tail| > 0 { assert tail[..0] == []; }
    }
    if !initialized {
      RefreshesAppend(CookieCommands(cookies), [Refresh]);
      NoRefreshAmongCookies(cookies);
      assert [Refresh][..0] == [];
    }
  }

  /**
    The browser calls of `visitURL` that can reject, in order: `get`, the `addCookie`s of a
    first visit (`Promise.all` sends them all), `refresh`, the scroll-height query, and the
    rest (the resize, the wait for the ready state, `getCurrentUrl`).
  */
  datatype VisitStep = GetStep | CookieStep | RefreshStep | HeightStep | LoadStep

  /** What one `visitURL` did: the commands it sent, the cookie flag afterwards, and whether it returned. */
  datatype VisitEffect = VisitEffect(sent: seq<Command>, initialized: bool, returned: bool)

  /** Whether a visit gets to `step`: the cookie steps run on a first visit only, the height query on a full-height visit only. */
  predicate Reaches(step: VisitStep, options: Option<VisitOptions>, initialized: bool) {
    match step
    case GetStep => true
    case CookieStep => !initialized
    case RefreshStep => !initialized
    case HeightStep => options.Some? && options.value.fullHeight
    case LoadStep => true
  }

  /**
    `visitURL`, WebDriver.ts:122-164, when `rejects` names the first browser call that
    rejects (`None`: every call resolves). A rejection ends the visit with that exception.
  */
  function Visit(url: string, options: Option<VisitOptions>, initialized: bool, cookies: seq<Cookie>,
                 scrollHeight: int, rejects: Option<VisitStep>): VisitEffect
  {
    var fullHeight := options.Some? && options.value.fullHeight;
    var first := [Get(url)] + (if initialized then [] else CookieCommands(cookies) + [Refresh]);
    if rejects == Some(GetStep) then VisitEffect([Get(url)], initialized, false)
    else if !initialized && rejects == Some(CookieStep) then VisitEffect([Get(url)] + CookieCommands(cookies), false, false)
    else if !initialized && rejects == Some(RefreshStep) then VisitEffect(first, true, false)
    else if fullHeight && rejects == Some(HeightStep) then VisitEffect(first, true, false)
    else
      var resize := if fullHeight then [SetRect(WindowWidth(options.value), scrollHeight)] else [];
      VisitEffect(first + resize, true, rejects != Some(LoadStep))
  }

  /**
    A visit returns exactly when no call it makes rejects, and then it has sent the whole
    command list; otherwise it has sent a prefix of it.
  */
  lemma VisitSendsPrefix(url: string, options: Option<VisitOptions>, initialized: bool, cookies: seq<Cookie>,
                         h: int, rejects: Option<VisitStep>)
    ensures var e := Visit(url, options, initialized, cookies, h, rejects);
            && (e.returned <==> rejects.None? || !Reaches(rejects.value, options, initialized))
            && e.sent <= VisitCommands(url, options, initialized, cookies, h)
            && (e.returned ==> e.sent == VisitCommands(url, options, initialized, cookies, h) && e.initialized)
  {
    var cmds := VisitCommands(url, options, initialized, cookies, h);
    var mid := if initialized then [] else CookieCommands(cookies) + [Refresh];
    var tail := if options.Some? && options.value.fullHeight then [SetRect(WindowWidth(options.value), h)] else [];
    assert cmds == [Get(url)] + mid + tail;
    assert ([Get(url)] + mid + tail)[..1] == [Get(url)];
    assert ([Get(url)] + mid + tail)[..1 + |mid|] == [Get(url)] + mid;
    if !initialized {
      assert ([Get(url)] + mid)[..1 + |cookies|] == [Get(url)] + CookieCommands(cookies);
    }
    if rejects.Some? {
      // one case per step
      match rejects.value
      case GetStep =>
      case CookieStep =>
      case RefreshStep =>
      case HeightStep =>
      case LoadStep =>
    }
  }

  /**
    The flag is set by a visit unless `get` or the cookies of a first visit reject, so the
    next visit after such a rejection sets the cookies again.
  */
  lemma VisitSetsFlag(url: string, options: Option<VisitOptions>, initialized: bool, cookies: seq<Cookie>,
                      h: int, rejects: Option<VisitStep>)
    ensures Visit(url, options, initialized, cookies, h, rejects).initialized <==>
            initialized || (rejects != Some(GetStep) && rejects != Some(CookieStep))
  {
  }

  /** A first visit whose cookies are rejected leaves the next visit to add them and refresh once more. */
  lemma RejectedCookiesRetried(url: string, next: string, options: Option<VisitOptions>, cookies: seq<Cookie>, h: int, h2: int)
    ensures var after := Visit(url, options, false, cookies, h, Some(CookieStep)).initialized;
            && !after
            && Refreshes(Visit(next, options, after, cookies, h2, None).sent) == 1
            && forall c :: c in cookies ==> AddCookie(c) in Visit(next, options, after, cookies, h2, None).sent
  {
    VisitSendsPrefix(next, options, false, cookies, h2, None);
    VisitRefreshesOnlyFirst(next, options, false, cookies, h2);
    var cmds := VisitCommands(next, options, false, cookies, h2);
    forall c | c in cookies ensures AddCookie(c) in cmds {
      var i :| 0 <= i < |cookies| && cookies[i] == c;
      assert cmds[1 + i] == CookieCommands(cookies)[i];
    }
  }

  /** The commands of a series of visits on one instance, starting from its current flag. */
  function SessionCommands(urls: seq<string>, options: Option<VisitOptions>, initialized: bool,
                           cookies: seq<Cookie>, h: int): seq<Command>
    decreases |urls|
  {
    if |urls| == 0 then []
    else VisitCommands(urls[0], options, initialized, cookies, h) + SessionCommands(urls[1..], options, true, cookies, h)
  }

  /** However many pages a fresh instance visits, it refreshes for cookies once (none if it visits none). */
  lemma {:induction false} SessionRefreshesOnce(urls: seq<string>, options: Option<VisitOptions>, initialized: bool,
                                               cookies: seq<Cookie>, h: int)
    ensures Refreshes(SessionCommands(urls, options, initialized, cookies, h)) == if initialized || |urls| == 0 then 0 else 1
    decreases |urls|
  {
    if |urls| > 0 {
      SessionRefreshesOnce(urls[1..], options, true, cookies, h);
      VisitRefreshesOnlyFirst(urls[0], options, initialized, cookies, h);
      RefreshesAppend(VisitCommands(urls[0], options, initialized, cookies, h), SessionCommands(urls[1..], options, true, cookies, h));
    }
  }

  class WebDriver {
    const config: DriverConfig
    const cookies: seq<Cookie>
    var cookiesInitialized: bool
    /** The commands sent to the browser so far. */
    var commands: seq<Command>

    constructor(config: DriverConfig, cookies: seq<Cookie>)
      ensures this.config == config && this.cookies == cookies
      ensures !cookiesInitialized && commands == []
    {
      this.config := config;
      this.cookies := cookies;
      cookiesInitialized := false;
      commands := [];
    }

    /** `new WebDriver(browserType, cookies)`: throws when `initializeWebDriver` does. */
    static method Create(browserType: string, cookies: seq<Cookie>) returns (r: Result<WebDriver, SessionError>)
      ensures r.Success? <==> InitializeWebDriver(browserType).Success?
      ensures r.Failure? ==> r.error == InitializeWebDriver(browserType).error
      ensures r.Success? ==> fresh(r.value) && r.value.config == InitializeWebDriver(browserType).value
      ensures r.Success? ==> r.value.cookies == cookies && !r.value.cookiesInitialized && r.value.commands == []
    {
      var tempDriver := InitializeWebDriver(browserType);
      if tempDriver.Failure? {
        return Failure(tempDriver.error);
      }
      var d := new WebDriver(tempDriver.value, cookies);
      return Success(d);
    }

    /** `setCookies`, WebDriver.ts:227-235. */
    method SetCookies()
      modifies this
      ensures commands == old(commands) + CookieCommands(cookies)
      ensures cookiesInitialized == old(cookiesInitialized)
    {
      var i := 0;
      while i < |cookies|
        invariant 0 <= i <= |cookies|
        invariant commands == old(commands) + CookieCommands(cookies)[..i]
        invariant cookiesInitialized == old(cookiesInitialized)
      {
        commands := commands + [AddCookie(cookies[i])];
        assert CookieCommands(cookies)[..i + 1] == CookieCommands(cookies)[..i] + [AddCookie(cookies[i])];
        i := i + 1;
      }
      assert CookieCommands(cookies)[..i] == CookieCommands(cookies);
    }

    /**
      `visitURL(url, options)`, WebDriver.ts:122-164. `scrollHeight` is what the page reports
      as its scroll height, `currentUrl` where the browser ended up, and `rejects` the first
      browser call that rejects, if any; `None` is returned when one does.
    */
    method VisitURL(url: string, options: Option<VisitOptions>, scrollHeight: int, currentUrl: string,
                    rejects: Option<VisitStep>) returns (landed: Option<string>)
      modifies this
      ensures var e := Visit(url, options, old(cookiesInitialized), cookies, scrollHeight, rejects);
              && commands == old(commands) + e.sent
              && cookiesInitialized == e.initialized
              && (landed.Some? <==> e.returned)
              && (landed.Some? ==> landed.value == currentUrl)
    {
      ghost var start := commands;
      commands := commands + [Get(url)];
      if rejects == Some(GetStep) {
        return None;
      }
      if !cookiesInitialized {
        SetCookies();
        if rejects == Some(CookieStep) {
          assert commands == start + ([Get(url)] + CookieCommands(cookies));
          return None;
        }
        cookiesInitialized := true;
        commands := commands + [Refresh];
        if rejects == Some(RefreshStep) {
          assert commands == start + ([Get(url)] + (CookieCommands(cookies) + [Refresh]));
          return None;
        }
      }
      ghost var first := [Get(url)] + (if old(cookiesInitialized) then [] else CookieCommands(cookies) + [Refresh]);
      assert commands == start + first;
      if options.Some? && options.value.fullHeight {
        if rejects == Some(HeightStep) {
          return None;
        }
        commands := commands + [SetRect(WindowWidth(options.value), scrollHeight)];
        assert commands == start + (first + [SetRect(WindowWidth(options.value), scrollHeight)]);
      } else {
        assert first + [] == first;
      }
      if rejects == Some(LoadStep) {
        return None;
      }
      landed := Some(currentUrl);
    }
  }

  // ---------------------------------------------------------------------------------------------
  // getAllLinks
  // ---------------------------------------------------------------------------------------------

  /** The default `maxTries`. */
  const DefaultTries := 5

  /** An anchor's `href` attribute kept by `getAllLinks`: present, non-empty and accepted by `validateLink`. */
  function ValidHref(href: Option<string>): (r: Option<string>)
    ensures r.Some? <==> href.Some? && |href.value| > 0 && Utils.ValidateLink(href.value)
    ensures r.Some? ==> r == href
  {
    match href
    case Some(h) => if |h| > 0 && Utils.ValidateLink(h) then Some(h) else None
    case None => None
  }

  /** The links of one successful attempt, in anchor order. */
  function ValidLinks(hrefs: seq<Option<string>>): seq<string> {
    Keep(hrefs, ValidHref)
  }

  /** A link is returned exactly when some anchor carries it and it passes the checks. */
  lemma ValidLinksMembership(hrefs: seq<Option<string>>, link: string)
    ensures link in ValidLinks(hrefs) <==> Some(link) in hrefs && |link| > 0 && Utils.ValidateLink(link)
  {
    KeepMember(hrefs, ValidHref, link);
    if Some(link) in hrefs && |link| > 0 && Utils.ValidateLink(link) {
      var k :| 0 <= k < |hrefs| && hrefs[k] == Some(link);
      assert ValidHref(hrefs[k]) == Some(link);
    }
  }

  /** Anchor order is kept: the links of two runs of anchors are the links of each, in turn. */
  lemma ValidLinksAppend(a: seq<Option<string>>, b: seq<Option<string>>)
    ensures ValidLinks(a + b) == ValidLinks(a) + ValidLinks(b)
  {
    KeepAppend(a, b, ValidHref);
  }

  /**
    `getAllLinks(maxTries)`. `attempt(k)` is the list of anchor `href`s read on the try made with
    `maxTries == k`, or `None` when reading them threw.
  */
  function GetAllLinks(maxTries: int, attempt: int -> Option<seq<Option<string>>>): (r: seq<string>)
    ensures r == [] || exists k :: (k == maxTries || 0 <= k <= maxTries) && attempt(k).Some? && r == ValidLinks(attempt(k).value)
    decreases if maxTries < 0 then 0 else maxTries
  {
    match attempt(maxTries)
    case Some(hrefs) => ValidLinks(hrefs)
    case None => if maxTries > 0 then GetAllLinks(maxTries - 1, attempt) else []
  }

  /** The first try that succeeds, counting down from `maxTries`, supplies the links. */
  lemma {:induction false} FirstSuccessSupplies(maxTries: int, attempt: int -> Option<seq<Option<string>>>, j: nat)
    requires j <= maxTries && attempt(j).Some?
    requires forall i :: j < i <= maxTries ==> attempt(i).None?
    ensures GetAllLinks(maxTries, attempt) == ValidLinks(attempt(j).value)
    decreases maxTries - j
  {
    if maxTries > j {
      assert attempt(maxTries).None?;
      FirstSuccessSupplies(maxTries - 1, attempt, j);
    } else {
      assert attempt(maxTries) == attempt(j);
    }
  }

  /** When every try fails, there are no links. */
  lemma {:induction false} AllTriesFail(maxTries: int, attempt: int -> Option<seq<Option<string>>>)
    requires forall i :: 0 <= i <= maxTries ==> attempt(i).None?
    requires attempt(maxTries).None?
    ensures GetAllLinks(maxTries, attempt) == []
    decreases if maxTries < 0 then 0 else maxTries
  {
    if maxTries > 0 {
      AllTriesFail(maxTries - 1, attempt);
    }
  }

  /** Only the tries `maxTries`, `maxTries - 1`, ..., 0 are made: at most `maxTries + 1`, six by default. */
  lemma {:induction false} OnlyCountedTries(maxTries: int, a: int -> Option<seq<Option<string>>>, b: int -> Option<seq<Option<string>>>)
    requires a(maxTries) == b(maxTries)
    requires forall i :: 0 <= i <= maxTries ==> a(i) == b(i)
    ensures GetAllLinks(maxTries, a) == GetAllLinks(maxTries, b)
    decreases if maxTries < 0 then 0 else maxTries
  {
    if maxTries > 0 && a(maxTries).None? {
      OnlyCountedTries(maxTries - 1, a, b);
    }
  }

  /** By default the sixth try, made with `maxTries` 0, still supplies the links when the five before it fail. */
  lemma DefaultSixthTry(attempt: int -> Option<seq<Option<string>>>)
    requires forall i :: 0 < i <= DefaultTries ==> attempt(i).None?
    requires attempt(0).Some?
    ensures GetAllLinks(DefaultTries, attempt) == ValidLinks(attempt(0).value)
  {
    FirstSuccessSupplies(DefaultTries, attempt, 0);
  }

  /** Every link returned is a non-empty string accepted by `validateLink`. */
  lemma {:induction false} LinksAreValid(maxTries: int, attempt: int -> Option<seq<Option<string>>>, link: string)
    requires link in GetAllLinks(maxTries, attempt)
    ensures |link| > 0 && Utils.ValidateLink(link)
    decreases if maxTries < 0 then 0 else maxTries
  {
    match attempt(maxTries)
    case Some(hrefs) => ValidLinksMembership(hrefs, link);
    case None => LinksAreValid(maxTries - 1, attempt, link);
  }
}
