/**
 * The credential resolver: `get_browser_cookies` reads the Trello cookies of Chrome,
 * then of Firefox, and `main` falls back to the manual cookie table when neither
 * browser gave any, exiting when that table is empty too.
 *
 * The cookie stores are SQLite databases; here each browser is the sequence of
 * `(name, value)` rows its query returned, empty when the store file, the Firefox
 * profile or its cookie file is missing, or when the query failed.
 */
module Cookies {
  import opened Wrappers
  import Dict
  import opened TrelloData

  /** One row of `SELECT name, value FROM ... WHERE host LIKE '%trello%'`. */
  type Row = (string, string)

  /** Why the program stops before loading the export. */
  datatype Exit = NoCookiesFound

  /** `MANUAL_COOKIES` as shipped: five cookie names, each with a placeholder token. */
  const ManualCookies: CookieJar := map[
    "cloud.session.token" := "YOUR_TOKEN_HERE",
    "dsc" := "YOUR_TOKEN_HERE",
    "aaId" := "YOUR_TOKEN_HERE",
    "idMember" := "YOUR_TOKEN_HERE",
    "atl-bsc-consent-token" := "YOUR_TOKEN_HERE"
  ]

  /** What `get_browser_cookies` returns: Chrome's cookies when there are any, otherwise Firefox's. */
  function BrowserCookies(chromeRows: seq<Row>, firefoxRows: seq<Row>): CookieJar
  {
    var chrome := Dict.FromPairs(chromeRows);
    if chrome != map[] then chrome else Dict.FromPairs(firefoxRows)
  }

  /**
   * `get_browser_cookies`: one shared dictionary, filled row by row from Chrome and
   * returned at once when non-empty, then filled from Firefox.
   */
  method GetBrowserCookies(chromeRows: seq<Row>, firefoxRows: seq<Row>) returns (cookies: CookieJar)
    ensures cookies == BrowserCookies(chromeRows, firefoxRows)
    ensures chromeRows != [] ==> cookies == Dict.FromPairs(chromeRows)
    ensures chromeRows == [] ==> cookies == Dict.FromPairs(firefoxRows)
    ensures cookies == map[] <==> chromeRows == [] && firefoxRows == []
  {
    Dict.EmptyIffNoPairs(chromeRows);
    Dict.EmptyIffNoPairs(firefoxRows);
    cookies := map[];
    for i := 0 to |chromeRows|
      invariant cookies == Dict.FromPairs(chromeRows[..i])
    {
      var (name, value) := chromeRows[i];
      cookies := cookies[name := value];
      assert chromeRows[..i + 1][..i] == chromeRows[..i];
    }
    assert chromeRows[..|chromeRows|] == chromeRows;
    if cookies != map[] {
      return;
    }
    for i := 0 to |firefoxRows|
      invariant cookies == Dict.FromPairs(firefoxRows[..i])
    {
      var (name, value) := firefoxRows[i];
      cookies := cookies[name := value];
      assert firefoxRows[..i + 1][..i] == firefoxRows[..i];
    }
    assert firefoxRows[..|firefoxRows|] == firefoxRows;
  }

  /**
   * The fallback in `main`: the browser cookies when there are any, else the manual
   * table when it is not empty, else the program exits.
   */
  function ResolveCookies(browser: CookieJar, manual: CookieJar): (r: Result<CookieJar, Exit>)
    ensures r.Failure? <==> browser == map[] && manual == map[]
    ensures r.Success? ==> r.value != map[]
    ensures browser != map[] ==> r == Success(browser)
    ensures r.Success? && r.value != browser ==> browser == map[] && r.value == manual
  {
    if browser == map[] && manual != map[] then Success(manual)
    else if browser == map[] then Failure(NoCookiesFound)
    else Success(browser)
  }

  /**
   * The whole resolution in priority order: Chrome, then Firefox, then the manual
   * table, and an exit only when all three are empty.
   */
  lemma ResolutionOrder(chromeRows: seq<Row>, firefoxRows: seq<Row>, manual: CookieJar)
    ensures var r := ResolveCookies(BrowserCookies(chromeRows, firefoxRows), manual);
      if chromeRows != [] then r == Success(Dict.FromPairs(chromeRows))
      else if firefoxRows != [] then r == Success(Dict.FromPairs(firefoxRows))
      else if manual != map[] then r == Success(manual)
      else r == Failure(NoCookiesFound)
  {
    Dict.EmptyIffNoPairs(chromeRows);
    Dict.EmptyIffNoPairs(firefoxRows);
  }

  /** When Chrome has cookies, Firefox's rows make no difference. */
  lemma ChromeShortCircuits(chromeRows: seq<Row>, firefoxRows: seq<Row>, otherFirefoxRows: seq<Row>)
    requires chromeRows != []
    ensures BrowserCookies(chromeRows, firefoxRows) == BrowserCookies(chromeRows, otherFirefoxRows)
  {
    Dict.EmptyIffNoPairs(chromeRows);
  }

  /**
   * With the shipped placeholder table the exit is never taken: when no browser gives
   * cookies, the placeholders are sent.
   */
  lemma ShippedTableNeverExits(browser: CookieJar)
    ensures ResolveCookies(browser, ManualCookies).Success?
    ensures browser == map[] ==> ResolveCookies(browser, ManualCookies) == Success(ManualCookies)
  {
    assert "dsc" in ManualCookies;
  }
}
