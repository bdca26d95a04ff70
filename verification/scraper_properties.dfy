/** What the page scraper promises, stated over the definitions in `RecipeScraper`. */
module ScraperProperties {
  import opened Wrappers
  import opened Text
  import opened RecipeScraper

  // ---------------------------------------------------------------------------
  // Error texts

  /** Different errors never print the same text, so the text identifies the error. */
  lemma DescribeInjective(a: ScraperError, b: ScraperError)
    requires Describe(a) == Describe(b)
    ensures a == b
  {
    var db := Describe(b);
    match a
    case NetworkError(x) =>
      assert db[0] == 'N' && db[1] == 'e';
      assert b.NetworkError?;
      PrefixCancel("Network error: ", x, b.detail);
    case InvalidUrl(x) =>
      assert db[0] == 'I';
      assert b.InvalidUrl?;
      PrefixCancel("Invalid URL: ", x, b.message);
    case ParseError(x) =>
      assert db[0] == 'P';
      assert b.ParseError?;
      PrefixCancel("Parse error: ", x, b.message);
    case TimeoutError =>
      assert db[0] == 'R';
    case EmptyContent =>
      assert db[0] == 'N' && db[1] == 'o';
      assert |db| == 16;
  }

  // ---------------------------------------------------------------------------
  // The URL guard

  /**
   * An empty URL is refused before anything else happens: whatever the client,
   * the network and the parser would do, the result is the same error, and it
   * prints as "Invalid URL: URL cannot be empty".
   */
  lemma EmptyUrlRejected(
    clientError: Option<string>,
    send: GetRequest -> SendOutcome,
    parseDocument: string -> Document)
    ensures ScrapeWebpage("", clientError, send, parseDocument) == Err(InvalidUrl("URL cannot be empty"))
    ensures Describe(ScrapeWebpage("", clientError, send, parseDocument).error)
      == "Invalid URL: URL cannot be empty"
  {
  }

  /** Fetching the content of the empty URL is an error, the same one. */
  lemma EmptyUrlContentIsError(
    clientError: Option<string>,
    send: GetRequest -> SendOutcome,
    parseDocument: string -> Document)
    ensures GetWebpageContent("", clientError, send, parseDocument) == Err(InvalidUrl(EmptyUrlMessage))
  {
  }

  // ---------------------------------------------------------------------------
  // Transport classification

  /** Only a non-empty URL is sent, and it is sent as given with the 30-second timeout. */
  lemma SendSeesUrlAndTimeout(
    url: string,
    send1: GetRequest -> SendOutcome,
    send2: GetRequest -> SendOutcome,
    parseDocument: string -> Document)
    requires send1(GetRequest(url, ClientTimeoutSeconds)) == send2(GetRequest(url, ClientTimeoutSeconds))
    ensures ScrapeWebpage(url, None, send1, parseDocument) == ScrapeWebpage(url, None, send2, parseDocument)
  {
  }

  /** Every failure of the exchange is a timeout or a network error; a response always goes on to be read. */
  lemma TransportErrorsClassified(
    url: string,
    clientError: Option<string>,
    send: GetRequest -> SendOutcome,
    parseDocument: string -> Document)
    requires url != []
    ensures var r := ScrapeWebpage(url, clientError, send, parseDocument);
      r.Err? ==> r.error in {TimeoutError, EmptyContent} || r.error.NetworkError?
    ensures var r := ScrapeWebpage(url, clientError, send, parseDocument);
      r.Err? && r.error == TimeoutError <==>
        clientError.None? && send(GetRequest(url, ClientTimeoutSeconds)).TimedOut?
  {
  }

  /** The selector errors cannot occur: no outcome of the scraper is a `ParseError`. */
  lemma NoParseError(
    url: string,
    clientError: Option<string>,
    send: GetRequest -> SendOutcome,
    parseDocument: string -> Document)
    ensures var r := ScrapeWebpage(url, clientError, send, parseDocument);
      !(r.Err? && r.error.ParseError?)
  {
  }

  // ---------------------------------------------------------------------------
  // Reading the page

  /** The status code is not inspected: an error page with a body is scraped like any other. */
  lemma StatusIgnored(resp: PageResponse, status: nat, url: string, parseDocument: string -> Document)
    ensures ParseResponse(resp.(status := status), url, parseDocument) == ParseResponse(resp, url, parseDocument)
  {
  }

  /** A blank body is refused before the document is parsed: the parser cannot change the outcome. */
  lemma BlankBodySkipsParsing(
    resp: PageResponse,
    url: string,
    parse1: string -> Document,
    parse2: string -> Document)
    requires resp.text.Ok? && AllWhitespace(resp.text.value)
    ensures ParseResponse(resp, url, parse1) == ParseResponse(resp, url, parse2)
  {
  }

  /** A page is refused as empty exactly when its text is whitespace, "" included. */
  lemma EmptyContentIffBlank(resp: PageResponse, url: string, parseDocument: string -> Document)
    requires resp.text.Ok?
    ensures ParseResponse(resp, url, parseDocument) == Err(EmptyContent) <==> Trim(resp.text.value) == []
  {
    TrimEmptyIff(resp.text.value);
  }

  /**
   * A scraped page keeps the URL it was asked for and the text it received,
   * and that text is never blank.
   */
  lemma ScrapedPageKeepsInputs(
    url: string,
    clientError: Option<string>,
    send: GetRequest -> SendOutcome,
    parseDocument: string -> Document)
    requires ScrapeWebpage(url, clientError, send, parseDocument).Ok?
    ensures var page := ScrapeWebpage(url, clientError, send, parseDocument).value;
      var outcome := send(GetRequest(url, ClientTimeoutSeconds));
      && url != []
      && clientError.None?
      && outcome.Responded? && outcome.response.text.Ok?
      && page.url == url
      && page.html == outcome.response.text.value
      && !AllWhitespace(page.html)
  {
  }

  /**
   * The title reads "No title found" exactly when the document has no `title`
   * element or its first one holds that very text.
   */
  lemma TitleFallback(resp: PageResponse, url: string, parseDocument: string -> Document)
    requires ParseResponse(resp, url, parseDocument).Ok?
    ensures var page := ParseResponse(resp, url, parseDocument).value;
      var doc := parseDocument(resp.text.value);
      page.title == NoTitle <==> doc.firstTitle == None || doc.firstTitle == Some(NoTitle)
  {
  }

  /**
   * Without a `body` element the content is the whole text received, so the
   * content is never blank in that case.
   */
  lemma ContentFallback(resp: PageResponse, url: string, parseDocument: string -> Document)
    requires ParseResponse(resp, url, parseDocument).Ok?
    requires parseDocument(resp.text.value).firstBody.None?
    ensures ParseResponse(resp, url, parseDocument).value.content == resp.text.value
    ensures !AllWhitespace(ParseResponse(resp, url, parseDocument).value.content)
  {
  }

  /**
   * Fetched content is the text of the page's first `body` element, or, when
   * there is none, the whole non-blank text the GET of the URL received.
   */
  lemma ContentIsBodyOrPage(
    url: string,
    clientError: Option<string>,
    send: GetRequest -> SendOutcome,
    parseDocument: string -> Document)
    requires GetWebpageContent(url, clientError, send, parseDocument).Ok?
    ensures var content := GetWebpageContent(url, clientError, send, parseDocument).value;
      var outcome := send(GetRequest(url, ClientTimeoutSeconds));
      && outcome.Responded? && outcome.response.text.Ok?
      && var html := outcome.response.text.value;
      && (parseDocument(html).firstBody.Some? ==> content == parseDocument(html).firstBody.value)
      && (parseDocument(html).firstBody.None? ==> content == html && !AllWhitespace(content))
  {
  }

  /** A concrete page: a title and a body are found, and the content is the body text. */
  lemma ScrapeExample()
    ensures ScrapeWebpage(
        "https://example.org/soup",
        None,
        (req: GetRequest) => Responded(PageResponse(200, Ok("<title>Soup</title><body>Boil</body>"))),
        (html: string) => Document(Some("Soup"), Some("Boil")))
      == Ok(WebPage("https://example.org/soup", "Soup", "Boil", "<title>Soup</title><body>Boil</body>"))
  {
    var html := "<title>Soup</title><body>Boil</body>";
    assert !IsWhitespace(html[0]);
  }
}
