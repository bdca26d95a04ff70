/**
 * The page scraper: it rejects an empty URL, fetches the page with a 30-second
 * client timeout, classifies transport failures as timeouts or network errors,
 * rejects a blank body, and takes the title and the content from the first
 * `title` and `body` elements with fixed fallbacks.
 *
 * Building the client, sending the GET and parsing the HTML are parameters:
 * `clientError` says whether building the client failed, `send` maps the request
 * to its outcome, and `parseDocument` maps the fetched text to the two element
 * texts the scraper reads.
 */
module RecipeScraper {
  import opened Wrappers
  import opened Text

  // ---------------------------------------------------------------------------
  // Errors

  datatype ScraperError =
    | NetworkError(detail: string)
    | InvalidUrl(message: string)
    | ParseError(message: string)
    | TimeoutError
    | EmptyContent

  /** The `Display` text of an error. */
  function Describe(e: ScraperError): string {
    match e
    case NetworkError(d) => "Network error: " + d
    case InvalidUrl(u) => "Invalid URL: " + u
    case ParseError(m) => "Parse error: " + m
    case TimeoutError => "Request timeout"
    case EmptyContent => "No content found"
  }

  // ---------------------------------------------------------------------------
  // Records

  datatype WebPage = WebPage(url: string, title: string, content: string, html: string)

  /**
   * A parsed document as far as the scraper looks at it: the concatenated text
   * of the first `title` element and of the first `body` element, when present.
   */
  datatype Document = Document(firstTitle: Option<string>, firstBody: Option<string>)

  /** A GET of `url` by a client configured with a timeout of `timeoutSeconds`. */
  datatype GetRequest = GetRequest(url: string, timeoutSeconds: nat)

  /**
   * A received response: its status code and the outcome of reading its body
   * as text (the error text when reading fails).
   */
  datatype PageResponse = PageResponse(status: nat, text: Result<string, string>)

  /** The outcome of sending the GET: a timeout, another transport failure, or a response. */
  datatype SendOutcome = TimedOut | Failed(detail: string) | Responded(response: PageResponse)

  const ClientTimeoutSeconds: nat := 30
  const EmptyUrlMessage: string := "URL cannot be empty"
  const NoTitle: string := "No title found"

  // ---------------------------------------------------------------------------
  // Operations

  /** `parse_response`: read the body, reject a blank one, and pick the title and the content. */
  function ParseResponse(resp: PageResponse, url: string, parseDocument: string -> Document)
    : (r: Result<WebPage, ScraperError>)
    ensures resp.text.Err? ==> r == Err(NetworkError(resp.text.error))
    ensures resp.text.Ok? && AllWhitespace(resp.text.value) ==> r == Err(EmptyContent)
    ensures r.Ok? <==> resp.text.Ok? && !AllWhitespace(resp.text.value)
    ensures r.Ok? ==>
      var doc := parseDocument(resp.text.value);
      && r.value.url == url
      && r.value.html == resp.text.value
      && (doc.firstTitle.Some? ==> r.value.title == doc.firstTitle.value)
      && (doc.firstTitle.None? ==> r.value.title == NoTitle)
      && (doc.firstBody.Some? ==> r.value.content == doc.firstBody.value)
      && (doc.firstBody.None? ==> r.value.content == resp.text.value)
  {
    match resp.text
    case Err(e) => Err(NetworkError(e))
    case Ok(html) =>
      TrimEmptyIff(html);
      if Trim(html) == [] then Err(EmptyContent)
      else
        var doc := parseDocument(html);
        Ok(WebPage(url, doc.firstTitle.GetOr(NoTitle), doc.firstBody.GetOr(html), html))
  }

  /** `scrape_webpage`: the URL guard, the client, the GET and the classification of its outcome. */
  function ScrapeWebpage(
    url: string,
    clientError: Option<string>,
    send: GetRequest -> SendOutcome,
    parseDocument: string -> Document)
    : (r: Result<WebPage, ScraperError>)
    ensures url == [] ==> r == Err(InvalidUrl(EmptyUrlMessage))
    ensures url != [] && clientError.Some? ==> r == Err(NetworkError(clientError.value))
    ensures url != [] && clientError.None? ==>
      match send(GetRequest(url, ClientTimeoutSeconds))
      case TimedOut => r == Err(TimeoutError)
      case Failed(d) => r == Err(NetworkError(d))
      case Responded(resp) => r == ParseResponse(resp, url, parseDocument)
  {
    if url == [] then Err(InvalidUrl(EmptyUrlMessage))
    else if clientError.Some? then Err(NetworkError(clientError.value))
    else
      match send(GetRequest(url, ClientTimeoutSeconds))
      case TimedOut => Err(TimeoutError)
      case Failed(d) => Err(NetworkError(d))
      case Responded(resp) => ParseResponse(resp, url, parseDocument)
  }

  /** `get_webpage_content`: the content of the scraped page, or the scraper's error as it is. */
  function GetWebpageContent(
    url: string,
    clientError: Option<string>,
    send: GetRequest -> SendOutcome,
    parseDocument: string -> Document)
    : (r: Result<string, ScraperError>)
    ensures var page := ScrapeWebpage(url, clientError, send, parseDocument);
      && (page.Ok? ==> r == Ok(page.value.content))
      && (page.Err? ==> r == Err(page.error))
  {
    match ScrapeWebpage(url, clientError, send, parseDocument)
    case Ok(page) => Ok(page.content)
    case Err(e) => Err(e)
  }
}
