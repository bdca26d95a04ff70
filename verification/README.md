# Recipe book API core, modelled in Dafny

The recipe book API turns a recipe web page into structured recipe data in two steps:

1. **The scraper** (`recipe_scraper.rs`) fetches the page and returns a `WebPage` with four fields: URL, title, text content and raw HTML.
   - It refuses an empty URL.
   - It classifies transport failures as timeouts or network errors.
   - It refuses a blank body.
   - It takes the title and the content from the first `title` and `body` elements. A missing title becomes the fixed text "No title found"; a missing body makes the content the raw HTML.
2. **The extractor** (`llm_utils.rs`) sends the page text to a chat-completion API in a fixed two-message prompt.
   - It classifies the reply: HTTP status, then JSON envelope, then choices.
   - It strips markdown code fences from the model's answer.
   - It normalises the answer's JSON into a `RecipeInfo`: trimmed ingredient strings, plus four optional fields. A field is dropped when its string is empty or spells "null".

Both pieces are pure decision logic around I/O. The I/O itself becomes parameters of the model's functions:

- `send` gives the outcome of an HTTP exchange.
- `parseJson` parses JSON text.
- `parseDocument` gives the two element texts the scraper reads.
- `clientError`, an optional error text rather than a function, says whether building the HTTP client failed.

Every guard, fallback, constant and error text of the source appears in the model as written.

## Files

- `wrappers.dfy`: `Option` and `Result`.
- `text.dfy`: Rust's `trim`, `trim_start_matches`, `trim_end_matches` and ASCII lower-casing on `seq<char>`, each with its specification as lemmas. Whitespace is the Unicode `White_Space` property, as Rust's `char::is_whitespace` uses it.
- `json.dfy`: the JSON value type and indexing by key (`value[key]`, which gives `Null` when the key is missing).
- `llm_utils.dfy`: the extractor.
- `llm_properties.dfy`: its properties.
- `recipe_scraper.dfy`: the scraper.
- `scraper_properties.dfy`: its properties.

### Behaviour worth knowing

- **Optional fields: filter before trim.** The code tests a field for "empty" and for "null" *before* it trims the string. So a whitespace-only value such as `"   "` is kept as `Some("")`, and `" null "` is kept as `Some("null")`; trimming before the test would drop both. `LlmProperties.GetStringFiltersBeforeTrim` states this.
- **Ingredients: blanks kept.** A blank ingredient string is kept as an empty ingredient, not dropped (`LlmProperties.BlankIngredientKept`).
- **Scraper: no status check.** The scraper never looks at the HTTP status. An error page with a non-blank body is scraped like any other page (`ScraperProperties.StatusIgnored`).

## Model

| member | source | states |
|---|---|---|
| LlmProperties.DescribeInjective | recipebook_api/src/llm_utils.rs:13-22 | Two extractor errors with the same `Display` text are the same error: each variant has its own fixed prefix or text. |
| LlmUtils.Prompt | recipebook_api/src/llm_utils.rs:67-88 | The user prompt starts with the fixed instruction text and ends with the page content. |
| LlmProperties.RequestShape | recipebook_api/src/llm_utils.rs:90-109 | The request goes to the OpenRouter endpoint with model "openai/gpt-4o". It has a system message, then a user message that ends with the page text. Content-Type is `application/json` and Authorization is `Bearer <key>`. |
| LlmProperties.RequestDeterminesInputs | recipebook_api/src/llm_utils.rs:90-109 | Equal requests come from equal page texts and keys. |
| LlmUtils.HeaderValue | recipebook_api/src/llm_utils.rs:107-108 | A header lookup finds a value exactly when some header has that name, and the value found is that of the first header with the name. |
| LlmUtils.ExtractRecipeInfo | recipebook_api/src/llm_utils.rs:104-111 | A transport failure of the request built from the inputs is a `NetworkError` carrying the failure. Success requires a received response with a 2xx status. |
| LlmUtils.InterpretResponse | recipebook_api/src/llm_utils.rs:113-170 | Outcomes are checked in this order:<br>1. A non-2xx status gives `ApiError("HTTP <status>: <body or empty>")`.<br>2. An envelope that does not decode gives `ParseError("Failed to parse JSON response: …")`.<br>3. No choices gives `InvalidResponse`.<br>4. A cleaned first choice that does not parse gives `ParseError("Failed to parse recipe JSON: …")`.<br>Success holds exactly when the first three checks pass and the cleaned first choice parses. A successful result is the normalised parse. |
| LlmProperties.ErrorStatusSkipsParsing | recipebook_api/src/llm_utils.rs:113-121 | On a non-2xx status the result is an `ApiError`. The envelope and the JSON parser do not affect it. |
| LlmProperties.OnlyFirstChoiceUsed | recipebook_api/src/llm_utils.rs:131-135 | Choices after the first never change the outcome. |
| LlmProperties.NonObjectReplyGivesEmptyRecipe | recipebook_api/src/llm_utils.rs:146-170 | If the inner JSON parses but is not an object, the result is still success, with no ingredients and every optional field absent. |
| LlmProperties.FencedReplyEndToEnd | recipebook_api/src/llm_utils.rs:104-170 | A 200 reply whose first choice is a json-fenced payload yields the normalised parse of the payload. |
| LlmProperties.StripFencesOfInner | recipebook_api/src/llm_utils.rs:140-143 | After the opening marker, only the closing "```" is stripped, and the final trim gives back a trimmed payload. |
| LlmProperties.CleanUnwrapsJsonFence | recipebook_api/src/llm_utils.rs:138-143 | Cleaning "```json\n" + p + "\n```" gives p for every trimmed p. |
| LlmProperties.CleanUnwrapsPlainFence | recipebook_api/src/llm_utils.rs:138-143 | Cleaning "```\n" + p + "\n```" gives p for every trimmed p. |
| LlmProperties.CleanUnwrapsFence | recipebook_api/src/llm_utils.rs:138-143 | Both fence forms unwrap to the trimmed payload. |
| LlmProperties.CleanStripsRepeatedMarkers | recipebook_api/src/llm_utils.rs:140 | Example: "```json```json{}" cleans to "{}", both leading markers removed. The general statement is `CleanRemovesMarkerRuns`. |
| LlmProperties.CleanIsTrimmedSliceOfReply | recipebook_api/src/llm_utils.rs:138-143 | The cleaned text is a contiguous piece of the reply and has no whitespace at either end. |
| LlmProperties.CleanIsTrimIffNoFence | recipebook_api/src/llm_utils.rs:138-143 | Cleaning equals a plain trim exactly when the trimmed reply neither starts nor ends with "```". |
| LlmProperties.TrailingStripKeepsStart | recipebook_api/src/llm_utils.rs:142 | Stripping trailing "```" from a text that does not start with "```" leaves one that neither starts nor ends with it. |
| LlmProperties.CleanRemovesMarkerRuns | recipebook_api/src/llm_utils.rs:138-143 | The trimmed reply is a run of "```json", then a run of "```", then a core, then a run of "```". The core neither starts nor ends with "```", and cleaning gives the core's trim. |
| Json.Index | recipebook_api/src/llm_utils.rs:149 | Indexing gives the member under a present key of an object, and `Null` otherwise. |
| LlmUtils.Ingredients | recipebook_api/src/llm_utils.rs:149-151 | If "ingredients" is missing or not an array, the list is empty. |
| LlmProperties.TrimmedStringsAppend | recipebook_api/src/llm_utils.rs:152-155 | The ingredient list of a concatenation is the concatenation of the lists, so array order is kept. |
| LlmProperties.TrimmedStringsSingle | recipebook_api/src/llm_utils.rs:153-154 | A string element contributes its trim; any other element contributes nothing. |
| LlmProperties.TrimmedStringsLength | recipebook_api/src/llm_utils.rs:149-155 | There are never more ingredients than array elements. |
| LlmProperties.TrimmedStringsSound | recipebook_api/src/llm_utils.rs:149-155 | Every ingredient is the trim of some string element. |
| LlmProperties.TrimmedStringsComplete | recipebook_api/src/llm_utils.rs:149-155 | The trim of every string element is an ingredient. |
| LlmProperties.BlankIngredientKept | recipebook_api/src/llm_utils.rs:153-154 | A whitespace-only element is kept as the empty ingredient. |
| LlmUtils.GetString | recipebook_api/src/llm_utils.rs:157-162 | A field is present exactly when the key holds a string that is non-empty and does not lower-case to "null". Its value is that string trimmed. |
| LlmProperties.GetStringFiltersBeforeTrim | recipebook_api/src/llm_utils.rs:160-161 | `"   "` gives `Some("")` and `" null "` gives `Some("null")`, because the filter runs before the trim. |
| LlmProperties.NullInAnyCaseDropped | recipebook_api/src/llm_utils.rs:160 | Any upper/lower-case spelling of "null" makes the field absent. |
| Text.LowerAsciiNull | recipebook_api/src/llm_utils.rs:160 | A string lower-cases to "null" exactly when it is one of the 16 case spellings of "null". |
| LlmUtils.NormalizeRecipe | recipebook_api/src/llm_utils.rs:149-170 | A reply that is not an object gives the empty recipe. |
| LlmProperties.ExampleIngredients | recipebook_api/src/llm_utils.rs:149-155 | `["A", " B ", 5]` gives the ingredients `["A", "B"]`. |
| LlmProperties.ExampleFields | recipebook_api/src/llm_utils.rs:157-169 | "null", "", JSON null and "10 min" give absent, absent, absent and `Some("10 min")`. |
| LlmProperties.NormalizeExample | recipebook_api/src/llm_utils.rs:149-170 | The whole worked example normalises to `RecipeInfo(["A","B"], None, None, Some("10 min"), None)`. |
| Text.TrimStartSpec | recipebook_api/src/llm_utils.rs:139 | `trim_start` drops exactly the leading whitespace: a suffix, with only whitespace removed, starting at a non-whitespace character. |
| Text.TrimEndSpec | recipebook_api/src/llm_utils.rs:143 | `trim_end` drops exactly the trailing whitespace. |
| Text.TrimIsTrimmed | recipebook_api/src/llm_utils.rs:143 | A trimmed string has no whitespace at either end and is no longer than its input. |
| Text.TrimEmptyIff | recipebook_api/src/recipe_scraper.rs:71 | `trim` gives "" exactly when the string is whitespace only. |
| Text.TrimIdempotent | recipebook_api/src/llm_utils.rs:143 | Trimming twice is trimming once. |
| Text.TrimStartMatchesSuffix | recipebook_api/src/llm_utils.rs:140-141 | `trim_start_matches` gives a suffix of its input that no longer starts with the pattern. |
| Text.TrimStartMatchesRun | recipebook_api/src/llm_utils.rs:140-141 | What `trim_start_matches` removes is a whole number of copies of the pattern. |
| Text.TrimEndMatchesPrefix | recipebook_api/src/llm_utils.rs:142 | `trim_end_matches` gives a prefix of its input that no longer ends with the pattern. |
| Text.TrimEndMatchesRun | recipebook_api/src/llm_utils.rs:142 | What `trim_end_matches` removes is a whole number of copies of the pattern. |
| ScraperProperties.DescribeInjective | recipebook_api/src/recipe_scraper.rs:14-23 | Two scraper errors with the same `Display` text are the same error. |
| RecipeScraper.ScrapeWebpage | recipebook_api/src/recipe_scraper.rs:42-63 | Outcomes:<br>- Empty URL: `InvalidUrl("URL cannot be empty")`.<br>- Client build failure: `NetworkError`.<br>- Otherwise a GET of the URL with a 30-second timeout: a timeout gives `TimeoutError`, another failure gives `NetworkError`, and a response goes to `ParseResponse`. |
| ScraperProperties.EmptyUrlRejected | recipebook_api/src/recipe_scraper.rs:43-45 | An empty URL gives `InvalidUrl("URL cannot be empty")` whatever the client, network and parser do. It prints as "Invalid URL: URL cannot be empty". |
| ScraperProperties.SendSeesUrlAndTimeout | recipebook_api/src/recipe_scraper.rs:47-52 | The outcome depends on the network only through the GET of the given URL with the 30-second timeout. |
| ScraperProperties.TransportErrorsClassified | recipebook_api/src/recipe_scraper.rs:54-62 | For a non-empty URL every error is a timeout, an empty-content error or a network error. The result is `TimeoutError` exactly when the client was built and the GET timed out. |
| ScraperProperties.NoParseError | recipebook_api/src/recipe_scraper.rs:77-78 | The scraper never returns `ParseError`, because the literal selectors always parse. |
| RecipeScraper.ParseResponse | recipebook_api/src/recipe_scraper.rs:65-99 | Outcomes:<br>- Unreadable body: `NetworkError`.<br>- Whitespace-only body: `EmptyContent`.<br>- Otherwise success. The page keeps the URL and the raw text. The title is the first title's text, or "No title found". The content is the first body's text, or the raw text. |
| ScraperProperties.StatusIgnored | recipebook_api/src/recipe_scraper.rs:65-99 | The status code never changes the outcome. |
| ScraperProperties.BlankBodySkipsParsing | recipebook_api/src/recipe_scraper.rs:71-73 | For a whitespace-only body the HTML parser cannot change the outcome: any two parsers give the same result. |
| ScraperProperties.EmptyContentIffBlank | recipebook_api/src/recipe_scraper.rs:71-73 | A readable body is refused as empty exactly when its trim is "". |
| ScraperProperties.ScrapedPageKeepsInputs | recipebook_api/src/recipe_scraper.rs:93-98 | A successful scrape had a non-empty URL, a built client and a readable response. Its URL and HTML are the inputs unchanged, and its HTML is not blank. |
| ScraperProperties.TitleFallback | recipebook_api/src/recipe_scraper.rs:79-83 | The title is "No title found" exactly when there is no title element or the first one has that very text. |
| ScraperProperties.ContentFallback | recipebook_api/src/recipe_scraper.rs:87-91 | Without a body element the content is the raw text, which is not blank. |
| RecipeScraper.GetWebpageContent | recipebook_api/src/recipe_scraper.rs:101-104 | On success the result is the page content. An error is passed on unchanged. |
| ScraperProperties.ContentIsBodyOrPage | recipebook_api/src/recipe_scraper.rs:87-104 | Fetched content is the text of the first `body` element of the received page, or, without one, the whole non-blank text the GET received. |
| ScraperProperties.EmptyUrlContentIsError | recipebook_api/src/recipe_scraper.rs:116-120 | Fetching the content of "" is the empty-URL error. |
| ScraperProperties.ScrapeExample | recipebook_api/src/recipe_scraper.rs:42-99 | A page with a title and a body scrapes to those texts, with the URL and the raw HTML kept. |

## Left out

- HTTP transport is not modelled: the `reqwest` clients, `send`, `text()`, `json()`, and the 30-second timer itself. It is foreign I/O. Sending is the parameter `send`, and a failure to build the scraper's client is the parameter `clientError`.
- The extractor's response body is modelled as two fields: `text`, the body read as text for the error message, and `envelope`, the body decoded as a chat response. In the source the body can be read only once, and only one of the two reads happens on any path.
- `reqwest::Error` and the `Display` text of a status code are modelled as opaque strings (`detail`, `statusText`).
- JSON text parsing (`serde_json::from_str`, `response.json()`) is the parameter `parseJson`. The decoding of the chat envelope is the `envelope` field of the response.
- HTML parsing and CSS selection (`Html::parse_document`, `Selector::parse`, `select`, `text().collect()`) are the parameter `parseDocument`. It gives the texts of the first `title` and first `body` elements.
- The `Selector::parse` error paths cannot be reached with the literal selectors "title" and "body", so the model has none. `NoParseError` states the consequence.
- `LowerAscii`: lower-casing is modelled over ASCII only, where Rust's `to_lowercase` is full Unicode. The only test made on the result is equality with "null". Only `n`/`N`, `u`/`U` and `l`/`L` lower-case to those letters, so no input changes verdict.
- Logging with `println!`, async scheduling, and serde's serialisation of the request body are not modelled. The request is modelled as the record it serialises.
- The two `main.rs` programs (environment loading, console output, calling scrape then extract) are not part of this model. They are orchestration over I/O.
- `LlmUtils.Describe` and `RecipeScraper.Describe` carry no contract of their own. What they promise, distinct texts per error, is stated by the `DescribeInjective` lemmas.
