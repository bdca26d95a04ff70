/**
 * The recipe extractor: it builds a two-message chat request around the page
 * text, classifies the chat-completion reply (status, envelope, choices), strips
 * markdown code fences from the model's answer and normalises the answer's JSON
 * into a `RecipeInfo`.
 *
 * The HTTP exchange is a parameter `send` from the request to its transport
 * outcome, and JSON text parsing is a parameter `parseJson` from text to a
 * parsed `Value` or an error message.
 */
module LlmUtils {
  import opened Wrappers
  import opened Text
  import opened Json

  // ---------------------------------------------------------------------------
  // Errors

  datatype LlmError =
    | NetworkError(detail: string)
    | ApiError(message: string)
    | ParseError(message: string)
    | InvalidResponse

  /** The `Display` text of an error. */
  function Describe(e: LlmError): string {
    match e
    case NetworkError(d) => "Network error: " + d
    case ApiError(m) => "API error: " + m
    case ParseError(m) => "Parse error: " + m
    case InvalidResponse => "Invalid response from API"
  }

  // ---------------------------------------------------------------------------
  // Wire records

  datatype ChatMessage = ChatMessage(role: string, content: string)
  datatype ChatRequest = ChatRequest(model: string, messages: seq<ChatMessage>)
  datatype ChatChoice = ChatChoice(message: ChatMessage)
  datatype ChatResponse = ChatResponse(choices: seq<ChatChoice>)

  /** A POST to the chat-completion endpoint, with its headers in the order they are set. */
  datatype HttpRequest = HttpRequest(url: string, headers: seq<(string, string)>, body: ChatRequest)

  /**
   * A received HTTP response. `statusText` is the status code's `Display` form,
   * `text` the body read as text (None when reading it failed), and `envelope`
   * the outcome of reading the body and decoding it as a `ChatResponse`.
   */
  datatype HttpResponse = HttpResponse(
    status: nat,
    statusText: string,
    text: Option<string>,
    envelope: Result<ChatResponse, string>)

  /** The outcome of sending a request: a transport failure or a response. */
  datatype Transport = SendFailed(detail: string) | Received(response: HttpResponse)

  datatype RecipeInfo = RecipeInfo(
    ingredients: seq<string>,
    prepTime: Option<string>,
    cookTime: Option<string>,
    totalTime: Option<string>,
    servings: Option<string>)

  // ---------------------------------------------------------------------------
  // Request construction

  const ModelName: string := "openai/gpt-4o"
  const Endpoint: string := "https://openrouter.ai/api/v1/chat/completions"
  const SystemInstruction: string :=
    "You are a helpful assistant that extracts recipe information from web content. "
    + "Always return valid JSON without markdown code blocks or formatting."

  /** The fixed text in front of the page content in the user message, indentation included. */
  const PromptPreamble: string :=
    "Please analyze this recipe content and extract the following information in a structured format:\n"
    + "        \n"
    + "        1. Ingredients list (clean, human-readable format)\n"
    + "        2. Preparation time\n"
    + "        3. Cooking time  \n"
    + "        4. Total time\n"
    + "        5. Number of servings\n"
    + "        \n"
    + "        Return the information in this exact JSON format:\n"
    + "        {\n"
    + "            \"ingredients\": [\"ingredient 1\", \"ingredient 2\", ...],\n"
    + "            \"prep_time\": \"time or null\",\n"
    + "            \"cook_time\": \"time or null\", \n"
    + "            \"total_time\": \"time or null\",\n"
    + "            \"servings\": \"servings or null\"\n"
    + "        }\n"
    + "        \n"
    + "        Recipe content:\n"
    + "        "

  function Prompt(pageContent: string): (r: string)
    ensures EndsWith(r, pageContent)
    ensures PromptPreamble <= r
  {
    PromptPreamble + pageContent
  }

  function BuildRequest(pageContent: string): ChatRequest {
    ChatRequest(ModelName, [
      ChatMessage("system", SystemInstruction),
      ChatMessage("user", Prompt(pageContent))
    ])
  }

  function BuildHttpRequest(pageContent: string, apiKey: string): HttpRequest {
    HttpRequest(
      Endpoint,
      [("Content-Type", "application/json"), ("Authorization", "Bearer " + apiKey)],
      BuildRequest(pageContent))
  }

  /** The value of the first header called `name`, if there is one. */
  function HeaderValue(headers: seq<(string, string)>, name: string): (r: Option<string>)
    ensures r.Some? <==> exists i :: 0 <= i < |headers| && headers[i].0 == name
    ensures r.Some? ==> exists i ::
      && 0 <= i < |headers|
      && headers[i] == (name, r.value)
      && forall j :: 0 <= j < i ==> headers[j].0 != name
  {
    if headers == [] then None
    else if headers[0].0 == name then Some(headers[0].1)
    else HeaderValue(headers[1..], name)
  }

  // ---------------------------------------------------------------------------
  // Reply cleaning

  const FenceJson: string := "```json"
  const Fence: string := "```"

  /** Drop every leading "```json", then every leading "```", then every trailing "```". */
  function StripFences(t: string): string {
    TrimEndMatches(TrimStartMatches(TrimStartMatches(t, FenceJson), Fence), Fence)
  }

  /** The reply text as it goes to the JSON parser: trimmed, fences stripped, trimmed again. */
  function CleanContent(content: string): string {
    Trim(StripFences(Trim(content)))
  }

  // ---------------------------------------------------------------------------
  // Field normalisation

  /** What one array element contributes: its trim if it is a string, nothing otherwise. */
  function IngredientOf(item: Value): seq<string> {
    if item.Str? then [Trim(item.s)] else []
  }

  /** The trimmed string elements of an array, in order. */
  function TrimmedStrings(items: seq<Value>): seq<string> {
    if items == [] then [] else IngredientOf(items[0]) + TrimmedStrings(items[1..])
  }

  /** The `ingredients` list: the trimmed strings of the array under "ingredients", or none. */
  function Ingredients(v: Value): (r: seq<string>)
    ensures !Index(v, "ingredients").Arr? ==> r == []
  {
    match Index(v, "ingredients")
    case Arr(items) => TrimmedStrings(items)
    case _ => []
  }

  /** The raw string is dropped when it is empty or lower-cases to "null"; the test comes before the trim. */
  predicate KeepsField(raw: string) {
    raw != [] && LowerAscii(raw) != "null"
  }

  /** The optional field under `key`. */
  function GetString(v: Value, key: string): (r: Option<string>)
    ensures r.Some? <==>
      v.Obj? && key in v.fields && v.fields[key].Str? && KeepsField(v.fields[key].s)
    ensures r.Some? ==> r.value == Trim(v.fields[key].s)
  {
    match Index(v, key)
    case Str(raw) => if KeepsField(raw) then Some(Trim(raw)) else None
    case _ => None
  }

  function NormalizeRecipe(v: Value): (r: RecipeInfo)
    ensures !v.Obj? ==> r == RecipeInfo([], None, None, None, None)
  {
    RecipeInfo(
      Ingredients(v),
      GetString(v, "prep_time"),
      GetString(v, "cook_time"),
      GetString(v, "total_time"),
      GetString(v, "servings"))
  }

  // ---------------------------------------------------------------------------
  // Outcome classification

  /** `StatusCode::is_success`: a 2xx status. */
  predicate IsSuccess(status: nat) {
    200 <= status <= 299
  }

  /** Everything after the response has arrived. */
  function InterpretResponse(resp: HttpResponse, parseJson: string -> Result<Value, string>)
    : (r: Result<RecipeInfo, LlmError>)
    ensures !IsSuccess(resp.status) ==>
      r == Err(ApiError("HTTP " + resp.statusText + ": " + resp.text.GetOr("")))
    ensures IsSuccess(resp.status) && resp.envelope.Err? ==>
      r == Err(ParseError("Failed to parse JSON response: " + resp.envelope.error))
    ensures IsSuccess(resp.status) && resp.envelope.Ok? && resp.envelope.value.choices == [] ==>
      r == Err(InvalidResponse)
    ensures r.Ok? <==>
      && IsSuccess(resp.status)
      && resp.envelope.Ok?
      && resp.envelope.value.choices != []
      && parseJson(CleanContent(resp.envelope.value.choices[0].message.content)).Ok?
    ensures r.Ok? ==>
      r.value == NormalizeRecipe(parseJson(CleanContent(resp.envelope.value.choices[0].message.content)).value)
    ensures IsSuccess(resp.status) && resp.envelope.Ok? && resp.envelope.value.choices != [] ==>
      var parsed := parseJson(CleanContent(resp.envelope.value.choices[0].message.content));
      parsed.Err? ==> r == Err(ParseError("Failed to parse recipe JSON: " + parsed.error))
  {
    if !IsSuccess(resp.status) then
      Err(ApiError("HTTP " + resp.statusText + ": " + resp.text.GetOr("")))
    else
      match resp.envelope
      case Err(e) => Err(ParseError("Failed to parse JSON response: " + e))
      case Ok(chat) =>
        if chat.choices == [] then Err(InvalidResponse)
        else
          var cleaned := CleanContent(chat.choices[0].message.content);
          match parseJson(cleaned)
          case Err(e) => Err(ParseError("Failed to parse recipe JSON: " + e))
          case Ok(data) => Ok(NormalizeRecipe(data))
  }

  /** `extract_recipe_info`: build the request, send it, interpret what comes back. */
  function ExtractRecipeInfo(
    pageContent: string,
    apiKey: string,
    send: HttpRequest -> Transport,
    parseJson: string -> Result<Value, string>)
    : (r: Result<RecipeInfo, LlmError>)
    ensures var outcome := send(BuildHttpRequest(pageContent, apiKey));
      && (outcome.SendFailed? ==> r == Err(NetworkError(outcome.detail)))
      && (r.Ok? ==> outcome.Received? && IsSuccess(outcome.response.status))
  {
    match send(BuildHttpRequest(pageContent, apiKey))
    case SendFailed(d) => Err(NetworkError(d))
    case Received(resp) => InterpretResponse(resp, parseJson)
  }
}
