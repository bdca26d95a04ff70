/** What the recipe extractor promises, stated over the definitions in `LlmUtils`. */
module LlmProperties {
  import opened Wrappers
  import opened Text
  import opened Json
  import opened LlmUtils

  // ---------------------------------------------------------------------------
  // Error texts

  /** Different errors never print the same text, so the text identifies the error. */
  lemma DescribeInjective(a: LlmError, b: LlmError)
    requires Describe(a) == Describe(b)
    ensures a == b
  {
    var da, db := Describe(a), Describe(b);
    match a
    case NetworkError(x) =>
      assert db[0] == 'N';
      assert b.NetworkError?;
      PrefixCancel("Network error: ", x, b.detail);
    case ApiError(x) =>
      assert db[0] == 'A';
      assert b.ApiError?;
      PrefixCancel("API error: ", x, b.message);
    case ParseError(x) =>
      assert db[0] == 'P';
      assert b.ParseError?;
      PrefixCancel("Parse error: ", x, b.message);
    case InvalidResponse =>
      assert db[0] == 'I';
  }

  // ---------------------------------------------------------------------------
  // Request

  /**
   * The request carries the fixed model, a system message then a user message
   * ending with the page text, and the API key as a bearer token.
   */
  lemma RequestShape(pageContent: string, apiKey: string)
    ensures var req := BuildHttpRequest(pageContent, apiKey);
      && req.url == Endpoint
      && req.body.model == "openai/gpt-4o"
      && |req.body.messages| == 2
      && req.body.messages[0] == ChatMessage("system", SystemInstruction)
      && req.body.messages[1].role == "user"
      && EndsWith(req.body.messages[1].content, pageContent)
      && HeaderValue(req.headers, "Content-Type") == Some("application/json")
      && HeaderValue(req.headers, "Authorization") == Some("Bearer " + apiKey)
  {
    var req := BuildHttpRequest(pageContent, apiKey);
    assert req.headers[1..] == [("Authorization", "Bearer " + apiKey)];
    assert "Authorization" != "Content-Type" by {
      assert "Authorization"[0] != "Content-Type"[0];
    }
  }

  /** The page text and the key can be read back from the request: different inputs give different requests. */
  lemma RequestDeterminesInputs(page1: string, key1: string, page2: string, key2: string)
    requires BuildHttpRequest(page1, key1) == BuildHttpRequest(page2, key2)
    ensures page1 == page2 && key1 == key2
  {
    var r1, r2 := BuildHttpRequest(page1, key1), BuildHttpRequest(page2, key2);
    assert r1.body.messages[1].content == r2.body.messages[1].content;
    PrefixCancel(PromptPreamble, page1, page2);
    assert r1.headers[1].1 == r2.headers[1].1;
    PrefixCancel("Bearer ", key1, key2);
  }

  // ---------------------------------------------------------------------------
  // Fence cleaning

  /** The text after an opening fence: a newline, the payload, a newline and the closing fence. */
  lemma StripFencesOfInner(p: string)
    requires Trimmed(p)
    ensures StripFences("\n" + p + "\n```") == "\n" + p + "\n"
    ensures Trim("\n" + p + "\n") == p
  {
    var body := "\n" + p + "\n";
    var inner := body + Fence;
    assert inner == "\n" + p + "\n```";
    assert inner[0] == '\n' && body[|body| - 1] == '\n';
    assert FenceJson[0] != inner[0] && Fence[0] != inner[0];
    assert TrimStartMatches(inner, FenceJson) == inner;
    assert TrimStartMatches(inner, Fence) == inner;
    assert inner[..|inner| - |Fence|] == body;
    assert Fence[2] != body[|body| - 1];
    assert TrimEndMatches(inner, Fence) == TrimEndMatches(body, Fence) == body;
    assert AllWhitespace("\n");
    TrimPadded("\n", p, "\n");
  }

  lemma CleanUnwrapsJsonFence(p: string)
    requires Trimmed(p)
    ensures CleanContent("```json\n" + p + "\n```") == p
  {
    var inner := "\n" + p + "\n```";
    var s := FenceJson + inner;
    assert s == "```json\n" + p + "\n```";
    assert s[0] == '`' && s[|s| - 1] == '`';
    TrimOfTrimmed(s);
    assert s[|FenceJson|..] == inner;
    assert FenceJson[0] != inner[0];
    assert TrimStartMatches(s, FenceJson) == TrimStartMatches(inner, FenceJson) == inner;
    StripFencesOfInner(p);
  }

  lemma CleanUnwrapsPlainFence(p: string)
    requires Trimmed(p)
    ensures CleanContent("```\n" + p + "\n```") == p
  {
    var inner := "\n" + p + "\n```";
    var s := Fence + inner;
    assert s == "```\n" + p + "\n```";
    assert s[0] == '`' && s[|s| - 1] == '`';
    TrimOfTrimmed(s);
    assert s[3] == '\n' && FenceJson[3] == 'j';
    assert TrimStartMatches(s, FenceJson) == s;
    assert s[|Fence|..] == inner;
    assert Fence[0] != inner[0];
    assert TrimStartMatches(s, Fence) == TrimStartMatches(inner, Fence) == inner;
    StripFencesOfInner(p);
  }

  /** A trimmed payload wrapped in a "```json" or a "```" fence comes back unchanged. */
  lemma CleanUnwrapsFence(p: string)
    requires Trimmed(p)
    ensures CleanContent("```json\n" + p + "\n```") == p
    ensures CleanContent("```\n" + p + "\n```") == p
  {
    CleanUnwrapsJsonFence(p);
    CleanUnwrapsPlainFence(p);
  }

  /** Repeated markers are all removed: two "```json" prefixes in a row both go. */
  lemma CleanStripsRepeatedMarkers()
    ensures CleanContent("```json```json{}") == "{}"
  {
    var s := "```json```json{}";
    assert s[0] == '`' && s[|s| - 1] == '}';
    TrimOfTrimmed(s);
    assert s[7..] == "```json{}" && "```json{}"[7..] == "{}";
    assert TrimStartMatches(s, FenceJson) == TrimStartMatches("```json{}", FenceJson);
    assert TrimStartMatches("```json{}", FenceJson) == TrimStartMatches("{}", FenceJson);
    assert TrimStartMatches("{}", FenceJson) == "{}";
    assert TrimStartMatches("{}", Fence) == "{}";
    assert TrimEndMatches("{}", Fence) == "{}";
    assert "{}"[0] == '{' && "{}"[1] == '}';
    TrimOfTrimmed("{}");
  }

  lemma SuffixIsSlice(r: string, s: string)
    requires |r| <= |s| && r == s[|s| - |r|..]
    ensures IsSlice(r, s)
  {
    assert r == s[|s| - |r|..|s|];
  }

  lemma PrefixIsSlice(r: string, s: string)
    requires |r| <= |s| && r == s[..|r|]
    ensures IsSlice(r, s)
  {
    assert r == s[0..|r|];
  }

  /** What the three strips leave is a contiguous piece of their input. */
  lemma StripFencesIsSlice(t: string)
    ensures IsSlice(StripFences(t), t)
  {
    var x2 := TrimStartMatches(TrimStartMatches(t, FenceJson), Fence);
    var x3 := TrimEndMatches(x2, Fence);
    LeadingStripsAreSlice(t);
    TrimEndMatchesPrefix(x2, Fence);
    PrefixIsSlice(x3, x2);
    SliceOfSlice(x3, x2, t);
  }

  lemma LeadingStripsAreSlice(t: string)
    ensures IsSlice(TrimStartMatches(TrimStartMatches(t, FenceJson), Fence), t)
  {
    var x1 := TrimStartMatches(t, FenceJson);
    var x2 := TrimStartMatches(x1, Fence);
    TrimStartMatchesSuffix(t, FenceJson);
    SuffixIsSlice(x1, t);
    TrimStartMatchesSuffix(x1, Fence);
    SuffixIsSlice(x2, x1);
    SliceOfSlice(x2, x1, t);
  }

  /** The cleaned text is a contiguous piece of the model's reply, with no whitespace at either end. */
  lemma CleanIsTrimmedSliceOfReply(reply: string)
    ensures IsSlice(CleanContent(reply), reply)
    ensures Trimmed(CleanContent(reply))
  {
    var t := Trim(reply);
    var x3 := StripFences(t);
    TrimIsSlice(reply);
    StripFencesIsSlice(t);
    SliceOfSlice(x3, t, reply);
    TrimIsSlice(x3);
    SliceOfSlice(Trim(x3), x3, reply);
    TrimIsTrimmed(x3);
  }

  /** A text that starts with "```json" starts with "```". */
  lemma JsonMarkerStartsWithFence(t: string)
    requires FenceJson <= t
    ensures Fence <= t
  {
    assert t[..3] == t[..7][..3] == Fence;
  }

  /** Stripping leaves a text alone when it neither starts nor ends with "```". */
  lemma StripFencesNoFence(t: string)
    requires !(Fence <= t) && !EndsWith(t, Fence)
    ensures StripFences(t) == t
  {
    if FenceJson <= t {
      JsonMarkerStartsWithFence(t);
    }
    assert TrimStartMatches(t, FenceJson) == t;
    assert TrimStartMatches(t, Fence) == t;
    assert TrimEndMatches(t, Fence) == t;
  }

  /** A leading "```" is always removed by the two leading strips. */
  lemma LeadingFenceRemoved(t: string)
    requires Fence <= t
    ensures |TrimStartMatches(TrimStartMatches(t, FenceJson), Fence)| < |t|
  {
    var x1 := TrimStartMatches(t, FenceJson);
    if FenceJson <= t {
      assert x1 == TrimStartMatches(t[7..], FenceJson);
      TrimStartMatchesSuffix(t[7..], FenceJson);
      TrimStartMatchesSuffix(x1, Fence);
    } else {
      assert x1 == t;
      assert TrimStartMatches(x1, Fence) == TrimStartMatches(t[3..], Fence);
      TrimStartMatchesSuffix(t[3..], Fence);
    }
  }

  /** Stripping shortens a text that starts or ends with "```". */
  lemma StripFencesShrinks(t: string)
    requires Fence <= t || EndsWith(t, Fence)
    ensures |StripFences(t)| < |t|
  {
    var x2 := TrimStartMatches(TrimStartMatches(t, FenceJson), Fence);
    TrimEndMatchesPrefix(x2, Fence);
    if Fence <= t {
      LeadingFenceRemoved(t);
    } else {
      StripFencesNoFenceAtStart(t);
      assert StripFences(t) == TrimEndMatches(t[..|t| - 3], Fence);
      TrimEndMatchesPrefix(t[..|t| - 3], Fence);
    }
  }

  /** The leading strips leave a text alone when it does not start with "```". */
  lemma StripFencesNoFenceAtStart(t: string)
    requires !(Fence <= t)
    ensures TrimStartMatches(TrimStartMatches(t, FenceJson), Fence) == t
  {
    if FenceJson <= t {
      JsonMarkerStartsWithFence(t);
    }
    assert TrimStartMatches(t, FenceJson) == t;
  }

  /** Cleaning is plain `trim` exactly when the trimmed reply neither starts nor ends with "```". */
  lemma CleanIsTrimIffNoFence(reply: string)
    ensures CleanContent(reply) == Trim(reply) <==>
      !(Fence <= Trim(reply)) && !EndsWith(Trim(reply), Fence)
  {
    var t := Trim(reply);
    if !(Fence <= t) && !EndsWith(t, Fence) {
      StripFencesNoFence(t);
      TrimIdempotent(reply);
    } else {
      StripFencesShrinks(t);
      TrimIsTrimmed(StripFences(t));
    }
  }

  /** Stripping the trailing run from a text that does not start with "```" leaves one that does not either. */
  lemma TrailingStripKeepsStart(x: string)
    requires !(Fence <= x)
    ensures !(Fence <= TrimEndMatches(x, Fence))
    ensures !EndsWith(TrimEndMatches(x, Fence), Fence)
  {
    var core := TrimEndMatches(x, Fence);
    TrimEndMatchesPrefix(x, Fence);
    assert |core| >= 3 ==> core[..3] == x[..3];
  }

  /** How many markers each of the three strips removes. */
  lemma MarkerRunCounts(t: string) returns (a: nat, b: nat, c: nat)
    ensures t == Repeat(FenceJson, a) + Repeat(Fence, b) + StripFences(t) + Repeat(Fence, c)
  {
    var x1 := TrimStartMatches(t, FenceJson);
    var x2 := TrimStartMatches(x1, Fence);
    var core := TrimEndMatches(x2, Fence);
    TrimStartMatchesRun(t, FenceJson);
    a :| t == Repeat(FenceJson, a) + x1;
    TrimStartMatchesRun(x1, Fence);
    b :| x1 == Repeat(Fence, b) + x2;
    TrimEndMatchesRun(x2, Fence);
    c :| x2 == core + Repeat(Fence, c);
    Regroup(t, x1, x2, core, Repeat(FenceJson, a), Repeat(Fence, b), Repeat(Fence, c));
  }

  lemma Regroup(t: string, x1: string, x2: string, core: string, ra: string, rb: string, rc: string)
    requires t == ra + x1 && x1 == rb + x2 && x2 == core + rc
    ensures t == ra + rb + core + rc
  {
    assert t == ra + (rb + (core + rc));
  }

  /**
   * The trimmed reply splits into a run of "```json", a run of "```", a core and
   * a run of "```"; the core neither starts nor ends with "```", and cleaning
   * gives the core's trim.
   */
  lemma CleanRemovesMarkerRuns(reply: string)
    ensures exists a: nat, b: nat, c: nat ::
      var core := StripFences(Trim(reply));
      && Trim(reply) == Repeat(FenceJson, a) + Repeat(Fence, b) + core + Repeat(Fence, c)
      && !(Fence <= core)
      && !EndsWith(core, Fence)
      && CleanContent(reply) == Trim(core)
  {
    var t := Trim(reply);
    var x1 := TrimStartMatches(t, FenceJson);
    TrimStartMatchesSuffix(x1, Fence);
    TrailingStripKeepsStart(TrimStartMatches(x1, Fence));
    var core := StripFences(t);
    var a, b, c := MarkerRunCounts(t);
    assert t == Repeat(FenceJson, a) + Repeat(Fence, b) + core + Repeat(Fence, c);
  }

  // ---------------------------------------------------------------------------
  // Ingredients

  /** The ingredient list of a concatenation is the concatenation of the lists: order is kept. */
  lemma {:induction false} TrimmedStringsAppend(xs: seq<Value>, ys: seq<Value>)
    ensures TrimmedStrings(xs + ys) == TrimmedStrings(xs) + TrimmedStrings(ys)
  {
    if xs == [] {
      assert xs + ys == ys;
    } else {
      var h := IngredientOf(xs[0]);
      calc {
        TrimmedStrings(xs + ys);
        { assert (xs + ys)[0] == xs[0] && (xs + ys)[1..] == xs[1..] + ys; }
        h + TrimmedStrings(xs[1..] + ys);
        { TrimmedStringsAppend(xs[1..], ys); }
        h + (TrimmedStrings(xs[1..]) + TrimmedStrings(ys));
        (h + TrimmedStrings(xs[1..])) + TrimmedStrings(ys);
        TrimmedStrings(xs) + TrimmedStrings(ys);
      }
    }
  }

  /** A single element contributes its trim if it is a string, and nothing otherwise. */
  lemma TrimmedStringsSingle(x: Value)
    ensures TrimmedStrings([x]) == if x.Str? then [Trim(x.s)] else []
  {
    assert [x][1..] == [];
    assert TrimmedStrings([x]) == IngredientOf(x) + TrimmedStrings([]);
  }

  /** There are never more ingredients than array elements. */
  lemma {:induction false} TrimmedStringsLength(items: seq<Value>)
    ensures |TrimmedStrings(items)| <= |items|
  {
    if items != [] {
      TrimmedStringsLength(items[1..]);
    }
  }

  /** Every ingredient is the trim of some string element of the array. */
  lemma {:induction false} TrimmedStringsSound(items: seq<Value>, t: string)
    requires t in TrimmedStrings(items)
    ensures exists i :: 0 <= i < |items| && items[i].Str? && t == Trim(items[i].s)
  {
    if items[0].Str? && t == Trim(items[0].s) {
    } else {
      assert t in TrimmedStrings(items[1..]);
      TrimmedStringsSound(items[1..], t);
      var i :| 0 <= i < |items[1..]| && items[1..][i].Str? && t == Trim(items[1..][i].s);
      assert items[i + 1] == items[1..][i];
    }
  }

  /** The trim of every string element is an ingredient, even when it is empty. */
  lemma {:induction false} TrimmedStringsComplete(items: seq<Value>, i: nat)
    requires i < |items| && items[i].Str?
    ensures Trim(items[i].s) in TrimmedStrings(items)
  {
    if i > 0 {
      assert items[1..][i - 1] == items[i];
      TrimmedStringsComplete(items[1..], i - 1);
    }
  }

  /** A whitespace-only string is kept, as the empty ingredient. */
  lemma BlankIngredientKept(items: seq<Value>, i: nat)
    requires i < |items| && items[i].Str? && AllWhitespace(items[i].s)
    ensures "" in TrimmedStrings(items)
  {
    TrimmedStringsComplete(items, i);
    TrimEmptyIff(items[i].s);
  }

  // ---------------------------------------------------------------------------
  // Optional fields

  /** The filter looks at the raw string: a blank value is kept as "" and a padded "null" is kept. */
  lemma GetStringFiltersBeforeTrim()
    ensures GetString(Obj(map["servings" := Str("   ")]), "servings") == Some("")
    ensures GetString(Obj(map["servings" := Str(" null ")]), "servings") == Some("null")
  {
    assert AllWhitespace("   ");
    TrimEmptyIff("   ");
    assert LowerAscii("   ") != "null" by {
      LowerAsciiNull("   ");
    }
    assert LowerAscii(" null ") != "null" by {
      LowerAsciiNull(" null ");
    }
    assert AllWhitespace(" ");
    TrimPadded(" ", "null", " ");
    assert " " + "null" + " " == " null ";
  }

  /** Any spelling of "null", whatever its case, makes the field absent. */
  lemma NullInAnyCaseDropped(v: Value, key: string)
    requires v.Obj? && key in v.fields && v.fields[key].Str?
    requires var s := v.fields[key].s;
      && |s| == 4
      && (s[0] == 'n' || s[0] == 'N')
      && (s[1] == 'u' || s[1] == 'U')
      && (s[2] == 'l' || s[2] == 'L')
      && (s[3] == 'l' || s[3] == 'L')
    ensures GetString(v, key) == None
  {
    LowerAsciiNull(v.fields[key].s);
  }

  /** The worked example: mixed ingredients, "null", "", a real value and JSON null. */
  const ExampleReply: Value := Obj(map[
    "ingredients" := Arr([Str("A"), Str(" B "), Num(5.0)]),
    "prep_time" := Str("null"),
    "cook_time" := Str(""),
    "total_time" := Str("10 min"),
    "servings" := Null])

  lemma ExampleTrims()
    ensures Trim("A") == "A" && Trim(" B ") == "B"
  {
    assert Trimmed("A");
    TrimOfTrimmed("A");
    assert AllWhitespace(" ");
    TrimPadded(" ", "B", " ");
    assert " " + "B" + " " == " B ";
  }

  lemma ExampleTrimmedStrings()
    ensures TrimmedStrings([Str("A"), Str(" B "), Num(5.0)]) == ["A", "B"]
  {
    var items := [Str("A"), Str(" B "), Num(5.0)];
    assert items == [Str("A")] + [Str(" B ")] + [Num(5.0)];
    TrimmedStringsAppend([Str("A")] + [Str(" B ")], [Num(5.0)]);
    TrimmedStringsAppend([Str("A")], [Str(" B ")]);
    TrimmedStringsSingle(Str("A"));
    TrimmedStringsSingle(Str(" B "));
    TrimmedStringsSingle(Num(5.0));
    ExampleTrims();
  }

  lemma ExampleIngredients()
    ensures Ingredients(ExampleReply) == ["A", "B"]
  {
    assert Index(ExampleReply, "ingredients") == Arr([Str("A"), Str(" B "), Num(5.0)]);
    ExampleTrimmedStrings();
  }

  lemma ExampleFields()
    ensures GetString(ExampleReply, "prep_time") == None
    ensures GetString(ExampleReply, "cook_time") == None
    ensures GetString(ExampleReply, "total_time") == Some("10 min")
    ensures GetString(ExampleReply, "servings") == None
  {
    assert ExampleReply.fields["prep_time"] == Str("null");
    assert ExampleReply.fields["cook_time"] == Str("");
    assert ExampleReply.fields["total_time"] == Str("10 min");
    assert ExampleReply.fields["servings"] == Null;
    assert LowerAscii("null") == "null";
    assert Trimmed("10 min");
    TrimOfTrimmed("10 min");
    assert LowerAscii("10 min")[0] == '1';
  }

  lemma NormalizeExample()
    ensures NormalizeRecipe(ExampleReply) == RecipeInfo(["A", "B"], None, None, Some("10 min"), None)
  {
    ExampleIngredients();
    ExampleFields();
  }

  // ---------------------------------------------------------------------------
  // Outcome classification

  /** A non-2xx status decides the outcome before any JSON is decoded: neither the envelope nor the parser matters. */
  lemma ErrorStatusSkipsParsing(
    resp: HttpResponse,
    envelope: Result<ChatResponse, string>,
    parse1: string -> Result<Value, string>,
    parse2: string -> Result<Value, string>)
    requires !IsSuccess(resp.status)
    ensures InterpretResponse(resp, parse1) == InterpretResponse(resp.(envelope := envelope), parse2)
    ensures InterpretResponse(resp, parse1).Err? && InterpretResponse(resp, parse1).error.ApiError?
  {
  }

  /** Only the first choice is consulted: the others can be anything. */
  lemma OnlyFirstChoiceUsed(
    resp: HttpResponse,
    first: ChatChoice,
    rest1: seq<ChatChoice>,
    rest2: seq<ChatChoice>,
    parseJson: string -> Result<Value, string>)
    ensures InterpretResponse(resp.(envelope := Ok(ChatResponse([first] + rest1))), parseJson)
      == InterpretResponse(resp.(envelope := Ok(ChatResponse([first] + rest2))), parseJson)
  {
  }

  /**
   * The inner JSON is parsed from the cleaned first choice; an object with the
   * expected keys becomes the recipe, and a JSON text that is not an object
   * still succeeds, with every field empty.
   */
  lemma NonObjectReplyGivesEmptyRecipe(resp: HttpResponse, parseJson: string -> Result<Value, string>)
    requires IsSuccess(resp.status) && resp.envelope.Ok? && resp.envelope.value.choices != []
    requires var cleaned := CleanContent(resp.envelope.value.choices[0].message.content);
      parseJson(cleaned).Ok? && !parseJson(cleaned).value.Obj?
    ensures InterpretResponse(resp, parseJson) == Ok(RecipeInfo([], None, None, None, None))
  {
  }

  /**
   * End to end: a fenced reply on a 200 response is cleaned, parsed and
   * normalised, whatever else the envelope holds.
   */
  lemma FencedReplyEndToEnd(
    pageContent: string,
    apiKey: string,
    payload: string,
    recipe: Value,
    send: HttpRequest -> Transport,
    parseJson: string -> Result<Value, string>)
    requires Trimmed(payload)
    requires send(BuildHttpRequest(pageContent, apiKey)).Received?
    requires var resp := send(BuildHttpRequest(pageContent, apiKey)).response;
      && resp.status == 200
      && resp.envelope.Ok?
      && resp.envelope.value.choices != []
      && resp.envelope.value.choices[0].message.content == "```json\n" + payload + "\n```"
    requires parseJson(payload) == Ok(recipe)
    ensures ExtractRecipeInfo(pageContent, apiKey, send, parseJson) == Ok(NormalizeRecipe(recipe))
  {
    CleanUnwrapsFence(payload);
  }
}
