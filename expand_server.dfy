/** The galaxy-codex backend: a cache from topic to generated data, loaded from
    a file at start-up, and the `/api/expand` handler that answers from the
    cache or generates, cleans, parses and stores a new answer.

    The language model, the file system and `JSON.parse` are not modelled:
    their results are parameters. */
module ExpandServer {
  import opened Values
  import opened Text

  /** A value that `JSON.parse` can produce. */
  datatype Json =
    | JNull
    | JBool(b: bool)
    | JNumber(n: real)
    | JString(s: string)
    | JArray(items: seq<Json>)
    | JObject(members: seq<(string, Json)>)

  /** JavaScript truthiness of a parsed value: `null`, `false`, `0` and `""`
      are falsy; arrays and objects are truthy even when empty. */
  function IsTruthy(j: Json): (r: bool)
    ensures j.JArray? || j.JObject? ==> r
    ensures j.JNull? ==> !r
    ensures j.JString? ==> (r <==> |j.s| > 0)
  {
    match j
    case JNull => false
    case JBool(b) => b
    case JNumber(n) => n != 0.0
    case JString(s) => s != ""
    case JArray(_) => true
    case JObject(_) => true
  }

  /** What the language model returned: its text, or the error it threw. */
  datatype Generation = Generated(text: string) | GenerationFailed(message: string)

  /** What `JSON.parse` made of a text. */
  datatype Parsed = ParsedJson(value: Json) | SyntaxError(message: string)

  datatype Body = Data(value: Json) | ErrorBody(error: string, details: Option<string>)

  datatype Response = Response(status: int, body: Body)

  /** The response and the cache after one request. */
  datatype Outcome = Outcome(response: Response, cache: map<string, Json>)

  const JsonFence := "```json"

  /** The handler's clean-up of the model's reply: delete every "```json",
      then every "```", then trim. */
  function CleanText(text: string): (r: string)
    ensures |r| <= |text|
    ensures r == [] || (!IsSpace(r[0]) && !IsSpace(r[|r| - 1]))
  {
    Trim(RemoveAll(RemoveAll(text, JsonFence), Fence))
  }

  /** The `/api/expand` handler on a cache, a `topic` query parameter (`None`
      when absent), the model's result and the JSON parser. */
  function HandleExpand(cache: map<string, Json>, topic: Option<string>, generation: Generation,
                        parse: string -> Parsed): (r: Outcome)
    ensures r.response.status == 200 || r.response.status == 400 || r.response.status == 500
    ensures r.response.status == 200 <==> r.response.body.Data?
    ensures r.response.status != 200 ==> r.cache == cache
    ensures r.response.status == 400 <==> topic.None? || topic.value == ""
  {
    if topic.None? || topic.value == "" then
      Outcome(Response(400, ErrorBody("Topic is required", None)), cache)
    else if topic.value in cache && IsTruthy(cache[topic.value]) then
      Outcome(Response(200, Data(cache[topic.value])), cache)
    else match generation
      case GenerationFailed(message) =>
        Outcome(Response(500, ErrorBody("Failed to generate content", Some(message))), cache)
      case Generated(text) =>
        match parse(CleanText(text))
        case SyntaxError(message) =>
          Outcome(Response(500, ErrorBody("Failed to generate content", Some(message))), cache)
        case ParsedJson(data) =>
          Outcome(Response(200, Data(data)), cache[topic.value := data])
  }

  /** The server's module-level state. */
  class Server {
    var cache: map<string, Json>

    constructor ()
      ensures cache == map[]
    {
      cache := map[];
    }

    /** Replaces the cache by the parsed file, or by an empty cache when the
        file cannot be read (`None`) or parsed. */
    method LoadCache(file: Option<string>, parseCache: string -> Option<map<string, Json>>)
      modifies this
      ensures file.Some? && parseCache(file.value).Some? ==> cache == parseCache(file.value).value
      ensures file.None? || parseCache(file.value).None? ==> cache == map[]
    {
      if file.None? {
        cache := map[];
        return;
      }
      var parsed := parseCache(file.value);
      if parsed.None? {
        cache := map[];
      } else {
        cache := parsed.value;
      }
    }

    method Expand(topic: Option<string>, generation: Generation, parse: string -> Parsed)
      returns (response: Response)
      modifies this
      ensures Outcome(response, cache) == HandleExpand(old(cache), topic, generation, parse)
    {
      if topic.None? || topic.value == "" {
        return Response(400, ErrorBody("Topic is required", None));
      }
      var t := topic.value;
      if t in cache && IsTruthy(cache[t]) {
        return Response(200, Data(cache[t]));
      }
      if generation.GenerationFailed? {
        return Response(500, ErrorBody("Failed to generate content", Some(generation.message)));
      }
      var cleanText := CleanText(generation.text);
      var parsed := parse(cleanText);
      if parsed.SyntaxError? {
        return Response(500, ErrorBody("Failed to generate content", Some(parsed.message)));
      }
      var data := parsed.value;
      cache := cache[t := data];
      response := Response(200, Data(data));
    }
  }

  // ---------------------------------------------------------------------------
  // Properties of the handler

  /** A missing or empty topic is answered with 400 before the cache, the model
      or the parser is consulted: the answer is the same whatever they hold,
      and the cache is not changed. */
  lemma MissingTopicRejected(c1: map<string, Json>, c2: map<string, Json>, topic: Option<string>,
                             g1: Generation, g2: Generation, p1: string -> Parsed, p2: string -> Parsed)
    requires topic.None? || topic.value == ""
    ensures HandleExpand(c1, topic, g1, p1).response == HandleExpand(c2, topic, g2, p2).response
    ensures HandleExpand(c1, topic, g1, p1).response.status == 400
    ensures HandleExpand(c1, topic, g1, p1).cache == c1
  {
  }

  /** A truthy cache entry is returned as stored, without generating, and the
      cache is not changed. */
  lemma CacheHitServesStored(cache: map<string, Json>, topic: string, g1: Generation, g2: Generation,
                             p1: string -> Parsed, p2: string -> Parsed)
    requires topic != "" && topic in cache && IsTruthy(cache[topic])
    ensures HandleExpand(cache, Some(topic), g1, p1) == HandleExpand(cache, Some(topic), g2, p2)
    ensures HandleExpand(cache, Some(topic), g1, p1) == Outcome(Response(200, Data(cache[topic])), cache)
  {
  }

  /** A parsed answer is stored under the topic, every other entry is kept,
      and the answer is returned. */
  lemma GeneratedAnswerStored(cache: map<string, Json>, topic: string, text: string, parse: string -> Parsed)
    requires topic != "" && !(topic in cache && IsTruthy(cache[topic]))
    requires parse(CleanText(text)).ParsedJson?
    ensures var o, data := HandleExpand(cache, Some(topic), Generated(text), parse), parse(CleanText(text)).value;
      o.response == Response(200, Data(data))
      && topic in o.cache && o.cache[topic] == data
      && (forall t :: t in cache && t != topic ==> t in o.cache && o.cache[t] == cache[t])
      && o.cache.Keys == cache.Keys + {topic}
  {
  }

  /** A failed generation or parse answers 500 and leaves the cache alone. */
  lemma FailureKeepsCache(cache: map<string, Json>, topic: Option<string>, generation: Generation, parse: string -> Parsed)
    ensures var o := HandleExpand(cache, topic, generation, parse);
      o.response.status == 500 <==>
        (topic.Some? && topic.value != "" && !(topic.value in cache && IsTruthy(cache[topic.value]))
         && (generation.GenerationFailed? || parse(CleanText(generation.text)).SyntaxError?))
    ensures var o := HandleExpand(cache, topic, generation, parse);
      o.response.status != 200 ==> o.cache == cache
  {
  }

  /** Only a successful generation changes the cache, and only at the topic. */
  lemma CacheChangesOnlyAtTopic(cache: map<string, Json>, topic: Option<string>, generation: Generation,
                                parse: string -> Parsed)
    ensures var o := HandleExpand(cache, topic, generation, parse);
      o.cache == cache || (topic.Some? && o.cache == cache[topic.value := o.response.body.value])
  {
  }

  // ---------------------------------------------------------------------------
  // Properties of the clean-up

  /** The cleaned text holds no "```" and starts and ends with a character
      that is not white space. */
  lemma CleanTextHasNoFence(text: string)
    ensures !Occurs(CleanText(text), Fence)
    ensures var r := CleanText(text); r == [] || (!IsSpace(r[0]) && !IsSpace(r[|r| - 1]))
  {
    var s := RemoveAll(RemoveAll(text, JsonFence), Fence);
    RemoveAllFenceLeavesNoFence(RemoveAll(text, JsonFence));
    TrimKeepsAbsence(s, Fence);
  }

  /** A reply wrapped in a JSON code fence, "```json", a line break, the text
      and "```" on a line of its own, cleans up to the trimmed text when the
      text holds no backtick. */
  lemma CleanTextUnwrapsFence(x: string)
    requires '`' !in x
    ensures CleanText(JsonFence + "\n" + x + "\n" + Fence) == Trim(x)
  {
    var u := "\n" + x + "\n";
    assert '`' !in u;
    var wrapped := JsonFence + "\n" + x + "\n" + Fence;
    assert wrapped == JsonFence + (u + Fence);
    assert wrapped[..|JsonFence|] == JsonFence;
    assert wrapped[|JsonFence|..] == u + Fence;
    RemoveAllKeepsPlainPrefix(u, Fence, JsonFence);
    assert RemoveAll(wrapped, JsonFence) == u + Fence;
    RemoveAllKeepsPlainPrefix(u, Fence, Fence);
    assert Fence[..|Fence|] == Fence;
    assert RemoveAll(Fence, Fence) == [];
    assert RemoveAll(u + Fence, Fence) == u;
    assert u == ['\n'] + x + ['\n'];
    TrimIgnoresPadding(x, '\n', '\n');
  }
}
