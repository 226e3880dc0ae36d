/**
 * The question-generation endpoint of the AI quiz backend
 * (AI-Quiz-App/Backend/index.js, `POST /api/generate-questions`): the request
 * guards, the extraction of a JSON array from the model's reply text, and the
 * filter that keeps well-shaped questions.
 *
 * The HTTP call to the language model and `JSON.parse` are not part of the
 * model: the reply and the parse result are parameters.
 */
module QuizBackend {
  import opened Wrappers
  import Text

  /** A JSON value as `JSON.parse` produces it (an object keeps the last of duplicate keys). */
  datatype Json =
    | JNull
    | JBool(b: bool)
    | JNum(n: real)
    | JStr(s: string)
    | JArr(items: seq<Json>)
    | JObj(fields: map<string, Json>)

  /** JavaScript truthiness; parsed JSON numbers are finite, so only 0 is a falsy number. */
  predicate Truthy(v: Json) {
    match v
    case JNull => false
    case JBool(b) => b
    case JNum(n) => n != 0.0
    case JStr(s) => s != []
    case JArr(_) => true
    case JObj(_) => true
  }

  /** What the endpoint does with a request. */
  datatype Outcome =
    | Respond(status: nat, body: Body)
      /** The handler throws before its `try` block, so no response is written. */
    | Unhandled

  datatype Body = ErrorBody(error: string) | QuestionsBody(questions: seq<Json>)

  const KeyMissing := Respond(500, ErrorBody("Gemini API key not set in .env"))
  const TopicRequired := Respond(400, ErrorBody("Topic is required"))
  const BadCount := Respond(400, ErrorBody("Number of questions must be between 1 and 20"))
  const ModelFailed := Respond(500, ErrorBody("Failed to generate questions from Gemini"))
  const NoJson := Respond(500, ErrorBody("Gemini response did not contain valid JSON"))
  const ParseFailed := Respond(500, ErrorBody("Failed to parse generated JSON"))
  const InternalError := Respond(500, ErrorBody("Internal server error"))

  // ---------------------------------------------------------------------------
  // Request guards
  // ---------------------------------------------------------------------------

  /** The count guard passes a truthy number from 1 to 20; a missing, falsy or non-numeric count fails it. */
  predicate CountAccepted(numQuestions: Option<Json>) {
    numQuestions.Some? && Truthy(numQuestions.value) && numQuestions.value.JNum?
    && !(numQuestions.value.n < 1.0) && !(numQuestions.value.n > 20.0)
  }

  /**
   * The guards in their order: the API key, then the topic, then the count.
   * `None` lets the request through. A truthy topic that is not a string has no
   * `trim` method, and the call throws.
   */
  function Validate(apiKeySet: bool, topic: Option<Json>, numQuestions: Option<Json>): Option<Outcome> {
    if !apiKeySet then Some(KeyMissing)
    else if topic.None? || !Truthy(topic.value) then Some(TopicRequired)
    else if !topic.value.JStr? then Some(Unhandled)
    else if Text.IsBlank(Text.JavaScript, topic.value.s) then Some(TopicRequired)
    else if !CountAccepted(numQuestions) then Some(BadCount)
    else None
  }

  /**
   * A request passes exactly when the key is set, the topic is a string with a
   * non-space character and the count is a number between 1 and 20.
   */
  lemma ValidateAccepts(apiKeySet: bool, topic: Option<Json>, numQuestions: Option<Json>)
    ensures Validate(apiKeySet, topic, numQuestions) == None <==>
      && apiKeySet
      && topic.Some? && topic.value.JStr? && !Text.IsBlank(Text.JavaScript, topic.value.s)
      && numQuestions.Some? && numQuestions.value.JNum? && 1.0 <= numQuestions.value.n <= 20.0
  {
    if apiKeySet && topic.Some? && topic.value.JStr? && !Text.IsBlank(Text.JavaScript, topic.value.s) {
      assert topic.value.s != [];
    }
  }

  /**
   * A missing key wins over every other problem. A missing, falsy or blank topic
   * is "Topic is required", a truthy topic that is not a string throws, and only
   * then is the count checked.
   */
  lemma ValidateOrder(apiKeySet: bool, topic: Option<Json>, numQuestions: Option<Json>)
    ensures !apiKeySet ==> Validate(apiKeySet, topic, numQuestions) == Some(KeyMissing)
    ensures apiKeySet && (topic.None? || !Truthy(topic.value))
            ==> Validate(apiKeySet, topic, numQuestions) == Some(TopicRequired)
    ensures apiKeySet && topic.Some? && Truthy(topic.value) && !topic.value.JStr?
            ==> Validate(apiKeySet, topic, numQuestions) == Some(Unhandled)
    ensures apiKeySet && topic.Some? && topic.value.JStr? && Text.IsBlank(Text.JavaScript, topic.value.s)
            ==> Validate(apiKeySet, topic, numQuestions) == Some(TopicRequired)
    ensures apiKeySet && topic.Some? && topic.value.JStr? && !Text.IsBlank(Text.JavaScript, topic.value.s)
            ==> Validate(apiKeySet, topic, numQuestions) == if CountAccepted(numQuestions) then None else Some(BadCount)
  {
  }

  /** The count is not required to be whole: 2.5 questions pass the guard; 0, 21 and "5" do not. */
  lemma CountExamples()
    ensures CountAccepted(Some(JNum(2.5)))
    ensures !CountAccepted(Some(JNum(0.0))) && !CountAccepted(Some(JNum(21.0)))
    ensures !CountAccepted(Some(JStr("5"))) && !CountAccepted(None)
  {
  }

  // ---------------------------------------------------------------------------
  // Extracting the JSON array: /\[[\s\S]*\]/
  // ---------------------------------------------------------------------------

  /** Index of the first occurrence of `c`. */
  function FirstIndex(s: string, c: char): (r: Option<nat>)
    ensures r.Some? ==> r.value < |s| && s[r.value] == c && c !in s[..r.value]
    ensures r.None? ==> c !in s
  {
    if s == [] then None
    else if s[0] == c then Some(0)
    else match FirstIndex(s[1..], c)
      case None => None
      case Some(i) => assert s[..i + 1] == [s[0]] + s[1..][..i]; Some(i + 1)
  }

  /** Index of the last occurrence of `c`. */
  function LastIndex(s: string, c: char): (r: Option<nat>)
    ensures r.Some? ==> r.value < |s| && s[r.value] == c && c !in s[r.value + 1..]
    ensures r.None? ==> c !in s
  {
    if s == [] then None
    else if s[|s| - 1] == c then Some(|s| - 1)
    else match LastIndex(s[..|s| - 1], c)
      case None => None
      case Some(i) => assert s[i + 1..] == s[..|s| - 1][i + 1..] + [s[|s| - 1]]; Some(i)
  }

  /**
   * The leftmost, greedy match: from the first '[' to the last ']', if that ']'
   * comes after the '['. A later '[' cannot do better, since any ']' after it is
   * also after the first one.
   */
  function ExtractJsonArray(raw: string): Option<string> {
    match (FirstIndex(raw, '['), LastIndex(raw, ']'))
    case (Some(i), Some(j)) => if i < j then Some(raw[i..j + 1]) else None
    case _ => None
  }

  /**
   * A match exists iff some '[' is followed later by ']'; it starts with the
   * first '[' of the text and ends with the last ']'.
   */
  lemma ExtractJsonArraySpec(raw: string)
    ensures ExtractJsonArray(raw).Some? <==>
      exists i, j :: 0 <= i < j < |raw| && raw[i] == '[' && raw[j] == ']'
    ensures ExtractJsonArray(raw).Some? ==>
      exists i, j :: 0 <= i < j < |raw| && ExtractJsonArray(raw).value == raw[i..j + 1]
        && raw[i] == '[' && '[' !in raw[..i] && raw[j] == ']' && ']' !in raw[j + 1..]
  {
    if exists i, j :: 0 <= i < j < |raw| && raw[i] == '[' && raw[j] == ']' {
      var i, j :| 0 <= i < j < |raw| && raw[i] == '[' && raw[j] == ']';
      FirstIndexLeast(raw, '[', i);
      LastIndexGreatest(raw, ']', j);
    }
  }

  /** No occurrence comes before the first one. */
  lemma {:induction false} FirstIndexLeast(s: string, c: char, i: nat)
    requires i < |s| && s[i] == c
    ensures FirstIndex(s, c).Some? && FirstIndex(s, c).value <= i
  {
    if s[0] != c {
      FirstIndexLeast(s[1..], c, i - 1);
    }
  }

  /** No occurrence comes after the last one. */
  lemma {:induction false} LastIndexGreatest(s: string, c: char, i: nat)
    requires i < |s| && s[i] == c
    ensures LastIndex(s, c).Some? && LastIndex(s, c).value >= i
  {
    if s[|s| - 1] != c {
      LastIndexGreatest(s[..|s| - 1], c, i);
    }
  }

  /** The endpoint's "no JSON" branch: a reply without a bracketed span. */
  lemma ExtractExamples()
    ensures ExtractJsonArray("no") == None
    ensures ExtractJsonArray("]x[") == None
    ensures ExtractJsonArray("a[1]b") == Some("[1]")
  {
    assert "]x["[2] == '[';
    assert "a[1]b"[1..4] == "[1]";
  }

  // ---------------------------------------------------------------------------
  // The question filter
  // ---------------------------------------------------------------------------

  /**
   * The filter keeps an object with a truthy question text, an array of exactly
   * four options and a numeric correct index in `[0, 4)`. Any other item that is
   * not `null` has none of these properties and is dropped.
   */
  predicate KeepQuestion(q: Json) {
    && q.JObj?
    && "question" in q.fields && Truthy(q.fields["question"])
    && "options" in q.fields && q.fields["options"].JArr? && |q.fields["options"].items| == 4
    && "correct" in q.fields && q.fields["correct"].JNum?
    && 0.0 <= q.fields["correct"].n < 4.0
  }

  /** `questions.filter(...)` over items none of which is `null`. */
  function FilterQuestions(items: seq<Json>): (r: seq<Json>)
    ensures |r| <= |items|
    ensures forall k :: 0 <= k < |r| ==> KeepQuestion(r[k])
  {
    if items == [] then []
    else (if KeepQuestion(items[0]) then [items[0]] else []) + FilterQuestions(items[1..])
  }

  /** Order-preserving subsequence: `a` is `b` with some items dropped. */
  ghost predicate Subsequence(a: seq<Json>, b: seq<Json>)
    decreases |b|
  {
    if a == [] then true
    else if b == [] then false
    else (a[0] == b[0] && Subsequence(a[1..], b[1..])) || Subsequence(a, b[1..])
  }

  /** The filter keeps exactly the well-shaped items, in their original order. */
  lemma {:induction false} FilterQuestionsSpec(items: seq<Json>)
    ensures Subsequence(FilterQuestions(items), items)
    ensures forall q :: q in FilterQuestions(items) <==> q in items && KeepQuestion(q)
  {
    if items != [] {
      FilterQuestionsSpec(items[1..]);
      var rest := FilterQuestions(items[1..]);
      if KeepQuestion(items[0]) {
        assert FilterQuestions(items) == [items[0]] + rest;
        assert FilterQuestions(items)[1..] == rest;
      } else {
        assert FilterQuestions(items) == rest;
        SubsequenceOfTail(rest, items);
      }
      assert forall q :: q in items <==> q == items[0] || q in items[1..];
    }
  }

  /** Each kept item is kept as often as it occurs in the reply, and no other item is kept. */
  lemma {:induction false} FilterQuestionsCounts(items: seq<Json>)
    ensures forall q ::
      multiset(FilterQuestions(items))[q] == (if KeepQuestion(q) then multiset(items)[q] else 0)
  {
    if items != [] {
      FilterQuestionsCounts(items[1..]);
      assert items == [items[0]] + items[1..];
    }
  }

  lemma SubsequenceOfTail(a: seq<Json>, b: seq<Json>)
    requires b != [] && Subsequence(a, b[1..])
    ensures Subsequence(a, b)
  {
  }

  /** Nothing bounds the result from below: the filter may return fewer items than requested, or none. */
  lemma FilterMayDropEverything()
    ensures FilterQuestions([JObj(map["question" := JStr("Q?"), "options" := JArr([]), "correct" := JNum(0.0)])]) == []
    ensures FilterQuestions([JStr("not a question")]) == []
  {
  }

  /** The correct index is not required to be whole: 1.5 passes the filter. */
  lemma FilterKeepsFractionalIndex()
    ensures KeepQuestion(JObj(map["question" := JStr("Q?"),
                                  "options" := JArr([JStr("a"), JStr("b"), JStr("c"), JStr("d")]),
                                  "correct" := JNum(1.5)]))
  {
  }

  // ---------------------------------------------------------------------------
  // The endpoint
  // ---------------------------------------------------------------------------

  /**
   * The language model's reply: an HTTP error status, a `fetch` or body read that
   * throws, or the text of its first candidate ('' if none).
   */
  datatype ModelReply = ModelError | ModelThrew | ModelText(text: string)

  /**
   * The whole handler. `parsed` is what `JSON.parse` makes of the extracted
   * text (`None` when it throws). A thrown call to the model, or a `null` item,
   * which makes the filter throw, reaches the outer `catch` and answers 500.
   */
  function GenerateQuestions(apiKeySet: bool, topic: Option<Json>, numQuestions: Option<Json>,
                             reply: ModelReply, parsed: Option<seq<Json>>): (r: Outcome)
    ensures r.Respond? && r.status == 200 <==>
      && Validate(apiKeySet, topic, numQuestions) == None
      && reply.ModelText? && ExtractJsonArray(reply.text).Some? && parsed.Some? && JNull !in parsed.value
    ensures r.Respond? && r.status == 200 ==> r.body == QuestionsBody(FilterQuestions(parsed.value))
  {
    match Validate(apiKeySet, topic, numQuestions)
    case Some(rejected) => rejected
    case None =>
      if reply.ModelError? then ModelFailed
      else if reply.ModelThrew? then InternalError
      else if ExtractJsonArray(reply.text).None? then NoJson
      else if parsed.None? then ParseFailed
      else if JNull in parsed.value then InternalError
      else Respond(200, QuestionsBody(FilterQuestions(parsed.value)))
  }

  /**
   * A valid request whose reply text has no `[` followed later by `]` gets the
   * "did not contain valid JSON" answer; one with such a pair, a successful parse
   * and no `null` item gets the filtered questions.
   */
  lemma GenerateQuestionsByReply(apiKeySet: bool, topic: Option<Json>, numQuestions: Option<Json>,
                                 text: string, parsed: Option<seq<Json>>)
    requires Validate(apiKeySet, topic, numQuestions) == None
    ensures (forall i, j :: 0 <= i < j < |text| ==> !(text[i] == '[' && text[j] == ']')) ==>
      GenerateQuestions(apiKeySet, topic, numQuestions, ModelText(text), parsed) == NoJson
    ensures && (exists i, j :: 0 <= i < j < |text| && text[i] == '[' && text[j] == ']')
            && parsed.Some? && JNull !in parsed.value
            ==>
      GenerateQuestions(apiKeySet, topic, numQuestions, ModelText(text), parsed)
        == Respond(200, QuestionsBody(FilterQuestions(parsed.value)))
  {
    ExtractJsonArraySpec(text);
  }

  /**
   * Every error answer of the handler: a rejected request gets its guard's answer;
   * after the guards, a failed model call, a thrown call, a parse error and a
   * `null` item each get their own answer.
   */
  lemma GenerateQuestionsErrors(apiKeySet: bool, topic: Option<Json>, numQuestions: Option<Json>,
                                reply: ModelReply, parsed: Option<seq<Json>>)
    ensures Validate(apiKeySet, topic, numQuestions).Some? ==>
      GenerateQuestions(apiKeySet, topic, numQuestions, reply, parsed) == Validate(apiKeySet, topic, numQuestions).value
    ensures Validate(apiKeySet, topic, numQuestions).None? && reply.ModelError? ==>
      GenerateQuestions(apiKeySet, topic, numQuestions, reply, parsed) == ModelFailed
    ensures Validate(apiKeySet, topic, numQuestions).None? && reply.ModelThrew? ==>
      GenerateQuestions(apiKeySet, topic, numQuestions, reply, parsed) == InternalError
    ensures && Validate(apiKeySet, topic, numQuestions).None? && reply.ModelText?
            && ExtractJsonArray(reply.text).Some? && parsed.None? ==>
      GenerateQuestions(apiKeySet, topic, numQuestions, reply, parsed) == ParseFailed
    ensures && Validate(apiKeySet, topic, numQuestions).None? && reply.ModelText?
            && ExtractJsonArray(reply.text).Some? && parsed.Some? && JNull in parsed.value ==>
      GenerateQuestions(apiKeySet, topic, numQuestions, reply, parsed) == InternalError
  {
  }
}
