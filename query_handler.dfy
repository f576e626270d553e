/**
 * The natural-language query handler: validates an LLM-written `{query, params}`
 * reply, coerces the parameters to strings, runs the query and hands the rows
 * to a second LLM call for summarising.
 *
 * The two LLM completions, `JSON.parse` and `database.run` are inputs: what
 * they return is given, not computed. The early-return ladder is a chain of
 * functions; the in-place parameter coercion is a method on the parameter
 * object (or array), proved against `CoerceParams`.
 */
module QueryHandler {
  import opened JsRuntime

  /** What an `openai.chat.completions.create` call yielded: it threw, or it
      returned a first choice whose `message.content` may be missing. */
  datatype LlmReply = LlmThrew | Completion(content: Option<string>)

  /** What `database.run` yielded: it threw, or it returned rows. */
  datatype DbOutcome = DbThrew | DbRows(rows: seq<Json>)

  /** The distinct `{error}` results, one per way the handler can fail. */
  datatype Failure =
    | NotSetUp          // the schema is missing or empty
    | NoCompletion      // the SQL completion is missing or blank
    | Unparsable        // JSON.parse threw
    | InvalidQuery      // no non-empty string `query`
    | FetchFailed       // database.run threw
    | Unexpected        // an exception reached the outer catch
    | ConvertFailed     // the summarising step threw

  /** The `error` text of each failure. */
  function ErrorText(f: Failure): string {
    match f
    case NotSetUp => "The system is not set up with the latest database schema. Please try again later."
    case NoCompletion => "I'm having trouble understanding your request. Could you try rephrasing it?"
    case Unparsable => "I had trouble understanding the request. Please try rephrasing it."
    case InvalidQuery => "I couldn't generate a valid SQL query. Try using different wording."
    case FetchFailed => "There was an issue fetching the requested data. Please try again."
    case Unexpected => "Oops! Something unexpected happened. Please try again later."
    case ConvertFailed => "I had trouble converting the data into a response. Please try again."
  }

  /** The objects `handleAIQuery` returns: `{error}`, `{message}` or `{response}`. */
  datatype HandlerResult =
    | Error(failure: Failure)
    | Message(message: string)
    | Response(response: string)

  /** The services the handler calls, as given inputs. */
  datatype Services = Services(
    sqlReply: LlmReply,                   // the SQL-writing completion
    parse: string -> Option<Json>,        // JSON.parse; None when it throws
    run: (string, Json) -> DbOutcome,     // database.run({sql, params})
    summaryReply: LlmReply                // the summarising completion
  )

  const NoRecordsMessage := "No matching records found. It seems there's no data available for this request."
  const NoResponseText := "I couldn't generate a response."

  // ---------------------------------------------------------------------------
  // The guards
  // ---------------------------------------------------------------------------

  /** `dbSchema && Object.keys(dbSchema).length !== 0`: only strings, arrays
      and objects have own keys. */
  predicate SchemaLoaded(dbSchema: Json)
    ensures SchemaLoaded(dbSchema) ==> dbSchema.JStr? || dbSchema.JArr? || dbSchema.JObj?
    ensures dbSchema.JObj? ==> (SchemaLoaded(dbSchema) <==> dbSchema.fields != map[])
    ensures dbSchema.JStr? ==> (SchemaLoaded(dbSchema) <==> dbSchema.s != [])
    ensures dbSchema.JArr? ==> (SchemaLoaded(dbSchema) <==> dbSchema.elems != [])
  {
    Truthy(dbSchema) &&
    match dbSchema
    case JStr(s) => |s| != 0
    case JArr(elems) => |elems| != 0
    case JObj(fields) => |fields| != 0
    case _ => false
  }

  /** `choices[0].message.content?.trim()`, with a missing content read as the empty string. */
  function CompletionText(content: Option<string>): (r: string)
    ensures content.None? ==> r == []
    ensures content.Some? ==> r == Trim(content.value)
    ensures content.Some? ==> (r == [] <==> IsBlank(content.value))
    ensures r == [] || (!IsJsWhitespace(r[0]) && !IsJsWhitespace(r[|r| - 1]))
  {
    if content.None? then []
    else
      TrimEmptyIffBlank(content.value);
      Trim(content.value)
  }

  /** The string `query` field of a parsed reply; `None` when it is missing, empty or not a string. */
  function QueryText(parsed: Json): (r: Option<string>)
    ensures r.Some? ==> r.value != [] && parsed.JObj? && "query" in parsed.fields
                        && parsed.fields["query"] == JStr(r.value)
  {
    match Get(Some(parsed), "query")
    case Some(JStr(q)) => if q == [] then None else Some(q)
    case _ => None
  }

  /** `userQuery.toLowerCase().includes("compare")`. No character outside ASCII
      lower-cases to one of the letters of "compare", so ASCII lowering decides it. */
  predicate IsComparison(userQuery: string)
    ensures IsComparison(userQuery) ==> |userQuery| >= 7
  {
    Includes(AsciiLower(userQuery), "compare")
  }

  // ---------------------------------------------------------------------------
  // Parameter coercion
  // ---------------------------------------------------------------------------

  /**
   * One `params[key]` after the loop body: non-strings become `String(value)`;
   * `None` when that conversion throws.
   */
  function CoerceValue(v: Json): (r: Option<Json>)
    ensures r.None? <==> StringThrows(v)
    ensures r.Some? ==> r.value.JStr?
    ensures v.JStr? ==> r == Some(v)
    ensures !v.JStr? && !StringThrows(v) ==> r == Some(JStr(ToJsString(v)))
  {
    if v.JStr? then Some(v)
    else if StringThrows(v) then None
    else Some(JStr(ToJsString(v)))
  }

  /** A coerced number reads back as the same number. */
  lemma CoercedNumberReadsBack(n: int)
    ensures CoerceValue(JNum(n)).Some?
    ensures IntValue(CoerceValue(JNum(n)).value.s) == n
  {
    IntRoundTrip(n);
  }

  /** Some own value of `params` makes `String(...)` throw inside the `forEach`. */
  predicate CoercionThrows(params: Json) {
    match params
    case JObj(fields) => exists k | k in fields :: StringThrows(fields[k])
    case JArr(elems) => exists i | 0 <= i < |elems| :: StringThrows(elems[i])
    case _ => false
  }

  /** Every own value of the parameter object is a string. */
  predicate AllStrings(params: Json) {
    match params
    case JObj(fields) => forall k :: k in fields ==> fields[k].JStr?
    case JArr(elems) => forall i :: 0 <= i < |elems| ==> elems[i].JStr?
    case _ => true
  }

  /**
   * `params` after `Object.keys(params).forEach(...)`, or `None` when a
   * conversion throws. Objects and arrays have their values coerced; a string's
   * keys are its indices, whose values are already strings; numbers and
   * booleans have no keys.
   */
  function CoerceParams(params: Json): (r: Option<Json>)
    requires !params.JNull?
    ensures r.None? <==> CoercionThrows(params)
    ensures r.Some? ==> AllStrings(r.value)
    ensures params.JObj? && r.Some? ==>
              && r.value.JObj? && r.value.fields.Keys == params.fields.Keys
              && forall k :: k in params.fields ==> Some(r.value.fields[k]) == CoerceValue(params.fields[k])
    ensures params.JArr? && r.Some? ==>
              && r.value.JArr? && |r.value.elems| == |params.elems|
              && forall i :: 0 <= i < |params.elems| ==> Some(r.value.elems[i]) == CoerceValue(params.elems[i])
    ensures !params.JObj? && !params.JArr? ==> r == Some(params)
  {
    match params
    case JObj(fields) =>
      if exists k | k in fields :: StringThrows(fields[k]) then None
      else Some(JObj(map k | k in fields :: CoerceValue(fields[k]).value))
    case JArr(elems) =>
      (match CoerceElems(elems)
       case None => None
       case Some(coerced) => Some(JArr(coerced)))
    case _ => Some(params)
  }

  /** The elements of an array parameter after coercion, or `None` when one of them throws. */
  function CoerceElems(elems: seq<Json>): (r: Option<seq<Json>>)
    ensures r.None? <==> exists i | 0 <= i < |elems| :: StringThrows(elems[i])
    ensures r.Some? ==> |r.value| == |elems|
    ensures r.Some? ==> forall i :: 0 <= i < |elems| ==> Some(r.value[i]) == CoerceValue(elems[i])
  {
    if elems == [] then Some([])
    else
      match (CoerceValue(elems[0]), CoerceElems(elems[1..]))
      case (Some(first), Some(rest)) => Some([first] + rest)
      case _ => None
  }

  /** Coercion leaves parameters that are already strings exactly as they were. */
  lemma CoerceParamsKeepsStrings(params: Json)
    requires !params.JNull? && AllStrings(params)
    ensures CoerceParams(params) == Some(params)
  {
    match params
    case JObj(fields) =>
      assert CoerceParams(params).value.fields == fields;
    case JArr(elems) =>
      assert CoerceParams(params).value.elems == elems;
    case _ =>
  }

  /** The parsed `params` object, whose values the `forEach` rewrites in place. */
  class ParamObject {
    var fields: map<string, Json>

    constructor (fields: map<string, Json>)
      ensures this.fields == fields
    {
      this.fields := fields;
    }

    /**
     * Visits every own key once and replaces each value that is not a string by
     * its `String(...)` rendering. A conversion that throws ends the walk, with
     * the keys visited so far already rewritten.
     */
    method CoerceValuesToStrings() returns (threw: bool)
      modifies this
      ensures threw <==> CoercionThrows(JObj(old(fields)))
      ensures !threw ==> CoerceParams(JObj(old(fields))) == Some(JObj(fields))
      ensures fields.Keys == old(fields).Keys
      ensures forall k :: k in fields ==> fields[k] == old(fields)[k] || Some(fields[k]) == CoerceValue(old(fields)[k])
    {
      threw := false;
      var keys := fields.Keys;
      while keys != {}
        invariant keys <= fields.Keys
        invariant fields.Keys == old(fields).Keys
        invariant forall k :: k in fields && k !in keys ==>
                    !StringThrows(old(fields)[k]) && Some(fields[k]) == CoerceValue(old(fields)[k])
        invariant forall k :: k in keys ==> fields[k] == old(fields)[k]
        decreases keys
      {
        var key :| key in keys;
        var value := fields[key];
        if !value.JStr? {
          if StringThrows(value) {
            assert key in old(fields) && StringThrows(old(fields)[key]);
            threw := true;
            return;
          }
          fields := fields[key := JStr(ToJsString(value))];
        }
        keys := keys - {key};
      }
      assert fields == map k | k in old(fields) :: CoerceValue(old(fields)[k]).value;
    }
  }

  /**
   * The same `forEach` when the parsed `params` is an array: its keys are the
   * indices, visited in order. A conversion that throws ends the walk at the
   * first element that throws.
   */
  method CoerceElementsToStrings(a: array<Json>) returns (threw: bool)
    modifies a
    ensures threw <==> CoercionThrows(JArr(old(a[..])))
    ensures !threw ==> CoerceParams(JArr(old(a[..]))) == Some(JArr(a[..]))
    ensures threw ==> exists i :: 0 <= i < a.Length && StringThrows(old(a[..])[i])
                       && (forall j :: 0 <= j < i ==> Some(a[j]) == CoerceValue(old(a[..])[j]))
                       && a[i..] == old(a[..])[i..]
  {
    threw := false;
    var i := 0;
    while i < a.Length
      invariant 0 <= i <= a.Length
      invariant forall j :: 0 <= j < i ==> !StringThrows(old(a[j])) && Some(a[j]) == CoerceValue(old(a[j]))
      invariant forall j :: i <= j < a.Length ==> a[j] == old(a[j])
    {
      var value := a[i];
      if !value.JStr? {
        if StringThrows(value) {
          assert StringThrows(old(a[..])[i]) && a[i..] == old(a[..])[i..];
          threw := true;
          return;
        }
        a[i] := JStr(ToJsString(value));
      }
      i := i + 1;
    }
    assert CoerceElems(old(a[..])).value == a[..];
  }

  // ---------------------------------------------------------------------------
  // The ladder
  // ---------------------------------------------------------------------------

  /** Where the first half of the handler ends: with a result, or at `database.run`. */
  datatype Prepared = Stop(result: HandlerResult) | Execute(sql: string, params: Json)

  /** Lines 49 to 118: from the schema check to the coerced parameters. */
  function Prepare(dbSchema: Json, sqlReply: LlmReply, parse: string -> Option<Json>): (p: Prepared)
    ensures p.Stop? ==> p.result.Error?
    ensures p == Stop(Error(NotSetUp)) <==> !SchemaLoaded(dbSchema)
    ensures SchemaLoaded(dbSchema) && sqlReply.LlmThrew? ==> p == Stop(Error(Unexpected))
    ensures p == Stop(Error(NoCompletion)) <==>
              SchemaLoaded(dbSchema) && sqlReply.Completion? && CompletionText(sqlReply.content) == []
    ensures p == Stop(Error(Unparsable)) <==>
              SchemaLoaded(dbSchema) && sqlReply.Completion? && CompletionText(sqlReply.content) != []
              && parse(CompletionText(sqlReply.content)).None?
    ensures p.Execute? ==> SchemaLoaded(dbSchema) && sqlReply.Completion? && p.sql != [] && AllStrings(p.params)
  {
    if !SchemaLoaded(dbSchema) then Stop(Error(NotSetUp))
    else match sqlReply
      case LlmThrew => Stop(Error(Unexpected))
      case Completion(content) =>
        var text := CompletionText(content);
        if text == [] then Stop(Error(NoCompletion))
        else match parse(text)
          case None => Stop(Error(Unparsable))
          case Some(parsed) =>
            // `parsedResponse.query` throws on `null`.
            if parsed.JNull? then Stop(Error(Unexpected))
            else match QueryText(parsed)
              case None => Stop(Error(InvalidQuery))
              case Some(sql) =>
                // `Object.keys(params)` throws on `undefined` and `null`.
                match Get(Some(parsed), "params")
                case None => Stop(Error(Unexpected))
                case Some(params) =>
                  if params.JNull? then Stop(Error(Unexpected))
                  else match CoerceParams(params)
                    // `String(value)` threw inside the `forEach`.
                    case None => Stop(Error(Unexpected))
                    case Some(coerced) => Execute(sql, coerced)
  }

  /** `convertDataToNaturalLanguage`: the summary text, a fallback, or an error. */
  function ConvertDataToNaturalLanguage(summaryReply: LlmReply): (r: HandlerResult)
    ensures r.Error? <==> summaryReply.LlmThrew?
    ensures r.Error? ==> r.failure == ConvertFailed
    ensures r.Response? ==> r.response != [] && !IsJsWhitespace(r.response[0])
    ensures summaryReply.Completion? && CompletionText(summaryReply.content) != [] ==>
              r == Response(CompletionText(summaryReply.content))
    ensures summaryReply.Completion? && CompletionText(summaryReply.content) == [] ==>
              r == Response(NoResponseText)
  {
    match summaryReply
    case LlmThrew => Error(ConvertFailed)
    case Completion(content) =>
      var text := CompletionText(content);
      Response(if text == [] then NoResponseText else text)
  }

  /** Lines 123 to 142: what follows `database.run`. */
  function Finish(userQuery: string, outcome: DbOutcome, summaryReply: LlmReply): (r: HandlerResult)
    ensures r == Error(FetchFailed) <==> outcome.DbThrew?
    ensures r.Message? <==> outcome == DbRows([])
    ensures r.Message? ==> r.message == NoRecordsMessage
    ensures r.Response? ==> outcome.DbRows? && outcome.rows != [] && !IsComparison(userQuery)
    ensures r.Response? ==> r.response != [] && !IsJsWhitespace(r.response[0])
    ensures r.Error? ==> r.failure == FetchFailed || r.failure == Unexpected || r.failure == ConvertFailed
  {
    match outcome
    case DbThrew => Error(FetchFailed)
    case DbRows(rows) =>
      if rows == [] then Message(NoRecordsMessage)
      // `generateComparisonResponse` is not defined anywhere: the call throws a ReferenceError.
      else if IsComparison(userQuery) then Error(Unexpected)
      else ConvertDataToNaturalLanguage(summaryReply)
  }

  /** `handleAIQuery(userQuery)`. */
  function HandleAIQuery(dbSchema: Json, userQuery: string, svc: Services): (r: HandlerResult)
    ensures r == Error(NotSetUp) <==> !SchemaLoaded(dbSchema)
    ensures r == Error(NoCompletion) <==>
              SchemaLoaded(dbSchema) && svc.sqlReply.Completion? && CompletionText(svc.sqlReply.content) == []
    ensures r == Error(Unparsable) <==>
              SchemaLoaded(dbSchema) && svc.sqlReply.Completion? && CompletionText(svc.sqlReply.content) != []
              && svc.parse(CompletionText(svc.sqlReply.content)).None?
    ensures SchemaLoaded(dbSchema) && svc.sqlReply.LlmThrew? ==> r == Error(Unexpected)
    ensures r.Message? ==> r.message == NoRecordsMessage
    ensures r.Response? ==> r.response != [] && !IsJsWhitespace(r.response[0]) && !IsComparison(userQuery)
  {
    match Prepare(dbSchema, svc.sqlReply, svc.parse)
    case Stop(result) => result
    case Execute(sql, params) => Finish(userQuery, svc.run(sql, params), svc.summaryReply)
  }

  // ---------------------------------------------------------------------------
  // Properties of the ladder
  // ---------------------------------------------------------------------------

  /** The schema check comes before any LLM or database step: with no schema the services do not matter. */
  lemma SchemaCheckComesFirst(dbSchema: Json, q1: string, q2: string, svc1: Services, svc2: Services)
    requires !SchemaLoaded(dbSchema)
    ensures HandleAIQuery(dbSchema, q1, svc1) == HandleAIQuery(dbSchema, q2, svc2) == Error(NotSetUp)
  {
  }

  /** A parsed reply without a non-empty string `query` is refused, except `null`, which throws. */
  lemma InvalidQueryRefused(dbSchema: Json, userQuery: string, svc: Services, text: string, parsed: Json)
    requires SchemaLoaded(dbSchema)
    requires svc.sqlReply.Completion? && CompletionText(svc.sqlReply.content) == text && text != []
    requires svc.parse(text) == Some(parsed)
    requires QueryText(parsed).None?
    ensures HandleAIQuery(dbSchema, userQuery, svc)
         == if parsed.JNull? then Error(Unexpected) else Error(InvalidQuery)
  {
  }

  /** A usable query whose `params` is missing or `null` ends in the catch-all error. */
  lemma MissingParamsEndInOops(dbSchema: Json, userQuery: string, svc: Services, text: string, parsed: Json)
    requires SchemaLoaded(dbSchema)
    requires svc.sqlReply.Completion? && CompletionText(svc.sqlReply.content) == text && text != []
    requires svc.parse(text) == Some(parsed)
    requires QueryText(parsed).Some?
    requires "params" !in parsed.fields || parsed.fields["params"] == JNull
    ensures HandleAIQuery(dbSchema, userQuery, svc) == Error(Unexpected)
  {
  }

  /**
   * A usable reply is executed exactly as written, with every parameter value a
   * string and the strings the LLM wrote left alone; what follows depends only on
   * what the database returns.
   */
  lemma UsableReplyIsExecuted(dbSchema: Json, userQuery: string, svc: Services, text: string,
                              sql: string, fields: map<string, Json>)
    requires SchemaLoaded(dbSchema)
    requires svc.sqlReply.Completion? && CompletionText(svc.sqlReply.content) == text && text != []
    requires svc.parse(text) == Some(JObj(fields))
    requires "query" in fields && fields["query"] == JStr(sql) && sql != []
    requires "params" in fields && !fields["params"].JNull? && !CoercionThrows(fields["params"])
    ensures CoerceParams(fields["params"]).Some?
    ensures var params := CoerceParams(fields["params"]).value;
            && AllStrings(params)
            && HandleAIQuery(dbSchema, userQuery, svc) == Finish(userQuery, svc.run(sql, params), svc.summaryReply)
  {
    assert QueryText(JObj(fields)) == Some(sql);
    assert Get(Some(JObj(fields)), "params") == Some(fields["params"]);
    assert Prepare(dbSchema, svc.sqlReply, svc.parse) == Execute(sql, CoerceParams(fields["params"]).value);
  }

  /** A parameter value that `String(...)` cannot convert ends in the catch-all error before the query runs. */
  lemma UnconvertibleParamEndsInOops(dbSchema: Json, userQuery: string, svc: Services, text: string,
                                     fields: map<string, Json>)
    requires SchemaLoaded(dbSchema)
    requires svc.sqlReply.Completion? && CompletionText(svc.sqlReply.content) == text && text != []
    requires svc.parse(text) == Some(JObj(fields))
    requires QueryText(JObj(fields)).Some?
    requires "params" in fields && CoercionThrows(fields["params"])
    ensures HandleAIQuery(dbSchema, userQuery, svc) == Error(Unexpected)
  {
  }

  /** After a successful run: no rows gives the no-records message, a failure the fetch error. */
  lemma FinishOutcomes(userQuery: string, outcome: DbOutcome, summaryReply: LlmReply)
    ensures outcome.DbThrew? ==> Finish(userQuery, outcome, summaryReply) == Error(FetchFailed)
    ensures outcome == DbRows([]) ==> Finish(userQuery, outcome, summaryReply) == Message(NoRecordsMessage)
    ensures outcome.DbRows? && outcome.rows != [] && IsComparison(userQuery) ==>
              Finish(userQuery, outcome, summaryReply) == Error(Unexpected)
    ensures outcome.DbRows? && outcome.rows != [] && !IsComparison(userQuery) ==>
              Finish(userQuery, outcome, summaryReply) == ConvertDataToNaturalLanguage(summaryReply)
  {
  }

  /** The seven characters of `userQuery` from index `i` spell "compare", each letter in either case. */
  predicate CompareAt(userQuery: string, i: int) {
    && 0 <= i <= |userQuery| - 7
    && forall k :: 0 <= k < 7 ==> userQuery[i + k] == "compare"[k] || userQuery[i + k] == "COMPARE"[k]
  }

  /** A comparison question holds the seven letters of "compare", each in either case. */
  lemma ComparisonMentionsCompare(userQuery: string)
    requires IsComparison(userQuery)
    ensures exists i :: CompareAt(userQuery, i)
  {
    var low := AsciiLower(userQuery);
    var i :| 0 <= i <= |low| - 7 && OccursAt(low, "compare", i);
    forall k | 0 <= k < 7
      ensures userQuery[i + k] == "compare"[k] || userQuery[i + k] == "COMPARE"[k]
    {
      assert low[i + k] == "compare"[k];
    }
    assert CompareAt(userQuery, i);
  }

  /** "compare" is found in any letter case. */
  lemma {:induction false} CompareInAnyCase(prefix: string, word: string, suffix: string)
    requires |word| == 7
    requires forall i :: 0 <= i < 7 ==> word[i] == "compare"[i] || word[i] == "COMPARE"[i]
    ensures IsComparison(prefix + word + suffix)
  {
    var s := prefix + word + suffix;
    var low := AsciiLower(s);
    assert forall i :: 0 <= i < 7 ==> low[|prefix| + i] == "compare"[i] by {
      forall i | 0 <= i < 7 ensures low[|prefix| + i] == "compare"[i] {
        assert s[|prefix| + i] == word[i];
      }
    }
    assert OccursAt(low, "compare", |prefix|);
  }

  // ---------------------------------------------------------------------------
  // The comparison branch as evidently intended
  // ---------------------------------------------------------------------------

  /** `Finish` with the comparison branch answered by a summarising completion of its own. */
  function FinishIntended(userQuery: string, outcome: DbOutcome, summaryReply: LlmReply,
                          comparisonReply: LlmReply): (r: HandlerResult)
    ensures r != Error(Unexpected)
    ensures outcome.DbRows? && outcome.rows != [] ==> r.Response? || r == Error(ConvertFailed)
  {
    match outcome
    case DbThrew => Error(FetchFailed)
    case DbRows(rows) =>
      if rows == [] then Message(NoRecordsMessage)
      else if IsComparison(userQuery) then ConvertDataToNaturalLanguage(comparisonReply)
      else ConvertDataToNaturalLanguage(summaryReply)
  }

  /** As written, every comparison question with rows to compare ends in the catch-all error. */
  lemma ComparisonAlwaysOops(dbSchema: Json, userQuery: string, svc: Services)
    requires IsComparison(userQuery)
    requires Prepare(dbSchema, svc.sqlReply, svc.parse).Execute?
    requires var p := Prepare(dbSchema, svc.sqlReply, svc.parse);
             svc.run(p.sql, p.params).DbRows? && svc.run(p.sql, p.params).rows != []
    ensures HandleAIQuery(dbSchema, userQuery, svc) == Error(Unexpected)
  {
  }

  /** With the comparison branch defined, a comparison with rows is answered whenever its completion returns. */
  lemma ComparisonAnswered(userQuery: string, rows: seq<Json>, summaryReply: LlmReply, comparisonReply: LlmReply)
    requires IsComparison(userQuery) && rows != []
    requires comparisonReply.Completion?
    ensures FinishIntended(userQuery, DbRows(rows), summaryReply, comparisonReply).Response?
    ensures FinishIntended(userQuery, DbRows(rows), summaryReply, comparisonReply) != Error(Unexpected)
  {
  }
}
