# Healthcare chatbot: schema builder, query handler and chat widget in Dafny

This project models the three pieces of logic in the healthcare-records chatbot that make decisions of their own:

- **The schema builder** (`FetchSchema`). It reads `(table_name, column_name)` metadata rows and drops rows whose table or column value is not a string. It groups the remaining rows into a map from table name to column list and saves that map to the schema file. The file is a `SchemaFile` object whose `content` is `None` while the file does not exist. The metadata query is an input.
- **The natural-language query handler** (`QueryHandler`). This is the early-return ladder of `handleAIQuery`:
  - schema check;
  - SQL completion;
  - `JSON.parse`;
  - `query` validation;
  - parameter coercion;
  - execution;
  - zero rows;
  - comparison or summary.

  The same module holds the fallback and error results of `convertDataToNaturalLanguage`. The two LLM completions, `JSON.parse` and `database.run` are given inputs (`Services`). The ladder is a chain of functions. The in-place coercion of `params` is a method on the parameter object (`ParamObject`), or on an array when `params` is an array. Both methods are proved against the function `CoerceParams`.
- **The chat widget** (`Chatbot`). This is the `ChatbotComponent` class with its fields `isOpen`, `messages`, `userMessage` and `loading`. Its events are toggle, send, reply received and request failed. The pure reply normalisation has two steps: the fallback text, then stripping one pair of quotes with `/^"(.*)"$/`.

`JsRuntime` holds the JavaScript built-ins these rely on:
- JSON values, with `undefined` as `None`;
- truthiness;
- optional-chaining reads;
- `trim`;
- ASCII `toLowerCase` and `includes`;
- `String(v)`;
- the line terminators that the regular-expression `.` refuses.

Behaviour of the code as written that the model keeps:
- A table named after an `Object.prototype` member makes the schema builder's `push` throw. Examples are `constructor`, `toString` and `__proto__`. The whole run then ends in the outer catch, and nothing is written.
- If `JSON.parse` yields `null`, reading `.query` throws, so the result is the "Oops" error and not the invalid-query error.
- A missing or `null` `params` ends in the "Oops" error.
- A parameter value that `String(...)` cannot convert ends in the "Oops" error before the query runs. That is an object owning a `toString` key, or an array holding such an object. JSON can only put a non-callable value under that key, so the conversion throws a TypeError.
- A comparison question with rows ends in "Oops", because `generateComparisonResponse` is not defined. See Findings.
- The frontend reads only `res.result.response`. Every `{error}` result, and the `{message}` for "No matching records found", is therefore shown as the same apology text.
- The failure bubble carries no `isHtml` field.

## Model

| member | source | states |
|---|---|---|
| JsRuntime.Get | frontend/src/app/components/chatbot/chatbot.component.ts:50 | optional chaining yields a value exactly when the value is an object that owns the key, and then it is that property |
| JsRuntime.TrimStart | backend/utils/spanner-query-handler.js:87 | the result is a suffix of the input, everything dropped is whitespace, and it does not start with whitespace |
| JsRuntime.TrimEnd | backend/utils/spanner-query-handler.js:200 | the result is a prefix of the input, everything dropped is whitespace, and it does not end with whitespace |
| JsRuntime.Trim | frontend/src/app/components/chatbot/chatbot.component.ts:38 | the result is the part of the input between a whitespace-only prefix and a whitespace-only suffix, and it neither starts nor ends with JavaScript whitespace |
| JsRuntime.TrimEmptyIffBlank | frontend/src/app/components/chatbot/chatbot.component.ts:38 | `trim()` gives the empty string exactly when the input is whitespace only |
| JsRuntime.TrimKeepsTrimmed | backend/utils/spanner-query-handler.js:200 | trimming a string without surrounding whitespace leaves it unchanged |
| JsRuntime.AsciiLower | backend/utils/spanner-query-handler.js:137 | lower-casing keeps the length and changes exactly the capital letters |
| JsRuntime.NatToDecimal | backend/utils/spanner-query-handler.js:116 | a number is rendered as one or more decimal digits with no leading zero |
| JsRuntime.DecimalRoundTrip | backend/utils/spanner-query-handler.js:116 | reading back the decimal rendering of a number gives the number |
| JsRuntime.IntToDecimal | backend/utils/spanner-query-handler.js:116 | a negative number is rendered as a minus sign followed by the digits of its magnitude; other numbers are rendered as their digits |
| JsRuntime.IntRoundTrip | backend/utils/spanner-query-handler.js:116 | reading back the rendering of any integer, sign included, gives the integer |
| JsRuntime.ToJsString | backend/utils/spanner-query-handler.js:116 | `String(v)` gives `"null"`, `"true"` or `"false"`, the decimal rendering of a number, a string unchanged and `"[object Object]"` for an object. It gives `""` for an empty array and for `[null]`, and its element's rendering for any other one-element array |
| JsRuntime.ArrayJoinsWithCommas | backend/utils/spanner-query-handler.js:116 | an array of two or more elements renders as its first element (`""` for `null`), a comma, and the rendering of the rest, so `[1,2,3]` becomes `"1,2,3"` |
| FetchSchema.Find | backend/utils/fetchSchema.js:64-65 | the lookup finds nothing exactly when no cell has the name; a found cell is in the row and has that name |
| FetchSchema.FindTakesFirstMatch | backend/utils/fetchSchema.js:64-65 | the first cell with the name is returned, whatever cells follow it |
| FetchSchema.StringField | backend/utils/fetchSchema.js:68-72 | a field is usable exactly when its first matching cell holds a string value, and then it is that string |
| FetchSchema.Grouped | backend/utils/fetchSchema.js:62-82 | the schema after the `forEach` never holds an empty column list |
| FetchSchema.ValidRows | backend/utils/fetchSchema.js:68-75 | the kept rows are usable rows taken from the input, no more of them than there were rows; when every row is usable, all are kept |
| FetchSchema.ValidRowsCounts | backend/utils/fetchSchema.js:68-75 | every usable row is kept exactly as often as it occurs in the input, and no unusable row is kept |
| FetchSchema.GroupedIgnoresInvalidRows | backend/utils/fetchSchema.js:68-75 | rows whose table or column value is not a string contribute nothing: the schema equals the schema of the usable rows alone |
| FetchSchema.GroupedKeys | backend/utils/fetchSchema.js:77-81 | the schema's tables are exactly the table names of the usable rows, and no table has an empty column list |
| FetchSchema.AddRowColumns | backend/utils/fetchSchema.js:78-81 | one usable row appends its column to its own table's list and leaves every other table's list as it was |
| FetchSchema.ColumnsOfSnoc | backend/utils/fetchSchema.js:62-82 | a row added at the end adds at most its own column to the end of its table's column list |
| FetchSchema.GroupedColumns | backend/utils/fetchSchema.js:62-82 | a table's column list is its rows' column names in row order, duplicates kept |
| FetchSchema.TotalColumnsRemove | backend/utils/fetchSchema.js:78-81 | the total column count of a schema is any one table's count plus the total count of the other tables |
| FetchSchema.TotalColumnsAddRow | backend/utils/fetchSchema.js:78-81 | each usable row adds exactly one column entry to the schema |
| FetchSchema.TotalColumnsIsValidRowCount | backend/utils/fetchSchema.js:62-82 | the number of columns over all tables equals the number of usable rows |
| FetchSchema.GroupedEmptyIffNoValidRow | backend/utils/fetchSchema.js:85-88 | the schema is empty exactly when no row is usable |
| FetchSchema.SavedSchemaIsGrouping | backend/utils/fetchSchema.js:62-92 | what is saved is the grouping of the returned rows: never empty, with no empty column list and no inherited table name |
| FetchSchema.AllInvalidRowsSaveNothing | backend/utils/fetchSchema.js:85-88 | when every row is unusable the run stops as "schema empty" and does not save |
| FetchSchema.UsableRowIsSaved | backend/utils/fetchSchema.js:77-92 | a run with at least one usable row and no inherited table name saves the grouping of its rows |
| FetchSchema.ValidRowsOfInvalid | backend/utils/fetchSchema.js:71-75 | when no row passes the string guard, no row is kept |
| FetchSchema.FetchOutcomeOf | backend/utils/fetchSchema.js:39-101 | the run finds no rows exactly when the result is missing or empty. It fails exactly when the query throws or a usable row names an inherited table. A saved schema is the non-empty grouping of the returned rows |
| FetchSchema.WithEmptyDefault | backend/utils/fetchSchema.js:29-34 | an existing file is kept as it is, and a missing file becomes `{}` |
| FetchSchema.EnsureIsIdempotent | backend/utils/fetchSchema.js:29-34 | ensuring that the file exists twice has the same effect as doing it once |
| FetchSchema.SchemaFile.EnsureExists | backend/utils/fetchSchema.js:29-34 | the file content afterwards is the old content, or `{}` if there was no file |
| FetchSchema.SchemaFile.FetchAndSave | backend/utils/fetchSchema.js:39-101 | the run ends as the query result decides. The file is replaced only by a non-empty grouping whose write succeeds. A failed query, no rows, a schema with no usable row or an inherited table name leave the file as `ensureSchemaFileExists` left it |
| QueryHandler.SchemaLoaded | backend/utils/spanner-query-handler.js:49 | a loaded schema is a string, array or object; each of these counts as loaded exactly when it is non-empty |
| QueryHandler.CompletionText | backend/utils/spanner-query-handler.js:87 | a missing content reads as empty. Otherwise the text is the trimmed content, empty exactly when the content is whitespace only |
| QueryHandler.QueryText | backend/utils/spanner-query-handler.js:104 | a query is accepted only when the parsed value is an object whose `query` field is a non-empty string, and then it is that string |
| QueryHandler.IsComparison | backend/utils/spanner-query-handler.js:137 | a question marked as a comparison has at least the seven characters of "compare" |
| QueryHandler.CoerceValue | backend/utils/spanner-query-handler.js:115-116 | the conversion throws exactly when `String(value)` does. Otherwise the result is a string: the value itself when it was a string, else `String(value)` |
| QueryHandler.CoercedNumberReadsBack | backend/utils/spanner-query-handler.js:116 | a coerced number parameter converts and reads back as the same number |
| QueryHandler.CoerceParams | backend/utils/spanner-query-handler.js:114-118 | the `forEach` throws exactly when some own value cannot be converted. Otherwise every parameter value is a string, the key set (or array length) is unchanged, and each value is the coercion of the value at the same key. A parameter that is neither object nor array is untouched |
| QueryHandler.CoerceElems | backend/utils/spanner-query-handler.js:114-118 | an array parameter fails exactly when one of its elements cannot be converted; otherwise it keeps its length and each element is coerced in its place |
| QueryHandler.CoerceParamsKeepsStrings | backend/utils/spanner-query-handler.js:114-118 | coercion changes nothing when every value is already a string |
| QueryHandler.ParamObject.CoerceValuesToStrings | backend/utils/spanner-query-handler.js:114-118 | the in-place rewrite throws exactly when some value cannot be converted. Otherwise it leaves the object equal to the coerced object. In both cases the keys are unchanged and each value is either as it was or coerced |
| QueryHandler.CoerceElementsToStrings | backend/utils/spanner-query-handler.js:114-118 | the in-place rewrite of an array throws exactly when some element cannot be converted, and then stops at one such element with the elements before it coerced and the rest untouched. Otherwise the array equals the coerced array |
| QueryHandler.Prepare | backend/utils/spanner-query-handler.js:46-118 | every early stop is an `{error}`. With a loaded schema, a throwing SQL completion stops with "Oops". Execution is reached only with a loaded schema, a returned completion, a non-empty query and parameters that all converted to strings |
| QueryHandler.ConvertDataToNaturalLanguage | backend/utils/spanner-query-handler.js:156-207 | the summariser errors exactly when the LLM call throws. Otherwise it returns the trimmed completion when that is non-empty, and `{response: "I couldn't generate a response."}` when it is missing or blank |
| QueryHandler.HandleAIQuery | backend/utils/spanner-query-handler.js:45-148 | "not set up" is returned exactly when the schema is empty. The first rephrase error is returned exactly when the completion is missing or blank. The parse error is returned exactly when a non-blank completion does not parse. With a loaded schema, a throwing SQL completion gives "Oops". A `{message}` is always the no-records text. A `{response}` is non-empty and never answers a comparison question |
| QueryHandler.Finish | backend/utils/spanner-query-handler.js:123-142 | the fetch error is returned exactly when the query throws, and the `{message}` exactly when it returns no rows; a `{response}` only follows rows for a question that is not a comparison |
| QueryHandler.SchemaCheckComesFirst | backend/utils/spanner-query-handler.js:49-51 | with an empty schema the result is "not set up" whatever the question, completions, parser or database do |
| QueryHandler.InvalidQueryRefused | backend/utils/spanner-query-handler.js:104-106 | a parsed reply without a non-empty string `query` gets the invalid-query error, except `null`, which ends in "Oops" |
| QueryHandler.MissingParamsEndInOops | backend/utils/spanner-query-handler.js:114 | a valid query with `params` missing or `null` ends in the "Oops" error |
| QueryHandler.UsableReplyIsExecuted | backend/utils/spanner-query-handler.js:108-125 | a usable reply whose parameters all convert runs its query exactly as written, with its parameters coerced to strings; the result then depends only on what the database returns |
| QueryHandler.UnconvertibleParamEndsInOops | backend/utils/spanner-query-handler.js:114-118 | a usable query with a parameter value that `String(...)` cannot convert ends in the "Oops" error, whatever the database would do |
| QueryHandler.FinishOutcomes | backend/utils/spanner-query-handler.js:123-142 | an execution failure gives the fetch error. Zero rows give the no-records `{message}`. With rows, a comparison ends in "Oops" and anything else goes to the summariser |
| QueryHandler.CompareInAnyCase | backend/utils/spanner-query-handler.js:137 | "compare" written in any mix of letter cases marks the question as a comparison |
| QueryHandler.ComparisonMentionsCompare | backend/utils/spanner-query-handler.js:137 | a question counts as a comparison only if it holds the seven letters of "compare" in a row, each in either case |
| QueryHandler.ComparisonAlwaysOops | backend/utils/spanner-query-handler.js:137-139 | as written, every comparison question whose query returns rows ends in the "Oops" error |
| QueryHandler.FinishIntended | backend/utils/spanner-query-handler.js:136-142 | with the comparison branch defined, the steps after execution never end in "Oops"; with rows the result is a `{response}` or the summariser's own error |
| QueryHandler.ComparisonAnswered | backend/utils/spanner-query-handler.js:136-142 | with the comparison branch defined, a comparison with rows is answered with a `{response}` when its completion returns |
| Chatbot.StripQuotes | frontend/src/app/components/chatbot/chatbot.component.ts:53 | the reply changes exactly when it is one line wrapped in a pair of quotes, and then exactly that pair is removed |
| Chatbot.StripQuotesOfQuotedLine | frontend/src/app/components/chatbot/chatbot.component.ts:53 | quoting a single line and stripping it gives the line back |
| Chatbot.QuotedMultiLineReplyKeepsQuotes | frontend/src/app/components/chatbot/chatbot.component.ts:53 | a quoted reply with a line break keeps its quotes |
| Chatbot.BotReply | frontend/src/app/components/chatbot/chatbot.component.ts:50 | a truthy response field is the reply; a missing or falsy one gives the apology text; the reply is always truthy |
| Chatbot.NormaliseReply | frontend/src/app/components/chatbot/chatbot.component.ts:50-53 | a missing or falsy response gives the apology. A non-empty string response is quote-stripped. A truthy non-string response is passed on unchanged |
| Chatbot.ApiBody | backend/routes/api.js:111 | the body always carries `result`; its `response` field is present exactly for a `{response}` result, and then it is that text |
| Chatbot.OnlyResponsesReachTheUser | frontend/src/app/components/chatbot/chatbot.component.ts:50 | every `{error}` and the no-records `{message}` from the backend are shown as the apology; a `{response}` is shown quote-stripped |
| Chatbot.ChatbotComponent.constructor | frontend/src/app/components/chatbot/chatbot.component.ts:23-26 | the widget starts closed, with no messages, an empty input and not loading |
| Chatbot.ChatbotComponent.ToggleChat | frontend/src/app/components/chatbot/chatbot.component.ts:32-35 | toggling negates `isOpen` and changes nothing else |
| Chatbot.ChatbotComponent.SendMessage | frontend/src/app/components/chatbot/chatbot.component.ts:37-46 | a blank input changes no field and sends nothing. Otherwise one user bubble with the untrimmed text and `isHtml` false is appended, that text is posted, the input is cleared and `loading` is set |
| Chatbot.ChatbotComponent.OnResponse | frontend/src/app/components/chatbot/chatbot.component.ts:47-59 | one bot bubble is appended with the rendered normalised reply and `isHtml` true, and `loading` ends; earlier bubbles stay as they were |
| Chatbot.ChatbotComponent.OnError | frontend/src/app/components/chatbot/chatbot.component.ts:60-64 | the fixed failure bubble is appended without `isHtml`, and `loading` ends |
| Chatbot.ToggleTwice | frontend/src/app/components/chatbot/chatbot.component.ts:32-35 | toggling twice restores `isOpen` and leaves the other fields alone |
| Chatbot.SendThenFail | frontend/src/app/components/chatbot/chatbot.component.ts:37-64 | a send followed by a failure only appends: the user bubble, then the failure bubble |
| Chatbot.SendThenRespond | frontend/src/app/components/chatbot/chatbot.component.ts:37-59 | a send followed by a reply only appends: the user bubble, then the rendered reply; `loading` ends once the renderer returns |

## Left out

- The OpenAI client, its prompts, model names, temperatures and token limits are left out. They are foreign network calls with free-text input. The completions are the inputs `sqlReply` and `summaryReply`, taken as "threw" or "returned, with this content".
- The Spanner client and `database.run` are left out. They are network calls, so their outcomes are the inputs `QueryResult` and `Services.run`.
- `JSON.parse` is the input `Services.parse`. JSON text syntax is not modelled.
- Environment-variable checks, loading the schema file at module start, console logging and the top-level call to `fetchAndSaveSchema` are left out. They are configuration and I/O. The loaded schema is the input `dbSchema`.
- The Express routes, the server, the connectivity scripts, and the dashboard, treatment, app and bootstrap frontend code are left out. They are plumbing, with one fixed SQL call or one HTTP call each. The `{result}` wrapping of the `/ai-query` route is modelled only through `Chatbot.ApiBody`.
- `scrollToBottom`, `setTimeout` and the DOM are left out. The rendering done by `marked` is left out too: it is the function argument `marked` of `OnResponse`, and a renderer that throws is `None`.
- Overlapping HTTP responses are not modelled. Each continuation of `sendMessage` is one atomic event.
- The schema file is modelled as a map, not as JSON text. Key order and the two-space indentation of the saved JSON are not modelled.
- FetchSchema.SchemaFile.FetchAndSave: a failed final write is modelled as leaving the file unchanged. A partial write is not modelled. A failure of the write inside `ensureSchemaFileExists` is not modelled either.
- FetchSchema.SchemaFile.FetchAndSave: rows that are not arrays and cells that are not objects are not modelled. These would throw TypeErrors. The driver always returns arrays of `{name, value}`.
- QueryHandler.CompletionText: a `content` that is neither a string nor missing is not modelled. That would make `.trim()` throw.
- QueryHandler.HandleAIQuery: `userQuery` is modelled as a string. A non-string `userQuery` would make `toLowerCase` throw, and the routes reject only falsy queries.
- JsRuntime.ToJsString: numbers are integers. The JavaScript rendering of fractions, exponents and numbers beyond 2^53 is not modelled.
- JsRuntime.AsciiLower: only ASCII letters are lower-cased. No other character lower-cases to a letter of "compare", so the comparison test is unaffected.

## Findings

| source | as written | input that shows it | evidently intended | confidence | as-written member | corrected member |
|---|---|---|---|---|---|---|
| backend/utils/spanner-query-handler.js:137-139 | a question containing "compare" calls `generateComparisonResponse`. That name is not defined or imported anywhere, so the ReferenceError ends in the "Oops" error | the question "Compare the ages of all patients", with a usable SQL reply and at least one row | the comparison is answered by a summarising completion of its own, the same flow as the ordinary summary with different prompt wording | high (not executed) | QueryHandler.ComparisonAlwaysOops | QueryHandler.FinishIntended |
