# Lucy query pipeline: the deterministic steps of the server actions

Lucy is a chat application whose analytics feature turns a question into a
read-only SQL query (through a completion model), runs it through a generic
`execute_query` database procedure, and turns the rows into a chart
configuration. All of this lives in the server actions of `app/actions.ts`.
The completion-model calls and the database calls are remote; this project
models what the actions do around them, with the remote outcomes as inputs:

- **Query generation** (`generateQuery`): trim the generated text, append
  ` LIMIT 100;` (dropping one final `;`) when the lower-cased text does not
  contain `limit`, refuse text that does not start with `select`, and wrap
  every failure as `Failed to generate query: ...`.
- **Query execution** (`runGenerateSQLQuery`): refuse a missing or blank
  query before any call, forward the text verbatim, wrap a database error
  twice (`Query execution failed: Database error: ...`), and normalise the
  payload (falsy gives `[]`, an array is returned as is, anything else is
  wrapped in a one-element array).
- **Explanation** (`explainQuery`): pass the structured explanation through,
  or wrap the failure.
- **Chart configuration** (`generateChartConfig`): a loop gives the series
  named in `yKeys` the colours `hsl(var(--chart-1))`, `hsl(var(--chart-2))`,
  ...; the last position of a repeated key wins; every other field of the
  configuration is returned unchanged.
- **Connectivity diagnostic** (`testDatabaseConnection`): three calls,
  stopping at the first error object, always returning a report and never
  throwing.
- **Dashboard statistics** (`getDashboardStats`): `data?.[0] || null`, with
  every failure turned into `null`.

Files: `js_text.dfy` (JavaScript `trim`, `\s`, `toLowerCase`, `includes`,
`startsWith`, decimal rendering of a number), `js_values.dfy` (JSON payloads,
truthiness, thrown values, call outcomes, the shared catch block),
`query_generator.dfy`, `query_executor.dfy`, `explanation.dfy`,
`chart_config.dfy`, `diagnostics.dfy`.

Behaviour of the code that a reader might not expect, and that the model
keeps:

- The colour token is `hsl(var(--chart-N))` (app/actions.ts:283), counting
  from 1.
- `generateQuery` has no empty-input guard: an empty model output becomes
  ` LIMIT 100;` and is then refused by the SELECT check.
- Only one trailing `;` is dropped before ` LIMIT 100;` is appended. The text
  is already trimmed, so the regular expression `/;?\s*$/` cannot remove
  more (`TrimmedTerminatorReplace`).
- The `limit` test is a substring test: a column named `credit_limit` is
  enough to suppress the injected clause (`ColumnNameSuppressesLimit`).
- In the diagnostic, an error object from the third call is ignored and the
  report says success. A throw during the third call still gives a failed
  report. The details of a failed step hold only that step's error.

## Model

| member | source | states |
|---|---|---|
| JsText.Trim | app/actions.ts:204 | the result is a slice of the input that holds every non-whitespace character of it, neither starts nor ends with whitespace, and is empty exactly when the input is all whitespace |
| JsText.DecimalRoundTrip | app/actions.ts:283 | reading back the decimal text that `${index + 1}` renders gives the number again |
| JsText.NatToStringInjective | app/actions.ts:283 | two different numbers never render to the same decimal text |
| JsValues.MessageText | app/actions.ts:135 | `${e.message}` is the message of an `Error`, the `message` property of any other thrown value that has one, and "undefined" for a thrown value without one |
| JsValues.WrapFailure | app/actions.ts:218-224 | the rethrown message is the context and ": " followed by the `Error`'s message, or by "Unknown error occurred" for any other thrown value |
| QueryGenerator.LeftmostTerminator | app/actions.ts:208 | the position found is where `/;?\s*$/` matches and no earlier position matches |
| QueryGenerator.ReplaceTerminator | app/actions.ts:208 | only the leftmost match of `/;?\s*$/` is replaced: the result is the text before that match followed by " LIMIT 100;" |
| QueryGenerator.TrimmedTerminatorReplace | app/actions.ts:204-209 | on text that does not end in whitespace, the replacement drops at most one final `;` and appends " LIMIT 100;" |
| QueryGenerator.LimitClauseMentionsLimit | app/actions.ts:206-209 | after the clause is appended, the lower-cased text contains "limit" |
| QueryGenerator.InjectionKeepsSelectTest | app/actions.ts:207-214 | the appended clause never changes whether the lower-cased text starts with "select" |
| QueryGenerator.ColumnNameSuppressesLimit | app/actions.ts:207 | any text that contains `credit_limit`, whatever comes before or after it, passes the "limit" test, so no clause is appended |
| QueryGenerator.GenerateQuery | app/actions.ts:204-224 | a completion failure is wrapped; otherwise the result is accepted exactly when the trimmed text starts with "select"; an accepted query starts with "select" and contains "limit"; it is the trimmed text when that mentions "limit", else the trimmed text minus one final `;` plus " LIMIT 100;"; a refusal says "Failed to generate query: Generated query must start with SELECT" |
| QueryExecutor.BlankMeansWhitespace | app/actions.ts:104 | a query is refused as blank exactly when it is missing or all whitespace |
| QueryExecutor.NormalizeRows | app/actions.ts:122-128 | a falsy payload gives no rows, an array payload its own elements unchanged, any other payload a one-element list holding it |
| QueryExecutor.NormalizeRowsIdempotent | app/actions.ts:122-128 | normalising normalised rows again changes nothing |
| QueryExecutor.RunGenerateSqlQuery | app/actions.ts:101-136 | a blank query fails with the unwrapped "Query cannot be empty"; a database error gives "Query execution failed: Database error: " and its message and no rows; a throw gives "Query execution failed: " and its message; otherwise the normalised payload |
| QueryExecutor.BlankQueryNeverExecuted | app/actions.ts:104-113 | for a blank query the outcome is the same whatever the database would answer |
| QueryExecutor.QuerySentVerbatim | app/actions.ts:111-113 | for a non-blank query the outcome depends only on the database's answer to that exact, untrimmed text |
| ExplanationGenerator.ExplainQuery | app/actions.ts:228-262 | the explanation is returned unchanged exactly when the completion call succeeded; a failure is the shared catch block's message: "Failed to generate explanation: " and the `Error`'s message, or exactly "Failed to generate explanation: Unknown error occurred" for any other thrown value |
| ChartConfigGenerator.ColorToken | app/actions.ts:283 | the colour is "hsl(var(--chart-" around the decimal text of position + 1, followed by "))" |
| ChartConfigGenerator.ColorTokenInjective | app/actions.ts:283 | different positions get different colour tokens |
| ChartConfigGenerator.ColorsForKeys | app/actions.ts:281-284 | the keys of `colors` are exactly the elements of `yKeys` |
| ChartConfigGenerator.ColorsForLastWins | app/actions.ts:281-284 | a key whose last position is `i` has the colour of position `i` |
| ChartConfigGenerator.ColorsForDistinctKeys | app/actions.ts:282-283 | without repeated keys, the key at position `i` has colour `hsl(var(--chart-(i+1)))` |
| ChartConfigGenerator.ColorsForInjective | app/actions.ts:281-284 | two different series never share a colour |
| ChartConfigGenerator.AssignColors | app/actions.ts:281-284 | the loop's map has exactly the keys of `yKeys`, each with the colour of its last position |
| ChartConfigGenerator.GenerateChartConfig | app/actions.ts:265-294 | a completion failure is wrapped as "Failed to generate chart configuration: ..."; otherwise every field but `colors` is unchanged and `colors` holds exactly the `yKeys`, each with the colour of its last position |
| Diagnostics.CrashMessage | app/actions.ts:91 | the message is the thrown value's `message` when that is a non-empty string (for an `Error` or any other value), and "Unknown error occurred" otherwise; it is never empty |
| Diagnostics.Configured | app/actions.ts:94-95 | "configured" exactly when the variable is set, "missing" exactly when it is not |
| Diagnostics.CrashReport | app/actions.ts:87-97 | the catch block's report is a failure whose message is `CrashMessage` of the thrown value and whose details hold that value and the configured/missing status of the URL and the service-role key |
| Diagnostics.TestDatabaseConnection | app/actions.ts:28-98 | success exactly when the first two calls return no error object and the third does not throw; a first-call error gives "Basic connection failed: ..." whatever the later calls would do; a second-call error gives "RPC function test failed: ..."; a throw at any step gives the catch report; a failed report always has a message |
| Diagnostics.ElementZero | app/actions.ts:313 | `data?.[0]` is an array's first element when there is one, an object's property "0" when it has one, a string's first character when it is not empty, and nothing for null, booleans and numbers |
| Diagnostics.BareRowGivesNull | app/actions.ts:312-313 | a single row object without a property "0", returned without an array around it, gives null |
| Diagnostics.GetDashboardStats | app/actions.ts:297-317 | a throw or an error object gives null; a result is never falsy and is `data?.[0]`; for an array payload the result is present exactly when the first element exists and is truthy |

## Left out

- The completion-model calls (`generateObject` with the system and task prompts, app/actions.ts:148-202, 231-253, 268-279): they are nondeterministic remote calls. Their outcomes are inputs (`Completion`). The configuration and explanation schemas are not part of this model.
- The Supabase client (`initSupabase`, app/actions.ts:10-26) and the remote calls: these are I/O over a library. Their outcomes are inputs (`Response`), and the environment variables are the `Environment` parameter.
- Logging, `async` and `"use server"`: these have no effect on the results.
- The `Result[]` cast at app/actions.ts:131: TypeScript does not check it at run time. Rows are plain JSON values.
- `toLowerCase` is modelled on ASCII letters only. Characters outside ASCII are left unchanged.
- Diagnostics.ElementZero: a string payload is indexed by character, not by UTF-16 code unit.
- ChartConfigGenerator.AssignColors: a key named `__proto__` is an ordinary key here. In JavaScript, assigning to it on a plain object adds no own property.
- ChartConfigGenerator.GenerateChartConfig: returns the configuration itself, not the `{ config }` object that wraps it.
- JsValues.MessageText: a thrown `null` or `undefined` is not modelled. Reading `e.message` on it would throw inside the catch block.
- Supabase error objects are reduced to their `message`.
- The chat page, the prompt texts in lib/ai/prompts.ts, the sign-out form and the build configuration hold no logic of this pipeline.
