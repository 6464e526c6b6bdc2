/**
 * `runGenerateSQLQuery` (app/actions.ts:101-137): a blank query is refused
 * before the database is called; otherwise the text is sent unchanged to the
 * `execute_query` procedure, its payload is normalised into a list of rows,
 * and every failure is rethrown as "Query execution failed: ...".
 */
module QueryExecutor {
  import opened JsText
  import opened JsValues

  const EmptyQuery := "Query cannot be empty"
  const ExecutionFailed := "Query execution failed: "
  const DatabaseError := "Database error: "

  /** `!query || !query.trim()`: no query at all, or nothing but whitespace. */
  predicate IsBlank(query: Option<string>) {
    query.None? || Trim(query.value) == []
  }

  /** A query is blank exactly when it is missing or all of it is whitespace. */
  lemma BlankMeansWhitespace(query: Option<string>)
    ensures IsBlank(query) <==> query.None? || AllWhitespace(query.value)
  {
  }

  /** `Array.isArray(rpcData) ? rpcData : [rpcData]` behind the `!rpcData` guard. */
  function NormalizeRows(data: Json): (rows: seq<Json>)
    ensures !Truthy(data) ==> rows == []
    ensures data.Arr? ==> rows == data.items
    ensures Truthy(data) && !data.Arr? ==> rows == [data]
    ensures forall row :: row in rows ==> row == data || (data.Arr? && row in data.items)
  {
    if !Truthy(data) then [] else if data.Arr? then data.items else [data]
  }

  /** Normalising an already normalised result, sent back as an array, changes nothing. */
  lemma NormalizeRowsIdempotent(data: Json)
    ensures NormalizeRows(Arr(NormalizeRows(data))) == NormalizeRows(data)
  {
  }

  /** `runGenerateSQLQuery(query)`, where `execute` gives what the
      `execute_query` call would resolve to for each query text. */
  function RunGenerateSqlQuery(query: Option<string>, execute: string -> Response): (r: Result<seq<Json>>)
    ensures IsBlank(query) ==> r == Err(EmptyQuery)
    ensures !IsBlank(query) && execute(query.value).Threw? ==>
      r == Err(ExecutionFailed + MessageText(execute(query.value).exception))
    ensures !IsBlank(query) && execute(query.value).Response? && execute(query.value).error.Some? ==>
      r == Err(ExecutionFailed + DatabaseError + execute(query.value).error.value.message)
    ensures !IsBlank(query) && execute(query.value).Response? && execute(query.value).error.None? ==>
      r == Ok(NormalizeRows(execute(query.value).data))
  {
    if IsBlank(query) then Err(EmptyQuery)
    else
      match execute(query.value)
      case Threw(e) => Err(ExecutionFailed + MessageText(e))
      case Response(data, error) =>
        if error.Some? then
          // The `Database error: ...` Error is thrown inside the try block and
          // caught by its own catch clause, which wraps it once more.
          var inner := ErrorInstance(DatabaseError + error.value.message);
          assert ExecutionFailed + MessageText(inner) == ExecutionFailed + DatabaseError + error.value.message;
          Err(ExecutionFailed + MessageText(inner))
        else Ok(NormalizeRows(data))
  }

  /** A blank query never reaches the database: the outcome is the same
      whatever the endpoint would have answered. */
  lemma BlankQueryNeverExecuted(query: Option<string>, execute: string -> Response, other: string -> Response)
    requires IsBlank(query)
    ensures RunGenerateSqlQuery(query, execute) == RunGenerateSqlQuery(query, other) == Err(EmptyQuery)
  {
  }

  /** A non-blank query is sent verbatim (untrimmed): the outcome depends only
      on the endpoint's answer for exactly that text. */
  lemma QuerySentVerbatim(q: string, execute: string -> Response, other: string -> Response)
    requires !IsBlank(Some(q)) && execute(q) == other(q)
    ensures RunGenerateSqlQuery(Some(q), execute) == RunGenerateSqlQuery(Some(q), other)
  {
  }
}
