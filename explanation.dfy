/**
 * `explainQuery` (app/actions.ts:228-263): the completion model's structured
 * explanation is passed through unchanged; a failure is rethrown as
 * "Failed to generate explanation: ...".
 */
module ExplanationGenerator {
  import opened JsText
  import opened JsValues

  const Context := "Failed to generate explanation"

  /** One walkthrough entry: a clause of the query and what it does. */
  datatype QueryExplanation = QueryExplanation(section: string, explanation: string)

  /** `explainQuery` after its completion call returned `completion`. */
  function ExplainQuery(completion: Completion<seq<QueryExplanation>>): (r: Result<seq<QueryExplanation>>)
    ensures completion.Generated? <==> r.Ok?
    ensures r.Ok? ==> r.value == completion.output
    ensures completion.CompletionFailed? ==> r == Err(WrapFailure(Context, completion.exception))
    ensures r.Err? ==> StartsWith(r.message, Context + ": ")
    ensures r.Err? && completion.exception.ErrorInstance? ==>
      r.message[|Context| + 2..] == completion.exception.message
    ensures r.Err? && completion.exception.OtherThrown? ==>
      r.message == Context + ": " + UnknownError
  {
    match completion
    case Generated(explanations) => Ok(explanations)
    case CompletionFailed(e) => Err(WrapFailure(Context, e))
  }
}
