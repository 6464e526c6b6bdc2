/**
 * The two database actions that never throw (app/actions.ts:28-99 and
 * 297-318): the connectivity diagnostic, which turns every failure into a
 * report, and the dashboard statistics, which turn every failure into `null`.
 */
module Diagnostics {
  import opened JsValues

  const BasicFailed := "Basic connection failed: "
  const RpcFailed := "RPC function test failed: "
  const Connected := "Database connection successful"

  /** Whether the two credentials the catch block reports on are set. */
  datatype Environment = Environment(supabaseUrlSet: bool, serviceRoleKeySet: bool)

  /** The `details` of a report; the source calls both `error` and `exception` `error`. */
  datatype Details =
    | StepError(error: DbError)
    | AllSteps(basicTest: Json, rpcTest: Json, authTest: Json)
    | Crashed(exception: Exception, supabaseUrl: string, serviceRole: string)

  datatype Report = Report(success: bool, message: string, details: Details)

  /** The call resolved with no error object. */
  predicate Passed(step: Response) {
    step.Response? && step.error.None?
  }

  /** `e.message || 'Unknown error occurred'`. */
  function CrashMessage(e: Exception): (msg: string)
    ensures msg != []
    ensures e.ErrorInstance? ==> msg == (if e.message != [] then e.message else UnknownError)
    ensures e.OtherThrown? ==>
      msg == (if e.messageProperty.Some? && e.messageProperty.value != [] then e.messageProperty.value
              else UnknownError)
  {
    var m := match e
      case ErrorInstance(m) => m
      case OtherThrown(p) => if p.Some? then p.value else [];
    if m != [] then m else UnknownError
  }

  /** `process.env.X ? 'configured' : 'missing'`. */
  function Configured(isSet: bool): (status: string)
    ensures status == "configured" <==> isSet
    ensures status == "missing" <==> !isSet
  {
    if isSet then "configured" else "missing"
  }

  /** The report the catch block builds. */
  function CrashReport(e: Exception, env: Environment): (report: Report)
    ensures !report.success && report.message != []
    ensures report.message == CrashMessage(e)
    ensures report.details == Crashed(e, Configured(env.supabaseUrlSet), Configured(env.serviceRoleKeySet))
  {
    Report(false, CrashMessage(e), Crashed(e, Configured(env.supabaseUrlSet), Configured(env.serviceRoleKeySet)))
  }

  /** `testDatabaseConnection`, given what its three Supabase calls resolve to
      (a bounded read of `credits`, the `execute_query` procedure on a no-op
      query, and a read of three `credits` columns). A step after the first
      failing one is never run, so its outcome does not matter. */
  method TestDatabaseConnection(basic: Response, rpc: Response, auth: Response, env: Environment)
    returns (report: Report)
    ensures report.success <==> Passed(basic) && Passed(rpc) && auth.Response?
    ensures !report.success ==> report.message != []
    ensures basic.Threw? ==> report == CrashReport(basic.exception, env)
    ensures basic.Response? && basic.error.Some? ==>
      report == Report(false, BasicFailed + basic.error.value.message, StepError(basic.error.value))
    ensures Passed(basic) && rpc.Threw? ==> report == CrashReport(rpc.exception, env)
    ensures Passed(basic) && rpc.Response? && rpc.error.Some? ==>
      report == Report(false, RpcFailed + rpc.error.value.message, StepError(rpc.error.value))
    ensures Passed(basic) && Passed(rpc) && auth.Threw? ==> report == CrashReport(auth.exception, env)
    ensures Passed(basic) && Passed(rpc) && auth.Response? ==>
      report == Report(true, Connected, AllSteps(basic.data, rpc.data, auth.data))
  {
    // 1. basic connection
    if basic.Threw? {
      return CrashReport(basic.exception, env);
    }
    if basic.error.Some? {
      return Report(false, BasicFailed + basic.error.value.message, StepError(basic.error.value));
    }
    // 2. the execute_query procedure
    if rpc.Threw? {
      return CrashReport(rpc.exception, env);
    }
    if rpc.error.Some? {
      return Report(false, RpcFailed + rpc.error.value.message, StepError(rpc.error.value));
    }
    // 3. column access; its error object is never inspected
    if auth.Threw? {
      return CrashReport(auth.exception, env);
    }
    return Report(true, Connected, AllSteps(basic.data, rpc.data, auth.data));
  }

  /** `data?.[0]`: the element or property at index 0, when there is one. */
  function ElementZero(data: Json): (first: Option<Json>)
    ensures data.Arr? ==> (first.Some? <==> |data.items| > 0)
    ensures data.Arr? && |data.items| > 0 ==> first == Some(data.items[0])
    ensures data.Obj? ==> first == (if "0" in data.fields then Some(data.fields["0"]) else None)
    ensures data.Str? ==> first == (if data.s != [] then Some(Str([data.s[0]])) else None)
    ensures data.Null? || data.Bool? || data.Num? ==> first == None
  {
    match data
    case Arr(items) => if |items| > 0 then Some(items[0]) else None
    case Str(s) => if |s| > 0 then Some(Str([s[0]])) else None
    case Obj(fields) => if "0" in fields then Some(fields["0"]) else None
    case _ => None
  }

  /** `getDashboardStats` given what its `execute_query` call resolves to;
      `None` is `null`. */
  function GetDashboardStats(response: Response): (stats: Option<Json>)
    ensures response.Threw? ==> stats == None
    ensures response.Response? && response.error.Some? ==> stats == None
    ensures stats.Some? ==> Truthy(stats.value)
    ensures stats.Some? ==> Passed(response) && ElementZero(response.data) == stats
    ensures Passed(response) && response.data.Arr? ==>
      (stats.Some? <==> |response.data.items| > 0 && Truthy(response.data.items[0]))
    ensures Passed(response) && ElementZero(response.data).Some? && Truthy(ElementZero(response.data).value) ==>
      stats.Some?
  {
    match response
    case Threw(_) => None
    case Response(data, error) =>
      if error.Some? then None
      else
        var first := ElementZero(data);
        if first.Some? && Truthy(first.value) then first else None
  }

  /** A procedure that answers with one bare row object instead of an array
      of rows gives `null`: `data?.[0]` reads the row's property "0", and a
      row keyed by column names has none. */
  lemma BareRowGivesNull(row: map<string, Json>)
    requires "0" !in row
    ensures GetDashboardStats(Response(Obj(row), None)) == None
  {
  }
}
