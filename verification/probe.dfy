/**
 * How one trial is judged: whether the container came up under the trial
 * profile (`run_container_with_profile`) and whether the web application
 * still answers its fixed battery of requests (`test_web_functionality`).
 * Docker and HTTP are outside the model; what they answered is the input.
 */
module Probe {

  /** How a `subprocess.run` call ended. */
  datatype Step =
    | Exited(code: int)   // the command returned this exit status
    | TimedOut            // `subprocess.TimeoutExpired`
    | Raised              // any other exception from the call

  /** What reading `docker inspect` output gave: `State.Running`, or a parse/lookup failure. */
  datatype Inspection = Parsed(running: bool) | Malformed

  /**
   * What the Docker runtime answers for one launch: `docker run` (with the
   * 30-second timeout), then, after the 5-second settle delay, `docker inspect`
   * and its decoded output. Later answers are never consulted once an
   * earlier step failed.
   */
  datatype StartupTrace = StartupTrace(run: Step, inspect: Step, state: Inspection)

  /** Why a container did not come up, or that it did. */
  datatype Startup =
    | Up
    | LaunchFailed(code: int)   // non-zero exit of `docker run`
    | LaunchTimedOut
    | InspectFailed             // non-zero exit of `docker inspect`
    | NotRunning                // inspected, but `State.Running` is false
    | StartupError              // any exception on the way

  /** The branches of `run_container_with_profile`, in the order it takes them. */
  function ClassifyStartup(t: StartupTrace): (o: Startup)
    ensures o.LaunchFailed? ==> o.code != 0 && t.run == Exited(o.code)
    ensures o.LaunchTimedOut? <==> t.run == TimedOut
    ensures o.InspectFailed? ==> t.run == Exited(0) && t.inspect.Exited? && t.inspect.code != 0
    ensures o.NotRunning? <==> t.run == Exited(0) && t.inspect == Exited(0) && t.state == Parsed(false)
  {
    match t.run
    case TimedOut => LaunchTimedOut
    case Raised => StartupError
    case Exited(c) =>
      if c != 0 then LaunchFailed(c)
      else
        match t.inspect
        case TimedOut => StartupError
        case Raised => StartupError
        case Exited(d) =>
          if d != 0 then InspectFailed
          else
            match t.state
            case Malformed => StartupError
            case Parsed(running) => if running then Up else NotRunning
  }

  /**
   * `run_container_with_profile` returns True exactly when `docker run` exited
   * with 0, `docker inspect` exited with 0 and the container reports itself
   * running; a timeout or any exception gives False.
   */
  function ContainerStarts(t: StartupTrace): (ok: bool)
    ensures ok <==> t.run == Exited(0) && t.inspect == Exited(0) && t.state == Parsed(true)
    ensures t.run.TimedOut? || t.run.Raised? || t.inspect.TimedOut? || t.inspect.Raised? ==> !ok
  {
    ClassifyStartup(t).Up?
  }

  /** Once `docker run` failed, nothing the runtime would have said later matters. */
  lemma LaunchFailureDecides(t: StartupTrace, u: StartupTrace)
    requires t.run == u.run && t.run != Exited(0)
    ensures ClassifyStartup(t) == ClassifyStartup(u)
    ensures !ContainerStarts(t)
  {
  }

  datatype HttpMethod = Get | Post

  /** A request body: none, a form field, or a one-member JSON object. */
  datatype Body = NoBody | Form(field: string, value: string) | Json(key: string, value: string)

  /** One request of the battery, each sent with a 10-second timeout to localhost:5000. */
  datatype Check = Check(verb: HttpMethod, path: string, body: Body)

  /** The battery, in the order it runs: main page, form submission, API endpoint. */
  const Battery: seq<Check> := [
    Check(Get, "/", NoBody),
    Check(Post, "/write", Form("content", "test_content")),
    Check(Post, "/api/write", Json("text", "api_test_content"))
  ]

  /** What one request gave: a status code, a `requests` exception, or any other exception. */
  datatype Response = Status(code: int) | RequestFailed | Unexpected

  /** A check passes only on status 200 exactly. */
  predicate Passes(r: Response) {
    r == Status(200)
  }

  /** The verdict of a battery run and the requests that were actually sent. */
  datatype WebResult = WebResult(passed: bool, sent: seq<Check>)

  /**
   * Sends the checks in order and stops at the first one that does not pass.
   * `respond` is what the application answers to each request.
   */
  function RunChecks(checks: seq<Check>, respond: Check -> Response): (r: WebResult)
    ensures |r.sent| <= |checks| && r.sent == checks[..|r.sent|]
    ensures forall i :: 0 <= i < |r.sent| - 1 ==> Passes(respond(r.sent[i]))
    ensures r.passed <==> forall i :: 0 <= i < |checks| ==> Passes(respond(checks[i]))
    ensures r.passed ==> r.sent == checks
    ensures !r.passed ==> |r.sent| > 0 && !Passes(respond(r.sent[|r.sent| - 1]))
  {
    if |checks| == 0 then WebResult(true, [])
    else if !Passes(respond(checks[0])) then WebResult(false, [checks[0]])
    else
      var rest := RunChecks(checks[1..], respond);
      assert forall i :: 1 <= i < |checks| ==> checks[i] == checks[1..][i - 1];
      WebResult(rest.passed, [checks[0]] + rest.sent)
  }

  /**
   * `test_web_functionality`: True exactly when all three requests of the
   * battery get status 200. A failing request ends the run, so the requests
   * after it are never sent.
   */
  function WebWorks(respond: Check -> Response): (r: WebResult)
    ensures r.passed <==>
      Passes(respond(Check(Get, "/", NoBody)))
      && Passes(respond(Check(Post, "/write", Form("content", "test_content"))))
      && Passes(respond(Check(Post, "/api/write", Json("text", "api_test_content"))))
    ensures !Passes(respond(Check(Get, "/", NoBody))) ==> r.sent == [Check(Get, "/", NoBody)]
    ensures |r.sent| <= |Battery| && r.sent == Battery[..|r.sent|]
  {
    var r := RunChecks(Battery, respond);
    assert forall i :: 0 <= i < 3 ==> Battery[i] in Battery;
    r
  }
}
