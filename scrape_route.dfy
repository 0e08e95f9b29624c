/**
 * The scrape endpoint: POST runs the scraper script for a date behind a
 * bearer token; GET checks a query secret and forwards to POST.
 */
module ScrapeRoute {
  import opened Wrappers
  import opened Text
  import opened Opportunities
  import Cron

  /**
   * The expected header is `Bearer ${process.env.CRON_SECRET}`; an unset
   * variable is interpolated as the text `undefined`.
   */
  function ExpectedAuth(cronSecret: Option<string>): string {
    "Bearer " + cronSecret.GetOr("undefined")
  }

  predicate PostAuthorized(authHeader: Option<string>, cronSecret: Option<string>) {
    authHeader == Some(ExpectedAuth(cronSecret))
  }

  /** The header must be exactly the bearer token: a missing header never passes, and a set secret admits only `Bearer <secret>`. */
  lemma PostAuthorizedIff(authHeader: Option<string>, secret: string)
    ensures PostAuthorized(authHeader, Some(secret)) <==> authHeader == Some("Bearer " + secret)
    ensures !PostAuthorized(None, Some(secret))
  {
  }

  /** With `CRON_SECRET` unset, the literal header `Bearer undefined` is accepted. */
  lemma UnsetSecretAdmitsUndefined()
    ensures PostAuthorized(Some("Bearer undefined"), None)
  {
    assert ExpectedAuth(None) == "Bearer " + "undefined";
    assert "Bearer " + "undefined" == "Bearer undefined";
  }

  /** `toISOString().split("T")[0].replace(/-/g, "/")` of the moment one day ago. */
  function DefaultTargetDate(iso: string): (r: string)
    ensures |r| <= |iso| && 'T' !in r && '-' !in r
  {
    ReplaceAll(Before(iso, 'T'), '-', '/')
  }

  predicate Digits(s: string) {
    forall k :: 0 <= k < |s| ==> '0' <= s[k] <= '9'
  }

  lemma {:induction false} BeforeFirst(a: string, c: char, rest: string)
    requires c !in a
    ensures Before(a + [c] + rest, c) == a
  {
    if a != [] {
      assert (a + [c] + rest)[1..] == a[1..] + [c] + rest;
      BeforeFirst(a[1..], c, rest);
    }
  }

  /** For an ISO timestamp `YYYY-MM-DDT…` the default date is `YYYY/MM/DD`. */
  lemma DefaultDateOfIso(y: string, m: string, d: string, time: string)
    requires Digits(y) && Digits(m) && Digits(d)
    ensures DefaultTargetDate(y + "-" + m + "-" + d + "T" + time) == y + "/" + m + "/" + d
  {
    var date := y + "-" + m + "-" + d;
    assert 'T' !in date by {
      forall k | 0 <= k < |date| ensures date[k] != 'T' {
        if k < |y| { assert date[k] == y[k]; }
        else if k == |y| { }
        else if k < |y| + 1 + |m| { assert date[k] == m[k - |y| - 1]; }
        else if k == |y| + 1 + |m| { }
        else { assert date[k] == d[k - |y| - 2 - |m|]; }
      }
    }
    assert y + "-" + m + "-" + d + "T" + time == date + ['T'] + time;
    BeforeFirst(date, 'T', time);
    var want := y + "/" + m + "/" + d;
    var got := ReplaceAll(date, '-', '/');
    forall k | 0 <= k < |date| ensures got[k] == want[k] {
      if k < |y| { assert date[k] == y[k] && want[k] == y[k]; }
      else if k == |y| { }
      else if k < |y| + 1 + |m| { assert date[k] == m[k - |y| - 1] && want[k] == m[k - |y| - 1]; }
      else if k == |y| + 1 + |m| { }
      else { assert date[k] == d[k - |y| - 2 - |m|] && want[k] == d[k - |y| - 2 - |m|]; }
    }
  }

  /** A truthy supplied date is used verbatim; otherwise the day before now. */
  function TargetDate(date: Option<string>, yesterdayIso: string): (r: string)
    ensures Truthy(date) ==> r == date.value
    ensures !Truthy(date) ==> r == DefaultTargetDate(yesterdayIso)
  {
    if Truthy(date) then date.value else DefaultTargetDate(yesterdayIso)
  }

  const ScriptCommand := "python scripts/opportunity_scraper.py "

  function Command(targetDate: string): (r: string)
    ensures IsPrefix(ScriptCommand, r) && r[|ScriptCommand|..] == targetDate
  {
    ScriptCommand + targetDate
  }

  /** A non-empty stderr fails the run unless it mentions `Warning`. */
  predicate StderrFails(stderr: string) {
    stderr != "" && !Contains(stderr, "Warning")
  }

  /** What `exec` gives back: the script's two streams, or the error it rejects with. */
  datatype ExecOutcome = Ran(stdout: string, stderr: string) | ExecError(message: string)

  /** The request body: not JSON at all (with the parse error), or an object with an optional `date`. */
  datatype Body = NotJson(message: string) | Json(date: Option<string>)

  datatype Response =
    | Unauthorized
    | ScriptError(details: string, stdout: string)
    | Completed(output: string, date: string)
    | InternalError(details: string)

  function Status(r: Response): int {
    match r
    case Unauthorized => 401
    case ScriptError(_, _) => 500
    case Completed(_, _) => 200
    case InternalError(_) => 500
  }

  /** The response and the command run, if one was. */
  datatype Handled = Handled(response: Response, command: Option<string>)

  /** `POST(request)`: `exec` answers for the command it is given. */
  function Post(authHeader: Option<string>, cronSecret: Option<string>, body: Body,
                yesterdayIso: string, exec: string -> ExecOutcome): Handled {
    if !PostAuthorized(authHeader, cronSecret) then Handled(Unauthorized, None)
    else
      match body
      case NotJson(message) => Handled(InternalError(message), None)
      case Json(date) =>
        var targetDate := TargetDate(date, yesterdayIso);
        var command := Command(targetDate);
        match exec(command)
        case ExecError(message) => Handled(InternalError(message), Some(command))
        case Ran(stdout, stderr) =>
          if StderrFails(stderr) then Handled(ScriptError(stderr, stdout), Some(command))
          else Handled(Completed(stdout, targetDate), Some(command))
  }

  /**
   * The script runs exactly for an authorised JSON request, with the target
   * date as its one argument; success echoes that date and the script's
   * output, and needs a stderr that is empty or mentions `Warning`.
   */
  lemma PostRunsScript(authHeader: Option<string>, cronSecret: Option<string>, body: Body,
                       yesterdayIso: string, exec: string -> ExecOutcome)
    ensures var h := Post(authHeader, cronSecret, body, yesterdayIso, exec);
      && (h.command.Some? <==> PostAuthorized(authHeader, cronSecret) && body.Json?)
      && (h.command.Some? ==> h.command == Some(Command(TargetDate(body.date, yesterdayIso))))
      && (Status(h.response) == 200 <==>
            h.command.Some? && exec(h.command.value).Ran? && !StderrFails(exec(h.command.value).stderr))
      && (h.response.Completed? ==> h.response.date == TargetDate(body.date, yesterdayIso)
                                    && h.response.output == exec(h.command.value).stdout)
  {
  }

  /** The request GET sends to POST. */
  datatype Forward = Forward(authorization: string, date: Option<string>)

  datatype GetResponse = GetUnauthorized | Relayed(result: Response) | GetInternalError

  /**
   * `GET(request)`: after the secret check it forwards `{date}` with the
   * bearer header and answers with POST's JSON; `post` is what POST answers,
   * `None` when the fetch itself fails.
   */
  function Get(secret: Option<string>, date: Option<string>, cronSecret: Option<string>,
               post: Forward -> Option<Response>): (r: (GetResponse, Option<Forward>))
    ensures r.1.Some? <==> Cron.Authorized(secret, cronSecret)
  {
    if !Cron.Authorized(secret, cronSecret) then (GetUnauthorized, None)
    else
      var forward := Forward("Bearer " + cronSecret.value, date);
      match post(forward)
      case None => (GetInternalError, Some(forward))
      case Some(result) => (Relayed(result), Some(forward))
  }

  /**
   * A forwarded request always passes POST's check and carries the query's
   * date, so GET with the secret behaves as POST with the bearer token.
   */
  lemma ForwardPassesPost(secret: Option<string>, date: Option<string>, cronSecret: Option<string>,
                          post: Forward -> Option<Response>, yesterdayIso: string, exec: string -> ExecOutcome)
    requires Cron.Authorized(secret, cronSecret)
    ensures var f := Get(secret, date, cronSecret, post).1.value;
      && PostAuthorized(Some(f.authorization), cronSecret)
      && f.date == date
      && Post(Some(f.authorization), cronSecret, Json(f.date), yesterdayIso, exec).response.Unauthorized? == false
  {
  }
}
