/** The order in which the portal service decides the outcome of a login attempt: a visible
    captcha first, then the final URL (no student area, then a pending evaluation), and only
    then the student data; any exception on the way becomes an error outcome. */
module PortalService {
  import opened Wrappers
  import opened Text
  import opened HttpClient

  const CaptchaMessage: string := "Captcha required. Please login via the portal website first to solve the captcha."
  const InvalidMessage: string := "Invalid username or password"
  const EvaluationMessage: string := "TPE Evaluation pending on portal"
  const SuccessMessage: string := "Login successful"

  /** The form posted to the portal's sign-in page. */
  function LoginForm(username: string, password: string): (form: map<string, string>)
    ensures form.Keys == {"UserName", "Password"}
    ensures form["UserName"] == username && form["Password"] == password
  {
    map["UserName" := username, "Password" := password]
  }

  /** What the sign-in request yields: the response page and the URL the redirects end at. */
  datatype LoginResponse = LoginResponse(page: ResponsePage, finalUrl: string)

  /** The `(success, msg, result)` triple `LoginAsync` returns; `result` is null on failure. */
  datatype LoginOutcome<D> = LoginOutcome(success: bool, msg: string, result: Option<D>)

  /** `LoginAsync`. `response` is the sign-in request (`Err` with the message of an exception
      raised while posting or reading it); `studentData` is what fetching and processing the
      student page yields, consulted only once the URL checks have passed. The caught
      exception's message is reported after "Error: ". */
  function LoginAsync<D>(response: Result<LoginResponse>, studentData: Result<D>): (o: LoginOutcome<D>)
    ensures o.success <==> o.result.Some?
  {
    match response
    case Err(message) => LoginOutcome(false, "Error: " + message, None)
    case Ok(r) =>
      if CheckForCaptcha(r.page) then LoginOutcome(false, CaptchaMessage, None)
      else if !LoginSuccessful(r.finalUrl) then LoginOutcome(false, InvalidMessage, None)
      else if EvaluationPending(r.finalUrl) then LoginOutcome(false, EvaluationMessage, None)
      else
        match studentData
        case Err(message) => LoginOutcome(false, "Error: " + message, None)
        case Ok(data) => LoginOutcome(true, SuccessMessage, Some(data))
  }

  /** A visible captcha decides the outcome whatever the final URL and the student data. */
  lemma CaptchaFirst<D>(page: ResponsePage, finalUrl: string, studentData: Result<D>)
    requires CheckForCaptcha(page)
    ensures LoginAsync(Ok(LoginResponse(page, finalUrl)), studentData) == LoginOutcome(false, CaptchaMessage, None)
  {
  }

  /** Without a visible captcha, a final URL outside the student area is reported as bad
      credentials. */
  lemma OutsideStudentArea<D>(page: ResponsePage, finalUrl: string, studentData: Result<D>)
    requires !CheckForCaptcha(page)
    requires forall i :: !OccursAt(finalUrl, StudentPrefix, i)
    ensures LoginAsync(Ok(LoginResponse(page, finalUrl)), studentData) == LoginOutcome(false, InvalidMessage, None)
  {
  }

  /** A final URL that contains the evaluation marker never gives success. */
  lemma EvaluationNeverSucceeds<D>(response: Result<LoginResponse>, studentData: Result<D>, i: int)
    requires response.Ok? && OccursAt(response.value.finalUrl, EvaluationMarker, i)
    ensures !LoginAsync(response, studentData).success
  {
  }

  /** The evaluation page itself lies inside the student area, so at that address the
      evaluation check is the one that answers. */
  lemma EvaluationPageReported<D>(page: ResponsePage, studentData: Result<D>)
    requires !CheckForCaptcha(page)
    ensures LoginAsync(Ok(LoginResponse(page, StudentPrefix + "/Tpe/Start")), studentData) ==
      LoginOutcome(false, EvaluationMessage, None)
  {
    var url := StudentPrefix + "/Tpe/Start";
    assert OccursAt(url, StudentPrefix, 0);
    assert OccursAt(url, EvaluationMarker, 24);
  }

  /** Success, in both directions: the request went through, no captcha is visible, the URL
      is in the student area without the evaluation marker, and the student data was built. */
  lemma SuccessExactly<D>(response: Result<LoginResponse>, studentData: Result<D>)
    ensures LoginAsync(response, studentData).success <==>
      response.Ok? && !CheckForCaptcha(response.value.page) &&
      (exists i :: OccursAt(response.value.finalUrl, StudentPrefix, i)) &&
      (forall i :: !OccursAt(response.value.finalUrl, EvaluationMarker, i)) &&
      studentData.Ok?
    ensures LoginAsync(response, studentData).success ==>
      LoginAsync(response, studentData) == LoginOutcome(true, SuccessMessage, Some(studentData.value))
  {
  }

  /** Every exception is caught: its message comes back after "Error: " with no result. */
  lemma ExceptionsCaught<D>(response: Result<LoginResponse>, studentData: Result<D>)
    requires response.Err? || (response.Ok? && !CheckForCaptcha(response.value.page) &&
      LoginSuccessful(response.value.finalUrl) && !EvaluationPending(response.value.finalUrl) && studentData.Err?)
    ensures var message := if response.Err? then response.error else studentData.error;
      LoginAsync(response, studentData) == LoginOutcome(false, "Error: " + message, None)
  {
  }
}
