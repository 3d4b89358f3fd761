/**
 The two-phase login of the HTTP service (main.py `login_start` and
 `login_finish`): deciding what to report after reading the login page,
 assembling the form submission, and classifying the portal's reply.
 Network calls and URL resolution are parameters:
   `resolve(base, ref)`  stands for `urljoin`,
   `fetch(url)`          for a GET through the session,
   `portal(submission)`  for the form POST (redirects followed).
 */
module Service {
  import opened Common
  import opened Strings
  import opened Dom
  import opened LoginPage
  import Dict
  import Portal

  /** The body of a successful `/login/start`, without the opaque cookie token. */
  datatype StartResponse = StartResponse(captchaNeeded: bool, captchaImage: Option<string>, loginFormAction: Option<string>)

  /**
   `/login/start`: a failed login-page fetch gives 502; otherwise the CAPTCHA
   is reported needed exactly when a source was found, its image is fetched
   (relative to the login page) and included only when that fetch succeeds,
   and the first form's action is passed back.
   */
  function LoginStart(page: Page, resolve: (string, string) -> string, fetch: string -> Response): (r: Result<StartResponse>)
    ensures !IsOk(page.status) <==> r.Err?
    ensures r.Err? ==> r.error == HttpError(502, "Failed to open login page")
    ensures r.Ok? ==> (r.value.captchaNeeded <==> FindCaptchaSrc(page.doc).Some?)
    ensures r.Ok? ==> r.value.loginFormAction == FindLoginAction(page.doc)
    ensures r.Ok? && r.value.captchaImage.Some? ==> r.value.captchaNeeded
    ensures r.Ok? && FindCaptchaSrc(page.doc).Some? ==>
      var image := fetch(resolve(Portal.LOGIN_PAGE_URL, FindCaptchaSrc(page.doc).value));
      r.value.captchaImage == if IsOk(image.status) then Some(image.body) else None
  {
    if !IsOk(page.status) then Err(HttpError(502, "Failed to open login page"))
    else
      var src := FindCaptchaSrc(page.doc);
      var image :=
        if src.Some? then
          var reply := fetch(resolve(Portal.LOGIN_PAGE_URL, src.value));
          if IsOk(reply.status) then Some(reply.body) else None
        else None;
      Ok(StartResponse(src.Some?, image, FindLoginAction(page.doc)))
  }

  /** What `/login/finish` receives, without the opaque cookie token. */
  datatype FinishRequest = FinishRequest(username: string, password: string, captchaText: Option<string>, loginFormAction: Option<string>)

  /**
   The action posted to: the caller's non-empty action, else the first form's
   non-empty action, else the fallback path. It is never empty.
   */
  function ChooseAction(requested: Option<string>, doc: seq<Node>): (a: string)
    ensures a != ""
    ensures Truthy(requested) ==> a == requested.value
    ensures !Truthy(requested) && FindLoginAction(doc).Some? ==> a == FindLoginAction(doc).value
    ensures !Truthy(requested) && FindLoginAction(doc).None? ==> a == Portal.FALLBACK_ACTION
  {
    if Truthy(requested) then requested.value
    else match FindLoginAction(doc)
      case Some(action) => action
      case None => Portal.FALLBACK_ACTION
  }

  /** Forms after the first never influence the chosen action. */
  lemma ChooseActionIgnoresLaterForms(requested: Option<string>, doc: seq<Node>, more: seq<Node>)
    requires exists i :: 0 <= i < |FlattenAll(doc)| && FlattenAll(doc)[i].tag == "form"
    ensures ChooseAction(requested, doc + more) == ChooseAction(requested, doc)
  {
    LoginActionIgnoresLaterForms(doc, more);
  }

  /**
   The submitted fields: the form's own fields with `username` and `password`
   replaced by the caller's, and `captchaCode` replaced only when CAPTCHA text
   was given and is non-empty. Every other form field passes through unchanged.
   */
  function BuildPayload(fields: map<string, string>, username: string, password: string, captchaText: Option<string>)
    : (data: map<string, string>)
    ensures data.Keys == fields.Keys + {"username", "password"} + (if Truthy(captchaText) then {"captchaCode"} else {})
    ensures data["username"] == username && data["password"] == password
    ensures Truthy(captchaText) ==> data["captchaCode"] == captchaText.value
    ensures !Truthy(captchaText) && "captchaCode" in fields ==> data["captchaCode"] == fields["captchaCode"]
    ensures forall k :: k in fields && k !in {"username", "password", "captchaCode"} ==> data[k] == fields[k]
  {
    var data := fields["username" := username]["password" := password];
    if Truthy(captchaText) then data["captchaCode" := captchaText.value] else data
  }

  /** A form POST: the resolved target and the form-encoded fields. */
  datatype Submission = Submission(url: string, data: map<string, string>)

  /** The POST `login_finish` sends, given the freshly fetched login page. */
  function PrepareSubmission(req: FinishRequest, doc: seq<Node>, resolve: (string, string) -> string): (s: Submission)
    ensures s.url == resolve(Portal.LOGIN_PAGE_URL, ChooseAction(req.loginFormAction, doc))
    ensures "username" in s.data && s.data["username"] == req.username
    ensures "password" in s.data && s.data["password"] == req.password
    ensures forall k :: k in FormFields(doc) && k !in {"username", "password", "captchaCode"} ==>
      k in s.data && s.data[k] == FormFields(doc)[k]
    ensures s.data == BuildPayload(FormFields(doc), req.username, req.password, req.captchaText)
    ensures Truthy(req.captchaText) ==> "captchaCode" in s.data && s.data["captchaCode"] == req.captchaText.value
  {
    Submission(
      resolve(Portal.LOGIN_PAGE_URL, ChooseAction(req.loginFormAction, doc)),
      BuildPayload(FormFields(doc), req.username, req.password, req.captchaText))
  }

  /** How the portal's reply to the login POST is read. */
  datatype LoginOutcome = LoggedIn | CaptchaRejected | BadCredentials | Unrecognised

  /** The success heuristic: an OK-ish status and a logged-in marker or a move away from the login page. */
  predicate LooksLoggedIn(reply: Response)
  {
    var body := ToLower(reply.body);
    && (reply.status == 200 || reply.status == 302)
    && (Contains(body, "logout") || Contains(body, "dashboard") || reply.url != Portal.LOGIN_PAGE_URL)
  }

  /** The failure checks, in order: CAPTCHA words first, then credential words. */
  function Classify(reply: Response): (o: LoginOutcome)
    ensures o == LoggedIn <==> LooksLoggedIn(reply)
    ensures o == CaptchaRejected <==> !LooksLoggedIn(reply) && Contains(ToLower(reply.body), "captcha")
    ensures o == BadCredentials <==>
      && !LooksLoggedIn(reply)
      && !Contains(ToLower(reply.body), "captcha")
      && (Contains(ToLower(reply.body), "invalid") || Contains(ToLower(reply.body), "incorrect"))
  {
    var body := ToLower(reply.body);
    if LooksLoggedIn(reply) then LoggedIn
    else if Contains(body, "captcha") then CaptchaRejected
    else if Contains(body, "invalid") || Contains(body, "incorrect") then BadCredentials
    else Unrecognised
  }

  /** The lower-cased body has an occurrence of `word`. */
  ghost predicate Mentions(body: string, word: string)
  {
    exists i: nat :: OccursAt(word, ToLower(body), i)
  }

  /** The classification in terms of occurrences of the marker words in the lower-cased body. */
  lemma ClassifyByOccurrence(reply: Response)
    ensures var b := reply.body;
      Classify(reply) == LoggedIn <==>
        && (reply.status == 200 || reply.status == 302)
        && (Mentions(b, "logout") || Mentions(b, "dashboard") || reply.url != Portal.LOGIN_PAGE_URL)
    ensures var b := reply.body;
      Classify(reply) == CaptchaRejected <==> Classify(reply) != LoggedIn && Mentions(b, "captcha")
    ensures var b := reply.body;
      Classify(reply) == BadCredentials <==>
        && Classify(reply) != LoggedIn
        && !Mentions(b, "captcha")
        && (Mentions(b, "invalid") || Mentions(b, "incorrect"))
    ensures var b := reply.body;
      Classify(reply) == Unrecognised <==>
        && Classify(reply) != LoggedIn
        && !Mentions(b, "captcha") && !Mentions(b, "invalid") && !Mentions(b, "incorrect")
  {
    var lower := ToLower(reply.body);
    ContainsIffOccurs(lower, "logout");
    ContainsIffOccurs(lower, "dashboard");
    ContainsIffOccurs(lower, "captcha");
    ContainsIffOccurs(lower, "invalid");
    ContainsIffOccurs(lower, "incorrect");
  }

  /** Only the letters' case-insensitive content of the body matters to the classification. */
  lemma ClassifyIgnoresCase(reply: Response)
    ensures Classify(reply) == Classify(Response(reply.status, reply.url, ToLower(reply.body)))
  {
    ToLowerIdempotent(reply.body);
  }

  /** A 200 or 302 reply that lands anywhere but the login page is a success, whatever the body says. */
  lemma RedirectAwayIsSuccess(reply: Response)
    requires reply.status == 200 || reply.status == 302
    requires reply.url != Portal.LOGIN_PAGE_URL
    ensures Classify(reply) == LoggedIn
  {
  }

  /** A body mentioning "dashboard" with status 200 is a success even on the login page itself. */
  lemma DashboardIsSuccess(reply: Response, i: nat)
    requires reply.status == 200
    requires OccursAt("dashboard", reply.body, i)
    ensures Classify(reply) == LoggedIn
  {
    LowerMarkerSurvives(reply.body, "dashboard", i);
  }

  /** On a reply that is not a success, a CAPTCHA complaint wins over a credential complaint. */
  lemma CaptchaComplaintTakesPriority(reply: Response, i: nat)
    requires !LooksLoggedIn(reply)
    requires OccursAt("captcha", reply.body, i)
    ensures Classify(reply) == CaptchaRejected
  {
    LowerMarkerSurvives(reply.body, "captcha", i);
  }

  /** The error a failed login is reported with; the four outcomes map to three distinct errors. */
  function FailureError(o: LoginOutcome): (e: HttpError)
    requires o != LoggedIn
    ensures e.status == 401 <==> o == CaptchaRejected || o == BadCredentials
    ensures e.status == 400 <==> o == Unrecognised
    ensures o == CaptchaRejected ==> e.detail == "Captcha required or incorrect"
    ensures o == BadCredentials ==> e.detail == "Invalid credentials"
    ensures o == Unrecognised ==> e.detail == "Login failed; check form field names/action URL"
  {
    match o
    case CaptchaRejected => HttpError(401, "Captcha required or incorrect")
    case BadCredentials => HttpError(401, "Invalid credentials")
    case Unrecognised => HttpError(400, "Login failed; check form field names/action URL")
  }

  /** Different failure outcomes are reported differently. */
  lemma FailureErrorsDistinct(o: LoginOutcome, o': LoginOutcome)
    requires o != LoggedIn && o' != LoggedIn && o != o'
    ensures FailureError(o) != FailureError(o')
  {
  }

  /** The body of a successful `/login/finish`. */
  datatype Session = Session(cookies: map<string, string>, landingUrl: string)

  /**
   `/login/finish`: re-read the login page (502 if that fails), post the
   assembled submission, and report the session cookies (`jar`, in jar order,
   after the POST) and landing URL on success, or the classified error.
   */
  function LoginFinish(req: FinishRequest, page: Page, resolve: (string, string) -> string,
                       portal: Submission -> Response, jar: Dict.Pairs): (r: Result<Session>)
    ensures !IsOk(page.status) ==> r == Err(HttpError(502, "Failed to open login page (finish)"))
    ensures IsOk(page.status) ==>
      var reply := portal(PrepareSubmission(req, page.doc, resolve));
      && (r.Ok? <==> Classify(reply) == LoggedIn)
      && (r.Ok? ==> r.value.landingUrl == reply.url && r.value.cookies.Keys == Dict.Names(jar))
      && (r.Ok? ==> r.value.cookies == Dict.FromPairs(jar))
      && (r.Err? ==> r.error.status in {400, 401})
      && (r.Err? ==> r.error == FailureError(Classify(reply)))
  {
    if !IsOk(page.status) then Err(HttpError(502, "Failed to open login page (finish)"))
    else
      var reply := portal(PrepareSubmission(req, page.doc, resolve));
      var outcome := Classify(reply);
      if outcome == LoggedIn then
        Dict.FromPairsKeys(jar);
        Ok(Session(Dict.FromPairs(jar), reply.url))
      else Err(FailureError(outcome))
  }
}
