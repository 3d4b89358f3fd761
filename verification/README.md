# VTOP login service — decision logic in Dafny

This project models the pure decision logic inside a small service that logs
in to a university portal ("VTOP") through a CAPTCHA-protected form and then
scrapes the timetable page. It also models a few helpers of the older
interactive login script. Network traffic, HTML parsing and the web framework
are not modelled. They become plain data (parsed element trees, response
records) or function-typed parameters:

- `resolve(base, ref)` stands for `urljoin`.
- `fetch(url)` stands for a GET through the session.
- `portal(submission)` stands for the login POST, with redirects followed.

What is modelled:

- **Login page reading** (`LoginPage`). These functions work on the parsed page:
  - The CAPTCHA image source is the `src` of the first image matched by `img#captcha, img[src*='captcha'], img[id*='captcha']`. It is used only if that `src` is non-empty.
  - The login form action is taken from the first form only.
  - The form's inputs are folded into a name→value map. Inputs with a missing or empty name are skipped, a missing value reads as `""`, and the last input with a name wins.
- **Login flow** (`Service`). This covers:
  - what `/login/start` reports;
  - choosing the POST action: the caller's, then the first form's, then `/vtop/doLogin`;
  - assembling the POST fields, with `username`/`password` always replaced and `captchaCode` replaced only when non-empty CAPTCHA text is given;
  - classifying the portal's reply as success, CAPTCHA rejection (401), bad credentials (401) or unrecognised (400), checked in that order;
  - the `/login/finish` result.
- **Timetable scraping** (`Table`). Each row of the first table that has `td` cells becomes one record, kept in document order, and `count` is the number of records. A record is keyed by the header texts when there are headers and exactly as many as cells; otherwise its keys are `col1..colN`.
- **Interactive script helpers** (`Script`):
  - `calsem`, with the month passed in;
  - the cookie-jar-to-dict loop;
  - the exact landing-URL success test.

Supporting modules:

- `Common`: optional values, results, the requests library's notion of an OK status (not 4xx/5xx), first match and filter.
- `Strings`: Python's substring test, ASCII lower-casing, decimal rendering of numbers.
- `Dict`: building a dict by assigning pairs in order, last assignment winning. This one fold underlies `dict(zip(..))`, the `col<i>` comprehension, the form field map and the cookie dicts.
- `Dom`: element trees and the document-order queries `find` and `find_all`.
- `Portal`: the fixed URLs.

Behaviour of the code worth knowing:

- **CAPTCHA image.** The first image in document order matched by any of the three selectors is taken, and an image whose id is exactly `captcha` is one of them. If that first match has no `src`, no later image is tried. Attribute matching is case-sensitive, so an image with id `imgCaptcha` and src `/c.png` matches none of the selectors and no CAPTCHA is detected (`LoginPage.CamelCaseCaptchaIdNotMatched`).
- **Form fields.** An input with an empty `name` is skipped, like one with no `name` at all.
- **Header keying.** The test that the header list is non-empty is redundant in practice: rows without cells are dropped first, so a header list of the row's length is non-empty anyway.
- **Upstream status.** A page counts as fetched when its status is outside 400–599. This is the `ok` property of the HTTP library, so a status of 600 or more also counts as fetched.

One consequence of the success heuristic is worth knowing. A reply with status 200 or 302 whose URL is anything other than the login page counts as a success, whatever its body says. Without a redirect, the reply URL is the POST target, which is normally not the login page (`Service.RedirectAwayIsSuccess`).

## Model

| member | source | states |
|---|---|---|
| `Strings.ContainsIffOccurs` | main.py:150-160 | Python's `word in text` holds exactly when `word` occurs at some position of `text` |
| `Strings.ToLower` | main.py:150 | lower-casing keeps the length, leaves no upper-case ASCII letter, maps each letter `A`–`Z` to its lower-case letter and keeps every other character |
| `Strings.LowerMarkerSurvives` | main.py:150-160 | a lower-case marker word that occurs in a body still occurs in the body after lower-casing |
| `Strings.DecimalRoundTrip` | main.py:194 | reading back the decimal rendering of a number gives the number |
| `Dict.FromPairsKeys` | main.py:123-129 | a dict built by assigning pairs in order has exactly the assigned keys |
| `Dict.FromPairsLast` | main.py:123-129 | each key of such a dict holds the value of the last pair assigning it |
| `Dict.FromPairsSize` | main.py:191 | such a dict never has more keys than there were pairs |
| `Dict.FromPairsDistinctSize` | main.py:194 | with pairwise distinct keys it has one key per pair |
| `Dom.FindAll` | main.py:183-186 | `find_all(tag)` yields only elements with that tag below the given elements, and every such element |
| `Dom.FindAllAppend` | main.py:183-186 | `find_all` over a list of elements is the `find_all` results of the parts, concatenated in order |
| `Dom.FindAllNode` | main.py:183-186 | `find_all` below one element yields the element itself first when it has the tag, then the matches among its children in order |
| `Dom.Find` | main.py:67 | `find(tag)` yields the first element with that tag in document order, and nothing only when there is no such element |
| `LoginPage.FindCaptchaSrc` | main.py:58-63 | the CAPTCHA source is the `src` of the first matching image if that `src` is non-empty; nothing if that first image has no usable `src` or no image matches; a reported source is never empty |
| `LoginPage.CamelCaseCaptchaIdNotMatched` | main.py:60-63 | an image with id `imgCaptcha` and src `/c.png` matches none of the selectors, so no CAPTCHA source is found |
| `LoginPage.CaptchaSrcIgnoresLaterContent` | main.py:60-63 | once a matching image exists, content after it never changes the detected source |
| `LoginPage.FindLoginAction` | main.py:66-70 | an action is found exactly when the first form has a non-empty `action`, and it is that attribute |
| `LoginPage.LoginActionIgnoresLaterForms` | main.py:66-70 | forms after the first are never consulted for the action |
| `LoginPage.FieldMapKeys` | main.py:122-129 | the field names are exactly the names of the form's inputs whose `name` is present and non-empty |
| `LoginPage.FieldMapLastWins` | main.py:125-129 | each field holds the value of the last input with that name, `""` when it has no `value` |
| `Table.ColKeyInjective` | main.py:194 | synthetic keys `col<i>` of different positions differ |
| `Table.HeaderRowSpec` | main.py:190-191 | a header-keyed record has exactly the headers as keys, each header holds the cell at its last position, and there are at most as many keys as headers |
| `Table.ColRowSpec` | main.py:192-194 | a fallback record has exactly the keys `col1..colN`, N the number of cells, and `col<i>` holds the i-th cell |
| `Table.BuildRowSpec` | main.py:189-194 | a row is header-keyed when the headers are non-empty and as many as its cells; otherwise it is keyed by `col1..colN` |
| `Table.KeptRowsSpec` | main.py:185-188 | dropping rows without cells keeps every other row in order: it distributes over concatenation and keeps a single row exactly when it has cells |
| `Table.TableToRecords` | main.py:184-197 | one record per row with cells, the k-th record built from the k-th such row, and `count` equal to the number of records |
| `Table.RowCells` | main.py:185-189 | one cell list per `tr` element below the table, in order; the i-th list holds the stripped texts of that row's `td` elements, in order |
| `Table.TimetableUrl` | main.py:171 | the caller's non-empty URL, else the fixed default; never empty |
| `Table.GetTimetable` | main.py:165-197 | a failed fetch gives 502 with the status in the detail; a page without a table gives 404; otherwise the records of the first table's rows |
| `Service.LoginStart` | main.py:76-101 | a failed login-page fetch gives 502; otherwise a CAPTCHA is needed exactly when a source was found, the image is the body fetched from the source resolved against the login page when that fetch succeeds and absent otherwise, and the first form's action is passed back |
| `Service.ChooseAction` | main.py:116-118 | the action is the caller's non-empty value, else the first form's non-empty action, else `/vtop/doLogin`; never empty |
| `Service.ChooseActionIgnoresLaterForms` | main.py:116-118 | forms after the first never change the chosen action |
| `Service.BuildPayload` | main.py:134-139 | the submitted keys are the form's keys plus `username`, `password`, and `captchaCode` when CAPTCHA text is given; `username`/`password` are the caller's; `captchaCode` is overwritten only for non-empty text; all other fields are unchanged |
| `Service.PrepareSubmission` | main.py:115-147 | the POST goes to the resolved chosen action; its fields are the payload built from the first form's fields and the caller's credentials, so the caller's username and password, the CAPTCHA text when non-empty, and the form's other fields unchanged |
| `Service.Classify` | main.py:150-163 | success exactly when the status is 200 or 302 and the lower-cased body mentions "logout" or "dashboard" or the URL is not the login page; otherwise "captcha" wins over "invalid"/"incorrect", and anything else is unrecognised |
| `Service.ClassifyByOccurrence` | main.py:150-163 | the same four outcomes stated as occurrences of the marker words in the lower-cased body |
| `Service.ClassifyIgnoresCase` | main.py:150-160 | lower-casing the body first never changes the outcome |
| `Service.RedirectAwayIsSuccess` | main.py:150 | a 200/302 reply at any URL other than the login page is a success whatever the body says |
| `Service.DashboardIsSuccess` | main.py:150 | a 200 reply whose body contains "dashboard" is a success even at the login page URL |
| `Service.CaptchaComplaintTakesPriority` | main.py:158-161 | a failed reply mentioning "captcha" is a CAPTCHA rejection even if it also mentions bad credentials |
| `Service.FailureError` | main.py:158-163 | CAPTCHA and credential failures are reported as 401, the unrecognised failure as 400, each with its own detail message |
| `Service.FailureErrorsDistinct` | main.py:158-163 | the three failure outcomes give three different errors |
| `Service.LoginFinish` | main.py:103-163 | a failed login-page fetch gives 502; otherwise the result is a session exactly when the reply classifies as success, carrying the landing URL and the cookie dict built from the session's cookies (last cookie per name wins); any other outcome is the 400 or 401 error its classification maps to |
| `Script.CalSem` | Login.py:12-18 | the semester code is "FS" exactly for months 7 to 12 and "WS" for every other value |
| `Script.CalSemCalendar` | Login.py:14-17 | January to June give "WS", July to December give "FS" |
| `Script.CookieDict` | Login.py:58-60 | the cookie dict's keys are exactly the jar's cookie names, and each holds the value of the last cookie with that name |
| `Script.LoginReport` | Login.py:62-65 | "Successfully Logged In" exactly when the landing URL is the home page, otherwise "Recheck Credentials" |

## Left out

- Cookie token codec (`encode_cookies`/`decode_cookies`, main.py:49-55). It is a wrapper over base64 and JSON. Its failure on a malformed token surfaces as an unhandled error in `login_finish` and is not modelled either.
- HTTP sessions, timeouts, redirects and `Set-Cookie` handling are I/O. The session's cookies after the login POST are the `jar` parameter of `Service.LoginFinish`.
- `urljoin`, the reference resolution of section 5.2 of RFC 3986, is the `resolve` parameter and is not modelled.
- HTML parsing is outside the model, which starts from the parser's element tree. Each element's `text` field stands for `get_text(strip=True)`.
- The CSS selector engine is reduced to the three selectors used. Attribute values are matched case-sensitively.
- Base64 encoding of the CAPTCHA image is left out: `Service.LoginStart` returns the image body as received.
- The web framework is left out: routing, request validation, CORS, the `/health` endpoint, and exceptions as transport. Errors are `HttpError` values.
- CAPTCHA recognition in Login.py is an external recogniser whose source is not part of this model.
- Login.py's top-level browser session is left out: opening pages, `find('img', id='imgCaptcha')`, filling `regno`/`vrfcd`/`passwd` and submitting (Login.py:20-50). These are browser I/O and console input. The current month is a parameter of `Script.CalSem`.
- `str.lower` is modelled for ASCII letters only. Unicode case mapping is left out.
