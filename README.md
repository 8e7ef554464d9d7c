# IITM net-access login automaton, in Dafny

This project models `IITMNetAccessAutomator`, the class that logs a machine
into the IIT Madras network-access gateway (`https://netaccess.iitm.ac.in`)
and approves its internet access. One run of `automate_login` does four
things:

1. `perform_login` fetches the login page and reads the hidden fields of its
   first form. It POSTs the credentials with those fields and classifies
   the answer by status code and case-insensitive keywords.
2. `handle_access_options` follows the approve link, if the page has one.
   It builds a field map and a submit URL for each form on the approval
   page, and POSTs the forms in order until one is answered with 200.
3. `check_internet_access` probes three endpoints in order and stops at the
   first 200.
4. The run reports SUCCESS whenever the login step handed on a response,
   whatever the approval step or the probe did, and FAILED otherwise.

Throughout, `status` mirrors the last `_notify_status` call.

The model is split into modules:

- `Wrappers` and `Dict` hold the Python values. A `dict` is an
  insertion-ordered association list: `d[k] = v` replaces an existing key
  in place or appends a new one, and `d.update(e)` assigns `e`'s entries
  in order.
- `Text` covers ASCII lower-casing, `startswith`, substring tests and
  `str(n)` for status codes.
- `Http` is the network boundary. The gateway is a function `Server` from
  the requests sent so far and the next request to an answer or a raised
  `RequestException`. The history stands for the session's cookies. A
  `Session` object records every request it sends.
- `Html` is the parser boundary: a page parses to its forms (inputs with
  name, value, type and the parent's text; buttons) and a flag for the
  approve link.
- `Forms` models the hidden-field loop, the approval field map and the
  submit-URL rule.
- `Classify` holds the keyword heuristics.
- `Automaton` is the reference definition of every step, as pure
  functions: what the step returns, which statuses it announces and which
  requests it sends.
- `Automator` holds the class `NetAccessAutomator`. Its methods keep the
  source's loops and state updates and are proved equal to the `Automaton`
  definitions. The ghost `history` records every announcement, and the
  invariant `Valid()` says that `status` is the last one announced and that
  the callback received them all.

Some behaviours of `iitm_login_manager/automator.py` are easy to misread,
and the model states them as the code has them:

- A login page without a form makes `perform_login` return `None` without
  announcing any status (automator.py:83-84, `Automaton.NoFormNoPost`).
- The approval loop returns at the first form whose POST is answered with
  200 (automator.py:251-262); the remaining forms are not POSTed.
- Matching radios, `duration`/`period` inputs and buttons are assigned into
  a dict, so a later one of the same name overwrites an earlier one
  (automator.py:216, 222, 228). The comment "Default to shortest duration
  if available" at automator.py:221 suggests a first-wins choice was
  meant, but the code keeps the last.
- The "already granted" markers are "welcome", "success", "internet
  access" and "activated" (automator.py:275).
- An approval `action` that starts with `http` is not used; it falls back
  to `/account/approve` (automator.py:234-236).
- `get_login_page` calls `raise_for_status()` (automator.py:76), so a 4xx
  or 5xx answer to the login-page GET is a NETWORK_ERROR. Its message has
  the form `"<code> Client Error: <reason> for url: <url>"` (`Server Error`
  for 5xx).

## Model

| member | source | states |
|---|---|---|
| Dict.PutSpec | iitm_login_manager/automator.py:216 | after `d[k] = v`, `k` maps to `v`, every other key keeps its value, the key order is kept (a new key is appended), and keys stay distinct |
| Dict.PutAllGet | iitm_login_manager/automator.py:125 | after `d.update(e)`, a key that `e` binds has `e`'s value, and any other key keeps its value in `d` |
| Dict.PutAllKeys | iitm_login_manager/automator.py:125 | `update` keeps every key of `d` in its place, and keys stay distinct |
| Dict.SelectGet | iitm_login_manager/automator.py:207-228 | a dict filled by a loop binds `k` to `v` exactly when some element assigns `k := v` and no later element assigns `k` again |
| Dict.SelectMissing | iitm_login_manager/automator.py:207-228 | a dict filled by a loop lacks `k` exactly when no element assigns `k` |
| Http.Session.Send | iitm_login_manager/automator.py:241-249 | definition of a request through the shared `requests.Session`: the request is appended to `sent`, and the answer is the gateway's answer given every request sent before it (the session's cookies) |
| Text.ContainsAt | iitm_login_manager/automator.py:147 | `k in s` holds whenever `k` occurs in `s` at some position |
| Text.ContainsWitness | iitm_login_manager/automator.py:147 | whenever `k in s` holds, `k` occurs at some position of `s` |
| Text.KeywordAnywhere | iitm_login_manager/automator.py:147 | a keyword written in any mix of cases anywhere in a text passes `k in text.lower()` |
| Text.NatToStringRoundTrip | iitm_login_manager/automator.py:159 | the digits of `f"{code}"` read back to `code` |
| Forms.HiddenPick | iitm_login_manager/automator.py:88-90 | definition of one pass of the hidden-field loop: an input is assigned exactly when it is `type="hidden"` with a non-empty name and value, and then under that name with that value; see Forms.HiddenFieldsContents |
| Forms.CollectHiddenFields | iitm_login_manager/automator.py:87-90 | the loop builds exactly the hidden-field dict `HiddenFields` |
| Forms.HiddenFieldsContents | iitm_login_manager/automator.py:88-90 | only `type="hidden"` inputs with a non-empty name and value are kept; the last such input with a name wins; names are distinct |
| Automaton.HttpErrorText | iitm_login_manager/automator.py:76 | definition of the `raise_for_status` message that becomes the NETWORK_ERROR text; it begins with the status code's digits |
| Automaton.FetchLoginPage | iitm_login_manager/automator.py:71-101 | a raised GET announces one NETWORK_ERROR carrying the raised cause, and a 4xx/5xx answer one carrying the `raise_for_status` text, both with no info; otherwise nothing is announced, and the info is present exactly when the page has a form, holding its action and hidden fields |
| Automator.NetAccessAutomator.GetLoginPage | iitm_login_manager/automator.py:71-101 | sends one GET of the login URL and returns and announces what `FetchLoginPage` says; keeps `Valid()` |
| Automaton.MergeLoginData | iitm_login_manager/automator.py:118-125 | the loop builds the login body: credential fields, then `update` with the hidden fields |
| Automaton.CredentialFieldsContents | iitm_login_manager/automator.py:118-122 | the credential fields are `userLogin`, `userPassword`, `submit` in that order, with the username, the password and "" |
| Automaton.LoginBodyContents | iitm_login_manager/automator.py:118-125 | a hidden field overrides a credential field of the same name, every other credential field is kept, and all three credential keys are present |
| Classify.ClassifyLogin | iitm_login_manager/automator.py:145-160 | any non-200 status fails with that code, whatever the body; on 200 a logged-in marker wins, an error marker alone rejects, and anything else is taken as logged in |
| Classify.SuccessWordAnywhere | iitm_login_manager/automator.py:147-149 | "logout" or "dashboard" in any case anywhere in a 200 body confirms the login, even next to error words |
| Classify.FailureWordAnywhere | iitm_login_manager/automator.py:150-153 | "invalid" or "error" in any case in a 200 body without a logged-in marker rejects the login |
| Automaton.JudgeLoginAnswer | iitm_login_manager/automator.py:145-165 | a raised POST is NETWORK_ERROR with its text; a rejected body is AUTH_ERROR "Invalid credentials"; the response is handed on exactly when it is a logged-in 200 |
| Automaton.HttpFailureMessage | iitm_login_manager/automator.py:157-160 | a non-200 answer is announced as FAILED "HTTP <digits>", and the digits read back to the status code |
| Automaton.Login | iitm_login_manager/automator.py:103-165 | definition of `perform_login`: it sends nothing exactly when a credential is missing or empty, and it hands on only a 200 answer whose body reads as logged in; see Automaton.LoginShape, Automaton.NoFormNoPost |
| Automaton.LoginShape | iitm_login_manager/automator.py:103-165 | without credentials only AUTH_ERROR is announced and nothing is sent; with them IN_PROGRESS comes first and at most one status follows; the POST is sent exactly when the page step yields a form; a handed-on response is a logged-in 200 answer to that POST |
| Automaton.NoFormNoPost | iitm_login_manager/automator.py:112-115 | a login page without a form ends the step after IN_PROGRESS, with no further status and no POST |
| Automator.NetAccessAutomator.PerformLogin | iitm_login_manager/automator.py:103-165 | returns, announces and sends exactly what `Login` says; keeps `Valid()` |
| Automator.NetAccessAutomator.SubmitCredentials | iitm_login_manager/automator.py:117-165 | sends the login POST built from the credentials and hidden fields, and returns or announces what `JudgeLoginAnswer` makes of the answer |
| Forms.SubmitUrl | iitm_login_manager/automator.py:234-236 | `/x` gives base + `/x`; another non-empty action not starting with `http` gives base + `/` + action; an empty or `http` action gives base + `/account/approve`; the URL always starts with the gateway's base |
| Forms.ApprovalPick | iitm_login_manager/automator.py:207-222 | definition of one pass of the approval input loop: only a named input is assigned, under its name with its value or ""; a named radio is assigned exactly when "day" occurs in any case in its parent's markup or its value; a named hidden or submit input always is; a named input of any other type, or without one (so "text"), is exactly when its lower-cased name is "duration" or "period"; see Forms.RadioDayAnywhere, Forms.ApprovalFieldsContents |
| Forms.RadioDayAnywhere | iitm_login_manager/automator.py:213-216 | a named radio whose parent's markup contains "day" in any case anywhere is assigned, under its name with its value |
| Forms.ButtonPick | iitm_login_manager/automator.py:225-228 | definition of one pass of the button loop: a button is assigned exactly when it is named, under its name with its value or ""; see Forms.ApprovalFieldsContents |
| Forms.CollectApprovalInputs | iitm_login_manager/automator.py:207-222 | the input loop builds exactly the dict of the inputs' assignments |
| Forms.CollectApprovalData | iitm_login_manager/automator.py:203-228 | the two loops build exactly `ApprovalFields` |
| Forms.ApprovalFieldsContents | iitm_login_manager/automator.py:207-228 | a name takes the value of the last named button carrying it, and otherwise that of the last kept input; names are distinct |
| Automaton.TryPosts | iitm_login_manager/automator.py:238-267 | definition of the approval loop from one form on: each POST is sent in turn until one is answered with 200, so it sends at most one POST per remaining form, and an accepted run sent at least one POST; see Automaton.TryPostsSent, Automaton.TryPostsAnswers |
| Automaton.TryForms | iitm_login_manager/automator.py:199-267 | definition of the whole approval loop over the page's forms: at most one POST per form; see Automaton.TryFormsSent, Automaton.TryFormsAnswers, Automaton.SecondFormAccepted |
| Automaton.TryPostsSent | iitm_login_manager/automator.py:199-267 | the loop sends its POSTs in order, stops after the first accepted one, and sends all of them when none is accepted |
| Automaton.TryPostsAnswers | iitm_login_manager/automator.py:199-267 | an accepted result is the 200 answer to the last POST sent; every earlier POST (every POST, if none is accepted) raised or got another status |
| Automaton.TryFormsSent | iitm_login_manager/automator.py:199-267 | the j-th approval POST is the j-th form's POST, and every form is POSTed when none is accepted |
| Automaton.TryFormsAnswers | iitm_login_manager/automator.py:199-267 | the approval loop returns the 200 answer to its last POST, and every earlier POST failed |
| Automaton.SecondFormAccepted | iitm_login_manager/automator.py:238-267 | a failed first form does not stop the loop: an accepted second form's response is returned |
| Automaton.Grant | iitm_login_manager/automator.py:167-279 | definition of `handle_access_options`: it sends nothing exactly when the page has no approve link; see Automaton.GrantShape, Automaton.GrantPosts, Automaton.GrantAnswers |
| Automaton.GrantShape | iitm_login_manager/automator.py:167-189 | without an approve link the login response is returned and nothing is sent; with one, the approval GET comes first, and a raised or non-200 GET returns the login response |
| Automaton.GrantPosts | iitm_login_manager/automator.py:189-249 | after a 200 approval GET, each later request is the next form's POST, in document order |
| Automaton.GrantAnswers | iitm_login_manager/automator.py:189-269 | after a 200 approval GET, every POST but the last failed, and the result is the 200 answer to the last POST or the approval page when every form failed |
| Automator.NetAccessAutomator.HandleAccessOptions | iitm_login_manager/automator.py:167-279 | returns and sends what `Grant` says, and may change only the session, so it never touches `status` |
| Automator.NetAccessAutomator.SubmitApprovalForms | iitm_login_manager/automator.py:199-269 | the loop over forms sends and returns what `TryForms` says |
| Automator.NetAccessAutomator.SubmitApprovalForm | iitm_login_manager/automator.py:201-249 | one pass sends the i-th form's POST to its submit URL and returns the answer |
| Classify.ClassifyGrant | iitm_login_manager/automator.py:255-260 | "authorized" or "approved" reads as authorized, whatever else the body holds; "error" alone reads as a possible failure |
| Classify.GrantWordAnywhere | iitm_login_manager/automator.py:255-256 | either approval word in any case anywhere reads as authorized |
| Classify.GrantedWordAnywhere | iitm_login_manager/automator.py:275 | any of the four "already granted" phrases in any case anywhere makes the page look granted under `Classify.LooksGranted`, the definition of that test |
| Automator.NetAccessAutomator.CheckInternetAccess | iitm_login_manager/automator.py:281-300 | returns true exactly when some endpoint answers 200; probes in list order and stops at the first 200; probes all three before returning false |
| Automaton.Run | iitm_login_manager/automator.py:302-332 | definition of `automate_login`: without credentials the run fails and sends nothing; a successful run sent at least the login-page GET and then a POST to the login URL; see Automaton.RunOutcome, Automaton.ProbeDoesNotDecide, Automaton.RunAnnouncements |
| Automaton.RunOutcome | iitm_login_manager/automator.py:302-332 | a run succeeds exactly when the login step handed on a response, and then ends on SUCCESS whatever the approval step or the probe did; otherwise it ends on FAILED |
| Automaton.ProbeDoesNotDecide | iitm_login_manager/automator.py:320-332 | the probe's verdict changes only the final message: the outcome, the requests, every announcement before the last and the final status are the same |
| Automaton.RunAnnouncements | iitm_login_manager/automator.py:302-311 | without credentials a run sends nothing and announces AUTH_ERROR then FAILED; with them IN_PROGRESS is announced first and only once |
| Automator.NetAccessAutomator.AutomateLogin | iitm_login_manager/automator.py:302-332 | returns, announces and sends what `Run` says; ends with status SUCCESS exactly when it returns true; sets `lastLoginTime` only on success; keeps `Valid()` |
| Automator.NetAccessAutomator.constructor | iitm_login_manager/automator.py:27-50 | stores the credentials, starts with status UNKNOWN, no login times, an empty history and a fresh session |
| Automator.NetAccessAutomator.SetCredentials | iitm_login_manager/automator.py:52-55 | replaces both credentials and nothing else |
| Automator.NetAccessAutomator.NotifyStatus | iitm_login_manager/automator.py:57-62 | sets `status`, appends the announcement, and hands it to the callback if there is one, keeping `Valid()` |
| Automator.NetAccessAutomator.HasCredentialsNow | iitm_login_manager/automator.py:347 | true exactly when both credentials are non-empty, which is exactly when a login step would not stop at AUTH_ERROR |
| Automator.NetAccessAutomator.GetStatusInfo | iitm_login_manager/automator.py:341-349 | reports the status, the login times, the credential test, and internet access exactly when some endpoint answers 200 |

## Left out

- HTTP details: headers, redirects, timeouts and the cookie jar are not modelled. The gateway is a function of the requests sent so far, which stands for the cookies.
- HTML parsing with BeautifulSoup is a parameter (`Parser`). The model does not check how a page yields its forms, its inputs' parent text or its approve link.
- `raise_for_status` text: the message format is the `requests` library's and is reproduced, not derived.
- `log`, `print` and `logging` are left out, and so is the choice of log line made by `ClassifyGrant` and `LooksGranted`. Neither changes what the method returns.
- `time.sleep(10)` is left out. The probe answers are a parameter read after the delay.
- `datetime.now()` is a parameter `now`; ISO formatting of the times is left out.
- `automate_login_async` and its thread are left out.
- The status callback is a sink that returns normally. A callback that raises would propagate out of `_notify_status` (automator.py:60-61) and abort the step; that path is not modelled.
- The `'cookies'` entry of the dict `get_login_page` returns (automator.py:95) is dropped from `LoginInfo`; the cookies live in the request history that `Server` receives.
- `get_status_info` runs a live probe; the model takes the probe answers as a parameter.
- The probe's answers depend only on the URL within one call; network state changing between probes is not modelled.
- `str.lower()` is modelled for ASCII letters only; Python lower-cases all of Unicode.
- `iitm_login_manager/tray.py`, `iitm_login_manager/main.py`, the test scripts and `setup.py` are not part of this model. They are UI, CLI, I/O and packaging.
