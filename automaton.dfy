/**
 * The reference definition of one run of the login automaton: for each
 * step, what it returns, which statuses it announces and which requests
 * its session sends, given how the gateway answers (`Server`), how pages
 * parse (`Parser`) and which requests the session sent before.
 * The class in module Automator is proved to behave exactly so.
 */
module Automaton {
  import opened Wrappers
  import opened Dict
  import opened Text
  import opened Http
  import opened Html
  import opened Forms
  import opened Classify

  /** `LoginStatus` */
  datatype Status = Success | Failed | InProgress | NetworkError | AuthError | Unknown

  /** One `_notify_status(status, message)` call. */
  datatype Event = Event(status: Status, message: string)

  const LoginUrl := BaseUrl + "/account/login"
  const ApproveUrl := BaseUrl + ApprovePath

  /** The endpoints `check_internet_access` probes, in order. */
  const TestUrls := ["https://www.google.com", "https://httpbin.org/ip", "https://www.cloudflare.com"]

  /** The status after a history of notifications: that of the last one, UNKNOWN before any. */
  function LastStatus(history: seq<Event>): Status {
    if history == [] then Unknown else history[|history| - 1].status
  }

  /** `username and password` is truthy: both present and non-empty. */
  predicate HasCredentials(user: Option<string>, pass: Option<string>) {
    Truthy(user) && Truthy(pass)
  }

  // ---------------------------------------------------------------------
  // get_login_page

  /** What `get_login_page` returns when it finds the form: its action and its hidden fields. */
  datatype LoginInfo = LoginInfo(formAction: string, hiddenFields: Dict<string, string>)

  /** The text of the error `raise_for_status` raises for a 4xx or 5xx response. */
  function HttpErrorText(r: Response): (s: string)
    requires 400 <= r.code < 600
    ensures StartsWith(s, NatToString(r.code))
  {
    NatToString(r.code) + (if r.code < 500 then " Client Error: " else " Server Error: ") +
    r.reason + " for url: " + r.url
  }

  /** What `get_login_page` returns and announces; it always sends exactly one GET of the login URL. */
  datatype PageStep = PageStep(info: Option<LoginInfo>, events: seq<Event>)

  /**
   * The page step fails with a NETWORK_ERROR when the GET raises or is
   * answered with a 4xx or 5xx status; it fails silently when the page has
   * no form; otherwise it yields the first form's action and hidden fields.
   */
  function FetchLoginPage(server: Server, parse: Parser, h: seq<Request>): (p: PageStep)
    ensures server(h, Get(LoginUrl)).Raised? ==>
      p == PageStep(None, [Event(NetworkError, server(h, Get(LoginUrl)).cause)])
    ensures server(h, Get(LoginUrl)).Answered? && 400 <= server(h, Get(LoginUrl)).resp.code < 600 ==>
      p == PageStep(None, [Event(NetworkError, HttpErrorText(server(h, Get(LoginUrl)).resp))])
    ensures p.info.Some? ==> p.events == []
    ensures p.events == [] || (|p.events| == 1 && p.events[0].status == NetworkError && p.info.None?)
    ensures p.events == [] <==>
      server(h, Get(LoginUrl)).Answered? && !(400 <= server(h, Get(LoginUrl)).resp.code < 600)
    ensures p.info.Some? <==> p.events == [] && parse(server(h, Get(LoginUrl)).resp.body).forms != []
    ensures p.info.Some? ==>
      var form := parse(server(h, Get(LoginUrl)).resp.body).forms[0];
      p.info.value == LoginInfo(form.action.GetOr(""), HiddenFields(form))
  {
    match server(h, Get(LoginUrl))
    case Raised(cause) => PageStep(None, [Event(NetworkError, cause)])
    case Answered(r) =>
      if 400 <= r.code < 600 then PageStep(None, [Event(NetworkError, HttpErrorText(r))])
      else
        var doc := parse(r.body);
        if doc.forms == [] then PageStep(None, [])
        else PageStep(Some(LoginInfo(doc.forms[0].action.GetOr(""), HiddenFields(doc.forms[0]))), [])
  }

  // ---------------------------------------------------------------------
  // perform_login

  /** The credential fields of the login POST, in the order the source writes them. */
  function CredentialFields(user: string, pass: string): Dict<string, string> {
    [Entry("userLogin", user), Entry("userPassword", pass), Entry("submit", "")]
  }

  /** `login_data` after `login_data.update(hidden_fields)`. */
  function LoginBody(user: string, pass: string, hidden: Dict<string, string>): Dict<string, string> {
    PutAll(CredentialFields(user, pass), hidden)
  }

  /** The `login_data.update(hidden_fields)` step, assigning the hidden fields one by one. */
  method MergeLoginData(user: string, pass: string, hidden: Dict<string, string>) returns (data: Dict<string, string>)
    ensures data == LoginBody(user, pass, hidden)
  {
    data := [Entry("userLogin", user), Entry("userPassword", pass), Entry("submit", "")];
    for i := 0 to |hidden|
      invariant data == PutAll(CredentialFields(user, pass), hidden[..i])
    {
      PutAllSnoc(CredentialFields(user, pass), hidden[..i], hidden[i]);
      assert hidden[..i + 1] == hidden[..i] + [hidden[i]];
      data := Put(data, hidden[i].key, hidden[i].val);
    }
    assert hidden[..|hidden|] == hidden;
  }

  /** The three credential fields, in order, with the username, the password and "". */
  lemma CredentialFieldsContents(user: string, pass: string)
    ensures Keys(CredentialFields(user, pass)) == ["userLogin", "userPassword", "submit"]
    ensures Lookup(CredentialFields(user, pass), "userLogin") == Some(user)
    ensures Lookup(CredentialFields(user, pass), "userPassword") == Some(pass)
    ensures Lookup(CredentialFields(user, pass), "submit") == Some("")
  {
    var c := CredentialFields(user, pass);
    var c2 := [Entry("userLogin", user), Entry("userPassword", pass)];
    var c1 := [Entry("userLogin", user)];
    assert c[..2] == c2 && c2[..1] == c1 && c1[..0] == [];
    assert "submit"[0] != "userLogin"[0] && "submit"[0] != "userPassword"[0];
    assert "userPassword"[4] != "userLogin"[4];
    assert Lookup(c1, "userLogin") == Some(user);
    assert Lookup(c2, "userLogin") == Some(user);
  }

  /**
   * The login body sends the username as `userLogin`, the password as
   * `userPassword` and an empty `submit`, in that order, followed by every
   * hidden field; a hidden field whose name collides with a credential field
   * overrides it, and every hidden field is sent with its value verbatim.
   */
  lemma LoginBodyContents(user: string, pass: string, hidden: Dict<string, string>, k: string)
    ensures Lookup(LoginBody(user, pass, hidden), k) ==
      if Lookup(hidden, k).Some? then Lookup(hidden, k) else Lookup(CredentialFields(user, pass), k)
    ensures ["userLogin", "userPassword", "submit"] <= Keys(LoginBody(user, pass, hidden))
  {
    CredentialFieldsContents(user, pass);
    PutAllGet(CredentialFields(user, pass), hidden, k);
    PutAllKeys(CredentialFields(user, pass), hidden);
  }

  /** What `perform_login` returns and announces, and the requests its session sends. */
  datatype LoginStep = LoginStep(result: Option<Response>, events: seq<Event>, sent: seq<Request>)

  /** The login POST built from the page step's hidden fields. */
  function LoginPost(user: string, pass: string, info: LoginInfo): Request {
    Post(LoginUrl, LoginBody(user, pass, info.hiddenFields))
  }

  /** What `perform_login` makes of the answer to its POST: hand the response on, or announce a status. */
  datatype Judgement = HandOn(resp: Response) | Announce(event: Event)

  /**
   * A raised request is a NETWORK_ERROR with its text; a status other than
   * 200 is FAILED with "HTTP <code>", from which the code can be read back;
   * a rejected body is AUTH_ERROR "Invalid credentials"; any other answer is
   * handed on.
   */
  function JudgeLoginAnswer(o: Outcome): (j: Judgement)
    ensures o.Raised? ==> j == Announce(Event(NetworkError, o.cause))
    ensures j.HandOn? <==> o.Answered? && LoggedIn(ClassifyLogin(o.resp))
    ensures j.HandOn? ==> j.resp == o.resp
    ensures o.Answered? && ClassifyLogin(o.resp) == Rejected ==>
      j == Announce(Event(AuthError, "Invalid credentials"))
  {
    match o
    case Raised(cause) => Announce(Event(NetworkError, cause))
    case Answered(r) =>
      match ClassifyLogin(r)
      case HttpFailure(code) => Announce(Event(Failed, "HTTP " + NatToString(code)))
      case Rejected => Announce(Event(AuthError, "Invalid credentials"))
      case _ => HandOn(r)
  }

  /** A status other than 200 is announced as FAILED with a message from which the code reads back. */
  lemma HttpFailureMessage(r: Response)
    requires r.code != 200
    ensures var j := JudgeLoginAnswer(Answered(r));
      && j.Announce? && j.event.status == Failed
      && |j.event.message| > 5 && j.event.message[..5] == "HTTP "
      && (forall i :: 5 <= i < |j.event.message| ==> IsDigit(j.event.message[i]))
      && DigitsValue(j.event.message[5..]) == r.code
  {
    var m := JudgeLoginAnswer(Answered(r)).event.message;
    assert m == "HTTP " + NatToString(r.code);
    assert m[5..] == NatToString(r.code);
    NatToStringRoundTrip(r.code);
  }

  /**
   * `perform_login`. Without credentials it announces AUTH_ERROR and sends
   * nothing. Otherwise it announces IN_PROGRESS, fetches the login page and,
   * if that yields a form, POSTs the login body and judges the answer.
   */
  function Login(user: Option<string>, pass: Option<string>, server: Server, parse: Parser, h: seq<Request>): (t: LoginStep)
    ensures t.sent == [] <==> !HasCredentials(user, pass)
    ensures t.result.Some? ==> t.result.value.code == 200 && LoggedIn(ClassifyLogin(t.result.value))
  {
    if !HasCredentials(user, pass) then
      LoginStep(None, [Event(AuthError, "No credentials provided")], [])
    else
      var start := [Event(InProgress, "Logging in...")];
      var page := FetchLoginPage(server, parse, h);
      if page.info.None? then
        LoginStep(None, start + page.events, [Get(LoginUrl)])
      else
        var post := LoginPost(user.value, pass.value, page.info.value);
        match JudgeLoginAnswer(server(h + [Get(LoginUrl)], post))
        case HandOn(r) => LoginStep(Some(r), start, [Get(LoginUrl), post])
        case Announce(e) => LoginStep(None, start + [e], [Get(LoginUrl), post])
  }

  /**
   * Without credentials the step announces only AUTH_ERROR and sends
   * nothing. With them it announces IN_PROGRESS first, then at most one
   * more status, and sends the GET of the login page; it sends the login
   * POST exactly when the page step yields a form. It hands on only a 200
   * answer to that POST whose body it judges logged in, and then announces
   * nothing after IN_PROGRESS.
   */
  lemma LoginShape(user: Option<string>, pass: Option<string>, server: Server, parse: Parser, h: seq<Request>)
    ensures var t := Login(user, pass, server, parse, h);
      && (!HasCredentials(user, pass) ==>
            t == LoginStep(None, [Event(AuthError, "No credentials provided")], []))
      && (HasCredentials(user, pass) ==>
            1 <= |t.events| <= 2 && t.events[0] == Event(InProgress, "Logging in...") &&
            1 <= |t.sent| <= 2 && t.sent[0] == Get(LoginUrl))
      && (|t.sent| == 2 <==> HasCredentials(user, pass) && FetchLoginPage(server, parse, h).info.Some?)
      && (|t.sent| == 2 ==>
            t.sent[1] == LoginPost(user.value, pass.value, FetchLoginPage(server, parse, h).info.value) &&
            (|t.events| == 2 <==> t.result.None?))
      && (t.result.Some? ==>
            |t.sent| == 2 && t.events == [Event(InProgress, "Logging in...")] &&
            server(h + [t.sent[0]], t.sent[1]) == Answered(t.result.value) &&
            t.result.value.code == 200 && LoggedIn(ClassifyLogin(t.result.value)))
  {
  }

  /** A login page without a form ends the step with no status beyond IN_PROGRESS and no POST. */
  lemma NoFormNoPost(user: Option<string>, pass: Option<string>, server: Server, parse: Parser, h: seq<Request>)
    requires HasCredentials(user, pass)
    requires server(h, Get(LoginUrl)).Answered?
    requires !(400 <= server(h, Get(LoginUrl)).resp.code < 600)
    requires parse(server(h, Get(LoginUrl)).resp.body).forms == []
    ensures Login(user, pass, server, parse, h) ==
      LoginStep(None, [Event(InProgress, "Logging in...")], [Get(LoginUrl)])
  {
  }

  // ---------------------------------------------------------------------
  // handle_access_options

  /** The POST `handle_access_options` sends for an approval form. */
  function FormRequest(f: Form): Request {
    Post(SubmitUrl(f.action.GetOr("")), ApprovalFields(f))
  }

  /** The POSTs for a page's forms, in document order. */
  function FormRequests(fs: seq<Form>): (rs: seq<Request>)
    ensures |rs| == |fs|
  {
    if fs == [] then [] else [FormRequest(fs[0])] + FormRequests(fs[1..])
  }

  lemma {:induction false} FormRequestsAt(fs: seq<Form>, i: nat)
    requires i < |fs|
    ensures FormRequests(fs)[i] == FormRequest(fs[i])
    decreases |fs|
  {
    if i > 0 {
      FormRequestsAt(fs[1..], i - 1);
    }
  }

  /** The answer the approval loop returns, if a form was accepted, and the POSTs it sent. */
  datatype Attempts = Attempts(accepted: Option<Response>, sent: seq<Request>)

  /** A run of approval POSTs that failed, followed by the rest of the loop. */
  function After(sent: seq<Request>, a: Attempts): Attempts {
    Attempts(a.accepted, sent + a.sent)
  }

  /**
   * The approval loop from its `i`-th POST on: each POST is sent in turn
   * until one is answered with status 200.
   */
  function TryPosts(reqs: seq<Request>, i: nat, server: Server, h: seq<Request>): (a: Attempts)
    requires i <= |reqs|
    ensures |a.sent| <= |reqs| - i
    ensures a.accepted.Some? ==> a.sent != []
    decreases |reqs| - i
  {
    if i == |reqs| then Attempts(None, [])
    else
      var o := server(h, reqs[i]);
      if IsOk200(o) then Attempts(Some(o.resp), [reqs[i]])
      else After([reqs[i]], TryPosts(reqs, i + 1, server, h + [reqs[i]]))
  }

  /** One more POST of the loop, after the failed POSTs `done`. */
  lemma TryPostsStep(reqs: seq<Request>, i: nat, server: Server, done: seq<Request>, h: seq<Request>)
    requires i < |reqs|
    ensures IsOk200(server(h, reqs[i])) ==>
      After(done, TryPosts(reqs, i, server, h)) == Attempts(Some(server(h, reqs[i]).resp), done + [reqs[i]])
    ensures !IsOk200(server(h, reqs[i])) ==>
      After(done, TryPosts(reqs, i, server, h)) == After(done + [reqs[i]], TryPosts(reqs, i + 1, server, h + [reqs[i]]))
  {
  }

  /** The approval loop over a page's forms. */
  function TryForms(fs: seq<Form>, server: Server, h: seq<Request>): (a: Attempts)
    ensures |a.sent| <= |fs|
  {
    TryPosts(FormRequests(fs), 0, server, h)
  }

  /** Prefixing one request to a run of requests shifts every prefix of it by one. */
  lemma PrefixShift(h: seq<Request>, x: Request, t: seq<Request>, j: nat)
    requires 1 <= j <= |t|
    ensures h + ([x] + t)[..j] == (h + [x]) + t[..j - 1]
    ensures ([x] + t)[j] == t[j - 1]
  {
    assert ([x] + t)[..j] == [x] + t[..j - 1];
  }

  /** The loop sends its POSTs in order, all of them unless one is accepted. */
  lemma {:induction false} TryPostsSent(reqs: seq<Request>, i: nat, server: Server, h: seq<Request>)
    requires i <= |reqs|
    ensures var a := TryPosts(reqs, i, server, h);
      && |a.sent| <= |reqs| - i && a.sent == reqs[i..i + |a.sent|]
      && (a.accepted.None? ==> |a.sent| == |reqs| - i)
      && (a.accepted.Some? ==> a.sent != [])
    decreases |reqs| - i
  {
    if i < |reqs| && !IsOk200(server(h, reqs[i])) {
      var rest := TryPosts(reqs, i + 1, server, h + [reqs[i]]);
      TryPostsSent(reqs, i + 1, server, h + [reqs[i]]);
      assert reqs[i..i + 1 + |rest.sent|] == [reqs[i]] + reqs[i + 1..i + 1 + |rest.sent|];
    }
  }

  /**
   * The loop returns the answer to its last POST when that POST was
   * answered with 200, and every earlier POST (every POST, when it returns
   * nothing) raised or got another status.
   */
  lemma {:induction false} TryPostsAnswers(reqs: seq<Request>, i: nat, server: Server, h: seq<Request>)
    requires i <= |reqs|
    ensures var a := TryPosts(reqs, i, server, h);
      && (a.accepted.Some? ==>
            a.sent != [] && a.accepted.value.code == 200 &&
            server(h + a.sent[..|a.sent| - 1], a.sent[|a.sent| - 1]) == Answered(a.accepted.value))
      && (forall j :: 0 <= j < |a.sent| && (a.accepted.None? || j < |a.sent| - 1) ==>
            !IsOk200(server(h + a.sent[..j], a.sent[j])))
    decreases |reqs| - i
  {
    if i < |reqs| {
      var req := reqs[i];
      var a := TryPosts(reqs, i, server, h);
      assert h + a.sent[..0] == h;
      if !IsOk200(server(h, req)) {
        var rest := TryPosts(reqs, i + 1, server, h + [req]);
        TryPostsAnswers(reqs, i + 1, server, h + [req]);
        assert a.sent == [req] + rest.sent;
        if a.accepted.Some? {
          PrefixShift(h, req, rest.sent, |rest.sent|);
        }
        forall j | 1 <= j < |a.sent| && (a.accepted.None? || j < |a.sent| - 1)
          ensures !IsOk200(server(h + a.sent[..j], a.sent[j]))
        {
          PrefixShift(h, req, rest.sent, j);
        }
      }
    }
  }

  /**
   * The approval loop POSTs the forms in document order, the j-th POST
   * being the j-th form's, stopping at the first one answered with 200 and
   * sending every one otherwise.
   */
  lemma TryFormsSent(fs: seq<Form>, server: Server, h: seq<Request>)
    ensures var a := TryForms(fs, server, h);
      && |a.sent| <= |fs|
      && (forall j :: 0 <= j < |a.sent| ==> a.sent[j] == FormRequest(fs[j]))
      && (a.accepted.None? ==> |a.sent| == |fs|)
      && (a.accepted.Some? ==> a.sent != [])
  {
    var a := TryForms(fs, server, h);
    TryPostsSent(FormRequests(fs), 0, server, h);
    forall j | 0 <= j < |a.sent|
      ensures a.sent[j] == FormRequest(fs[j])
    {
      FormRequestsAt(fs, j);
    }
  }

  /**
   * The approval loop returns the answer to its last POST when that was
   * a 200, and every earlier POST (every POST, when it returns nothing)
   * raised or got another status.
   */
  lemma TryFormsAnswers(fs: seq<Form>, server: Server, h: seq<Request>)
    ensures var a := TryForms(fs, server, h);
      && (a.accepted.Some? ==>
            a.sent != [] && a.accepted.value.code == 200 &&
            server(h + a.sent[..|a.sent| - 1], a.sent[|a.sent| - 1]) == Answered(a.accepted.value))
      && (forall j :: 0 <= j < |a.sent| && (a.accepted.None? || j < |a.sent| - 1) ==>
            !IsOk200(server(h + a.sent[..j], a.sent[j])))
  {
    TryPostsAnswers(FormRequests(fs), 0, server, h);
  }

  /**
   * Partial-failure tolerance: when the first of two approval forms raises
   * or is refused and the second is answered with 200, the loop returns the
   * second form's response.
   */
  lemma SecondFormAccepted(f1: Form, f2: Form, server: Server, h: seq<Request>, r: Response)
    requires !IsOk200(server(h, FormRequest(f1)))
    requires server(h + [FormRequest(f1)], FormRequest(f2)) == Answered(r) && r.code == 200
    ensures TryForms([f1, f2], server, h) == Attempts(Some(r), [FormRequest(f1), FormRequest(f2)])
  {
    assert [f1, f2][1..] == [f2];
    assert [f2][1..] == [];
    var reqs := FormRequests([f1, f2]);
    assert FormRequests([f2]) == [FormRequest(f2)];
    assert reqs == [FormRequest(f1), FormRequest(f2)];
    assert TryPosts(reqs, 1, server, h + [reqs[0]]) == Attempts(Some(r), [reqs[1]]);
  }

  /** What `handle_access_options` returns, and the requests its session sends. */
  datatype GrantStep = GrantStep(result: Response, sent: seq<Request>)

  /**
   * `handle_access_options`. Without an approve link it returns its input and
   * sends nothing; it GETs the approval page, and returns its input unchanged
   * if that raises or is not answered with 200; otherwise it runs the
   * approval loop over the page's forms and returns the accepted response,
   * or the approval page itself when no form was accepted.
   */
  function Grant(resp: Response, server: Server, parse: Parser, h: seq<Request>): (g: GrantStep)
    ensures g.sent == [] <==> !parse(resp.body).hasApproveLink
  {
    if !parse(resp.body).hasApproveLink then GrantStep(resp, [])
    else
      var o := server(h, Get(ApproveUrl));
      if !IsOk200(o) then GrantStep(resp, [Get(ApproveUrl)])
      else
        var a := TryForms(parse(o.resp.body).forms, server, h + [Get(ApproveUrl)]);
        GrantStep(if a.accepted.Some? then a.accepted.value else o.resp, [Get(ApproveUrl)] + a.sent)
  }

  /**
   * Without an approve link the approval step returns the login response
   * and sends nothing. With one it first GETs the approval URL, and returns
   * the login response if that GET raised or was not a 200.
   */
  lemma GrantShape(resp: Response, server: Server, parse: Parser, h: seq<Request>)
    ensures var g := Grant(resp, server, parse, h);
      && (!parse(resp.body).hasApproveLink ==> g == GrantStep(resp, []))
      && (parse(resp.body).hasApproveLink ==> g.sent != [] && g.sent[0] == Get(ApproveUrl))
      && (parse(resp.body).hasApproveLink && !IsOk200(server(h, Get(ApproveUrl))) ==>
            g == GrantStep(resp, [Get(ApproveUrl)]))
  {
  }

  /**
   * After a 200 answer to the approval GET, every further request is the
   * POST of the approval page's next form, in document order.
   */
  lemma GrantPosts(resp: Response, server: Server, parse: Parser, h: seq<Request>)
    requires parse(resp.body).hasApproveLink && IsOk200(server(h, Get(ApproveUrl)))
    ensures var g, page := Grant(resp, server, parse, h), server(h, Get(ApproveUrl)).resp;
      var forms := parse(page.body).forms;
      && |g.sent| <= |forms| + 1
      && forall j :: 1 <= j < |g.sent| ==> g.sent[j] == FormRequest(forms[j - 1])
  {
    var g, page := Grant(resp, server, parse, h), server(h, Get(ApproveUrl)).resp;
    var forms := parse(page.body).forms;
    var a := TryForms(forms, server, h + [Get(ApproveUrl)]);
    assert g.sent == [Get(ApproveUrl)] + a.sent;
    TryFormsSent(forms, server, h + [Get(ApproveUrl)]);
  }

  /**
   * After a 200 answer to the approval GET, every POST but the last failed,
   * and the step returns either the 200 answer to its last POST, or the
   * approval page itself after every form failed.
   */
  lemma GrantAnswers(resp: Response, server: Server, parse: Parser, h: seq<Request>)
    requires parse(resp.body).hasApproveLink && IsOk200(server(h, Get(ApproveUrl)))
    ensures var g, page := Grant(resp, server, parse, h), server(h, Get(ApproveUrl)).resp;
      var forms, n := parse(page.body).forms, |g.sent|;
      && (forall j :: 1 <= j < n - 1 ==> !IsOk200(server(h + g.sent[..j], g.sent[j])))
      && ((g.result == page && n == |forms| + 1 && (n > 1 ==> !IsOk200(server(h + g.sent[..n - 1], g.sent[n - 1])))) ||
          (n > 1 && g.result.code == 200 && server(h + g.sent[..n - 1], g.sent[n - 1]) == Answered(g.result)))
  {
    var g, page := Grant(resp, server, parse, h), server(h, Get(ApproveUrl)).resp;
    var forms := parse(page.body).forms;
    var a := TryForms(forms, server, h + [Get(ApproveUrl)]);
    assert g == GrantStep(if a.accepted.Some? then a.accepted.value else page, [Get(ApproveUrl)] + a.sent);
    TryFormsSent(forms, server, h + [Get(ApproveUrl)]);
    TryFormsAnswers(forms, server, h + [Get(ApproveUrl)]);
    PrependAnswers(server, h, Get(ApproveUrl), a);
  }

  /** The answers to a run of POSTs, seen from one request earlier. */
  lemma PrependAnswers(server: Server, h: seq<Request>, x: Request, a: Attempts)
    requires a.accepted.Some? ==>
      a.sent != [] && a.accepted.value.code == 200 &&
      server((h + [x]) + a.sent[..|a.sent| - 1], a.sent[|a.sent| - 1]) == Answered(a.accepted.value)
    requires forall j :: 0 <= j < |a.sent| && (a.accepted.None? || j < |a.sent| - 1) ==>
      !IsOk200(server((h + [x]) + a.sent[..j], a.sent[j]))
    ensures var s := [x] + a.sent;
      && (forall j :: 1 <= j < |s| - 1 ==> !IsOk200(server(h + s[..j], s[j])))
      && (a.accepted.None? && |s| > 1 ==> !IsOk200(server(h + s[..|s| - 1], s[|s| - 1])))
      && (a.accepted.Some? ==> |s| > 1 && server(h + s[..|s| - 1], s[|s| - 1]) == Answered(a.accepted.value))
  {
    var s := [x] + a.sent;
    forall j | 1 <= j < |s|
      ensures h + s[..j] == (h + [x]) + a.sent[..j - 1] && s[j] == a.sent[j - 1]
    {
      PrefixShift(h, x, a.sent, j);
    }
  }

  // ---------------------------------------------------------------------
  // check_internet_access and automate_login

  /** Some probe endpoint answers with status 200. */
  predicate Reachable(probe: string -> Outcome) {
    exists i :: 0 <= i < |TestUrls| && IsOk200(probe(TestUrls[i]))
  }

  /** What `automate_login` returns and announces, and the requests its session sends. */
  datatype RunStep = RunStep(ok: bool, events: seq<Event>, sent: seq<Request>)

  /**
   * `automate_login`: the login step, then (when it handed a response on)
   * the approval step and the connectivity probe. A run succeeds exactly
   * when the login step handed a response on, and then ends on SUCCESS
   * whatever the approval step or the probe did; otherwise it ends on FAILED.
   */
  function Run(user: Option<string>, pass: Option<string>, server: Server, parse: Parser,
               h: seq<Request>, probe: string -> Outcome): (r: RunStep)
    ensures !HasCredentials(user, pass) ==> !r.ok && r.sent == []
    ensures r.ok ==> |r.sent| >= 2 && r.sent[0] == Get(LoginUrl) && r.sent[1].Post? && r.sent[1].url == LoginUrl
  {
    var l := Login(user, pass, server, parse, h);
    if l.result.None? then
      RunStep(false, l.events + [Event(Failed, "Login failed")], l.sent)
    else
      var g := Grant(l.result.value, server, parse, h + l.sent);
      var message := if Reachable(probe) then "Login successful" else "Login completed (verification unclear)";
      RunStep(true, l.events + [Event(Success, message)], l.sent + g.sent)
  }

  /**
   * A run succeeds exactly when the login step handed a response on, and
   * then ends on SUCCESS whatever the approval step or the probe did;
   * otherwise it ends on FAILED. Its requests start with the login step's.
   */
  lemma RunOutcome(user: Option<string>, pass: Option<string>, server: Server, parse: Parser,
                   h: seq<Request>, probe: string -> Outcome)
    ensures var r, l := Run(user, pass, server, parse, h, probe), Login(user, pass, server, parse, h);
      && (r.ok <==> l.result.Some?)
      && r.events != [] && LastStatus(r.events) == (if r.ok then Success else Failed)
      && l.sent <= r.sent
  {
  }

  /**
   * The probe's verdict changes only the final message: outcome, requests,
   * every earlier announcement and the final status are the same.
   */
  lemma ProbeDoesNotDecide(user: Option<string>, pass: Option<string>, server: Server, parse: Parser,
                           h: seq<Request>, probe1: string -> Outcome, probe2: string -> Outcome)
    ensures var r1, r2 := Run(user, pass, server, parse, h, probe1), Run(user, pass, server, parse, h, probe2);
      && r1.ok == r2.ok && r1.sent == r2.sent && |r1.events| == |r2.events| && r1.events != []
      && r1.events[..|r1.events| - 1] == r2.events[..|r2.events| - 1]
      && r1.events[|r1.events| - 1].status == r2.events[|r2.events| - 1].status
      && LastStatus(r1.events) == LastStatus(r2.events)
  {
  }

  /**
   * A run without credentials sends nothing and announces AUTH_ERROR then
   * FAILED; with credentials it announces IN_PROGRESS first and IN_PROGRESS
   * only once.
   */
  lemma RunAnnouncements(user: Option<string>, pass: Option<string>, server: Server, parse: Parser,
                         h: seq<Request>, probe: string -> Outcome)
    ensures var r := Run(user, pass, server, parse, h, probe);
      && (!HasCredentials(user, pass) ==>
            r.sent == [] &&
            r.events == [Event(AuthError, "No credentials provided"), Event(Failed, "Login failed")])
      && (HasCredentials(user, pass) ==>
            2 <= |r.events| <= 3 && r.events[0].status == InProgress &&
            forall i :: 1 <= i < |r.events| ==> r.events[i].status != InProgress)
  {
    LoginShape(user, pass, server, parse, h);
  }
}
