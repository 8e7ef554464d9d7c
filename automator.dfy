/**
 * `IITMNetAccessAutomator`: the object that holds the credentials and the
 * last status, owns the session, and runs the login, approval and
 * connectivity steps. Every method is proved to do what module Automaton
 * defines, and to keep the status equal to the last announced one.
 */
module Automator {
  import opened Wrappers
  import opened Dict
  import opened Text
  import opened Http
  import opened Html
  import opened Forms
  import opened Classify
  import opened Automaton

  /** What `get_status_info` reports. */
  datatype StatusInfo = StatusInfo(status: Status, lastLoginTime: Option<int>, nextLoginTime: Option<int>,
                                   hasCredentials: bool, internetAccess: bool)

  /**
   * Sequence concatenation regroups. Dafny knows this without help; the
   * methods below call it only to name the regrouping of their request
   * history at the point where the solver needs it, which keeps those
   * proofs cheap.
   */
  lemma Associative<T>(a: seq<T>, b: seq<T>, c: seq<T>)
    ensures (a + b) + c == a + (b + c)
  {
  }

  class NetAccessAutomator {
    var username: Option<string>
    var password: Option<string>
    var status: Status
    /** When the last run succeeded, as a timestamp supplied by the caller's clock. */
    var lastLoginTime: Option<int>
    /** Never set by the automator itself; its owner may schedule the next run. */
    var nextLoginTime: Option<int>
    /** The `(status, message)` pairs the callback received, in order. */
    var delivered: seq<Event>
    /** Every status announcement, in order, whether or not a callback is registered. */
    ghost var history: seq<Event>
    const hasCallback: bool
    const session: Session
    const parse: Parser

    /** The status mirrors the last announcement, and the callback saw every announcement if there is one. */
    ghost predicate Valid()
      reads this
    {
      status == LastStatus(history) &&
      delivered == (if hasCallback then history else [])
    }

    constructor (username: Option<string>, password: Option<string>, hasCallback: bool,
                 server: Server, parse: Parser)
      ensures Valid() && fresh(session)
      ensures this.username == username && this.password == password
      ensures status == Unknown && history == [] && delivered == []
      ensures lastLoginTime == None && nextLoginTime == None
      ensures this.hasCallback == hasCallback && this.parse == parse
      ensures session.server == server && session.sent == []
    {
      this.username := username;
      this.password := password;
      this.hasCallback := hasCallback;
      this.parse := parse;
      session := new Session(server);
      status := Unknown;
      lastLoginTime := None;
      nextLoginTime := None;
      delivered := [];
      history := [];
    }

    method SetCredentials(username: Option<string>, password: Option<string>)
      modifies this`username, this`password
      ensures this.username == username && this.password == password
    {
      this.username := username;
      this.password := password;
    }

    /** `_notify_status`: record the status and hand it to the callback, if any. */
    method NotifyStatus(s: Status, message: string)
      requires Valid()
      modifies this`status, this`delivered, this`history
      ensures Valid()
      ensures status == s && history == old(history) + [Event(s, message)]
    {
      status := s;
      history := history + [Event(s, message)];
      if hasCallback {
        delivered := delivered + [Event(s, message)];
      }
    }

    /** `has_credentials` in `get_status_info`: the same test that guards the login step. */
    function HasCredentialsNow(): (b: bool)
      reads this, session
      ensures b <==> Truthy(username) && Truthy(password)
      ensures !b <==> Login(username, password, session.server, parse, session.sent).events ==
                      [Event(AuthError, "No credentials provided")]
    {
      LoginShape(username, password, session.server, parse, session.sent);
      HasCredentials(username, password)
    }

    /**
     * `get_status_info`; `probe` is how the test endpoints answer now. It
     * reports access exactly when `check_internet_access` would find it.
     */
    function GetStatusInfo(probe: string -> Outcome): (info: StatusInfo)
      reads this, session
      ensures info.status == status && info.lastLoginTime == lastLoginTime
      ensures info.nextLoginTime == nextLoginTime && info.hasCredentials == HasCredentialsNow()
      ensures info.internetAccess <==> exists i :: 0 <= i < |TestUrls| && IsOk200(probe(TestUrls[i]))
    {
      StatusInfo(status, lastLoginTime, nextLoginTime, HasCredentialsNow(), Reachable(probe))
    }

    /** `get_login_page` */
    method GetLoginPage() returns (info: Option<LoginInfo>)
      requires Valid()
      modifies this`status, this`delivered, this`history, session
      ensures Valid()
      ensures var p := FetchLoginPage(session.server, parse, old(session.sent));
        info == p.info && history == old(history) + p.events
      ensures session.sent == old(session.sent) + [Get(LoginUrl)]
    {
      var o := session.Send(Get(LoginUrl));
      match o
      case Raised(cause) =>
        NotifyStatus(NetworkError, cause);
        info := None;
      case Answered(r) =>
        if 400 <= r.code < 600 {
          // raise_for_status() turns a 4xx or 5xx answer into a RequestException
          NotifyStatus(NetworkError, HttpErrorText(r));
          info := None;
        } else {
          var doc := parse(r.body);
          if doc.forms == [] {
            info := None;
          } else {
            var hidden := CollectHiddenFields(doc.forms[0]);
            info := Some(LoginInfo(doc.forms[0].action.GetOr(""), hidden));
          }
        }
    }

    /** `perform_login` */
    method PerformLogin() returns (result: Option<Response>)
      requires Valid()
      modifies this`status, this`delivered, this`history, session
      ensures Valid()
      ensures var t := Login(username, password, session.server, parse, old(session.sent));
        result == t.result && history == old(history) + t.events &&
        session.sent == old(session.sent) + t.sent
    {
      ghost var h := session.sent;
      if !(username.Some? && username.value != "" && password.Some? && password.value != "") {
        NotifyStatus(AuthError, "No credentials provided");
        return None;
      }
      NotifyStatus(InProgress, "Logging in...");
      var info := GetLoginPage();
      if info.None? {
        return None;
      }
      result := SubmitCredentials(info.value);
    }

    /**
     * The second half of `perform_login`: build the login body from the
     * credentials and the page's hidden fields, POST it, and judge the answer.
     */
    method SubmitCredentials(info: LoginInfo) returns (result: Option<Response>)
      requires Valid() && HasCredentials(username, password)
      modifies this`status, this`delivered, this`history, session
      ensures Valid()
      ensures var post := LoginPost(username.value, password.value, info);
        var j := JudgeLoginAnswer(session.server(old(session.sent), post));
        && session.sent == old(session.sent) + [post]
        && result == (if j.HandOn? then Some(j.resp) else None)
        && history == old(history) + (if j.HandOn? then [] else [j.event])
    {
      var data := MergeLoginData(username.value, password.value, info.hiddenFields);
      var o := session.Send(Post(LoginUrl, data));
      match o
      case Raised(cause) =>
        NotifyStatus(NetworkError, cause);
        result := None;
      case Answered(r) =>
        match ClassifyLogin(r)
        case HttpFailure(code) =>
          NotifyStatus(Failed, "HTTP " + NatToString(code));
          result := None;
        case Rejected =>
          NotifyStatus(AuthError, "Invalid credentials");
          result := None;
        case _ =>
          result := Some(r);
    }

    /** `handle_access_options`: it sends requests but announces nothing. */
    method HandleAccessOptions(resp: Response) returns (final: Response)
      modifies session
      ensures var g := Grant(resp, session.server, parse, old(session.sent));
        final == g.result && session.sent == old(session.sent) + g.sent
    {
      if parse(resp.body).hasApproveLink {
        ghost var h := session.sent;
        var o := session.Send(Get(ApproveUrl));
        if o.Answered? && o.resp.code == 200 {
          ghost var a := TryForms(parse(o.resp.body).forms, session.server, session.sent);
          var accepted := SubmitApprovalForms(parse(o.resp.body).forms);
          Associative(h, [Get(ApproveUrl)], a.sent);
          if accepted.Some? {
            return accepted.value;
          }
          return o.resp;
        }
      }
      final := resp;
    }

    /**
     * The loop of `handle_access_options` over the approval page's forms:
     * POST each form's field map to its submit URL, and stop at the first
     * answer with status 200.
     */
    method SubmitApprovalForms(forms: seq<Form>) returns (accepted: Option<Response>)
      modifies session
      ensures var a := TryForms(forms, session.server, old(session.sent));
        accepted == a.accepted && session.sent == old(session.sent) + a.sent
    {
      ghost var h, server := session.sent, session.server;
      ghost var reqs := FormRequests(forms);
      ghost var done: seq<Request> := [];
      var i := 0;
      while i < |forms|
        invariant 0 <= i <= |forms| == |reqs|
        invariant session.sent == h + done
        invariant TryForms(forms, server, h) == After(done, TryPosts(reqs, i, server, session.sent))
      {
        ghost var before := session.sent;
        var answer := SubmitApprovalForm(forms, i);
        TryPostsStep(reqs, i, server, done, before);
        Associative(h, done, [reqs[i]]);
        if answer.Answered? && answer.resp.code == 200 {
          return Some(answer.resp);
        }
        done := done + [reqs[i]];
        i := i + 1;
      }
      accepted := None;
    }

    /** One pass of that loop: build the i-th form's field map and submit URL, and POST. */
    method SubmitApprovalForm(forms: seq<Form>, i: nat) returns (answer: Outcome)
      requires i < |forms|
      modifies session
      ensures session.sent == old(session.sent) + [FormRequests(forms)[i]]
      ensures answer == session.server(old(session.sent), FormRequests(forms)[i])
    {
      var data := CollectApprovalData(forms[i]);
      var url := SubmitUrl(forms[i].action.GetOr(""));
      FormRequestsAt(forms, i);
      answer := session.Send(Post(url, data));
    }

    /**
     * `check_internet_access`: probe the test endpoints in order and stop at
     * the first one answering 200; `attempted` lists the endpoints probed.
     */
    method CheckInternetAccess(probe: string -> Outcome) returns (ok: bool, attempted: seq<string>)
      ensures ok <==> Reachable(probe)
      ensures attempted <= TestUrls
      ensures ok ==> attempted != [] && IsOk200(probe(attempted[|attempted| - 1])) &&
                     forall j :: 0 <= j < |attempted| - 1 ==> !IsOk200(probe(attempted[j]))
      ensures !ok ==> attempted == TestUrls
    {
      attempted := [];
      var i := 0;
      while i < |TestUrls|
        invariant 0 <= i <= |TestUrls|
        invariant attempted == TestUrls[..i]
        invariant forall j :: 0 <= j < i ==> !IsOk200(probe(TestUrls[j]))
      {
        var url := TestUrls[i];
        attempted := attempted + [url];
        var answer := probe(url);
        if answer.Answered? && answer.resp.code == 200 {
          return true, attempted;
        }
        i := i + 1;
      }
      ok := false;
    }

    /**
     * `automate_login`: `now` is the caller's clock reading and `probe` how
     * the test endpoints answer after the settle delay.
     */
    method AutomateLogin(now: int, probe: string -> Outcome) returns (ok: bool)
      requires Valid()
      modifies this`status, this`delivered, this`history, this`lastLoginTime, session
      ensures Valid()
      ensures var r := Run(username, password, session.server, parse, old(session.sent), probe);
        ok == r.ok && history == old(history) + r.events && session.sent == old(session.sent) + r.sent
      ensures status == if ok then Success else Failed
      ensures lastLoginTime == if ok then Some(now) else old(lastLoginTime)
    {
      ghost var h, hist := session.sent, history;
      var response := PerformLogin();
      ghost var l := Login(username, password, session.server, parse, h);
      if response.None? {
        NotifyStatus(Failed, "Login failed");
        Associative(hist, l.events, [Event(Failed, "Login failed")]);
        assert Run(username, password, session.server, parse, h, probe) ==
          RunStep(false, l.events + [Event(Failed, "Login failed")], l.sent);
        return false;
      }
      ghost var g := Grant(response.value, session.server, parse, session.sent);
      var final := HandleAccessOptions(response.value);
      Associative(h, l.sent, g.sent);
      var reachable, attempted := CheckInternetAccess(probe);
      if reachable {
        NotifyStatus(Success, "Login successful");
      } else {
        NotifyStatus(Success, "Login completed (verification unclear)");
      }
      Associative(hist, l.events, [Event(Success, if reachable then "Login successful"
                                                  else "Login completed (verification unclear)")]);
      lastLoginTime := Some(now);
      ok := true;
      assert Run(username, password, session.server, parse, h, probe) ==
        RunStep(true, l.events + [Event(Success, if reachable then "Login successful"
                                                 else "Login completed (verification unclear)")], l.sent + g.sent);
    }
  }
}
