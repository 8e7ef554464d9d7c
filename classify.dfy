/**
 * The keyword heuristics the automator applies to page bodies. Every test
 * is a case-insensitive substring test of a fixed keyword.
 */
module Classify {
  import opened Text
  import opened Http

  /** How `perform_login` reads the answer to its login POST. */
  datatype LoginVerdict =
    | Confirmed          // 200 and a logged-in marker
    | Assumed            // 200 and no marker either way: taken as success
    | Rejected           // 200, no logged-in marker, and an error marker
    | HttpFailure(code: nat)

  /** Markers of a logged-in page. */
  predicate SuccessMarker(body: string) {
    ContainsCI(body, "logout") || ContainsCI(body, "dashboard")
  }

  /** Markers of a rejected login. */
  predicate FailureMarker(body: string) {
    ContainsCI(body, "invalid") || ContainsCI(body, "error")
  }

  /** The verdicts under which `perform_login` hands the response on. */
  predicate LoggedIn(v: LoginVerdict) {
    v.Confirmed? || v.Assumed?
  }

  /**
   * Any status other than 200 is a failure carrying that status, whatever
   * the body says. With 200, a logged-in marker wins over any error marker,
   * an error marker alone rejects, and a body with neither is taken as
   * logged in.
   */
  function ClassifyLogin(r: Response): (v: LoginVerdict)
    ensures v.HttpFailure? <==> r.code != 200
    ensures v.HttpFailure? ==> v.code == r.code
    ensures r.code == 200 && SuccessMarker(r.body) ==> v == Confirmed
    ensures v == Rejected <==> r.code == 200 && !SuccessMarker(r.body) && FailureMarker(r.body)
    ensures LoggedIn(v) <==> r.code == 200 && (SuccessMarker(r.body) || !FailureMarker(r.body))
  {
    if r.code != 200 then HttpFailure(r.code)
    else if SuccessMarker(r.body) then Confirmed
    else if FailureMarker(r.body) then Rejected
    else Assumed
  }

  /**
   * "logout" or "dashboard", written in any case anywhere in a 200 body,
   * confirms the login, even when error words come before or after it.
   */
  lemma SuccessWordAnywhere(r: Response, before: string, word: string, after: string)
    requires r.code == 200 && r.body == before + word + after
    requires Lower(word) == "logout" || Lower(word) == "dashboard"
    ensures ClassifyLogin(r) == Confirmed
  {
    KeywordAnywhere(before, word, after, Lower(word));
  }

  /**
   * "invalid" or "error", in any case anywhere in a 200 body that has no
   * logged-in marker, rejects the login.
   */
  lemma FailureWordAnywhere(r: Response, before: string, word: string, after: string)
    requires r.code == 200 && r.body == before + word + after
    requires Lower(word) == "invalid" || Lower(word) == "error"
    requires !SuccessMarker(r.body)
    ensures ClassifyLogin(r) == Rejected
  {
    KeywordAnywhere(before, word, after, Lower(word));
  }

  /** How `handle_access_options` reads the answer to an accepted approval POST; it only chooses a log line. */
  datatype GrantVerdict = Authorized | MayHaveFailed | Unclear

  /** "authorized" or "approved" marks success and wins over "error"; "error" alone marks a possible failure. */
  function ClassifyGrant(body: string): (v: GrantVerdict)
    ensures v == Authorized <==> ContainsCI(body, "authorized") || ContainsCI(body, "approved")
    ensures v == MayHaveFailed <==>
      !ContainsCI(body, "authorized") && !ContainsCI(body, "approved") && ContainsCI(body, "error")
  {
    if ContainsCI(body, "authorized") || ContainsCI(body, "approved") then Authorized
    else if ContainsCI(body, "error") then MayHaveFailed
    else Unclear
  }

  /** An approval marker in any case anywhere in the body is read as authorized, whatever else the body says. */
  lemma GrantWordAnywhere(before: string, word: string, after: string)
    requires Lower(word) == "authorized" || Lower(word) == "approved"
    ensures ClassifyGrant(before + word + after) == Authorized
  {
    KeywordAnywhere(before, word, after, Lower(word));
  }

  /**
   * The test for a page on which access already seems granted; it only
   * chooses a log line, since the response is returned either way.
   */
  predicate LooksGranted(body: string) {
    ContainsCI(body, "welcome") || ContainsCI(body, "success") ||
    ContainsCI(body, "internet access") || ContainsCI(body, "activated")
  }

  /** Any of the four phrases, in any case anywhere in the body, makes the page look granted. */
  lemma GrantedWordAnywhere(before: string, word: string, after: string)
    requires Lower(word) == "welcome" || Lower(word) == "success" ||
             Lower(word) == "internet access" || Lower(word) == "activated"
    ensures LooksGranted(before + word + after)
  {
    KeywordAnywhere(before, word, after, Lower(word));
  }
}
