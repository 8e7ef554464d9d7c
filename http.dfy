/**
 * The HTTP exchanges of the automator, reduced to the data its decisions
 * use. A request either yields a response (after redirects) or raises a
 * transport-level `RequestException`, whose text is kept.
 */
module Http {
  import opened Dict

  /** A response after redirects: status code, final URL, reason phrase and body text. */
  datatype Response = Response(code: nat, url: string, reason: string, body: string)

  /** What one request yields. */
  datatype Outcome = Answered(resp: Response) | Raised(cause: string)

  /** A request as the gateway sees it: a GET of a URL, or a form POST with its fields in order. */
  datatype Request = Get(url: string) | Post(url: string, form: Dict<string, string>)

  /** The only answer the automator treats as a success: a response with status 200. */
  predicate IsOk200(o: Outcome) {
    o.Answered? && o.resp.code == 200
  }

  /**
   * How the far side answers a request, given every request the same
   * session sent before it (which stands for the cookies the session carries).
   */
  type Server = (seq<Request>, Request) -> Outcome

  /** The cookie-carrying session: it sends requests one at a time and remembers what it sent. */
  class Session {
    const server: Server
    var sent: seq<Request>

    constructor (server: Server)
      ensures this.server == server && sent == []
    {
      this.server := server;
      sent := [];
    }

    method Send(req: Request) returns (o: Outcome)
      modifies this
      ensures sent == old(sent) + [req]
      ensures o == server(old(sent), req)
    {
      o := server(sent, req);
      sent := sent + [req];
    }
  }
}
