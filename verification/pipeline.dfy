/** The order in which the proxy transport runs the hooks registered in `main`:
    `OnAccept` first; when it declines a CONNECT, `onConnect` refuses to tunnel
    it; when it declines any other request, `OnRequest` rewrites it, the
    transport sends it upstream, and `OnResponse` annotates the reply. The
    upstream server is a parameter: it maps the request sent to the response
    received. */
module Pipeline {
  import opened Http
  import opened Iam
  import opened Proxy

  /** How one request ends: answered here; proxied, with the request actually
      sent and the response returned to the client; or, for CONNECT, refused a
      tunnel because `onConnect` answers `ConnectNone`. */
  datatype Handled =
    | Answered(status: int, body: Body, exchange: ExchangeTrace)
    | Proxied(sent: Request, response: Response)
    | NotTunnelled

  /** One request through the hooks. */
  function Handle(account: string, r: Request, outcome: Outcome, upstream: Request -> Response): (h: Handled)
    ensures h.Proxied? ==> h.sent.url.host == "169.254.169.254"
    ensures h.Proxied? ==> h.sent.verb == r.verb && h.sent.url.path == r.url.path && h.sent.header == r.header
    ensures h.Proxied? ==> h.sent.url.scheme == (if IsAbs(r.url) then r.url.scheme else "http")
    ensures h.Proxied? ==>
      h.response.status == upstream(h.sent).status && h.response.body == upstream(h.sent).body
      && Values(h.response.header, "Via") == Values(upstream(h.sent).header, "Via") + ["gce-impersonation-proxy"]
    ensures h.Proxied? ==> h.response.header.Keys == upstream(h.sent).header.Keys + {"Via"}
    ensures h.Proxied? ==>
      forall k :: k in upstream(h.sent).header && k != "Via" ==> h.response.header[k] == upstream(h.sent).header[k]
    ensures h.Answered? && h.exchange != NoExchange ==> r.verb == "GET"
    ensures h.NotTunnelled? <==> r.verb == "CONNECT"
    ensures h.Proxied? ==> r.verb != "CONNECT"
  {
    var a := OnAccept(account, r, outcome);
    match a.decision
    case Answer(status, body) => Answered(status, body, a.exchange)
    case Forward =>
      if a.request.verb == "CONNECT" then NotTunnelled
      else
        var sent := OnRequest(a.request);
        Proxied(sent, OnResponse(upstream(sent)))
  }
}
