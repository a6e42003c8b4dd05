/** What `onAccept` and the hook pipeline promise, stated against independent
    descriptions: the header gate as a case-insensitive spelling of "google",
    the action as the text after the last `/` of the slash-trimmed path. */
module ProxyTheorems {
  import opened Wrappers
  import opened Strings
  import opened Http
  import opened Iam
  import opened Proxy
  import opened Pipeline

  /** A request without a `Metadata-Flavor` header, or with only an empty
      list of values, fails the gate: the value reads as "". */
  lemma AbsentFlavorRefused(h: Header)
    requires |Values(h, "Metadata-Flavor")| == 0
    ensures !FlavorOk(h)
  {
    assert Get(h, FlavorHeader) == "";
  }

  /** A request with this path and otherwise the same parts. */
  function WithPath(r: Request, path: string): (r': Request)
    ensures r'.url.path == path
  {
    r.(url := r.url.(path := path))
  }

  /** Anything but a GET under the identity prefix is forwarded untouched by the
      exchange. The prefix is a raw string prefix, checked before anything else. */
  lemma OffSurfaceForwarded(account: string, r: Request, x: Outcome)
    requires r.verb != "GET" || !HasPrefix(r.url.path, IdentityPrefix)
    ensures OnAccept(account, r, x).decision == Forward
    ensures OnAccept(account, r, x).exchange == NoExchange
  {
  }

  /** Under the prefix, a GET without an acceptable `Metadata-Flavor` value is
      refused with 403, whatever its action, and the exchange is never contacted. */
  lemma MissingFlavorRejected(account: string, r: Request, x: Outcome)
    requires r.verb == "GET" && HasPrefix(r.url.path, IdentityPrefix)
    requires !SaysGoogle(Get(r.header, "Metadata-Flavor"))
    ensures OnAccept(account, r, x).decision == Answer(403, Text("Missing Metadata-Flavor:Google header.\n"))
    ensures OnAccept(account, r, x).exchange == NoExchange
  {
  }

  /** The action of `base/seg` is `seg`, for any non-empty slash-free `seg`. */
  lemma ActionOfSegment(base: string, seg: string)
    requires seg != "" && '/' !in seg
    ensures ActionOf(base + "/" + seg) == seg
  {
    var p := base + "/" + seg;
    TrimRightUnique(p, '/', p);
    assert seg == p[|p| - |seg|..];
    LastPieceEquals(p, '/', seg);
  }

  /** A trailing `/` never changes the action, so `token`, `token/` and
      `token//` name the same action. */
  lemma ActionOfTrailingSlash(p: string)
    ensures ActionOf(p + "/") == ActionOf(p)
  {
    TrimRightAppend(p, '/');
  }

  /** The bare prefix, with or without a trailing `/`, names the action "default". */
  lemma ActionOfBarePrefix()
    ensures ActionOf(IdentityPrefix) == "default"
    ensures ActionOf(IdentityPrefix + "/") == "default"
  {
    var p := IdentityPrefix;
    TrimRightUnique(p, '/', p);
    assert p[|p| - 8] == '/';
    assert p[|p| - 7..] == "default";
    LastPieceEquals(p, '/', "default");
    ActionOfTrailingSlash(p);
  }

  /** The prefix test, like the action, ignores an added trailing `/`. */
  lemma PrefixTrailingSlash(p: string)
    ensures HasPrefix(p + "/", IdentityPrefix) <==> HasPrefix(p, IdentityPrefix)
  {
    if HasPrefix(p + "/", IdentityPrefix) {
      assert |p| >= |IdentityPrefix| by {
        assert (p + "/")[|IdentityPrefix| - 1] == 't';
      }
      assert p[..|IdentityPrefix|] == (p + "/")[..|IdentityPrefix|];
    }
    if HasPrefix(p, IdentityPrefix) {
      assert (p + "/")[..|IdentityPrefix|] == p[..|IdentityPrefix|];
    }
  }

  /** Two requests that agree on the method, the prefix test, the header gate
      and the action are decided alike. */
  lemma DecidedByClassification(account: string, r1: Request, r2: Request, x: Outcome)
    requires r1.verb == r2.verb
    requires HasPrefix(r1.url.path, IdentityPrefix) == HasPrefix(r2.url.path, IdentityPrefix)
    requires FlavorOk(r1.header) == FlavorOk(r2.header)
    requires ActionOf(r1.url.path) == ActionOf(r2.url.path)
    ensures OnAccept(account, r1, x).decision == OnAccept(account, r2, x).decision
    ensures OnAccept(account, r1, x).exchange == OnAccept(account, r2, x).exchange
  {
    var p1, p2 := ForceProxied(r1), ForceProxied(r2);
    assert p1.verb == r1.verb && p1.url.path == r1.url.path && p1.header == r1.header;
    assert p2.verb == r2.verb && p2.url.path == r2.url.path && p2.header == r2.header;
  }

  /** Appending a `/` to the path never changes how a request is decided. */
  lemma TrailingSlashIrrelevant(account: string, r: Request, x: Outcome)
    ensures OnAccept(account, WithPath(r, r.url.path + "/"), x).decision == OnAccept(account, r, x).decision
    ensures OnAccept(account, WithPath(r, r.url.path + "/"), x).exchange == OnAccept(account, r, x).exchange
  {
    PrefixTrailingSlash(r.url.path);
    ActionOfTrailingSlash(r.url.path);
    DecidedByClassification(account, WithPath(r, r.url.path + "/"), r, x);
  }

  /** The decision depends on the method, path and headers only: the scheme,
      host and query of the URL, absolute or not, play no part. */
  lemma DecisionIgnoresDestination(account: string, r: Request, u: Url, x: Outcome)
    requires u.path == r.url.path
    ensures OnAccept(account, r.(url := u), x).decision == OnAccept(account, r, x).decision
    ensures OnAccept(account, r.(url := u), x).exchange == OnAccept(account, r, x).exchange
  {
  }

  /** `base/seg` stays under the prefix when `base` is, and names action `seg`. */
  lemma SegmentUnderPrefix(base: string, seg: string)
    requires HasPrefix(base, IdentityPrefix)
    requires seg != "" && '/' !in seg
    ensures HasPrefix(base + "/" + seg, IdentityPrefix)
    ensures ActionOf(base + "/" + seg) == seg
  {
    ActionOfSegment(base, seg);
    HasPrefixAppend(base, "/" + seg, IdentityPrefix);
    assert base + "/" + seg == base + ("/" + seg);
  }

  /** `base/email` under the prefix, with the header, is answered 200 with the
      service-account name as the whole body. */
  lemma EmailAnswered(account: string, r: Request, x: Outcome, base: string)
    requires r.verb == "GET" && HasPrefix(base, IdentityPrefix) && r.url.path == base + "/email"
    requires SaysGoogle(Get(r.header, "Metadata-Flavor"))
    ensures OnAccept(account, r, x).decision == Answer(200, Text(account))
    ensures OnAccept(account, r, x).exchange == NoExchange
  {
    SegmentUnderPrefix(base, "email");
    assert FlavorOk(ForceProxied(r).header);
    assert ForceProxied(r).url.path == base + "/" + "email";
  }

  /** Any other action under the prefix, with the header, is forwarded. */
  lemma OtherActionForwarded(account: string, r: Request, x: Outcome, base: string, seg: string)
    requires r.verb == "GET" && HasPrefix(base, IdentityPrefix) && r.url.path == base + "/" + seg
    requires seg != "" && '/' !in seg && seg != "token" && seg != "email"
    requires SaysGoogle(Get(r.header, "Metadata-Flavor"))
    ensures OnAccept(account, r, x).decision == Forward
    ensures OnAccept(account, r, x).exchange == NoExchange
  {
    SegmentUnderPrefix(base, seg);
    assert FlavorOk(ForceProxied(r).header);
    assert ForceProxied(r).url.path == base + "/" + seg;
  }

  /** The bare prefix, with the header, is forwarded: its action is "default". */
  lemma BarePrefixForwarded(account: string, r: Request, x: Outcome)
    requires r.verb == "GET" && (r.url.path == IdentityPrefix || r.url.path == IdentityPrefix + "/")
    requires SaysGoogle(Get(r.header, "Metadata-Flavor"))
    ensures OnAccept(account, r, x).decision == Forward
  {
    ActionOfBarePrefix();
    assert HasPrefix(IdentityPrefix + "/", IdentityPrefix);
  }

  /** A GET token request under the prefix that passes the gate is decided by
      the exchange outcome alone. */
  lemma TokenDispatched(account: string, r: Request, x: Outcome)
    requires r.verb == "GET" && HasPrefix(r.url.path, IdentityPrefix)
    requires FlavorOk(r.header) && ActionOf(r.url.path) == "token"
    ensures OnAccept(account, r, x) == Accepted(ForceProxied(r), TokenAnswer(account, x).0, TokenAnswer(account, x).1)
  {
    assert FlavorOk(ForceProxied(r).header);
  }

  /** Every gated GET token request under the prefix is decided the same way
      for the same exchange outcome: the path beyond the action, the scheme,
      host, query and the other headers play no part. */
  lemma TokenDecidedByOutcome(account: string, r1: Request, r2: Request, x: Outcome)
    requires r1.verb == "GET" && HasPrefix(r1.url.path, IdentityPrefix)
    requires r2.verb == "GET" && HasPrefix(r2.url.path, IdentityPrefix)
    requires SaysGoogle(Get(r1.header, "Metadata-Flavor")) && SaysGoogle(Get(r2.header, "Metadata-Flavor"))
    requires ActionOf(r1.url.path) == "token" && ActionOf(r2.url.path) == "token"
    ensures OnAccept(account, r1, x).decision == OnAccept(account, r2, x).decision
    ensures OnAccept(account, r1, x).exchange == OnAccept(account, r2, x).exchange
    ensures OnAccept(account, r1, x).decision.Answer?
  {
    TokenDispatched(account, r1, x);
    TokenDispatched(account, r2, x);
  }

  /** `base/token` under the prefix, with the header: a failure to create the
      client is a 500 naming initialisation, with no token call; a failed call
      is a 500 naming generation; success is 200 with the token record, whose
      `expires_in` is the expiry time passed through verbatim. The call asks
      for the account's resource name, one hour, and the cloud-platform scope. */
  lemma TokenAnswered(account: string, r: Request, x: Outcome, base: string)
    requires r.verb == "GET" && HasPrefix(base, IdentityPrefix) && r.url.path == base + "/token"
    requires SaysGoogle(Get(r.header, "Metadata-Flavor"))
    ensures x.Failure? && x.error.stage == Initialize ==>
      OnAccept(account, r, x).decision == Answer(500, Text("Failed to initialize iamcredentials service: " + x.error.message + "\n"))
      && OnAccept(account, r, x).exchange == ServiceOnly
    ensures x.Failure? && x.error.stage == Generate ==>
      OnAccept(account, r, x).decision == Answer(500, Text("Failed to generate token: " + x.error.message + "\n"))
    ensures x.Success? ==>
      OnAccept(account, r, x).decision == Answer(200, Json(TokenResponse(x.value.accessToken, x.value.expireTime, "Bearer")))
    ensures !(x.Failure? && x.error.stage == Initialize) ==>
      OnAccept(account, r, x).exchange == TokenRequested(GenerateCall(
        "projects/-/serviceAccounts/" + account,
        AccessTokenRequest("3600s", ["https://www.googleapis.com/auth/cloud-platform"])))
  {
    SegmentUnderPrefix(base, "token");
    assert r.url.path == base + "/" + "token";
    TokenDispatched(account, r, x);
  }

  /** A request is forwarded exactly when it is not a GET under the prefix, or
      it carries the header and names an action other than "token" and "email". */
  lemma ForwardedIff(account: string, r: Request, x: Outcome)
    ensures OnAccept(account, r, x).decision == Forward <==>
      || r.verb != "GET"
      || !HasPrefix(r.url.path, IdentityPrefix)
      || (SaysGoogle(Get(r.header, "Metadata-Flavor")) && ActionOf(r.url.path) != "token" && ActionOf(r.url.path) != "email")
  {
  }

  /** The exchange is contacted exactly for a GET token request under the prefix
      carrying the header, and the token call is issued only once the client
      was created. */
  lemma ExchangeIff(account: string, r: Request, x: Outcome)
    ensures OnAccept(account, r, x).exchange != NoExchange <==>
      r.verb == "GET" && HasPrefix(r.url.path, IdentityPrefix)
      && SaysGoogle(Get(r.header, "Metadata-Flavor")) && ActionOf(r.url.path) == "token"
    ensures OnAccept(account, r, x).exchange.TokenRequested? <==>
      OnAccept(account, r, x).exchange != NoExchange && !(x.Failure? && x.error.stage == Initialize)
  {
  }

  /** The token record of a successful exchange with non-empty token and expiry
      is written with all three members, in field order. */
  lemma TokenJsonMembers(g: Grant)
    requires g.accessToken != "" && g.expireTime != ""
    ensures JsonMembers(TokenResponse(g.accessToken, g.expireTime, "Bearer")) ==
      [("access_token", g.accessToken), ("expires_in", g.expireTime), ("token_type", "Bearer")]
  {
  }

  /** A request reaches the upstream exactly when `onAccept` declines it and it
      is not a CONNECT, which is never tunnelled; otherwise the client gets the
      status `onAccept` chose. */
  lemma ProxiedIff(account: string, r: Request, x: Outcome, upstream: Request -> Response)
    ensures Handle(account, r, x, upstream).Proxied? <==>
      OnAccept(account, r, x).decision == Forward && r.verb != "CONNECT"
    ensures Handle(account, r, x, upstream).NotTunnelled? <==> r.verb == "CONNECT"
    ensures Handle(account, r, x, upstream).Answered? ==>
      Handle(account, r, x, upstream).status == OnAccept(account, r, x).decision.status
  {
  }

  /** `http://example.com/foo` is forwarded to `http://169.254.169.254/foo`. */
  lemma ForeignHostRedirected(account: string, x: Outcome, upstream: Request -> Response)
    ensures Handle(account, Request("GET", Url("http", "example.com", "/foo", ""), map[]), x, upstream).Proxied?
    ensures Handle(account, Request("GET", Url("http", "example.com", "/foo", ""), map[]), x, upstream).sent.url
      == Url("http", "169.254.169.254", "/foo", "")
  {
    var r := Request("GET", Url("http", "example.com", "/foo", ""), map[]);
    assert !HasPrefix(r.url.path, IdentityPrefix);
  }

  /** A relative token request with `Metadata-Flavor: Google` and a granted
      token is answered 200 with the token record. */
  lemma TokenExample(upstream: Request -> Response)
    ensures Handle("svc@proj.iam.gserviceaccount.com",
      Request("GET", Url("", "", IdentityPrefix + "/token", ""), map["Metadata-Flavor" := ["Google"]]),
      Success(Grant("abc", "2099-01-01T00:00:00Z")), upstream)
      == Answered(200, Json(TokenResponse("abc", "2099-01-01T00:00:00Z", "Bearer")),
                  TokenRequested(CallFor("svc@proj.iam.gserviceaccount.com")))
  {
    var r := Request("GET", Url("", "", IdentityPrefix + "/token", ""), map["Metadata-Flavor" := ["Google"]]);
    var x := Success(Grant("abc", "2099-01-01T00:00:00Z"));
    assert HasPrefix(IdentityPrefix, IdentityPrefix);
    assert SaysGoogle(Get(r.header, "Metadata-Flavor"));
    TokenAnswered("svc@proj.iam.gserviceaccount.com", r, x, IdentityPrefix);
    var a := OnAccept("svc@proj.iam.gserviceaccount.com", r, x);
    assert a.decision == Answer(200, Json(TokenResponse("abc", "2099-01-01T00:00:00Z", "Bearer")));
    assert a.exchange == TokenRequested(CallFor("svc@proj.iam.gserviceaccount.com"));
  }

  /** The same request with `Metadata-Flavor: banana` is refused with 403 and
      the exchange is not contacted. */
  lemma WrongFlavorExample(x: Outcome, upstream: Request -> Response)
    ensures Handle("svc@proj.iam.gserviceaccount.com",
      Request("GET", Url("", "", IdentityPrefix + "/token", ""), map["Metadata-Flavor" := ["banana"]]), x, upstream)
      == Answered(403, Text("Missing Metadata-Flavor:Google header.\n"), NoExchange)
  {
    var r := Request("GET", Url("", "", IdentityPrefix + "/token", ""), map["Metadata-Flavor" := ["banana"]]);
    assert HasPrefix(IdentityPrefix + "/token", IdentityPrefix);
    assert !SaysGoogle(Get(r.header, "Metadata-Flavor")) by {
      assert Get(r.header, "Metadata-Flavor")[0] == 'b';
    }
    MissingFlavorRejected("svc@proj.iam.gserviceaccount.com", ForceProxied(r), x);
  }

  /** A token path under a longer last prefix segment (`defaultX`) still
      matches the raw prefix and is answered locally. */
  lemma RawPrefixExample(account: string, x: Outcome)
    ensures OnAccept(account,
      Request("GET", Url("http", "169.254.169.254", IdentityPrefix + "X/token", ""), map["Metadata-Flavor" := ["GOOGLE"]]), x)
      .decision.Answer?
  {
    var r := Request("GET", Url("http", "169.254.169.254", IdentityPrefix + "X/token", ""), map["Metadata-Flavor" := ["GOOGLE"]]);
    assert HasPrefix(IdentityPrefix + "X", IdentityPrefix);
    assert SaysGoogle(Get(r.header, "Metadata-Flavor"));
    TokenAnswered(account, r, x, IdentityPrefix + "X");
  }
}
