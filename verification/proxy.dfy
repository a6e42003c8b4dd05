/** The proxy's hooks: `OnAccept` decides whether a request is answered
    locally as a metadata identity request or forwarded; `OnRequest` points
    every forwarded request at the metadata server; `OnResponse` marks every
    forwarded response. The service-account name is an explicit parameter,
    and the IAM exchange is an input outcome. */
module Proxy {
  import opened Wrappers
  import opened Strings
  import opened Http
  import opened Iam

  /** The link-local address of the metadata server. */
  const MetadataHost: string := "169.254.169.254"

  /** The path prefix of the default service account's metadata. */
  const IdentityPrefix: string := "/computeMetadata/v1/instance/service-accounts/default"

  const FlavorHeader: string := "Metadata-Flavor"

  const MissingFlavorBody: string := "Missing Metadata-Flavor:Google header.\n"

  const ViaHeader: string := "Via"

  const ViaValue: string := "gce-impersonation-proxy"

  const StatusOK: int := 200
  const StatusForbidden: int := 403
  const StatusInternalServerError: int := 500

  /** The `tokenResponse` record sent back for a token request. */
  datatype TokenResponse = TokenResponse(accessToken: string, expiresIn: string, tokenType: string)

  /** What a locally answered request carries: plain text, or the token record as JSON. */
  datatype Body = Text(text: string) | Json(token: TokenResponse)

  /** Whether the request goes upstream or is answered here with a status and body. */
  datatype Decision = Forward | Answer(status: int, body: Body)

  /** How far the IAM exchange got for one request: not contacted, client
      creation only (which failed), or the token call was issued. */
  datatype ExchangeTrace = NoExchange | ServiceOnly | TokenRequested(call: GenerateCall)

  /** The result of `onAccept`: the request as it leaves the hook (its URL may
      have been completed), the decision, and the exchange it caused. */
  datatype Accepted = Accepted(request: Request, decision: Decision, exchange: ExchangeTrace)

  /** The relative-URL fix-up at the start of `onAccept`: a URL without a
      scheme becomes `http://169.254.169.254` plus its own path and query;
      absolute URLs pass unchanged. */
  function ForceProxied(r: Request): (r': Request)
    ensures IsAbs(r'.url)
    ensures IsAbs(r.url) ==> r' == r
    ensures !IsAbs(r.url) ==> r'.url.scheme == "http" && r'.url.host == "169.254.169.254"
    ensures r'.verb == r.verb && r'.header == r.header
    ensures r'.url.path == r.url.path && r'.url.rawQuery == r.url.rawQuery
  {
    if IsAbs(r.url) then r else r.(url := r.url.(scheme := "http", host := MetadataHost))
  }

  /** `v` spells "google" with each letter in either case. */
  ghost predicate SaysGoogle(v: string) {
    |v| == 6 && forall i :: 0 <= i < |v| ==> v[i] == "google"[i] || v[i] == "GOOGLE"[i]
  }

  /** The header gate: the lower-cased `Metadata-Flavor` value is "google"
      (an absent header reads as ""). It passes exactly for the spellings of
      "google" in any letter case. */
  predicate FlavorOk(h: Header): (b: bool)
    ensures b <==> SaysGoogle(Get(h, FlavorHeader))
  {
    var v := Get(h, FlavorHeader);
    ToLowerEqualsIff(v, "google");
    assert forall i :: 0 <= i < 6 ==> "google"[i] as int - 32 == "GOOGLE"[i] as int;
    ToLower(v) == "google"
  }

  /** The action a metadata path asks for: its last `/`-separated segment once
      every trailing `/` is gone, that is, the text after the last `/` of the
      trimmed path. */
  function ActionOf(path: string): (action: string)
    ensures IsFinalSegment(action, TrimRight(path, '/'), '/')
  {
    LastPieceIsFinalSegment(TrimRight(path, '/'), '/');
    Last(Split(TrimRight(path, '/'), '/'))
  }

  /** The answer to a token request, given how the exchange went. */
  function TokenAnswer(account: string, outcome: Outcome): (a: (Decision, ExchangeTrace))
    ensures a.0.Answer?
    ensures a.0.status == 500 <==> outcome.Failure?
    ensures a.0.status == 200 <==> outcome.Success?
    ensures a.1 == ServiceOnly <==> outcome.Failure? && outcome.error.stage == Initialize
    ensures a.1 != ServiceOnly ==> a.1 == TokenRequested(CallFor(account))
    ensures a.0.body.Json? ==> a.0.body.token.tokenType == "Bearer"
  {
    match outcome
    case Failure(ExchangeError(Initialize, msg)) =>
      (Answer(StatusInternalServerError, Text("Failed to initialize iamcredentials service: " + msg + "\n")), ServiceOnly)
    case Failure(ExchangeError(Generate, msg)) =>
      (Answer(StatusInternalServerError, Text("Failed to generate token: " + msg + "\n")), TokenRequested(CallFor(account)))
    case Success(grant) =>
      (Answer(StatusOK, Json(TokenResponse(grant.accessToken, grant.expireTime, "Bearer"))), TokenRequested(CallFor(account)))
  }

  /** The decision `onAccept` takes once the request is classified: whether it
      is a GET, whether its path has the identity prefix, whether it passes the
      header gate, and its action. The gate is consulted before the action, and
      the action only under the prefix. */
  function Dispatch(account: string, isGet: bool, underPrefix: bool, gateOk: bool, action: string, outcome: Outcome)
    : (d: (Decision, ExchangeTrace))
    ensures d.0 == Forward <==> !(isGet && underPrefix) || (gateOk && action != "token" && action != "email")
    ensures d.1 != NoExchange <==> isGet && underPrefix && gateOk && action == "token"
    ensures isGet && underPrefix && !gateOk ==> d.0 == Answer(403, Text("Missing Metadata-Flavor:Google header.\n"))
  {
    if isGet && underPrefix then
      if gateOk then
        if action == "token" then TokenAnswer(account, outcome)
        else if action == "email" then (Answer(StatusOK, Text(account)), NoExchange)
        else (Forward, NoExchange)
      else (Answer(StatusForbidden, Text(MissingFlavorBody)), NoExchange)
    else (Forward, NoExchange)
  }

  /** `onAccept`: decides a request. A GET under the identity prefix is gated on
      the `Metadata-Flavor` header (403 without it) and then dispatched on its
      action: "token" and "email" are answered here, anything else goes
      upstream. Every other request goes upstream. */
  function OnAccept(account: string, r: Request, outcome: Outcome): (a: Accepted)
    ensures a.request == ForceProxied(r)
    ensures a.exchange != NoExchange ==> a.decision.Answer?
  {
    var r' := ForceProxied(r);
    var (d, x) := Dispatch(account, r'.verb == "GET", HasPrefix(r'.url.path, IdentityPrefix),
                           FlavorOk(r'.header), ActionOf(r'.url.path), outcome);
    Accepted(r', d, x)
  }

  /** `onRequest`: every forwarded request is sent to the metadata server's
      address; nothing else about it changes. */
  function OnRequest(r: Request): (r': Request)
    ensures r'.url.host == "169.254.169.254"
    ensures r'.verb == r.verb && r'.header == r.header
    ensures r'.url.scheme == r.url.scheme && r'.url.path == r.url.path && r'.url.rawQuery == r.url.rawQuery
  {
    r.(url := r.url.(host := MetadataHost))
  }

  /** `onResponse`: every forwarded response gains exactly one
      `Via: gce-impersonation-proxy` value; nothing else changes. */
  function OnResponse(resp: Response): (resp': Response)
    ensures resp'.status == resp.status && resp'.body == resp.body
    ensures Values(resp'.header, "Via") == Values(resp.header, "Via") + ["gce-impersonation-proxy"]
    ensures resp'.header.Keys == resp.header.Keys + {"Via"}
    ensures forall k :: k in resp.header && k != "Via" ==> resp'.header[k] == resp.header[k]
  {
    resp.(header := Add(resp.header, ViaHeader, ViaValue))
  }

  /** One JSON member if `value` is non-empty, none otherwise (`omitempty`). */
  function Member(key: string, value: string): seq<(string, string)> {
    if value == "" then [] else [(key, value)]
  }

  /** The position of a `tokenResponse` field in its declaration. */
  function FieldRank(key: string): int {
    if key == "access_token" then 0 else if key == "expires_in" then 1 else 2
  }

  /** The members `json.Marshal` writes for a `TokenResponse`, in field order;
      every field is tagged `omitempty`, so empty strings are left out. Escaping
      and the byte-level layout are the JSON library's and are not modelled. */
  function JsonMembers(t: TokenResponse): (ms: seq<(string, string)>)
    ensures |ms| <= 3
    ensures forall i :: 0 <= i < |ms| ==> ms[i].1 != ""
    ensures ("access_token", t.accessToken) in ms <==> t.accessToken != ""
    ensures ("expires_in", t.expiresIn) in ms <==> t.expiresIn != ""
    ensures ("token_type", t.tokenType) in ms <==> t.tokenType != ""
    ensures forall i :: 0 <= i < |ms| ==> ms[i] in [("access_token", t.accessToken), ("expires_in", t.expiresIn), ("token_type", t.tokenType)]
    ensures forall i, j :: 0 <= i < j < |ms| ==> FieldRank(ms[i].0) < FieldRank(ms[j].0)
  {
    Member("access_token", t.accessToken) + Member("expires_in", t.expiresIn) + Member("token_type", t.tokenType)
  }

  /** The checked start-up configuration. */
  datatype Config = Config(account: string, bindAddress: string)

  const DefaultBindAddress: string := "127.0.0.1:80"

  /** `main`'s flag check: `-I` defaults to "" and `-B` to "127.0.0.1:80"; the
      process stops with usage output (here `None`) unless both end up non-empty. */
  function Startup(accountFlag: Option<string>, bindFlag: Option<string>): (c: Option<Config>)
    ensures c.Some? <==> accountFlag.Some? && accountFlag.value != "" && bindFlag.GetOr("127.0.0.1:80") != ""
    ensures c.Some? ==> c.value.account == accountFlag.value
    ensures c.Some? && bindFlag.None? ==> c.value.bindAddress == "127.0.0.1:80"
    ensures c.Some? && bindFlag.Some? ==> c.value.bindAddress == bindFlag.value
  {
    var account := accountFlag.GetOr("");
    var bind := bindFlag.GetOr(DefaultBindAddress);
    if account == "" || bind == "" then None else Some(Config(account, bind))
  }
}
