# gce-impersonation-proxy, modelled in Dafny

The proxy stands in for the GCE metadata server. Processes ask it for credentials at the usual link-local endpoint. It answers identity requests for the `default` service account with short-lived access tokens for an impersonated service account, which it gets from the IAM credentials API. Everything else is forwarded to the real metadata server at `169.254.169.254`.

This project models the proxy's three hooks in `main.go` as pure functions:

- `OnAccept` first gives a URL without a scheme the destination `http://169.254.169.254`. It then classifies the request:
  - Anything other than a GET whose path has the raw prefix `/computeMetadata/v1/instance/service-accounts/default` is forwarded.
  - Inside that surface, a request whose `Metadata-Flavor` header does not lower-case to `google` is refused with 403.
  - Otherwise the action is the last `/`-separated segment of the path, after every trailing `/` is removed:
    - `token` runs the IAM exchange and answers 500 or 200.
    - `email` answers 200 with the service-account name.
    - Any other action is forwarded.
- `OnRequest` sets the host of every forwarded request to `169.254.169.254`.
- `OnResponse` adds one `Via: gce-impersonation-proxy` value to every forwarded response.

The IAM exchange is a network call. Its outcome is an input of type `Result<Grant, ExchangeError>`, where the error names the failing stage (`Initialize` or `Generate`) and carries its message. `OnAccept` also reports how far it went with the exchange: not contacted, client creation only, or the `GenerateAccessToken` call with its exact arguments. So "the exchange is never contacted" and "the call asks for this resource, lifetime and scope" are properties you can state.

Modules:

- `Wrappers`: `Option` and `Result`.
- `Strings`: the Go `strings` functions the classifier uses (`HasPrefix`, `TrimRight`, `Split`, `ToLower`). Each has a contract that characterises its result. `TrimRight` and `Split` also have partners: uniqueness for `TrimRight`, `Join` for `Split`, and the text after the last separator for the last piece of a split.
- `Http`: URL, header map, request and response, and `Header.Get` and `Header.Add`.
  - `URL.IsAbs` is modelled as Go defines it: the URL has a scheme.
- `Iam`: the `GenerateAccessToken` request and the exchange outcome.
- `Proxy`: the hooks, the `tokenResponse` record and its `omitempty` JSON members, and the flag check in `main`.
- `Pipeline`: the hook order registered in `main`. `OnAccept` runs first. If it declines a CONNECT request, `onConnect` answers `ConnectNone` and nothing is tunnelled. If it declines any other request, `OnRequest` runs, then the upstream, then `OnResponse`.
- `ProxyTheorems`: the properties of the hooks, stated against independent descriptions:
  - The header gate is described as "spells `google` in any letter case".
  - The action is described as "the text after the last `/`".

Two points of the code's behaviour are easy to miss:

- The code classifies every request, relative or absolute. It only first gives relative URLs the metadata scheme and host (`main.go:32-37`). `DecisionIgnoresDestination` proves that the scheme, host and query play no part in the decision.
- The header gate is checked before the action. So an unknown action without the header gets 403 and is not forwarded (`MissingFlavorRejected`).

`OnAccept` is written as classification followed by `Dispatch`. Classification computes four things: whether the request is a GET, whether it has the prefix, whether it passes the gate, and its action. `Dispatch` then decides. Go computes the action only inside the gate. Here it is computed for every request, but it only matters inside the gate, and it has no side effects.

## Model

| member | source | states |
|---|---|---|
| Strings.HasPrefix | main.go:37 | the prefix test holds exactly when the prefix is no longer than the path and agrees with it character by character, with no segment boundary |
| Strings.HasPrefixAppend | main.go:37 | a path keeps the prefix whatever is appended to it |
| Strings.TrimRight | main.go:39 | the result is a prefix of the path that does not end in `/`, and everything cut off is `/` |
| Strings.TrimRightUnique | main.go:39 | any prefix with those two properties is the trimmed path, so every trailing `/` is removed, not just one |
| Strings.TrimRightAppend | main.go:39 | one more trailing `/` does not change the trimmed path |
| Strings.TrimRightIdempotent | main.go:39 | trimming an already trimmed path changes nothing |
| Strings.Split | main.go:39 | splitting on `/` gives at least one piece, and no piece contains `/` |
| Strings.JoinSplit | main.go:39 | joining the pieces with `/` gives the path back |
| Strings.SplitJoin | main.go:39 | splitting a join of `/`-free pieces gives those pieces back |
| Strings.SplitUnique | main.go:39 | the split is the only sequence of `/`-free pieces that joins to the path, so it matches Go's left-to-right scan |
| Strings.LastPieceIsFinalSegment | main.go:39-41 | the action `parts[len(parts)-1]` is the text after the last `/`, or the whole string if it has no `/` |
| Strings.LastPieceEquals | main.go:39-41 | the action equals any segment that follows the last `/` |
| Strings.ToLower | main.go:38 | lower-casing keeps the length and lowers each ASCII letter in place |
| Strings.ToLowerEqualsIff | main.go:38 | the lower-cased value equals a lower-case word exactly when it spells that word with each letter in either case |
| Http.Get | main.go:38 | a header read gives the first value, or "" when the header is absent |
| Http.Add | main.go:101 | adding a header value appends it to that key's values and leaves every other key as it was |
| Iam.ResourceName | main.go:58 | the service-account resource is `projects/-/serviceAccounts/` followed by the name, which can be recovered from it |
| Iam.CallFor | main.go:51-59 | the token call asks for the account's resource name, lifetime `3600s` and the single cloud-platform scope |
| Proxy.ForceProxied | main.go:32-35 | a URL without a scheme gets scheme `http` and host `169.254.169.254`; an absolute URL is unchanged; method, header, path and query never change |
| Http.IsAbs | main.go:32 | a URL counts as absolute exactly when its scheme is non-empty; host, path and query play no part |
| Proxy.FlavorOk | main.go:38 | the header gate passes exactly when the `Metadata-Flavor` value spells `google` with each letter in either case |
| Proxy.ActionOf | main.go:39-41 | the action is the text after the last `/` of the path once every trailing `/` is removed |
| Proxy.TokenAnswer | main.go:42-69 | a token request is always answered here: 500 exactly when the exchange fails and 200 exactly when it succeeds; the client-creation failure is the only case without the token call, and every other case issues the call for the account |
| Proxy.Dispatch | main.go:37-83 | forwarded exactly when the request is not a GET under the prefix, or it passes the gate with an action other than `token` and `email`; 403 with the missing-header body when it fails the gate; the exchange is contacted exactly for a gated `token` action |
| Proxy.OnAccept | main.go:30-84 | the request leaves the hook with its URL completed, and the exchange is contacted only for a request answered here |
| Proxy.OnRequest | main.go:91-98 | a forwarded request's host becomes `169.254.169.254`; scheme, path, query, method and headers stay the same |
| Proxy.OnResponse | main.go:100-102 | a forwarded response gains exactly one `Via: gce-impersonation-proxy` value; status, body and other headers stay the same |
| Proxy.JsonMembers | main.go:19-23 | the token record's JSON members are written in field order with no key twice, each present exactly when its value is non-empty (`omitempty`) |
| Proxy.Startup | main.go:104-111 | the process starts only if the `-I` name and the `-B` bind address (default `127.0.0.1:80`) are both non-empty |
| Pipeline.Handle | main.go:113-120 | a CONNECT request is never tunnelled or sent upstream; any other proxied request reaches the upstream with host `169.254.169.254` and its own method, path and headers, and the client gets the upstream response's status, body and headers, with exactly one `Via` value added and every other header unchanged |
| ProxyTheorems.AbsentFlavorRefused | main.go:38 | a request without a `Metadata-Flavor` value fails the gate, because the value reads as "" |
| ProxyTheorems.OffSurfaceForwarded | main.go:37-83 | a request that is not a GET, or whose path lacks the raw prefix, is forwarded and the exchange is not contacted |
| ProxyTheorems.MissingFlavorRejected | main.go:75-78 | a GET under the prefix without an acceptable header gets 403 and `Missing Metadata-Flavor:Google header.\n`, whatever its action, with no exchange |
| ProxyTheorems.ActionOfSegment | main.go:39-41 | the action of `base/seg` is `seg` for every non-empty `seg` without `/` |
| ProxyTheorems.ActionOfTrailingSlash | main.go:39 | a trailing `/` does not change the action, so `token`, `token/` and `token//` are the same action |
| ProxyTheorems.ActionOfBarePrefix | main.go:39-41 | the bare prefix, with or without a trailing `/`, names the action `default` |
| ProxyTheorems.PrefixTrailingSlash | main.go:37 | adding `/` to a path does not change whether it has the identity prefix |
| ProxyTheorems.SegmentUnderPrefix | main.go:37-41 | `base/seg` keeps the raw prefix of `base` and names the action `seg` |
| ProxyTheorems.DecidedByClassification | main.go:37-41 | two requests that agree on the method, the prefix test, the header gate and the action get the same decision and the same exchange |
| ProxyTheorems.TrailingSlashIrrelevant | main.go:37-41 | adding `/` to the path never changes the decision or the exchange |
| ProxyTheorems.DecisionIgnoresDestination | main.go:32-37 | the decision is the same for any scheme, host and query, whether the URL is absolute or relative |
| ProxyTheorems.EmailAnswered | main.go:70-71 | `.../email` with the header gets status 200 and exactly the service-account name as its body, with no exchange |
| ProxyTheorems.OtherActionForwarded | main.go:72-73 | any other non-empty action under the prefix with the header is forwarded |
| ProxyTheorems.BarePrefixForwarded | main.go:72-73 | the bare prefix, or the prefix followed by `/`, with the header is forwarded |
| ProxyTheorems.TokenDecidedByOutcome | main.go:41-69 | any two gated GET token requests under the prefix get the same local answer and the same exchange for the same exchange outcome, whatever else differs between them |
| ProxyTheorems.TokenAnswered | main.go:42-69 | for a token request: a client-creation failure gives 500 `Failed to initialize iamcredentials service: msg\n` with no token call; a call failure gives 500 `Failed to generate token: msg\n`; success gives 200 with access token, expiry time unchanged as `expires_in`, and `Bearer` |
| ProxyTheorems.ForwardedIff | main.go:37-83 | a request is forwarded exactly when it is off the identity surface, or it carries the header and names an action other than `token` and `email` |
| ProxyTheorems.ExchangeIff | main.go:42-60 | the exchange is contacted exactly for gated GET token requests under the prefix, and the token call is made exactly when the client was created |
| ProxyTheorems.TokenJsonMembers | main.go:67-68 | a grant with a non-empty token and expiry is written as `access_token`, `expires_in` and `token_type: Bearer`, in that order |
| ProxyTheorems.ProxiedIff | main.go:113-120 | a request reaches the upstream exactly when `onAccept` declines it and it is not a CONNECT; a CONNECT is never tunnelled; otherwise the client gets the hook's status |
| ProxyTheorems.ForeignHostRedirected | main.go:93 | `http://example.com/foo` is forwarded as `http://169.254.169.254/foo` |
| ProxyTheorems.TokenExample | main.go:42-69 | a relative `.../default/token` request with `Metadata-Flavor: Google` and a granted token `abc` gets 200 with the token record |
| ProxyTheorems.WrongFlavorExample | main.go:75-78 | the same request with `Metadata-Flavor: banana` gets 403 and never contacts the exchange |
| ProxyTheorems.RawPrefixExample | main.go:37 | `.../defaultX/token` matches the raw prefix and is answered locally |

## Left out

- The go-httpproxy wiring, `onConnect`, `onError` and `ListenAndServe`: these are transport plumbing in a library that is not part of this model. `Pipeline.Handle` models only the hook order the go-httpproxy library is taken to follow: accept, then connect, then request, then response. The registrations at `main.go:113-120` name the hooks but do not fix that order.
- The `http.ResponseWriter` mechanics: the writer's effect is modelled as the returned status and body. A body written without `WriteHeader` gets the implicit 200.
- The iamcredentials client (`NewService`, `GenerateAccessToken(...).Do()`): it is a network call. Its outcome is an input, and only the arguments of the call are stated.
- Logging (`main.go:27`, `main.go:96`): it has no effect on the decisions.
- Concurrency, deadlines and cancellation: the code has none, and the handlers share only the read-only account name, which is a parameter here.
- Header key canonicalisation: the server canonicalises incoming keys, and the keys the hooks use are already canonical, so headers are maps keyed by canonical names.
- Strings.ToLower: maps only ASCII letters, not Go's full Unicode case mapping. The gate stays exact: Go lower-cases only U+0130 and U+212A from outside ASCII into ASCII, to `i` and `k`, and neither appears in `google`. This argument is made here and is not proved.
- Proxy.JsonMembers: models the members `json.Marshal` writes, not its bytes. Escaping belongs to the JSON library, and the marshal error at `main.go:68` is ignored by the code and cannot occur for string fields.
- Proxy.OnAccept: its own contract covers only the URL completion and the exchange-implies-answer link. Its full behaviour is stated by the `ProxyTheorems` lemmas.
- Pipeline.Handle: the upstream is a total function from request to response. Transport errors while forwarding are reported by the library and are not modelled.
- Pipeline.Handle: for CONNECT, the model promises only that nothing is tunnelled or sent upstream, since `onConnect` answers `ConnectNone` (`main.go:86-89`). What the library then sends the client is not part of this model.
- Pipeline.Handle: the response headers the client gets are the upstream's plus one `Via` value. Any change the library makes to response headers, such as removing hop-by-hop headers, is not modelled.
- Pipeline.Handle: `sent.header == r.header` assumes the library changes no header between `onAccept` and `onRequest`. The library's code is not part of this model, so no source here establishes that; a proxy library may, for example, drop `Proxy-*` headers.
- Go strings are byte strings, so a percent-decoded `URL.Path` or a header value can hold bytes that are not valid UTF-8. Dafny strings cannot hold those. The decisions are unaffected, because every comparison is against ASCII text: `/`, the prefix, `token`, `email` and `google`.
