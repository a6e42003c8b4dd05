/** The IAM credentials exchange as the proxy sees it: the request it would
    send to `GenerateAccessToken`, and the outcome it gets back. The client
    itself is a network call and stays outside the model; its outcome is an
    input value. */
module Iam {
  import opened Wrappers

  /** The token lifetime the proxy asks for. */
  const Lifetime: string := "3600s"

  /** The single OAuth scope the proxy asks for. */
  const CloudPlatformScope: string := "https://www.googleapis.com/auth/cloud-platform"

  /** The resource-name prefix of a service account in any project. */
  const ServiceAccountsPrefix: string := "projects/-/serviceAccounts/"

  /** `iamcredentials.GenerateAccessTokenRequest`, restricted to the fields set. */
  datatype AccessTokenRequest = AccessTokenRequest(lifetime: string, scope: seq<string>)

  /** One `GenerateAccessToken(name, request)` call. */
  datatype GenerateCall = GenerateCall(name: string, request: AccessTokenRequest)

  /** The fields of a successful `GenerateAccessTokenResponse` the proxy reads. */
  datatype Grant = Grant(accessToken: string, expireTime: string)

  /** Which step of the exchange failed: creating the client, or the call itself. */
  datatype Stage = Initialize | Generate

  datatype ExchangeError = ExchangeError(stage: Stage, message: string)

  /** What the exchange yields for one request. */
  type Outcome = Result<Grant, ExchangeError>

  /** The resource name of the service account `account`. */
  function ResourceName(account: string): (name: string)
    ensures |name| == |ServiceAccountsPrefix| + |account|
    ensures name[..|ServiceAccountsPrefix|] == ServiceAccountsPrefix
    ensures name[|ServiceAccountsPrefix|..] == account
  {
    ServiceAccountsPrefix + account
  }

  /** The call the proxy makes for `account`: one hour, cloud-platform scope. */
  function CallFor(account: string): (call: GenerateCall)
    ensures call.name == "projects/-/serviceAccounts/" + account
    ensures call.request.lifetime == "3600s"
    ensures call.request.scope == ["https://www.googleapis.com/auth/cloud-platform"]
  {
    GenerateCall(ResourceName(account), AccessTokenRequest(Lifetime, [CloudPlatformScope]))
  }
}
