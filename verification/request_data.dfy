/** Validation of the request descriptor that is signed (`HTTPRequestData`). */
module RequestData {
  import opened Common

  /** The HTTP methods a signed request may use; compared case-sensitively. */
  const AllowedMethods: set<string> := {"GET", "POST", "HEAD", "PUT", "DELETE"}

  /** Length of an offline nonce: 16 random bytes in Base64. */
  const OfflineNonceLength: nat := 24

  /**
   Data of one HTTP request. An empty `offlineNonce` stands for a request
   built without a nonce, that is an online request.
   */
  datatype HTTPRequestData = HTTPRequestData(
    body: seq<byte>,
    httpMethod: string,
    uri: string,
    offlineNonce: string)

  /**
   Whether the request may be signed: a non-empty URI, one of the allowed
   methods, and either no nonce or one of exactly 24 characters. Only the
   nonce's length is checked, not its alphabet.
   */
  function HasValidData(r: HTTPRequestData): (valid: bool)
    ensures valid <==>
      && r.httpMethod in AllowedMethods
      && r.uri != []
      && (r.offlineNonce == [] || |r.offlineNonce| == OfflineNonceLength)
  {
    if |r.httpMethod| == 0 || |r.uri| == 0 then false
    else if !(r.httpMethod == "GET" || r.httpMethod == "POST" || r.httpMethod == "HEAD"
              || r.httpMethod == "PUT" || r.httpMethod == "DELETE") then false
    else if |r.offlineNonce| != 0 && |r.offlineNonce| != OfflineNonceLength then false
    else true
  }

  /** A request built without a nonce. */
  function OnlineRequest(body: seq<byte>, httpMethod: string, uri: string): HTTPRequestData
  {
    HTTPRequestData(body, httpMethod, uri, [])
  }

  /**
   A request is an offline one exactly when it carries a nonce, that is when
   it is not the request built from the same body, method and URI without one.
   */
  function IsOfflineRequest(r: HTTPRequestData): (offline: bool)
    ensures offline <==> r.offlineNonce != []
    ensures offline <==> r != OnlineRequest(r.body, r.httpMethod, r.uri)
    ensures !offline ==> (HasValidData(r) <==> r.httpMethod in AllowedMethods && r.uri != [])
  {
    |r.offlineNonce| != 0
  }

  /** An empty method or URI is rejected whatever else the request holds. */
  lemma EmptyMethodOrUriRejected(r: HTTPRequestData)
    requires r.httpMethod == [] || r.uri == []
    ensures !HasValidData(r)
  {
  }

  /** Method names are matched exactly: a lower-case or unknown method is rejected. */
  lemma UnknownMethodRejected(r: HTTPRequestData)
    requires r.httpMethod !in AllowedMethods
    ensures !HasValidData(r)
    ensures !HasValidData(r.(httpMethod := "get"))
  {
  }

  /** A nonce of any length other than 24 is rejected; the empty nonce never is. */
  lemma NonceLengthRule(r: HTTPRequestData)
    ensures r.offlineNonce != [] && |r.offlineNonce| != OfflineNonceLength ==> !HasValidData(r)
    ensures HasValidData(r.(offlineNonce := [])) <==> r.httpMethod in AllowedMethods && r.uri != []
  {
  }

  /** Every valid offline request carries a nonce of exactly 24 characters. */
  lemma ValidOfflineNonceHasFixedLength(r: HTTPRequestData)
    requires HasValidData(r) && IsOfflineRequest(r)
    ensures |r.offlineNonce| == OfflineNonceLength
  {
  }

  /**
   The separate emptiness test on the method is subsumed by the method check:
   no allowed method is empty.
   */
  lemma EmptyMethodNotAllowed()
    ensures [] !in AllowedMethods
    ensures forall m :: m in AllowedMethods ==> 3 <= |m| <= 6
  {
  }
}
