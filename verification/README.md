# PowerAuth public value types — a Dafny model

This project models the public value types of the PowerAuth mobile SDK core
and the small pure rules attached to them:

- the validation of the request descriptor that a signature is computed over
  (`HTTPRequestData::hasValidData`, `isOfflineRequest`);
- the assembly of the `X-PowerAuth-Authorization` header value from a signing
  result (`HTTPRequestDataSignature::buildAuthHeaderValue`);
- the emptiness test of recovery data (`RecoveryData::isEmpty`);
- the protocol-upgrade availability rule of an activation status
  (`ActivationStatus::isProtocolUpgradeAvailable`) and the documented
  `remainingAttempts` formula;
- the closed enumerations of the Objective-C interface (error codes, protocol
  versions, activation states, ECIES encryptor scope, signing-data key), the
  signature factor combinations, the documented rules on unlock keys and on
  the external encryption key.

Every operation is a pure function over immutable datatypes. Strings are
`seq<char>`, one element per byte of the `std::string`, so `size()` is `|s|`.
`UInt32` is the `uint32` newtype and byte buffers are `seq<byte>`.

The text of the header fragments comes from the protocol constants, which are
not part of this model. `AuthHeader.AuthFragments` carries the seven fragment
strings and the declared `PA_AUTH_FRAGMENTS_LENGTH` as ordinary values. Every
property of the header is therefore proved for any choice of fragments. The
reserved buffer size is exact only when the declared length equals the sum of
the fragment lengths (`AuthHeader.ReservedSizeIsExact`). The header is given a
partner decoder, `AuthHeader.ParseAuthHeaderValue`, which is told the length
of each field. With the fragments left abstract, a field could contain fragment
text, so the header can only be split once the field lengths are known.

`MaxSupported` and the status's `currentVersion`/`upgradeVersion` are declared
in a header that is not part of this model. They are plain integers here: a
parameter and two fields holding protocol-version codes.

Modules: `Common` (byte, uint32, Option), `Codes` (enumerations),
`Splice` (alternating fragments and fields, and their decoder), `RequestData`,
`AuthHeader`, `Recovery`, `Status`, `SignatureKeys`, `Setup`.

Two points about the code that its surroundings could suggest otherwise. The
header emits the version first, right after the opening fragment, and then
the activation id, application key, nonce, signature type and signature
(src/PowerAuth/PublicTypes.cpp:88-100). The offline nonce is meant to be 16
bytes in Base64 (the comment at src/PowerAuth/PublicTypes.cpp:63), but the
code checks only that it has 24 characters and never looks at its alphabet.

The request field `method` is named `httpMethod` because `method` is a Dafny
keyword.

## Model

| member | source | states |
|---|---|---|
| `RequestData.HasValidData` | src/PowerAuth/PublicTypes.cpp:55-68 | valid exactly when the method is one of GET, POST, HEAD, PUT, DELETE (case-sensitive), the URI is non-empty, and the nonce is empty or exactly 24 characters long |
| `RequestData.IsOfflineRequest` | src/PowerAuth/PublicTypes.cpp:70-73 | offline exactly when the request differs from the one built from the same body, method and URI without a nonce; an online request's validity depends only on method and URI |
| `RequestData.EmptyMethodOrUriRejected` | src/PowerAuth/PublicTypes.cpp:57-59 | an empty method or an empty URI makes the request invalid |
| `RequestData.UnknownMethodRejected` | src/PowerAuth/PublicTypes.cpp:60-62 | a method outside the five names is rejected, and so is the lower-case "get" |
| `RequestData.NonceLengthRule` | src/PowerAuth/PublicTypes.cpp:63-66 | a non-empty nonce whose length is not 24 is rejected; with an empty nonce, validity depends only on method and URI |
| `RequestData.ValidOfflineNonceHasFixedLength` | src/PowerAuth/PublicTypes.cpp:63-73 | every valid offline request has a nonce of exactly 24 characters |
| `RequestData.EmptyMethodNotAllowed` | src/PowerAuth/PublicTypes.cpp:57-62 | the emptiness test on the method is subsumed by the method check: every allowed name has 3 to 6 characters |
| `AuthHeader.BuildAuthHeaderValue` | src/PowerAuth/PublicTypes.cpp:80-103 | the value starts with the begin fragment followed by the version, ends with the end fragment, and its length equals the reserved size when the declared fragment length is consistent |
| `AuthHeader.AuthHeaderFieldOrder` | src/PowerAuth/PublicTypes.cpp:88-100 | the value alternates the seven fragments with the fields in the order version, activation id, application key, nonce, factor, signature |
| `AuthHeader.ReservedSizeIsExact` | src/PowerAuth/PublicTypes.cpp:82-85 | the reserved capacity equals the final length exactly when the declared fragments length equals the sum of the fragment lengths |
| `AuthHeader.ReservedSizeIsTotalLength` | src/PowerAuth/PublicTypes.cpp:82-83 | with a consistent declared fragments length, the reserved capacity is the total length of the seven fragments plus the total length of the six fields |
| `AuthHeader.ParseAuthHeaderValue` | src/PowerAuth/PublicTypes.cpp:88-100 | a parsed signature rebuilds to the same header value and has the requested field lengths |
| `AuthHeader.AuthHeaderRoundTrip` | src/PowerAuth/PublicTypes.cpp:80-103 | parsing a built header at its own field lengths gives back the signing result |
| `AuthHeader.AuthHeaderInjective` | src/PowerAuth/PublicTypes.cpp:80-103 | two signing results with equally long fields that give the same header are equal |
| `Splice.InterleaveLength` | src/PowerAuth/PublicTypes.cpp:82-83 | the length of fragments alternated with fields is the sum of all fragment and field lengths |
| `Splice.SplitInterleave` | src/PowerAuth/PublicTypes.cpp:88-100 | splitting an alternated sequence at its own field lengths returns the fields |
| `Recovery.IsEmpty` | src/PowerAuth/PublicTypes.cpp:110-113 | empty exactly when the record is the one with no recovery code and no PUK |
| `Recovery.EitherFieldMakesNonEmpty` | src/PowerAuth/PublicTypes.cpp:110-113 | setting the recovery code or the PUK to a non-empty string makes the record non-empty |
| `Status.IsProtocolUpgradeAvailable` | src/PowerAuth/PublicTypes.cpp:120-128 | available exactly when the state is Active, the current version is below the offered one and the offered one is at most the highest supported; an available upgrade implies the current version is below the highest supported |
| `Status.NoUpgradeUnlessActive` | src/PowerAuth/PublicTypes.cpp:122-127 | in every state other than Active no upgrade is available, whatever the versions |
| `Status.UpgradeFromV2ToV3` | proj-xcode/Classes/core/PA2Types.h:112-134 | with V3 the highest supported, an active V2 activation offered V3 may upgrade and an activation at V3 never can |
| `Status.RemainingAttempts` | proj-xcode/Classes/core/PA2Types.h:474-487 | 0 unless Active; when Active and the fail count is at most the maximum, remaining plus failed attempts make the maximum; never above the maximum; 0 exactly when not Active or the fail count has reached the maximum |
| `Status.RemainingAttemptsMonotone` | proj-xcode/Classes/core/PA2Types.h:476-487 | more failed attempts never leave more remaining, and while Active each failure removes exactly one |
| `Codes.ErrorCodeFromInt` | proj-xcode/Classes/core/PA2Types.h:74-109 | the codes 0 to 3, and no others, decode to an error code whose own code is the input |
| `Codes.OnlyOkIsSuccess` | proj-xcode/Classes/core/PA2Types.h:65-79 | success is exactly the code 0, Ok |
| `Codes.ProtocolVersionFromInt` | proj-xcode/Classes/core/PA2Types.h:121-134 | exactly the codes 0, 2 and 3 decode to a protocol version whose own code is the input |
| `Codes.HashCounterOnlyInV3` | proj-xcode/Classes/core/PA2Types.h:112-115 | only V3, the highest version, uses the hash-based counter |
| `Codes.ActivationStateFromInt` | proj-xcode/Classes/core/PA2Types.h:440-461 | exactly the codes 1 to 5 decode to an activation state whose own code is the input |
| `Codes.EncryptorScopeFromInt` | proj-xcode/Classes/core/PA2Types.h:500-511 | exactly the codes 0 and 1 decode to an encryptor scope whose own code is the input |
| `Codes.MayConstructEncryptor` | proj-xcode/Classes/core/PA2Types.h:501-510 | an application-scope encryptor may always be constructed, an activation-scope one only with a valid activation |
| `Codes.SigningDataKeyFromInt` | proj-xcode/Classes/core/PA2Types.h:303-312 | exactly the codes 0 and 1 decode to a signing-data key whose own code is the input |
| `SignatureKeys.SignatureFactorFromFactors` | proj-xcode/Classes/core/PA2Types.h:144-168 | a set of factors maps to the combination with exactly those factors, and to none when no named combination has them |
| `SignatureKeys.CompositeIncludesPossession` | proj-xcode/Classes/core/PA2Types.h:157-168 | every combination of two or more factors includes possession; knowledge with biometry is not a combination |
| `SignatureKeys.CheckUnlockKeys` | proj-xcode/Classes/core/PA2Types.h:170-228 | Ok exactly when every factor of the combination is covered: a present, non-zero-filled key for possession and biometry, and a password of at least the minimal length for knowledge; WrongParam otherwise |
| `SignatureKeys.ShortPasswordRejected` | proj-xcode/Classes/core/PA2Types.h:220-228 | a missing password, or one shorter than the minimal length, makes any combination with knowledge fail with WrongParam |
| `SignatureKeys.ZeroKeyNeverUsable` | proj-xcode/Classes/core/PA2Types.h:205-217 | a key of zero bytes only, of any length, and a missing key are never accepted |
| `SignatureKeys.AcceptedCompositeHasPossessionKey` | proj-xcode/Classes/core/PA2Types.h:157-207 | keys accepted for a multi-factor combination hold a possession key with a non-zero byte |
| `Setup.EffectiveExternalEncryptionKey` | proj-xcode/Classes/core/PA2Types.h:47-60 | the external encryption key is used exactly when it is present and 16 bytes long, and then unchanged |
| `Setup.WrongSizedKeyIgnored` | proj-xcode/Classes/core/PA2Types.h:47-50 | a key of any other size has the same effect as no key |

## Left out

- ECIES encryption and decryption (the end-to-end encryption round trip and the invalid-curve rejection) need elliptic-curve, AES and HMAC primitives whose implementation is not part of this model.
- The `PowerAuthToken` / `PowerAuthTokenStore` interface is an asynchronous, thread-safe, network-backed store with cancellable tasks and a weak back-reference; it has no implementation here and its point is concurrency and I/O.
- Objective-C property plumbing: `nonatomic`/`strong` attributes, `NSData`/`NSString` bridging, and the Base64 mirror properties of `PA2SignedData`.
- `PA2Password` and `PA2Otp` are declared in headers that are not part of this model; the password is an opaque optional byte string.
- The text of the `PA_AUTH_FRAGMENT_*` constants and the value of `PA_AUTH_FRAGMENTS_LENGTH` are defined in protocol constants that are not part of this model; they stay parameters.
- `HTTPRequestData`'s `body` is carried but never inspected: the validity check does not look at it.
- Status.RemainingAttempts: the documented formula is `maxFailCount - failCount` on `UInt32`, which would wrap around if the fail count ever exceeded the maximum; the model saturates at 0 in that case instead, because the implementation of the property is not part of this model.
- SignatureKeys.CheckUnlockKeys: the session code that validates unlock keys is not part of this model, so this states the documented contract only; the value of the minimal password length lives in a private constants file that is not part of this model, so it is a parameter; a zero-filled key that the combination does not need is not checked, and an empty key counts as zero-filled.
- The numeric values of the `PA2SignatureFactor` constants are declared `extern` and not visible; factor combinations are modelled as sets of factors instead.
