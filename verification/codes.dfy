/**
 The closed enumerations of the public interface, each with its integer code
 and the decoder that maps a code back to the enumeration.
 */
module Codes {
  import opened Common

  /** Result of every core operation (`PA2CoreErrorCode`). */
  datatype ErrorCode = Ok | Encryption | WrongState | WrongParam {

    function Code(): int {
      match this
      case Ok => 0
      case Encryption => 1
      case WrongState => 2
      case WrongParam => 3
    }

    /** Only `Ok` reports success; every other code is a failure hint. */
    predicate IsSuccess() {
      this == Ok
    }
  }

  function ErrorCodeFromInt(c: int): (r: Option<ErrorCode>)
    ensures r.Some? <==> 0 <= c <= 3
    ensures r.Some? ==> r.value.Code() == c
    ensures r.None? ==> forall e: ErrorCode :: e.Code() != c
  {
    if c == 0 then Some(Ok)
    else if c == 1 then Some(Encryption)
    else if c == 2 then Some(WrongState)
    else if c == 3 then Some(WrongParam)
    else None
  }

  /** Exactly one code denotes success, and it is the code 0. */
  lemma OnlyOkIsSuccess(e: ErrorCode)
    ensures e.IsSuccess() <==> e.Code() == 0
    ensures e.IsSuccess() <==> ErrorCodeFromInt(e.Code()) == Some(Ok)
  {
  }

  /** PowerAuth protocol version (`PA2ProtocolVersion`). */
  datatype ProtocolVersion = NA | V2 | V3 {

    function Code(): int {
      match this
      case NA => 0
      case V2 => 2
      case V3 => 3
    }

    /** V3 replaced the linear signature counter with a hash-based one. */
    predicate UsesHashBasedCounter() {
      this == V3
    }
  }

  function ProtocolVersionFromInt(c: int): (r: Option<ProtocolVersion>)
    ensures r.Some? <==> c == 0 || c == 2 || c == 3
    ensures r.Some? ==> r.value.Code() == c
    ensures r.None? ==> forall v: ProtocolVersion :: v.Code() != c
  {
    if c == 0 then Some(NA)
    else if c == 2 then Some(V2)
    else if c == 3 then Some(V3)
    else None
  }

  /** Only the highest known version uses the hash-based counter. */
  lemma HashCounterOnlyInV3(v: ProtocolVersion)
    ensures v.UsesHashBasedCounter() <==> v.Code() == 3
    ensures v.UsesHashBasedCounter() ==> forall w: ProtocolVersion :: w.Code() <= v.Code()
  {
  }

  /** State of an activation as reported by the server (`PA2ActivationState`). */
  datatype ActivationState = Created | OTP_Used | Active | Blocked | Removed {

    function Code(): int {
      match this
      case Created => 1
      case OTP_Used => 2
      case Active => 3
      case Blocked => 4
      case Removed => 5
    }
  }

  function ActivationStateFromInt(c: int): (r: Option<ActivationState>)
    ensures r.Some? <==> 1 <= c <= 5
    ensures r.Some? ==> r.value.Code() == c
    ensures r.None? ==> forall s: ActivationState :: s.Code() != c
  {
    if c == 1 then Some(Created)
    else if c == 2 then Some(OTP_Used)
    else if c == 3 then Some(Active)
    else if c == 4 then Some(Blocked)
    else if c == 5 then Some(Removed)
    else None
  }

  /** How an ECIES encryptor is configured (`PA2ECIESEncryptorScope`). */
  datatype EncryptorScope = Application | Activation {

    function Code(): int {
      match this
      case Application => 0
      case Activation => 1
    }
  }

  function EncryptorScopeFromInt(c: int): (r: Option<EncryptorScope>)
    ensures r.Some? <==> c == 0 || c == 1
    ensures r.Some? ==> r.value.Code() == c
    ensures r.None? ==> forall s: EncryptorScope :: s.Code() != c
  {
    if c == 0 then Some(Application)
    else if c == 1 then Some(Activation)
    else None
  }

  /**
   Whether an encryptor of the given scope may be constructed: an
   application-scoped one always, an activation-scoped one only while the
   session has a valid activation.
   */
  function MayConstructEncryptor(scope: EncryptorScope, hasValidActivation: bool): (allowed: bool)
    ensures scope == Application ==> allowed
    ensures !hasValidActivation ==> (allowed <==> scope.Code() == 0)
    ensures allowed <==> scope != Activation || hasValidActivation
  {
    match scope
    case Application => true
    case Activation => hasValidActivation
  }

  /** The server key that produced a signature over data (`PA2SigningDataKey`). */
  datatype SigningDataKey = ECDSA_MasterServerKey | ECDSA_PersonalizedKey {

    function Code(): int {
      match this
      case ECDSA_MasterServerKey => 0
      case ECDSA_PersonalizedKey => 1
    }
  }

  function SigningDataKeyFromInt(c: int): (r: Option<SigningDataKey>)
    ensures r.Some? <==> c == 0 || c == 1
    ensures r.Some? ==> r.value.Code() == c
    ensures r.None? ==> forall k: SigningDataKey :: k.Code() != c
  {
    if c == 0 then Some(ECDSA_MasterServerKey)
    else if c == 1 then Some(ECDSA_PersonalizedKey)
    else None
  }
}
