/**
 Signature factors and the unlock keys a caller supplies for them
 (`PA2SignatureFactor`, `PA2SignatureUnlockKeys`).
 */
module SignatureKeys {
  import opened Common
  import opened Codes

  /** One authentication factor. */
  datatype Factor = Possession | Knowledge | Biometry

  /** The factor combinations a signature may be requested for. */
  datatype SignatureFactor =
    | PossessionOnly
    | KnowledgeOnly
    | BiometryOnly
    | PossessionKnowledge
    | PossessionBiometry
    | PossessionKnowledgeBiometry
  {
    /** The factors the combination involves. */
    function Factors(): set<Factor> {
      match this
      case PossessionOnly => {Possession}
      case KnowledgeOnly => {Knowledge}
      case BiometryOnly => {Biometry}
      case PossessionKnowledge => {Possession, Knowledge}
      case PossessionBiometry => {Possession, Biometry}
      case PossessionKnowledgeBiometry => {Possession, Knowledge, Biometry}
    }
  }

  /** The named combination of exactly the given factors, if there is one. */
  function SignatureFactorFromFactors(fs: set<Factor>): (r: Option<SignatureFactor>)
    ensures r.Some? ==> r.value.Factors() == fs
    ensures r.None? ==> forall sf: SignatureFactor :: sf.Factors() != fs
  {
    if fs == {Possession} then Some(PossessionOnly)
    else if fs == {Knowledge} then Some(KnowledgeOnly)
    else if fs == {Biometry} then Some(BiometryOnly)
    else if fs == {Possession, Knowledge} then Some(PossessionKnowledge)
    else if fs == {Possession, Biometry} then Some(PossessionBiometry)
    else if fs == {Possession, Knowledge, Biometry} then Some(PossessionKnowledgeBiometry)
    else None
  }

  /** Every multi-factor combination includes possession; knowledge with biometry alone is not one. */
  lemma CompositeIncludesPossession(sf: SignatureFactor)
    requires |sf.Factors()| >= 2
    ensures Possession in sf.Factors()
    ensures SignatureFactorFromFactors({Knowledge, Biometry}) == None
  {
  }

  /** The keys that unlock the stored factor keys for one operation. */
  datatype SignatureUnlockKeys = SignatureUnlockKeys(
    possessionUnlockKey: Option<seq<byte>>,
    biometryUnlockKey: Option<seq<byte>>,
    userPassword: Option<seq<byte>>)

  /** A buffer of zero bytes only; the empty buffer counts as one. */
  predicate IsZeroFilled(k: seq<byte>) {
    forall i :: 0 <= i < |k| ==> k[i] == 0
  }

  /** A possession or biometry key the session accepts: present and not zero-filled. */
  predicate IsUsableKey(k: Option<seq<byte>>) {
    k.Some? && !IsZeroFilled(k.value)
  }

  /**
   The keys provide what the factor needs. The password must be at least
   `minimalPasswordLength` long; that minimum is a private session constant,
   so it is a parameter here.
   */
  predicate Supplies(keys: SignatureUnlockKeys, f: Factor, minimalPasswordLength: nat) {
    match f
    case Possession => IsUsableKey(keys.possessionUnlockKey)
    case Knowledge => keys.userPassword.Some? && |keys.userPassword.value| >= minimalPasswordLength
    case Biometry => IsUsableKey(keys.biometryUnlockKey)
  }

  /**
   Checks that the keys cover every factor of the combination: `Ok` when
   they do, `WrongParam` for a missing or zero-filled key or a password
   shorter than the minimum.
   */
  function CheckUnlockKeys(keys: SignatureUnlockKeys, sf: SignatureFactor, minimalPasswordLength: nat)
    : (e: ErrorCode)
    ensures e == Ok || e == WrongParam
    ensures e == Ok <==> forall f :: f in sf.Factors() ==> Supplies(keys, f, minimalPasswordLength)
  {
    var fs := sf.Factors();
    if Possession in fs && !IsUsableKey(keys.possessionUnlockKey) then WrongParam
    else if Knowledge in fs && keys.userPassword.None? then WrongParam
    else if Knowledge in fs && |keys.userPassword.value| < minimalPasswordLength then WrongParam
    else if Biometry in fs && !IsUsableKey(keys.biometryUnlockKey) then WrongParam
    else Ok
  }

  /** A password shorter than the minimum never satisfies a combination that needs knowledge. */
  lemma ShortPasswordRejected(keys: SignatureUnlockKeys, sf: SignatureFactor, minimalPasswordLength: nat)
    requires Knowledge in sf.Factors()
    requires keys.userPassword.None? || |keys.userPassword.value| < minimalPasswordLength
    ensures CheckUnlockKeys(keys, sf, minimalPasswordLength) == WrongParam
  {
  }

  /** A key of zero bytes only is never accepted, whatever its length. */
  lemma ZeroKeyNeverUsable(n: nat)
    ensures !IsUsableKey(Some(seq(n, _ => 0 as byte)))
    ensures !IsUsableKey(None)
  {
  }

  /**
   Keys accepted for a multi-factor combination always hold a possession key
   with at least one non-zero byte.
   */
  lemma AcceptedCompositeHasPossessionKey(keys: SignatureUnlockKeys, sf: SignatureFactor, minimalPasswordLength: nat)
    requires |sf.Factors()| >= 2
    requires CheckUnlockKeys(keys, sf, minimalPasswordLength) == Ok
    ensures keys.possessionUnlockKey.Some?
    ensures exists i :: 0 <= i < |keys.possessionUnlockKey.value| && keys.possessionUnlockKey.value[i] != 0
  {
  }
}
