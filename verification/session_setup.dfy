/** Constants fixed for the lifetime of a session (`PA2SessionSetup`). */
module Setup {
  import opened Common

  /** Size of an external encryption key that the session will use. */
  const ExternalEncryptionKeySize: nat := 16

  datatype SessionSetup = SessionSetup(
    applicationKey: string,
    applicationSecret: string,
    masterServerPublicKey: string,
    sessionIdentifier: uint32,
    externalEncryptionKey: Option<seq<byte>>)

  /**
   The external encryption key the cryptographic operations use: the
   configured one when it has exactly 16 bytes, and none otherwise.
   */
  function EffectiveExternalEncryptionKey(setup: SessionSetup): (eek: Option<seq<byte>>)
    ensures eek.Some? <==>
      setup.externalEncryptionKey.Some? && |setup.externalEncryptionKey.value| == ExternalEncryptionKeySize
    ensures eek.Some? ==> eek == setup.externalEncryptionKey
  {
    match setup.externalEncryptionKey
    case Some(k) => if |k| == ExternalEncryptionKeySize then Some(k) else None
    case None => None
  }

  /** A key of any other size is ignored, as if none had been configured. */
  lemma WrongSizedKeyIgnored(setup: SessionSetup, k: seq<byte>)
    requires |k| != ExternalEncryptionKeySize
    ensures EffectiveExternalEncryptionKey(setup.(externalEncryptionKey := Some(k)))
            == EffectiveExternalEncryptionKey(setup.(externalEncryptionKey := None))
  {
  }
}
