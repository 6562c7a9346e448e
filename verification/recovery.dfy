/** Recovery material issued during activation (`RecoveryData`). */
module Recovery {

  datatype RecoveryData = RecoveryData(recoveryCode: string, puk: string)

  /** The record carries no recovery material: neither a code nor a PUK. */
  function IsEmpty(d: RecoveryData): (empty: bool)
    ensures empty <==> d == RecoveryData([], [])
  {
    |d.recoveryCode| == 0 && |d.puk| == 0
  }

  /** Setting either field makes the record non-empty. */
  lemma EitherFieldMakesNonEmpty(d: RecoveryData, code: string, puk: string)
    requires code != [] || puk != []
    ensures !IsEmpty(RecoveryData(code, puk))
    ensures code != [] ==> !IsEmpty(d.(recoveryCode := code))
    ensures puk != [] ==> !IsEmpty(d.(puk := puk))
  {
  }
}
