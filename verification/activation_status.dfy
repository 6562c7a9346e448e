/** The decoded activation status and the rules derived from it (`ActivationStatus`). */
module Status {
  import opened Common
  import opened Codes

  /**
   Status of an activation. The versions are the integer codes of protocol
   versions: the one the activation currently uses and the one the server
   offers to upgrade to.
   */
  datatype ActivationStatus = ActivationStatus(
    state: ActivationState,
    failCount: uint32,
    maxFailCount: uint32,
    currentVersion: int,
    upgradeVersion: int)

  /**
   Authentication attempts left before the activation is blocked. A fail
   count above the maximum yields 0 rather than a wrapped-around difference.
   */
  function RemainingAttempts(st: ActivationStatus): (left: uint32)
    ensures st.state != Active ==> left == 0
    ensures st.state == Active && st.failCount <= st.maxFailCount ==>
              left as int + st.failCount as int == st.maxFailCount as int
    ensures left <= st.maxFailCount
    ensures left == 0 <==> st.state != Active || st.failCount >= st.maxFailCount
  {
    if st.state == Active && st.failCount <= st.maxFailCount then
      st.maxFailCount - st.failCount
    else
      0
  }

  /** Each further failed attempt never increases the attempts left. */
  lemma RemainingAttemptsMonotone(st: ActivationStatus, moreFailures: uint32)
    requires st.failCount <= moreFailures
    ensures RemainingAttempts(st.(failCount := moreFailures)) <= RemainingAttempts(st)
    ensures st.state == Active && moreFailures <= st.maxFailCount ==>
              RemainingAttempts(st) as int - RemainingAttempts(st.(failCount := moreFailures)) as int
              == moreFailures as int - st.failCount as int
  {
  }

  /**
   Whether the activation may be upgraded to a newer protocol version: it is
   active, the offered version is newer than the current one, and the offered
   version is one this implementation supports.
   */
  function IsProtocolUpgradeAvailable(st: ActivationStatus, maxSupported: int): (available: bool)
    ensures available <==>
      st.state == Active && st.currentVersion < st.upgradeVersion && st.upgradeVersion <= maxSupported
    ensures available ==> st.currentVersion < maxSupported
  {
    if st.state == Active then
      if st.currentVersion < st.upgradeVersion then
        st.upgradeVersion <= maxSupported
      else
        false
    else
      false
  }

  /** No upgrade is ever offered for an activation that is not active. */
  lemma NoUpgradeUnlessActive(st: ActivationStatus, maxSupported: int)
    requires st.state != Active
    ensures !IsProtocolUpgradeAvailable(st, maxSupported)
    ensures forall s :: s != Active ==> !IsProtocolUpgradeAvailable(st.(state := s), maxSupported)
  {
  }

  /**
   With V3 as the highest supported version, an active V2 activation offered
   V3 may upgrade, and an activation already at V3 never can.
   */
  lemma UpgradeFromV2ToV3(st: ActivationStatus)
    requires st.state == Active
    ensures IsProtocolUpgradeAvailable(st.(currentVersion := V2.Code(), upgradeVersion := V3.Code()), V3.Code())
    ensures st.currentVersion == V3.Code() ==> !IsProtocolUpgradeAvailable(st, V3.Code())
  {
  }
}
