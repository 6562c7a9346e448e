/** Value types shared by the PowerAuth public-type model. */
module Common {

  /** One octet of a byte buffer (`cc7::ByteArray`, `NSData`). */
  newtype byte = x: int | 0 <= x < 0x100

  /** The unsigned 32-bit integer of the Objective-C interface (`UInt32`). */
  newtype uint32 = x: int | 0 <= x < 0x1_0000_0000

  /** An optional value: `nullable` properties and values that may be absent. */
  datatype Option<+T> = None | Some(value: T)
}
