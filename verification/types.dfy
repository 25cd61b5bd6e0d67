/**
 The machine types the General Service works with: unsigned bytes (the
 `uint8_t` of the configuration protocol and of the persisted floor), signed
 32-bit integers (the temperature and firmware characteristics) and an
 optional value standing for a pointer that may be null.
 */
module Types {

  /** An unsigned 8-bit value (`uint8_t`). */
  newtype byte = x: int | 0 <= x < 0x100

  /** A signed 32-bit value (`int32_t`). */
  newtype int32 = x: int | -0x8000_0000 <= x < 0x8000_0000

  /** A value that may be absent; `None` plays the part of a null pointer. */
  datatype Option<+T> = None | Some(value: T)
}
