/** Values shared by every module: the option type, bytes and the 1024-byte buffer size. */
module Common {

  datatype Option<+T> = None | Some(value: T)

  type byte = b: int | 0 <= b < 256

  const MAX_PDU_SIZE: nat := 1024
}
