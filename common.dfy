/** Optional values: the model's stand-in for C# nullable results (`decimal?`, `CustomerInfo?`). */
module Wrappers {

  datatype Option<+T> = None | Some(value: T)
}

/** Octets, as received from the socket and as produced by UTF-8 encoding. */
module Bytes {

  type byte = b: int | 0 <= b < 0x100
}
