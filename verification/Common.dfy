// Types shared by the other modules.
module Common {

  /** One octet. */
  type u8 = x: int | 0 <= x < 256

  type Bytes = seq<u8>

  datatype Option<+T> = None | Some(value: T)

  function Min(a: int, b: int): int { if a < b then a else b }

  /** `buf` with the bytes from `off` on replaced by `data`: a memcpy into a buffer. */
  function Overwrite(buf: Bytes, off: nat, data: Bytes): Bytes
    requires off + |data| <= |buf|
  {
    buf[..off] + data + buf[off + |data|..]
  }

  /** The parts one after the other. */
  ghost function Flatten(parts: seq<Bytes>): Bytes {
    if parts == [] then [] else Flatten(parts[..|parts| - 1]) + parts[|parts| - 1]
  }

  lemma ConcatAssoc(a: Bytes, b: Bytes, c: Bytes)
    ensures a + (b + c) == (a + b) + c
  {
  }
}
