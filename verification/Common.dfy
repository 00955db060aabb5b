/** Vocabulary shared by the models: optional values, results, and bytes. */
module Common {
  datatype Option<+T> = None | Some(value: T)

  datatype Result<+T, +E> = Ok(value: T) | Err(error: E)

  type byte = b: int | 0 <= b < 256
  type bytes = seq<byte>

  function Concat(parts: seq<bytes>): bytes {
    if parts == [] then [] else parts[0] + Concat(parts[1..])
  }

  function Pow2(n: nat): (p: nat)
    ensures p >= 1
  {
    if n == 0 then 1 else 2 * Pow2(n - 1)
  }

  /** A hash function and its width; nothing else is assumed of one. */
  type Hash = bytes -> bytes

  const DIGEST_SIZE := 32

  ghost predicate Wide(h: Hash) { forall x: bytes {:trigger h(x)} :: |h(x)| == DIGEST_SIZE }
}
