/** Values shared by the whole model of the crash game: bytes, the 32-byte
    SHA-256 output, the two cryptographic primitives the game calls into
    (kept uninterpreted, as function-typed parameters), and the error
    outcomes of an operation. */
module Types {

  /** One byte, as Python's `bytes` holds them. */
  type byte = x: int | 0 <= x < 256

  /** The raw output of SHA-256 (and of HMAC-SHA256): exactly 32 bytes. */
  type Bytes32 = s: seq<byte> | |s| == 32 witness seq(32, i => 0)

  /** `hashlib.sha256(s.encode()).digest()`: SHA-256 over the UTF-8 encoding
      of a string. Only its result width is known to the model. */
  type Sha256 = string -> Bytes32

  /** `hmac.new(key, msg, digestmod=hashlib.sha256).digest()`, taking the key
      first and the message second. */
  type HmacSha256 = (seq<byte>, seq<byte>) -> Bytes32

  datatype Option<+T> = None | Some(value: T)

  /** The ways an operation of the game can fail. Python raises for both:
      `ValueError` from `bytes.fromhex` and `IndexError` from `list.pop`. */
  datatype GameError =
    | InvalidHexDigest   // a round hash that is not an even-length hex string
    | ChainExhausted     // every element of the hash chain has been used

  datatype Outcome<+T> = Ok(value: T) | Err(error: GameError)
}
