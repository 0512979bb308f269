/** The cryptographic library functions, known only by the sizes of what they return. */
module Primitives {
  import opened ByteStrings

  type Digest = d: Bytes | |d| == 20 witness Zeros(20)

  datatype Crypto = Crypto(
    sha1: Bytes -> Digest,
    hmacSha1: (Bytes, Bytes) -> Digest,
    aesEncrypt: (Bytes, Block) -> Block,
    aesDecrypt: (Bytes, Block) -> Block)

  /** Under every key the block cipher is a permutation that decryption inverts. */
  ghost predicate Invertible(c: Crypto) {
    forall key: Bytes, block: Block :: c.aesDecrypt(key, c.aesEncrypt(key, block)) == block
  }
}
