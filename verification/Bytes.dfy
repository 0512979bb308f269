/** Byte strings, big-endian numbers, and the outcomes a Go call can have. */
module ByteStrings {
  type byte = x: int | 0 <= x < 256
  type Bytes = seq<byte>

  /** A cipher block, a MILENAGE value, a truncated MAC, an IV or a nonce. */
  type Block = b: Bytes | |b| == 16 witness Zeros(16)

  /** How a Go call ends: with a value, with an error, with a run-time panic (an
      index or slice out of range), or not at all. */
  datatype Outcome<+T> = Ok(value: T) | Err | Panic | Hang

  /** What a loop that has produced `done` gives once the rest of it runs. */
  function After<T>(done: seq<T>, rest: Outcome<seq<T>>): (r: Outcome<seq<T>>)
    ensures done == [] ==> r == rest
    ensures rest == Ok([]) ==> r == Ok(done)
  {
    if rest.Ok? then
      assert [] + rest.value == rest.value && done + [] == done;
      Ok(done + rest.value)
    else rest
  }

  lemma AfterAfter<T>(first: seq<T>, second: seq<T>, rest: Outcome<seq<T>>)
    ensures After(first, After(second, rest)) == After(first + second, rest)
  {
    if rest.Ok? {
      assert first + (second + rest.value) == (first + second) + rest.value;
    }
  }

  datatype Option<+T> = None | Some(value: T)

  /** What decoding base64 gives: the bytes of a packet, and the bytes behind them in the same
      buffer, which a slice expression reaches and an index does not. */
  datatype Received = Received(raw: Bytes, spare: Bytes)

  function Zeros(n: nat): (z: Bytes)
    ensures |z| == n && forall i :: 0 <= i < n ==> z[i] == 0
  {
    seq(n, _ => 0)
  }

  /** The Go slice expression buf[a:b]. */
  function Slice(buf: Bytes, a: int, b: int): Outcome<Bytes> {
    if 0 <= a <= b <= |buf| then Ok(buf[a..b]) else Panic
  }

  lemma SplitSlice(buf: Bytes, x: nat, z: nat, first: Bytes, rest: Bytes)
    requires x <= z <= |buf| && buf[x..z] == first + rest
    ensures x + |first| <= z && buf[x..x + |first|] == first && buf[x + |first|..z] == rest
  {
    assert |buf[x..z]| == |first| + |rest|;
    assert buf[x..x + |first|] == buf[x..z][..|first|];
    assert buf[x + |first|..z] == buf[x..z][|first|..];
  }

  /** Big-endian 16-bit numbers; PutU16 truncates like uint16(n). */
  function U16(hi: byte, lo: byte): nat { hi * 256 + lo }

  function PutU16(n: int): (b: Bytes)
    ensures |b| == 2
    ensures 0 <= n < 65536 ==> U16(b[0], b[1]) == n
  {
    [(n / 256) % 256, n % 256]
  }

  /** Go's copy(dst[at:], src) where src fits. */
  method CopyInto(dst: array<byte>, at: nat, src: Bytes)
    requires at + |src| <= dst.Length
    modifies dst
    ensures dst[..] == old(dst[..at]) + src + old(dst[at + |src|..])
  {
    for i := 0 to |src|
      invariant dst[..at] == old(dst[..at])
      invariant dst[at..at + i] == src[..i]
      invariant dst[at + i..] == old(dst[at + i..])
    {
      dst[at + i] := src[i];
      assert dst[at..at + i + 1] == src[..i] + [src[i]];
    }
  }
}
