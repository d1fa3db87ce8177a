/** Value types shared by every part of the model. */
module Basics {

  datatype Option<+T> = None | Some(value: T)

  /** One octet of a Python `bytes` value. */
  type Byte = b: int | 0 <= b < 0x100

  /** One code point of a Python `str`; lone surrogates are included, as in Python. */
  type Code = c: int | 0 <= c < 0x110000

  type Bytes = seq<Byte>
  type Text = seq<Code>

  /** SHA-256 is left abstract: any function from bytes to 32 bytes. */
  type Digest = d: Bytes | |d| == 32 witness seq(32, i => 0)
  type Hash = Bytes -> Digest

  /** What a reader made of the front of its input, and what is left. */
  datatype Parsed<+T> = Fail | Ok(value: T, rest: Text)

  /** A name with a value: a dictionary item, a directory entry, a found file. */
  datatype Keyed<+T> = Keyed(key: Text, value: T)

  const QUOTE: Byte := 0x22
  const SLASH: Byte := 0x2F

  /** An ASCII literal as bytes; JSON text written by the enclave is pure ASCII, so its UTF-8 form is the same. */
  function A(s: string): (b: Bytes)
    ensures |b| == |s|
    ensures forall i :: 0 <= i < |s| ==> b[i] == s[i] as int % 0x100
  {
    seq(|s|, i requires 0 <= i < |s| => s[i] as int % 0x100)
  }

  function Min(a: int, b: int): int { if a <= b then a else b }

  /** `h(x) == h(y)` for two different inputs: what a hash function is trusted to make infeasible. */
  predicate Collides(h: Hash, x: Bytes, y: Bytes) { x != y && h(x) == h(y) }
}
