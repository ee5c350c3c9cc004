/** Bytes and the small value types shared by the program-name store and the message composer. */
module Bytes {

  /** One octet: an element of an `OsStr` on Unix, of a `Vec<u8>`, of a `&[u8]`. */
  newtype byte = x: int | 0 <= x < 256

  datatype Option<+T> = None | Some(value: T)

  const SLASH: byte := 0x2F
  const DOT: byte := 0x2E
  const COLON: byte := 0x3A
  const SPACE: byte := 0x20
  const NEWLINE: byte := 0x0A

  /** The bytes of a literal written only with characters below U+0080. */
  function Ascii(s: string): seq<byte>
    requires forall i :: 0 <= i < |s| ==> s[i] < 128 as char
  {
    seq(|s|, i requires 0 <= i < |s| => s[i] as int as byte)
  }

  /** `s.ends_with(suffix)`. */
  predicate EndsWith(s: seq<byte>, suffix: seq<byte>)
  {
    |suffix| <= |s| && s[|s| - |suffix|..] == suffix
  }

  function Min(a: nat, b: nat): nat
  {
    if a <= b then a else b
  }
}
