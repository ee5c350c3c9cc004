/**
 * Well-formed UTF-8, as checked by Rust's `str::from_utf8` and `OsStr::to_str`:
 * the byte sequences of Table 3-7 of the Unicode Standard (no overlong forms,
 * no surrogates, nothing above U+10FFFF).
 */
module Utf8 {
  import opened Bytes

  predicate Continuation(b: byte)
  {
    0x80 <= b <= 0xBF
  }

  /** Allowed second byte of a three-byte sequence led by `b0`. */
  predicate SecondOfThree(b0: byte, b1: byte)
  {
    if b0 == 0xE0 then 0xA0 <= b1 <= 0xBF
    else if b0 == 0xED then 0x80 <= b1 <= 0x9F
    else Continuation(b1)
  }

  /** Allowed second byte of a four-byte sequence led by `b0`. */
  predicate SecondOfFour(b0: byte, b1: byte)
  {
    if b0 == 0xF0 then 0x90 <= b1 <= 0xBF
    else if b0 == 0xF4 then 0x80 <= b1 <= 0x8F
    else Continuation(b1)
  }

  /** The bytes that appear in no well-formed UTF-8 sequence. */
  predicate Forbidden(b: byte)
  {
    b == 0xC0 || b == 0xC1 || b >= 0xF5
  }

  /**
   * The length of the well-formed sequence that encodes the first scalar
   * value of `s`, or 0 when `s` does not start with one.
   */
  function LeadWidth(s: seq<byte>): (w: nat)
    ensures w <= 4 && w <= |s|
    ensures |s| > 0 && s[0] < 0x80 ==> w == 1
    ensures w == 1 ==> s[0] < 0x80
    ensures forall i :: 0 <= i < w ==> !Forbidden(s[i])
  {
    if |s| == 0 then 0
    else if s[0] < 0x80 then 1
    else if 0xC2 <= s[0] <= 0xDF then
      (if |s| >= 2 && Continuation(s[1]) then 2 else 0)
    else if 0xE0 <= s[0] <= 0xEF then
      (if |s| >= 3 && SecondOfThree(s[0], s[1]) && Continuation(s[2]) then 3 else 0)
    else if 0xF0 <= s[0] <= 0xF4 then
      (if |s| >= 4 && SecondOfFour(s[0], s[1]) && Continuation(s[2]) && Continuation(s[3]) then 4 else 0)
    else 0
  }

  /** `s` is a concatenation of well-formed UTF-8 sequences. */
  predicate Valid(s: seq<byte>): (b: bool)
    decreases |s|
    ensures b ==> forall i :: 0 <= i < |s| ==> !Forbidden(s[i])
  {
    |s| == 0 || (LeadWidth(s) > 0 && Valid(s[LeadWidth(s)..]))
  }

  /** `str::from_utf8(s).unwrap_or("")` and `s.to_str().unwrap_or("")`, as bytes. */
  function TextOrEmpty(s: seq<byte>): (r: seq<byte>)
    ensures Valid(r)
    ensures Valid(s) <==> r == s
    ensures r == s || r == []
  {
    if Valid(s) then s else []
  }

  /** Only the first scalar value's bytes decide its width. */
  lemma LeadWidthOfPrefix(s: seq<byte>, t: seq<byte>)
    requires LeadWidth(s) > 0
    ensures LeadWidth(s + t) == LeadWidth(s)
  {
  }

  /** Text that is only ASCII is valid UTF-8. */
  lemma {:induction false} AsciiIsValid(s: seq<byte>)
    requires forall i :: 0 <= i < |s| ==> s[i] < 0x80
    ensures Valid(s)
  {
    if |s| > 0 {
      AsciiIsValid(s[1..]);
    }
  }

  /** An ASCII literal is valid UTF-8. */
  lemma AsciiText(s: string)
    requires forall i :: 0 <= i < |s| ==> s[i] < 128 as char
    ensures Valid(Ascii(s))
  {
    AsciiIsValid(Ascii(s));
  }

  /** Appending to valid text keeps it valid exactly when the appended part is valid. */
  lemma {:induction false} AppendValid(a: seq<byte>, b: seq<byte>)
    requires Valid(a)
    ensures Valid(a + b) <==> Valid(b)
    decreases |a|
  {
    if |a| == 0 {
      assert a + b == b;
    } else {
      var w := LeadWidth(a);
      LeadWidthOfPrefix(a, b);
      assert (a + b)[w..] == a[w..] + b;
      AppendValid(a[w..], b);
    }
  }
}
