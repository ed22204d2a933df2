/**
 * Bytes and the UTF-8 encoding of strings.
 *
 * A Rust `String` is UTF-8; `String::into_bytes` (used by `convert_out` and
 * `convert_transform`) and `Cursor::new(String)` (used to feed patterns and
 * the subject to the lexers) expose exactly those bytes. A Dafny `char` is a
 * Unicode scalar value, so the encoding below is total on `string`.
 */
module Utf8 {

  type byte = b: int | 0 <= b < 256

  /** The UTF-8 encoding of one scalar value: 1 to 4 bytes, six payload bits per continuation byte. */
  function EncodeChar(c: char): (r: seq<byte>)
    ensures 1 <= |r| <= 4
    ensures |r| == 1 <==> c as int < 0x80
    ensures |r| == 2 <==> 0x80 <= c as int < 0x800
    ensures |r| == 3 <==> 0x800 <= c as int < 0x10000
    ensures (r[0] < 0x80 <==> |r| == 1)
              && (0xC0 <= r[0] < 0xE0 <==> |r| == 2)
              && (0xE0 <= r[0] < 0xF0 <==> |r| == 3)
              && (0xF0 <= r[0] < 0xF8 <==> |r| == 4)
    ensures forall i :: 1 <= i < |r| ==> 0x80 <= r[i] < 0xC0
  {
    var cp := c as int;
    var q1 := cp / 0x40;
    var q2 := q1 / 0x40;
    var q3 := q2 / 0x40;
    if cp < 0x80 then
      [cp]
    else if cp < 0x800 then
      [0xC0 + q1, 0x80 + cp % 0x40]
    else if cp < 0x10000 then
      [0xE0 + q2, 0x80 + q1 % 0x40, 0x80 + cp % 0x40]
    else
      [0xF0 + q3, 0x80 + q2 % 0x40, 0x80 + q1 % 0x40, 0x80 + cp % 0x40]
  }

  /** The scalar value that a 1- to 4-byte UTF-8 sequence spells. */
  function ScalarOf(r: seq<int>): int
  {
    if |r| == 0 then 0
    else if |r| == 1 then r[0]
    else if |r| == 2 then (r[0] - 0xC0) * 0x40 + (r[1] - 0x80)
    else if |r| == 3 then ((r[0] - 0xE0) * 0x40 + (r[1] - 0x80)) * 0x40 + (r[2] - 0x80)
    else (((r[0] - 0xF0) * 0x40 + (r[1] - 0x80)) * 0x40 + (r[2] - 0x80)) * 0x40 + (r[3] - 0x80)
  }

  lemma ScalarOfEncodeChar(c: char)
    ensures ScalarOf(EncodeChar(c)) == c as int
  {
    var cp := c as int;
    var q1 := cp / 0x40;
    var q2 := q1 / 0x40;
    assert cp == q1 * 0x40 + cp % 0x40;
    assert q1 == q2 * 0x40 + q1 % 0x40;
    assert q2 == (q2 / 0x40) * 0x40 + q2 % 0x40;
  }

  /** The UTF-8 bytes of a string, as `String::into_bytes` returns them. */
  function Encode(s: string): (r: seq<byte>)
    ensures |r| >= |s|
    ensures s == [] <==> r == []
  {
    if s == [] then [] else EncodeChar(s[0]) + Encode(s[1..])
  }

  /** Different scalar values have different encodings. */
  lemma EncodeCharInjective(a: char, b: char)
    requires EncodeChar(a) == EncodeChar(b)
    ensures a == b
  {
    ScalarOfEncodeChar(a);
    ScalarOfEncodeChar(b);
  }

  /** UTF-8 is a prefix code: equal byte strings come from equal strings. */
  lemma {:induction false} EncodeInjective(s: string, t: string)
    requires Encode(s) == Encode(t)
    ensures s == t
  {
    if s != [] {
      var es, et := EncodeChar(s[0]), EncodeChar(t[0]);
      assert Encode(s) == es + Encode(s[1..]);
      assert Encode(t) == et + Encode(t[1..]);
      // the lead byte fixes the length of the first encoded scalar value
      assert es[0] == Encode(s)[0] == et[0];
      assert |es| == |et|;
      assert es == Encode(s)[..|es|] == et;
      EncodeCharInjective(s[0], t[0]);
      assert Encode(s[1..]) == Encode(s)[|es|..] == Encode(t[1..]);
      EncodeInjective(s[1..], t[1..]);
    }
  }

  /** A string encoding that never sends two strings to the same bytes. */
  ghost predicate Injective(enc: string -> seq<byte>)
  {
    forall s, t :: enc(s) == enc(t) ==> s == t
  }

  /** No two strings share their UTF-8 bytes. */
  lemma EncodeIsInjective()
    ensures Injective(Encode)
  {
    forall s: string, t: string | Encode(s) == Encode(t) ensures s == t {
      EncodeInjective(s, t);
    }
  }
}
