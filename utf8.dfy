/**
 * UTF-8, as Swift's `String.utf8` view produces it and as `String(cString:)` reads it back.
 * Decoding repairs ill-formed input the way Swift does: every maximal subpart of an
 * ill-formed sequence becomes one U+FFFD, as recommended in section 3.9 of the
 * Unicode Standard ("U+FFFD Substitution of Maximal Subparts").
 */
module Utf8 {
  import opened Bytes

  const Replacement: char := '�'

  /** The UTF-8 encoding of one Unicode scalar value. */
  function EncodeChar(c: char): (r: seq<byte>)
    ensures 1 <= |r| <= 4
    ensures (r[0] < 0x80) <==> (c as int < 0x80)
    ensures r[0] == 0 <==> c == '\0'
    ensures forall k | 1 <= k < |r| :: 0x80 <= r[k] < 0xC0
  {
    var cp := c as int;
    if cp < 0x80 then [cp]
    else if cp < 0x800 then [0xC0 + cp / 64, 0x80 + cp % 64]
    else if cp < 0x1_0000 then [0xE0 + cp / 4096, 0x80 + cp / 64 % 64, 0x80 + cp % 64]
    else [0xF0 + cp / 0x4_0000, 0x80 + cp / 4096 % 64, 0x80 + cp / 64 % 64, 0x80 + cp % 64]
  }

  /** `Array(string.utf8)`: one to four bytes per character, and nothing for nothing. */
  function Encode(s: string): (r: seq<byte>)
    ensures |s| <= |r| <= 4 * |s|
  {
    if s == [] then [] else EncodeChar(s[0]) + Encode(s[1..])
  }

  predicate IsContinuation(b: byte) { 0x80 <= b < 0xC0 }

  /** How many bytes the well-formed sequence starting with lead byte b0 has; 0 if b0 cannot start one. */
  function SequenceLength(b0: byte): (n: nat)
  {
    if b0 < 0x80 then 1
    else if 0xC2 <= b0 <= 0xDF then 2
    else if 0xE0 <= b0 <= 0xEF then 3
    else if 0xF0 <= b0 <= 0xF4 then 4
    else 0
  }

  /** The second byte of a multi-byte sequence is narrower than a plain continuation after these leads. */
  predicate SecondByteFits(b0: byte, b1: byte)
  {
    (if b0 == 0xE0 then 0xA0 else if b0 == 0xF0 then 0x90 else 0x80) <= b1 <=
    (if b0 == 0xED then 0x9F else if b0 == 0xF4 then 0x8F else 0xBF)
  }

  /**
   * How many leading bytes of s (at most n, the length its lead byte announces) belong
   * to a well-formed sequence: all n when the sequence is complete, otherwise the maximal subpart.
   */
  function Matched(s: seq<byte>, n: nat): (m: nat)
    requires |s| > 0 && 2 <= n <= 4
    ensures 1 <= m <= n && m <= |s|
  {
    if |s| < 2 || !SecondByteFits(s[0], s[1]) then 1
    else if n == 2 then 2
    else if |s| < 3 || !IsContinuation(s[2]) then 2
    else if n == 3 then 3
    else if |s| < 4 || !IsContinuation(s[3]) then 3
    else 4
  }

  /** The scalar value a complete, well-formed sequence of length n at the start of s encodes. */
  function ScalarOf(s: seq<byte>, n: nat): (c: char)
    requires 2 <= n <= 4 && |s| >= n && SequenceLength(s[0]) == n && Matched(s, n) == n
  {
    var b0: int, b1: int := s[0], s[1];
    if n == 2 then
      ((b0 - 0xC0) * 64 + (b1 - 0x80)) as char
    else
      var b2: int := s[2];
      if n == 3 then
        ((b0 - 0xE0) * 4096 + (b1 - 0x80) * 64 + (b2 - 0x80)) as char
      else
        var b3: int := s[3];
        ((b0 - 0xF0) * 0x4_0000 + (b1 - 0x80) * 4096 + (b2 - 0x80) * 64 + (b3 - 0x80)) as char
  }

  /** The first character decoded from s, and the number of bytes it takes. */
  function DecodeFirst(s: seq<byte>): (r: (char, nat))
    requires |s| > 0
    ensures 1 <= r.1 <= |s|
  {
    var n := SequenceLength(s[0]);
    if n == 0 then (Replacement, 1)
    else if n == 1 then (s[0] as char, 1)
    else
      var m := Matched(s, n);
      if m == n then (ScalarOf(s, n), n) else (Replacement, m)
  }

  /** Decoding with repair: never fails, and every character comes from at least one byte. */
  function Decode(s: seq<byte>): (r: string)
    ensures |r| <= |s|
    ensures r == [] <==> s == []
  {
    if s == [] then []
    else
      var (c, k) := DecodeFirst(s);
      [c] + Decode(s[k..])
  }

  /** A byte that cannot start a sequence (a stray continuation, 0xC0, 0xC1, or 0xF5 and up) becomes one U+FFFD. */
  lemma DecodeRepairsInvalidByte(b: byte, rest: seq<byte>)
    requires b >= 0x80 && !(0xC2 <= b <= 0xF4)
    ensures Decode([b] + rest) == [Replacement] + Decode(rest)
  {
    assert ([b] + rest)[1..] == rest;
  }

  /** A truncated sequence is one maximal subpart: the first two bytes of the three of U+20AC, then `A`, give U+FFFD and `A`. */
  lemma DecodeRepairsTruncated()
    ensures Decode([0xE2, 0x82, 0x41]) == [Replacement, 'A']
  {
    var s: seq<byte> := [0xE2, 0x82, 0x41];
    assert Matched(s, 3) == 2;
    assert s[2..] == [0x41];
    assert Decode([0x41]) == ['A'] by { assert [0x41][1..] == []; }
  }

  lemma DecodeFirstOfEncodeChar(c: char, rest: seq<byte>)
    ensures DecodeFirst(EncodeChar(c) + rest) == (c, |EncodeChar(c)|)
  {
    var cp := c as int;
    if cp < 0x80 {
    } else if cp < 0x800 {
      DecodeTwo(c, rest);
    } else if cp < 0x1_0000 {
      DecodeThree(c, rest);
    } else {
      DecodeFour(c, rest);
    }
  }

  lemma DecodeTwo(c: char, rest: seq<byte>)
    requires 0x80 <= c as int < 0x800
    ensures DecodeFirst(EncodeChar(c) + rest) == (c, 2)
  {
    var cp := c as int;
    var s := EncodeChar(c) + rest;
    var q, r := cp / 64, cp % 64;
    assert cp == 64 * q + r;
    assert s[0] == 0xC0 + q && s[1] == 0x80 + r;
    assert SequenceLength(s[0]) == 2;
    assert Matched(s, 2) == 2;
    assert ScalarOf(s, 2) as int == cp;
  }

  lemma DecodeThree(c: char, rest: seq<byte>)
    requires 0x800 <= c as int < 0x1_0000
    ensures DecodeFirst(EncodeChar(c) + rest) == (c, 3)
  {
    var cp := c as int;
    var s := EncodeChar(c) + rest;
    var q1, r1 := cp / 4096, cp % 4096;
    var q2, r2 := r1 / 64, r1 % 64;
    assert cp == 4096 * q1 + r1 && r1 == 64 * q2 + r2;
    assert cp / 64 == 64 * q1 + q2;
    assert cp / 64 % 64 == q2;
    assert cp % 64 == r2;
    assert s[0] == 0xE0 + q1 && s[1] == 0x80 + q2 && s[2] == 0x80 + r2;
    assert SequenceLength(s[0]) == 3;
    assert SecondByteFits(s[0], s[1]);
    assert Matched(s, 3) == 3;
    assert ScalarOf(s, 3) as int == cp;
  }

  lemma DecodeFour(c: char, rest: seq<byte>)
    requires 0x1_0000 <= c as int
    ensures DecodeFirst(EncodeChar(c) + rest) == (c, 4)
  {
    var cp := c as int;
    var s := EncodeChar(c) + rest;
    var q1, r1 := cp / 0x4_0000, cp % 0x4_0000;
    var q2, r2 := r1 / 4096, r1 % 4096;
    var q3, r3 := r2 / 64, r2 % 64;
    assert cp == 0x4_0000 * q1 + r1 && r1 == 4096 * q2 + r2 && r2 == 64 * q3 + r3;
    assert cp / 4096 == 64 * q1 + q2;
    assert cp / 4096 % 64 == q2;
    assert cp / 64 == 4096 * q1 + 64 * q2 + q3;
    assert cp / 64 % 64 == q3;
    assert cp % 64 == r3;
    assert s[0] == 0xF0 + q1 && s[1] == 0x80 + q2 && s[2] == 0x80 + q3 && s[3] == 0x80 + r3;
    assert SequenceLength(s[0]) == 4;
    assert SecondByteFits(s[0], s[1]);
    assert Matched(s, 4) == 4;
    assert ScalarOf(s, 4) as int == cp;
  }

  /** Decoding undoes encoding, for every string. */
  lemma {:induction false} DecodeOfEncode(s: string)
    ensures Decode(Encode(s)) == s
  {
    if s != [] {
      var e := EncodeChar(s[0]);
      var rest := Encode(s[1..]);
      DecodeFirstOfEncodeChar(s[0], rest);
      assert (e + rest)[|e|..] == rest;
      DecodeOfEncode(s[1..]);
    }
  }

  lemma {:induction false} EncodeAppend(a: string, b: string)
    ensures Encode(a + b) == Encode(a) + Encode(b)
  {
    if a != [] {
      assert (a + b)[0] == a[0];
      assert (a + b)[1..] == a[1..] + b;
      EncodeAppend(a[1..], b);
      assert Encode(a + b) == EncodeChar(a[0]) + (Encode(a[1..]) + Encode(b));
    } else {
      assert a + b == b;
    }
  }

  predicate IsAscii(s: string) { forall i | 0 <= i < |s| :: s[i] as int < 0x80 }

  predicate AllBelow128(b: seq<byte>) { forall i | 0 <= i < |b| :: b[i] < 0x80 }

  /** Every byte of the encoding is below 0x80 exactly when every character is ASCII; then the encoding is the code points. */
  lemma {:induction false} AsciiEncoding(s: string)
    ensures AllBelow128(Encode(s)) <==> IsAscii(s)
    ensures IsAscii(s) ==> |Encode(s)| == |s| && forall i | 0 <= i < |s| :: Encode(s)[i] == s[i] as int
  {
    if s != [] {
      AsciiEncoding(s[1..]);
      var e := EncodeChar(s[0]);
      var r := Encode(s[1..]);
      assert Encode(s) == e + r;
      if AllBelow128(Encode(s)) {
        assert e[0] == Encode(s)[0];
        forall i | 0 <= i < |r| ensures r[i] < 0x80 { assert r[i] == Encode(s)[|e| + i]; }
        forall i | 0 <= i < |s| ensures s[i] as int < 0x80 { if i > 0 { assert s[i] == s[1..][i - 1]; } }
      }
      if IsAscii(s) {
        assert IsAscii(s[1..]) by { forall i | 0 <= i < |s| - 1 ensures s[1..][i] as int < 0x80 { assert s[1..][i] == s[i + 1]; } }
        forall i | 0 <= i < |s| ensures Encode(s)[i] == s[i] as int {
          if i > 0 { assert Encode(s)[i] == r[i - 1]; assert s[1..][i - 1] == s[i]; }
        }
      }
    }
  }

  /** The bytes in front of the first zero byte, or all of b when it has none: what a C string read sees. */
  function BeforeZero(b: seq<byte>): (r: seq<byte>)
    ensures r <= b && 0 !in r
    ensures 0 in b ==> |r| < |b| && b[|r|] == 0
    ensures 0 !in b ==> r == b
  {
    if b == [] then [] else if b[0] == 0 then [] else [b[0]] + BeforeZero(b[1..])
  }

  /** The characters in front of the first U+0000, or all of s when it has none. */
  function BeforeNul(s: string): (r: string)
    ensures r <= s && '\0' !in r
    ensures '\0' in s ==> |r| < |s| && s[|r|] == '\0'
    ensures '\0' !in s ==> r == s
  {
    if s == [] then [] else if s[0] == '\0' then [] else [s[0]] + BeforeNul(s[1..])
  }

  /** A zero byte occurs in the encoding exactly when U+0000 occurs in the string. */
  lemma {:induction false} EncodeHasZeroIffNul(s: string)
    ensures ('\0' in s) <==> (0 in Encode(s))
  {
    if s != [] {
      EncodeHasZeroIffNul(s[1..]);
      var e := EncodeChar(s[0]);
      var r := Encode(s[1..]);
      assert Encode(s) == e + r;
      assert ('\0' in s) <==> (s[0] == '\0' || '\0' in s[1..]);
      assert (0 in e + r) <==> (0 in e || 0 in r);
    }
  }

  /** A C-string read of a terminated encoding stops at the first U+0000 of the string, or at the terminator. */
  lemma {:induction false} BeforeZeroOfEncode(s: string, tail: seq<byte>)
    ensures BeforeZero(Encode(s) + [0] + tail) == Encode(BeforeNul(s))
  {
    if s == [] {
      assert ([] + [0] + tail)[0] == 0;
    } else {
      var e := EncodeChar(s[0]);
      var x := Encode(s[1..]) + [0] + tail;
      assert Encode(s) + [0] + tail == e + x;
      if s[0] == '\0' {
        assert (e + x)[0] == 0;
      } else {
        assert 0 !in e;
        LeadingNonZero(e, x);
        BeforeZeroOfEncode(s[1..], tail);
        assert BeforeNul(s) == [s[0]] + BeforeNul(s[1..]);
        EncodeAppend([s[0]], BeforeNul(s[1..]));
        assert Encode([s[0]]) == e by { assert [s[0]][1..] == []; }
      }
    }
  }

  /** For a string holding U+0000, a C-string read of its encoding gives the encoding of its part before the first U+0000. */
  lemma {:induction false} BeforeZeroOfNulString(s: string)
    requires '\0' in s
    ensures BeforeZero(Encode(s)) == Encode(BeforeNul(s))
  {
    var pre := BeforeNul(s);
    var k := |pre|;
    var post := s[k + 1..];
    assert s[..k] == pre;
    assert s[k..k + 1] == ['\0'];
    assert s == s[..k] + (s[k..k + 1] + s[k + 1..]);
    BeforeZeroAtNul(pre, post);
  }

  lemma BeforeZeroAtNul(pre: string, post: string)
    requires '\0' !in pre
    ensures BeforeZero(Encode(pre + (['\0'] + post))) == Encode(pre)
  {
    EncodeAppend(pre, ['\0'] + post);
    EncodeAppend(['\0'], post);
    assert Encode(['\0']) == [0] by { assert ['\0'][1..] == []; }
    assert Encode(pre + (['\0'] + post)) == Encode(pre) + [0] + Encode(post);
    BeforeZeroOfEncode(pre, Encode(post));
  }

  lemma {:induction false} LeadingNonZero(e: seq<byte>, t: seq<byte>)
    requires 0 !in e
    ensures BeforeZero(e + t) == e + BeforeZero(t)
  {
    if e != [] {
      assert (e + t)[0] == e[0];
      assert (e + t)[1..] == e[1..] + t;
      LeadingNonZero(e[1..], t);
      assert BeforeZero(e + t) == [e[0]] + (e[1..] + BeforeZero(t));
    } else {
      assert e + t == t;
    }
  }
}
