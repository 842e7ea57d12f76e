/**
 * The base64 encoding of section 4 of RFC 4648, as used for the stored salt and
 * the stored digest. Encoding turns each 3-byte group into 4 characters of the
 * 64-character alphabet and pads a final 1- or 2-byte group with "==" or "=".
 * Decoding accepts exactly the canonical layout: a multiple of 4 characters
 * from the alphabet, with padding only in the last group.
 */
module Base64 {
  import opened Wrappers

  type Byte = b: int | 0 <= b < 256

  /** The value of one base64 character: six bits. */
  type Sextet = i: int | 0 <= i < 64

  const Pad: char := '='

  /** A character of the 7-bit ASCII range, the only ones str.encode("ascii") accepts. */
  predicate IsAscii(c: char) {
    c as int < 128
  }

  /** Table 1 of RFC 4648: A-Z, a-z, 0-9, '+', '/'. */
  function IndexToChar(i: Sextet): (c: char)
    ensures c != Pad
    ensures IsAscii(c)
  {
    if i < 26 then ('A' as int + i) as char
    else if i < 52 then ('a' as int + (i - 26)) as char
    else if i < 62 then ('0' as int + (i - 52)) as char
    else if i == 62 then '+'
    else '/'
  }

  /** The inverse of the alphabet table; None for a character outside it (padding included). */
  function CharToIndex(c: char): (r: Option<Sextet>)
    ensures r.Some? ==> IndexToChar(r.value) == c
  {
    if 'A' <= c <= 'Z' then Some(c as int - 'A' as int)
    else if 'a' <= c <= 'z' then Some(c as int - 'a' as int + 26)
    else if '0' <= c <= '9' then Some(c as int - '0' as int + 52)
    else if c == '+' then Some(62)
    else if c == '/' then Some(63)
    else None
  }

  /*
   * Bit layout of a group (RFC 4648, section 4): the sextets take the top six bits of b0,
   * the low two bits of b0 with the top four of b1, the low four bits of b1 with the top
   * two of b2, and the low six bits of b2.
   */
  function High6(b0: Byte): Sextet { b0 / 4 }
  function Low2High4(b0: Byte, b1: Byte): Sextet { b0 % 4 * 16 + b1 / 16 }
  function Low4High2(b1: Byte, b2: Byte): Sextet { b1 % 16 * 4 + b2 / 64 }
  function Low6(b2: Byte): Sextet { b2 % 64 }

  /** A full group of three bytes: four characters. */
  function EncodeGroup(b0: Byte, b1: Byte, b2: Byte): (q: string)
    ensures |q| == 4 && forall i :: 0 <= i < 4 ==> IsAscii(q[i])
  {
    [IndexToChar(High6(b0)), IndexToChar(Low2High4(b0, b1)), IndexToChar(Low4High2(b1, b2)), IndexToChar(Low6(b2))]
  }

  /** A final group of two bytes: three characters (the missing bits are zero), then "=". */
  function EncodeTwo(b0: Byte, b1: Byte): (q: string)
    ensures |q| == 4 && forall i :: 0 <= i < 4 ==> IsAscii(q[i])
  {
    [IndexToChar(High6(b0)), IndexToChar(Low2High4(b0, b1)), IndexToChar(Low4High2(b1, 0)), Pad]
  }

  /** A final group of one byte: two characters (the missing bits are zero), then "==". */
  function EncodeOne(b0: Byte): (q: string)
    ensures |q| == 4 && forall i :: 0 <= i < 4 ==> IsAscii(q[i])
  {
    [IndexToChar(High6(b0)), IndexToChar(Low2High4(b0, 0)), Pad, Pad]
  }

  /** The bytes of a group, rebuilt from its sextets. */
  function FirstByte(i0: Sextet, i1: Sextet): Byte { i0 * 4 + i1 / 16 }
  function SecondByte(i1: Sextet, i2: Sextet): Byte { i1 % 16 * 16 + i2 / 4 }
  function ThirdByte(i2: Sextet, i3: Sextet): Byte { i2 % 4 * 64 + i3 }

  function Encode(s: seq<Byte>): (t: string)
    ensures |t| == 4 * ((|s| + 2) / 3)
  {
    if |s| == 0 then []
    else if |s| == 1 then EncodeOne(s[0])
    else if |s| == 2 then EncodeTwo(s[0], s[1])
    else EncodeGroup(s[0], s[1], s[2]) + Encode(s[3..])
  }

  /** Base64 text is pure ASCII, so turning it into a str with decode("ascii") cannot fail. */
  lemma {:induction false} EncodeAscii(s: seq<Byte>)
    ensures forall i :: 0 <= i < |Encode(s)| ==> IsAscii(Encode(s)[i])
    decreases |s|
  {
    if |s| > 3 {
      EncodeAscii(s[3..]);
      var head, rest := EncodeGroup(s[0], s[1], s[2]), Encode(s[3..]);
      assert Encode(s) == head + rest;
      forall i | 0 <= i < |head + rest| ensures IsAscii((head + rest)[i]) {
        if i >= 4 {
          assert (head + rest)[i] == rest[i - 4];
        }
      }
    }
  }

  /** Four alphabet characters back to three bytes. */
  function DecodeGroup(q: string): Option<seq<Byte>>
    requires |q| == 4
  {
    var i0, i1, i2, i3 := CharToIndex(q[0]), CharToIndex(q[1]), CharToIndex(q[2]), CharToIndex(q[3]);
    if i0.Some? && i1.Some? && i2.Some? && i3.Some? then
      Some([FirstByte(i0.value, i1.value), SecondByte(i1.value, i2.value), ThirdByte(i2.value, i3.value)])
    else None
  }

  /** The last four characters, which may end in "=" (two bytes) or "==" (one byte). */
  function DecodeFinalGroup(q: string): Option<seq<Byte>>
    requires |q| == 4
  {
    var i0, i1, i2 := CharToIndex(q[0]), CharToIndex(q[1]), CharToIndex(q[2]);
    if q[2] == Pad && q[3] == Pad then
      if i0.Some? && i1.Some? then Some([FirstByte(i0.value, i1.value)]) else None
    else if q[3] == Pad then
      if i0.Some? && i1.Some? && i2.Some? then
        Some([FirstByte(i0.value, i1.value), SecondByte(i1.value, i2.value)])
      else None
    else DecodeGroup(q)
  }

  /**
   * A text decodes only if it is a whole number of 4-character groups of ASCII
   * characters; every group but the last gives three bytes, the last one to three.
   */
  function Decode(t: string): (r: Option<seq<Byte>>)
    ensures r.Some? ==> |t| % 4 == 0
    ensures r.Some? ==> forall i :: 0 <= i < |t| ==> IsAscii(t[i])
    ensures r.Some? && |t| > 0 ==> 3 * (|t| / 4) - 2 <= |r.value| <= 3 * (|t| / 4)
    decreases |t|
  {
    if |t| == 0 then Some([])
    else if |t| < 4 then None
    else if |t| == 4 then DecodeFinalGroup(t)
    else
      var head, tail := DecodeGroup(t[..4]), Decode(t[4..]);
      if head.Some? && tail.Some? then Some(head.value + tail.value) else None
  }

  lemma IndexRoundTrip(i: Sextet)
    ensures CharToIndex(IndexToChar(i)) == Some(i)
  {
  }

  lemma SplitFirst(b0: Byte, b1: Byte)
    ensures FirstByte(High6(b0), Low2High4(b0, b1)) == b0
  {
    assert Low2High4(b0, b1) / 16 == b0 % 4;
  }

  lemma SplitSecond(b0: Byte, b1: Byte, b2: Byte)
    ensures SecondByte(Low2High4(b0, b1), Low4High2(b1, b2)) == b1
  {
    assert Low2High4(b0, b1) % 16 == b1 / 16;
    assert Low4High2(b1, b2) / 4 == b1 % 16;
  }

  lemma SplitThird(b1: Byte, b2: Byte)
    ensures ThirdByte(Low4High2(b1, b2), Low6(b2)) == b2
  {
    assert Low4High2(b1, b2) % 4 == b2 / 64;
  }

  lemma GroupRoundTrip(b0: Byte, b1: Byte, b2: Byte)
    ensures DecodeGroup(EncodeGroup(b0, b1, b2)) == Some([b0, b1, b2])
  {
    var q := EncodeGroup(b0, b1, b2);
    IndexRoundTrip(High6(b0));
    IndexRoundTrip(Low2High4(b0, b1));
    IndexRoundTrip(Low4High2(b1, b2));
    IndexRoundTrip(Low6(b2));
    SplitFirst(b0, b1);
    SplitSecond(b0, b1, b2);
    SplitThird(b1, b2);
  }

  lemma TwoRoundTrip(b0: Byte, b1: Byte)
    ensures DecodeFinalGroup(EncodeTwo(b0, b1)) == Some([b0, b1])
  {
    IndexRoundTrip(High6(b0));
    IndexRoundTrip(Low2High4(b0, b1));
    IndexRoundTrip(Low4High2(b1, 0));
    SplitFirst(b0, b1);
    SplitSecond(b0, b1, 0);
  }

  lemma OneRoundTrip(b0: Byte)
    ensures DecodeFinalGroup(EncodeOne(b0)) == Some([b0])
  {
    IndexRoundTrip(High6(b0));
    IndexRoundTrip(Low2High4(b0, 0));
    SplitFirst(b0, 0);
  }

  /** Decoding a text longer than one group decodes its first group and then the rest. */
  lemma DecodeSplit(x: string, h: seq<Byte>, t: seq<Byte>)
    requires |x| > 4
    requires DecodeGroup(x[..4]) == Some(h) && Decode(x[4..]) == Some(t)
    ensures Decode(x) == Some(h + t)
  {
  }

  lemma ShortRoundTrip(s: seq<Byte>)
    requires 0 < |s| < 3
    ensures Decode(Encode(s)) == Some(s)
  {
    if |s| == 1 {
      OneRoundTrip(s[0]);
      assert [s[0]] == s;
    } else {
      TwoRoundTrip(s[0], s[1]);
      assert [s[0], s[1]] == s;
    }
  }

  lemma LastGroupRoundTrip(s: seq<Byte>)
    requires |s| == 3
    ensures Decode(Encode(s)) == Some(s)
  {
    var head := EncodeGroup(s[0], s[1], s[2]);
    GroupRoundTrip(s[0], s[1], s[2]);
    assert Encode(s[3..]) == [];
    assert Encode(s) == head;
    assert head[2] != Pad && head[3] != Pad;
    assert DecodeFinalGroup(head) == DecodeGroup(head);
    assert [s[0], s[1], s[2]] == s;
  }

  /*
   * EncodeUnfold and JoinAt state single unfoldings that Dafny knows anyway; they are
   * called by name so that the round-trip proof never unfolds Encode or Decode
   * further than one group, which keeps it within the solver's resource limit.
   */
  lemma EncodeUnfold(s: seq<Byte>)
    requires |s| > 3
    ensures Encode(s) == EncodeGroup(s[0], s[1], s[2]) + Encode(s[3..])
  {
  }

  /** The text of a longer input starts with the group of its first three bytes. */
  lemma FirstGroup(s: seq<Byte>)
    requires |s| > 3
    ensures |Encode(s)| > 4
    ensures DecodeGroup(Encode(s)[..4]) == Some(s[..3])
    ensures Encode(s)[4..] == Encode(s[3..])
  {
    var head := EncodeGroup(s[0], s[1], s[2]);
    EncodeUnfold(s);
    GroupRoundTrip(s[0], s[1], s[2]);
    assert Encode(s)[..4] == head;
    assert [s[0], s[1], s[2]] == s[..3];
  }

  lemma JoinAt(s: seq<Byte>, k: nat)
    requires k <= |s|
    ensures s[..k] + s[k..] == s
  {
  }

  lemma GroupThenRest(s: seq<Byte>)
    requires |s| > 3 && Decode(Encode(s[3..])) == Some(s[3..])
    ensures Decode(Encode(s)) == Some(s)
  {
    FirstGroup(s);
    DecodeSplit(Encode(s), s[..3], s[3..]);
    JoinAt(s, 3);
  }

  /** Decoding undoes encoding, for every byte sequence. */
  lemma {:induction false} DecodeEncode(s: seq<Byte>)
    ensures Decode(Encode(s)) == Some(s)
    decreases |s|
  {
    if 0 < |s| < 3 {
      ShortRoundTrip(s);
    } else if |s| == 3 {
      LastGroupRoundTrip(s);
    } else if |s| > 3 {
      DecodeEncode(s[3..]);
      GroupThenRest(s);
    }
  }
}
