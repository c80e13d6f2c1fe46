/**
 * `btoa`: the Base64 encoding of section 4 of RFC 4648 (alphabet
 * `A`–`Z`, `a`–`z`, `0`–`9`, `+`, `/`, padding `=`) over the Latin-1 bytes
 * of a string. A character above U+00FF has no Latin-1 byte; `btoa` throws,
 * modelled as `None`.
 */
module Base64 {
  import opened Wrappers

  newtype byte = x: int | 0 <= x < 256

  /** A 6-bit group. */
  type sextet = x: int | 0 <= x < 64

  /** The character for a 6-bit value (Table 1 of RFC 4648). */
  function IndexChar(i: sextet): (c: char)
    ensures c != '='
  {
    if i < 26 then ('A' as int + i) as char
    else if i < 52 then ('a' as int + (i - 26)) as char
    else if i < 62 then ('0' as int + (i - 52)) as char
    else if i == 62 then '+'
    else '/'
  }

  /** The 6-bit value of an alphabet character. */
  function CharIndex(c: char): Option<sextet> {
    if 'A' <= c <= 'Z' then Some(c as int - 'A' as int)
    else if 'a' <= c <= 'z' then Some(c as int - 'a' as int + 26)
    else if '0' <= c <= '9' then Some(c as int - '0' as int + 52)
    else if c == '+' then Some(62)
    else if c == '/' then Some(63)
    else None
  }

  lemma CharIndexOfIndexChar(i: sextet)
    ensures CharIndex(IndexChar(i)) == Some(i)
  {
  }

  /** Three bytes as four characters. */
  function EncodeGroup(b0: byte, b1: byte, b2: byte): (r: seq<char>)
    ensures |r| == 4 && '=' !in r
  {
    [IndexChar(b0 as int / 4),
     IndexChar((b0 as int % 4) * 16 + b1 as int / 16),
     IndexChar((b1 as int % 16) * 4 + b2 as int / 64),
     IndexChar(b2 as int % 64)]
  }

  /** The encoding: whole groups, then one or two trailing bytes padded
      with `=` to four characters. */
  function Encode(b: seq<byte>): (r: seq<char>)
    ensures |r| == 4 * ((|b| + 2) / 3)
  {
    if |b| >= 3 then EncodeGroup(b[0], b[1], b[2]) + Encode(b[3..])
    else if |b| == 2 then EncodeGroup(b[0], b[1], 0)[..3] + "="
    else if |b| == 1 then EncodeGroup(b[0], 0, 0)[..2] + "=="
    else []
  }

  /** Four sextets back to three bytes. */
  function DecodeGroup(c0: sextet, c1: sextet, c2: sextet, c3: sextet): seq<byte> {
    [(c0 * 4 + c1 / 16) as byte, ((c1 % 16) * 16 + c2 / 4) as byte, ((c2 % 4) * 64 + c3) as byte]
  }

  /** The decoder for the encoder's output: four characters at a time, the
      last group possibly padded. */
  function Decode(s: seq<char>): Option<seq<byte>>
    decreases |s|
  {
    if s == [] then Some([])
    else if |s| < 4 then None
    else
      var i0, i1 := CharIndex(s[0]), CharIndex(s[1]);
      var i2, i3 := CharIndex(s[2]), CharIndex(s[3]);
      if i0.None? || i1.None? then None
      else if |s| == 4 && s[2] == '=' && s[3] == '=' then
        Some(DecodeGroup(i0.value, i1.value, 0, 0)[..1])
      else if |s| == 4 && s[3] == '=' then
        if i2.None? then None else Some(DecodeGroup(i0.value, i1.value, i2.value, 0)[..2])
      else if i2.None? || i3.None? then None
      else
        var rest := Decode(s[4..]);
        if rest.None? then None else Some(DecodeGroup(i0.value, i1.value, i2.value, i3.value) + rest.value)
  }

  lemma GroupRoundTrip(b0: byte, b1: byte, b2: byte)
    ensures DecodeGroup(b0 as int / 4, (b0 as int % 4) * 16 + b1 as int / 16,
                        (b1 as int % 16) * 4 + b2 as int / 64, b2 as int % 64) == [b0, b1, b2]
  {
  }

  /** A whole group in front of any text decodes to its three bytes in
      front of what the text decodes to. */
  lemma DecodeWholeGroup(b0: byte, b1: byte, b2: byte, t: seq<char>)
    ensures Decode(EncodeGroup(b0, b1, b2) + t) ==
      if Decode(t).None? then None else Some([b0, b1, b2] + Decode(t).value)
  {
    var c0, c1 := b0 as int / 4, (b0 as int % 4) * 16 + b1 as int / 16;
    var c2, c3 := (b1 as int % 16) * 4 + b2 as int / 64, b2 as int % 64;
    var s := EncodeGroup(b0, b1, b2) + t;
    CharIndexOfIndexChar(c0);
    CharIndexOfIndexChar(c1);
    CharIndexOfIndexChar(c2);
    CharIndexOfIndexChar(c3);
    assert s[0] == IndexChar(c0) && s[1] == IndexChar(c1) && s[2] == IndexChar(c2) && s[3] == IndexChar(c3);
    assert s[4..] == t;
    GroupRoundTrip(b0, b1, b2);
    assert DecodeGroup(c0, c1, c2, c3) == [b0, b1, b2];
  }

  /** Two trailing bytes: three characters and one `=`. */
  lemma DecodeTwoBytes(b0: byte, b1: byte)
    ensures Decode(Encode([b0, b1])) == Some([b0, b1])
  {
    var c0, c1, c2 := b0 as int / 4, (b0 as int % 4) * 16 + b1 as int / 16, (b1 as int % 16) * 4;
    var s := Encode([b0, b1]);
    assert s == [IndexChar(c0), IndexChar(c1), IndexChar(c2), '='];
    CharIndexOfIndexChar(c0);
    CharIndexOfIndexChar(c1);
    CharIndexOfIndexChar(c2);
    GroupRoundTrip(b0, b1, 0);
    assert DecodeGroup(c0, c1, c2, 0) == [b0, b1, 0];
    assert Decode(s) == Some(DecodeGroup(c0, c1, c2, 0)[..2]);
    assert [b0, b1, 0][..2] == [b0, b1];
  }

  /** One trailing byte: two characters and `==`. */
  lemma DecodeOneByte(b0: byte)
    ensures Decode(Encode([b0])) == Some([b0])
  {
    var c0, c1 := b0 as int / 4, (b0 as int % 4) * 16;
    var s := Encode([b0]);
    assert s == [IndexChar(c0), IndexChar(c1), '=', '='];
    CharIndexOfIndexChar(c0);
    CharIndexOfIndexChar(c1);
    GroupRoundTrip(b0, 0, 0);
    assert DecodeGroup(c0, c1, 0, 0) == [b0, 0, 0];
    assert Decode(s) == Some(DecodeGroup(c0, c1, 0, 0)[..1]);
    assert [b0, 0, 0][..1] == [b0];
  }

  /** Decoding undoes encoding. */
  lemma {:induction false} DecodeEncode(b: seq<byte>)
    ensures Decode(Encode(b)) == Some(b)
    decreases |b|
  {
    if |b| >= 3 {
      assert Encode(b) == EncodeGroup(b[0], b[1], b[2]) + Encode(b[3..]);
      DecodeEncode(b[3..]);
      DecodeWholeGroup(b[0], b[1], b[2], Encode(b[3..]));
      assert b == [b[0], b[1], b[2]] + b[3..];
    } else if |b| == 2 {
      assert b == [b[0], b[1]];
      DecodeTwoBytes(b[0], b[1]);
    } else if |b| == 1 {
      assert b == [b[0]];
      DecodeOneByte(b[0]);
    }
  }

  /** Different byte strings have different encodings. */
  lemma EncodeInjective(a: seq<byte>, b: seq<byte>)
    requires Encode(a) == Encode(b)
    ensures a == b
  {
    DecodeEncode(a);
    DecodeEncode(b);
  }

  predicate IsLatin1(s: string) {
    forall i :: 0 <= i < |s| ==> s[i] as int < 256
  }

  function Latin1(s: string): (b: seq<byte>)
    requires IsLatin1(s)
    ensures |b| == |s| && forall i :: 0 <= i < |s| ==> b[i] as int == s[i] as int
  {
    seq(|s|, i requires 0 <= i < |s| => s[i] as int as byte)
  }

  /** `btoa(s)`. */
  function Btoa(s: string): (r: Option<string>)
    ensures r.Some? <==> IsLatin1(s)
  {
    if IsLatin1(s) then Some(Encode(Latin1(s))) else None
  }

  /** `btoa` is one-to-one: two strings it accepts with the same encoding
      are the same string. */
  lemma BtoaInjective(a: string, b: string)
    requires Btoa(a).Some? && Btoa(a) == Btoa(b)
    ensures a == b
  {
    EncodeInjective(Latin1(a), Latin1(b));
    assert forall i :: 0 <= i < |a| ==> a[i] as int == b[i] as int;
  }
}
