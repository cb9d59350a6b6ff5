/** The base 64 encoding of section 4 of RFC 4648 (alphabet `A`-`Z`, `a`-`z`, `0`-`9`,
    `+`, `/`, padding `=`), which both Exa routes apply to the synthesized audio before
    wrapping it in a `data:` URL, together with a decoder that undoes it. */
module Base64 {
  import opened Wrappers

  type byte = x: int | 0 <= x < 256
  type sextet = x: int | 0 <= x < 64

  const Pad: char := '='

  /** Table 1 of RFC 4648: the character that encodes the 6-bit value `v`. */
  function Char(v: sextet): char {
    if v < 26 then ('A' as int + v) as char
    else if v < 52 then ('a' as int + v - 26) as char
    else if v < 62 then ('0' as int + v - 52) as char
    else if v == 62 then '+'
    else '/'
  }

  /** The 6-bit value that `c` encodes, if `c` is in the alphabet. */
  function Index(c: char): Option<sextet> {
    var code := c as int;
    if 'A' as int <= code <= 'Z' as int then Some(code - 'A' as int)
    else if 'a' as int <= code <= 'z' as int then Some(code - 'a' as int + 26)
    else if '0' as int <= code <= '9' as int then Some(code - '0' as int + 52)
    else if c == '+' then Some(62)
    else if c == '/' then Some(63)
    else None
  }

  predicate InAlphabet(c: char) {
    Index(c).Some?
  }

  /** Every 6-bit value has its own character, and reading it back gives the value. */
  lemma CharIndex(v: sextet)
    ensures Index(Char(v)) == Some(v)
    ensures Char(v) != Pad
  {
  }

  /** Three bytes become four characters, 6 bits each, most significant first. */
  function EncodeGroup(b0: byte, b1: byte, b2: byte): string {
    [Char(b0 / 4), Char((b0 % 4) * 16 + b1 / 16), Char((b1 % 16) * 4 + b2 / 64), Char(b2 % 64)]
  }

  /** `Buffer.from(bytes).toString('base64')`: whole groups of three bytes, then a final
      group of one or two bytes padded with `=` to four characters. */
  function Encode(b: seq<byte>): (s: string)
    ensures |s| == 4 * ((|b| + 2) / 3)
    decreases |b|
  {
    if |b| == 0 then []
    else if |b| == 1 then [Char(b[0] / 4), Char((b[0] % 4) * 16), Pad, Pad]
    else if |b| == 2 then [Char(b[0] / 4), Char((b[0] % 4) * 16 + b[1] / 16), Char((b[1] % 16) * 4), Pad]
    else EncodeGroup(b[0], b[1], b[2]) + Encode(b[3..])
  }

  /** An encoding uses only the 64 characters of the alphabet and `=`, and `=` only in
      the last two places. */
  lemma {:induction false} EncodeAlphabet(b: seq<byte>)
    ensures forall i :: 0 <= i < |Encode(b)| ==> InAlphabet(Encode(b)[i]) || Encode(b)[i] == Pad
    ensures forall i :: 0 <= i < |Encode(b)| - 2 ==> InAlphabet(Encode(b)[i])
    decreases |b|
  {
    var s := Encode(b);
    if |b| == 1 {
      CharIndex(b[0] / 4);
      CharIndex((b[0] % 4) * 16);
    } else if |b| == 2 {
      CharIndex(b[0] / 4);
      CharIndex((b[0] % 4) * 16 + b[1] / 16);
      CharIndex((b[1] % 16) * 4);
    } else if |b| >= 3 {
      var g := EncodeGroup(b[0], b[1], b[2]);
      CharIndex(b[0] / 4);
      CharIndex((b[0] % 4) * 16 + b[1] / 16);
      CharIndex((b[1] % 16) * 4 + b[2] / 64);
      CharIndex(b[2] % 64);
      EncodeAlphabet(b[3..]);
      var r := Encode(b[3..]);
      assert s == g + r;
      forall i | 0 <= i < |s|
        ensures InAlphabet(s[i]) || s[i] == Pad
        ensures i < |s| - 2 ==> InAlphabet(s[i])
      {
        if i < 4 { assert s[i] == g[i]; } else { assert s[i] == r[i - 4]; }
      }
    }
  }

  /** The bytes of one group of four characters; `last` allows padding. */
  function DecodeGroup(c0: char, c1: char, c2: char, c3: char, last: bool): Option<seq<byte>> {
    match (Index(c0), Index(c1))
    case (Some(i0), Some(i1)) =>
      if last && c2 == Pad && c3 == Pad then Some([i0 * 4 + i1 / 16])
      else if last && c3 == Pad && Index(c2).Some? then
        var i2 := Index(c2).value;
        Some([i0 * 4 + i1 / 16, (i1 % 16) * 16 + i2 / 4])
      else if Index(c2).Some? && Index(c3).Some? then
        var i2, i3 := Index(c2).value, Index(c3).value;
        Some([i0 * 4 + i1 / 16, (i1 % 16) * 16 + i2 / 4, (i2 % 4) * 64 + i3])
      else None
    case _ => None
  }

  /** Decoding: groups of four characters, where only the last may carry padding. */
  function Decode(s: string): Option<seq<byte>>
    decreases |s|
  {
    if |s| == 0 then Some([])
    else if |s| < 4 then None
    else
      match DecodeGroup(s[0], s[1], s[2], s[3], |s| == 4)
      case None => None
      case Some(g) =>
        match Decode(s[4..])
        case None => None
        case Some(r) => Some(g + r)
  }

  /** The two 6-bit halves of a 12-bit split, with `hi` bits of `x` on top. */
  lemma SplitHigh(x: byte, y: byte)
    ensures ((x % 4) * 16 + y / 16) / 16 == x % 4
    ensures ((x % 4) * 16 + y / 16) % 16 == y / 16
    ensures ((y % 16) * 4 + x / 64) / 4 == y % 16
    ensures ((y % 16) * 4 + x / 64) % 4 == x / 64
  {
  }

  /** A full group decodes to its three bytes. */
  lemma DecodeFullGroup(b0: byte, b1: byte, b2: byte, last: bool)
    ensures var g := EncodeGroup(b0, b1, b2);
            DecodeGroup(g[0], g[1], g[2], g[3], last) == Some([b0, b1, b2])
  {
    var i0, i1, i2, i3 := b0 / 4, (b0 % 4) * 16 + b1 / 16, (b1 % 16) * 4 + b2 / 64, b2 % 64;
    CharIndex(i0);
    CharIndex(i1);
    CharIndex(i2);
    CharIndex(i3);
    SplitHigh(b0, b1);
    SplitHigh(b2, b1);
    assert i0 * 4 + i1 / 16 == b0;
    assert (i1 % 16) * 16 + i2 / 4 == b1;
    assert (i2 % 4) * 64 + i3 == b2;
  }

  /** A final group of one byte, padded with two `=`, decodes to that byte. */
  lemma DecodeOneByte(b0: byte)
    ensures DecodeGroup(Char(b0 / 4), Char((b0 % 4) * 16), Pad, Pad, true) == Some([b0])
  {
    CharIndex(b0 / 4);
    CharIndex((b0 % 4) * 16);
  }

  /** A final group of two bytes, padded with one `=`, decodes to those bytes. */
  lemma DecodeTwoBytes(b0: byte, b1: byte)
    ensures DecodeGroup(Char(b0 / 4), Char((b0 % 4) * 16 + b1 / 16), Char((b1 % 16) * 4), Pad, true)
            == Some([b0, b1])
  {
    CharIndex(b0 / 4);
    CharIndex((b0 % 4) * 16 + b1 / 16);
    CharIndex((b1 % 16) * 4);
    SplitHigh(b0, b1);
  }

  /** Encoding writes one group and then the rest. */
  lemma EncodeStep(b: seq<byte>)
    requires |b| >= 3
    ensures Encode(b) == EncodeGroup(b[0], b[1], b[2]) + Encode(b[3..])
  {
  }

  /** Decoding reads one group and then the rest. */
  lemma DecodeStep(q: string, rest: string, g: seq<byte>, r: seq<byte>)
    requires |q| == 4
    requires DecodeGroup(q[0], q[1], q[2], q[3], rest == []) == Some(g)
    requires Decode(rest) == Some(r)
    ensures Decode(q + rest) == Some(g + r)
  {
    var s := q + rest;
    assert s[0] == q[0] && s[1] == q[1] && s[2] == q[2] && s[3] == q[3];
    assert s[4..] == rest;
  }

  /** One byte encodes to a single padded group, which decodes back to it. */
  lemma DecodeEncodeOne(b: seq<byte>)
    requires |b| == 1
    ensures Decode(Encode(b)) == Some(b)
  {
    var q := [Char(b[0] / 4), Char((b[0] % 4) * 16), Pad, Pad];
    assert Encode(b) == q + [];
    DecodeOneByte(b[0]);
    DecodeStep(q, [], [b[0]], []);
    assert [b[0]] + [] == b;
  }

  /** Two bytes encode to a single padded group, which decodes back to them. */
  lemma DecodeEncodeTwo(b: seq<byte>)
    requires |b| == 2
    ensures Decode(Encode(b)) == Some(b)
  {
    var q := [Char(b[0] / 4), Char((b[0] % 4) * 16 + b[1] / 16), Char((b[1] % 16) * 4), Pad];
    assert Encode(b) == q + [];
    DecodeTwoBytes(b[0], b[1]);
    DecodeStep(q, [], [b[0], b[1]], []);
    assert [b[0], b[1]] + [] == b;
  }

  /** A sequence of three or more bytes is its first group followed by the rest. */
  lemma SplitThree(b: seq<byte>)
    requires |b| >= 3
    ensures [b[0], b[1], b[2]] + b[3..] == b
  {
  }

  /** A full first group decodes to the first three bytes, ahead of the rest. */
  lemma DecodeEncodeMore(b: seq<byte>)
    requires |b| >= 3
    requires Decode(Encode(b[3..])) == Some(b[3..])
    ensures Decode(Encode(b)) == Some(b)
  {
    var q := EncodeGroup(b[0], b[1], b[2]);
    var rest := Encode(b[3..]);
    SplitThree(b);
    EncodeStep(b);
    DecodeFullGroup(b[0], b[1], b[2], rest == []);
    DecodeStep(q, rest, [b[0], b[1], b[2]], b[3..]);
  }

  /** Decoding an encoding gives back the bytes. */
  lemma {:induction false} DecodeEncode(b: seq<byte>)
    ensures Decode(Encode(b)) == Some(b)
    decreases |b|
  {
    if |b| == 1 {
      DecodeEncodeOne(b);
    } else if |b| == 2 {
      DecodeEncodeTwo(b);
    } else if |b| >= 3 {
      DecodeEncode(b[3..]);
      DecodeEncodeMore(b);
    }
  }

  /** Every encoding consists of whole groups of four characters. */
  lemma EncodeIsWholeGroups(b: seq<byte>)
    ensures |Encode(b)| % 4 == 0
    ensures |Encode(b)| == 0 <==> |b| == 0
  {
    Groups(|b|, |Encode(b)|);
  }

  /** Four characters for every started group of three bytes. */
  lemma Groups(n: nat, m: nat)
    requires m == 4 * ((n + 2) / 3)
    ensures m % 4 == 0
    ensures m == 0 <==> n == 0
  {
    var q := (n + 2) / 3;
    assert q == 0 <==> n == 0;
  }
}
