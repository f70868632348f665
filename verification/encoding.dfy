/** Byte strings and the two text encodings `Convert` offers for them:
    Base16 ("hex", section 8 of RFC 4648, written in upper case by
    `Convert.ToHexString`) and Base64 (section 4 of RFC 4648). */
module Encoding {
  import opened Wrappers
  import Text

  newtype byte = x: int | 0 <= x < 256

  /** A digit of the upper-case Base16 alphabet of section 8 of RFC 4648. */
  predicate IsUpperHexDigit(c: char) {
    ('0' <= c <= '9') || ('A' <= c <= 'F')
  }

  predicate IsHexString(s: string) {
    forall i :: 0 <= i < |s| ==> IsUpperHexDigit(s[i])
  }

  /** The value of one hex digit; `Convert.FromHexString` accepts both cases. */
  function HexValue(c: char): (r: Option<int>)
    ensures r.Some? ==> 0 <= r.value < 16
  {
    if '0' <= c <= '9' then Some(c as int - '0' as int)
    else if 'A' <= c <= 'F' then Some(c as int - 'A' as int + 10)
    else if 'a' <= c <= 'f' then Some(c as int - 'a' as int + 10)
    else None
  }

  /** The digit for a nibble; it reads back as the same nibble. */
  function HexDigit(n: int): (c: char)
    requires 0 <= n < 16
    ensures IsUpperHexDigit(c)
    ensures HexValue(c) == Some(n)
  {
    if n < 10 then ('0' as int + n) as char else ('A' as int + n - 10) as char
  }

  /** `Convert.ToHexString`: two upper-case digits per byte, high nibble first. */
  function ToHex(b: seq<byte>): (r: string)
    ensures |r| == 2 * |b|
    ensures IsHexString(r)
  {
    if b == [] then ""
    else [HexDigit(b[0] as int / 16), HexDigit(b[0] as int % 16)] + ToHex(b[1..])
  }

  /** Hex encoding works byte by byte, so it distributes over concatenation. */
  lemma {:induction false} ToHexAppend(a: seq<byte>, b: seq<byte>)
    ensures ToHex(a + b) == ToHex(a) + ToHex(b)
    decreases |a|
  {
    if a != [] {
      var head := [HexDigit(a[0] as int / 16), HexDigit(a[0] as int % 16)];
      assert (a + b)[0] == a[0];
      assert (a + b)[1..] == a[1..] + b;
      assert ToHex(a + b) == head + ToHex(a[1..] + b);
      ToHexAppend(a[1..], b);
      assert ToHex(a) == head + ToHex(a[1..]);
      assert head + (ToHex(a[1..]) + ToHex(b)) == (head + ToHex(a[1..])) + ToHex(b);
    } else {
      assert a + b == b;
    }
  }

  /** `Convert.FromHexString`: `None` stands for the `FormatException` thrown
      on an odd length or a character outside `[0-9A-Fa-f]`. */
  function FromHex(s: string): (r: Option<seq<byte>>)
    ensures r.Some? ==> 2 * |r.value| == |s|
    decreases |s|
  {
    if |s| % 2 != 0 then None
    else if s == [] then Some([])
    else
      match (HexValue(s[0]), HexValue(s[1]))
      case (Some(hi), Some(lo)) =>
        (match FromHex(s[2..])
         case Some(rest) => Some([(hi * 16 + lo) as byte] + rest)
         case None => None)
      case _ => None
  }

  /** Section 8 of RFC 4648: decoding the encoding gives the bytes back. */
  lemma {:induction false} FromHexToHex(b: seq<byte>)
    ensures FromHex(ToHex(b)) == Some(b)
    decreases |b|
  {
    if b != [] {
      var s := ToHex(b);
      assert s[2..] == ToHex(b[1..]);
      FromHexToHex(b[1..]);
      assert [b[0]] + b[1..] == b;
    }
  }

  /** A digit read in either case is written back in upper case. */
  lemma HexDigitOfValue(c: char)
    requires HexValue(c).Some?
    ensures HexDigit(HexValue(c).value) == Text.FoldChar(c)
  {
  }

  /** The byte two nibbles make splits back into the same two nibbles. */
  lemma NibblesOfByte(hi: int, lo: int)
    requires 0 <= hi < 16 && 0 <= lo < 16
    ensures ((hi * 16 + lo) as byte) as int / 16 == hi && ((hi * 16 + lo) as byte) as int % 16 == lo
  {
  }

  /** The other direction: a string that decodes is the encoding of its bytes
      up to letter case, i.e. `ToHex` writes it back in upper case. */
  lemma {:induction false} ToHexFromHex(s: string)
    ensures FromHex(s).Some? ==> ToHex(FromHex(s).value) == Text.Fold(s)
    decreases |s|
  {
    if FromHex(s).Some? && s != [] {
      var hi := HexValue(s[0]).value;
      var lo := HexValue(s[1]).value;
      var rest := FromHex(s[2..]).value;
      var b := FromHex(s).value;
      assert b == [(hi * 16 + lo) as byte] + rest;
      ToHexFromHex(s[2..]);
      NibblesOfByte(hi, lo);
      HexDigitOfValue(s[0]);
      HexDigitOfValue(s[1]);
      calc {
        ToHex(b);
        [HexDigit(b[0] as int / 16), HexDigit(b[0] as int % 16)] + ToHex(b[1..]);
        { assert b[1..] == rest; }
        [Text.FoldChar(s[0]), Text.FoldChar(s[1])] + Text.Fold(s[2..]);
        Text.Fold(s);
      }
    }
  }

  /** Position of a character in the Base64 alphabet; `None` for anything else
      (including the pad character `=`). */
  function Base64Value(c: char): (r: Option<int>)
    ensures r.Some? ==> 0 <= r.value < 64
  {
    if 'A' <= c <= 'Z' then Some(c as int - 'A' as int)
    else if 'a' <= c <= 'z' then Some(c as int - 'a' as int + 26)
    else if '0' <= c <= '9' then Some(c as int - '0' as int + 52)
    else if c == '+' then Some(62)
    else if c == '/' then Some(63)
    else None
  }

  /** The Base64 alphabet of Table 1 in section 4 of RFC 4648; each character
      reads back as its position. */
  function Base64Char(n: int): (c: char)
    requires 0 <= n < 64
    ensures Base64Value(c) == Some(n)
  {
    if n < 26 then ('A' as int + n) as char
    else if n < 52 then ('a' as int + n - 26) as char
    else if n < 62 then ('0' as int + n - 52) as char
    else if n == 62 then '+'
    else '/'
  }

  /** The four sextets that encode a full group of three bytes. */
  function Sextets(b0: byte, b1: byte, b2: byte): (r: (int, int, int, int))
    ensures 0 <= r.0 < 64 && 0 <= r.1 < 64 && 0 <= r.2 < 64 && 0 <= r.3 < 64
  {
    (b0 as int / 4, (b0 as int % 4) * 16 + b1 as int / 16, (b1 as int % 16) * 4 + b2 as int / 64, b2 as int % 64)
  }

  /** One group of one to three bytes as four characters, padded with `=`
      when the group is short (section 4 of RFC 4648). */
  function EncodeGroup(g: seq<byte>): (r: string)
    requires 1 <= |g| <= 3
    ensures |r| == 4
  {
    var q := Sextets(g[0], if |g| > 1 then g[1] else 0, if |g| > 2 then g[2] else 0);
    [Base64Char(q.0), Base64Char(q.1),
     if |g| > 1 then Base64Char(q.2) else '=',
     if |g| > 2 then Base64Char(q.3) else '=']
  }

  /** `Convert.ToBase64String`: every three bytes become four characters and
      a final short group is padded. */
  function ToBase64(b: seq<byte>): (r: string)
    decreases |b|
  {
    if b == [] then ""
    else if |b| <= 3 then EncodeGroup(b)
    else EncodeGroup(b[..3]) + ToBase64(b[3..])
  }

  /** The whitespace `Convert.FromBase64String` skips. */
  predicate IsBase64Space(c: char) {
    c == ' ' || c == '\t' || c == '\r' || c == '\n'
  }

  function StripBase64Space(s: string): (r: string)
    ensures |r| <= |s|
    ensures forall i :: 0 <= i < |r| ==> !IsBase64Space(r[i])
  {
    if s == [] then ""
    else if IsBase64Space(s[0]) then StripBase64Space(s[1..])
    else [s[0]] + StripBase64Space(s[1..])
  }

  /** Three bytes from four sextets (the inverse of `Sextets`). */
  function Octets(v0: int, v1: int, v2: int, v3: int): seq<byte>
    requires 0 <= v0 < 64 && 0 <= v1 < 64 && 0 <= v2 < 64 && 0 <= v3 < 64
  {
    [(v0 * 4 + v1 / 16) as byte, ((v1 % 16) * 16 + v2 / 4) as byte, ((v2 % 4) * 64 + v3) as byte]
  }

  /** One group of four characters; padding is only accepted in the `last`
      group. `None` stands for a `FormatException`. */
  function DecodeGroup(g: string, last: bool): (r: Option<seq<byte>>)
    requires |g| == 4
  {
    var v0, v1, v2, v3 := Base64Value(g[0]), Base64Value(g[1]), Base64Value(g[2]), Base64Value(g[3]);
    if v0.None? || v1.None? then None
    else if last && g[2] == '=' && g[3] == '=' then Some(Octets(v0.value, v1.value, 0, 0)[..1])
    else if v2.None? then None
    else if last && g[3] == '=' then Some(Octets(v0.value, v1.value, v2.value, 0)[..2])
    else if v3.None? then None
    else Some(Octets(v0.value, v1.value, v2.value, v3.value))
  }

  /** Decoding of whitespace-free Base64 text in groups of four characters.
      `None` stands for the `FormatException` of a length that is not a
      multiple of four, a character outside the alphabet, or misplaced
      padding. */
  function DecodeQuads(s: string): (r: Option<seq<byte>>)
    decreases |s|
  {
    if s == [] then Some([])
    else if |s| < 4 then None
    else
      match DecodeGroup(s[..4], |s| == 4)
      case None => None
      case Some(head) =>
        match DecodeQuads(s[4..])
        case None => None
        case Some(rest) => Some(head + rest)
  }

  /** `Convert.FromBase64String`. */
  function FromBase64(s: string): Option<seq<byte>> {
    DecodeQuads(StripBase64Space(s))
  }

  /** The sextet split of a group is undone by the octet join. */
  lemma OctetsOfSextets(b0: byte, b1: byte, b2: byte)
    ensures var q := Sextets(b0, b1, b2); Octets(q.0, q.1, q.2, q.3) == [b0, b1, b2]
  {
    var q := Sextets(b0, b1, b2);
    assert q.1 / 16 == b0 as int % 4;
    assert q.1 % 16 == b1 as int / 16;
    assert q.2 / 4 == b1 as int % 16;
    assert q.2 % 4 == b2 as int / 64;
  }

  lemma {:induction false} StripNoSpace(s: string)
    requires forall i :: 0 <= i < |s| ==> !IsBase64Space(s[i])
    ensures StripBase64Space(s) == s
    decreases |s|
  {
    if s != [] {
      StripNoSpace(s[1..]);
      assert s == [s[0]] + s[1..];
    }
  }

  /** Encoded text holds only alphabet characters and padding. */
  lemma {:induction false} ToBase64Alphabet(b: seq<byte>)
    ensures forall i :: 0 <= i < |ToBase64(b)| ==> Base64Value(ToBase64(b)[i]).Some? || ToBase64(b)[i] == '='
    decreases |b|
  {
    if |b| > 3 {
      ToBase64Alphabet(b[3..]);
    }
  }

  /** A group decodes to the bytes it encodes; a short (padded) group only
      when it is the last one. */
  lemma DecodeEncodeGroup(g: seq<byte>, last: bool)
    requires 1 <= |g| <= 3
    requires |g| < 3 ==> last
    ensures DecodeGroup(EncodeGroup(g), last) == Some(g)
  {
    var b1: byte := if |g| > 1 then g[1] else 0;
    var b2: byte := if |g| > 2 then g[2] else 0;
    OctetsOfSextets(g[0], b1, b2);
    assert Base64Value('=').None?;
    var q := Sextets(g[0], b1, b2);
    if |g| == 1 {
      assert Octets(q.0, q.1, 0, 0)[..1] == g;
    } else if |g| == 2 {
      assert Octets(q.0, q.1, q.2, 0)[..2] == g;
    } else {
      assert Octets(q.0, q.1, q.2, q.3) == g;
    }
  }

  /** Decoding proceeds group by group. */
  lemma DecodeQuadsSplit(s: string, g: string, t: string, x: seq<byte>, y: seq<byte>)
    requires s == g + t && |g| == 4
    requires DecodeGroup(g, t == []) == Some(x)
    requires DecodeQuads(t) == Some(y)
    ensures DecodeQuads(s) == Some(x + y)
  {
    assert s[..4] == g;
    assert s[4..] == t;
  }

  /** Section 4 of RFC 4648: decoding the encoding gives the bytes back. */
  lemma {:induction false} DecodeQuadsToBase64(b: seq<byte>)
    ensures DecodeQuads(ToBase64(b)) == Some(b)
    decreases |b|
  {
    if 1 <= |b| <= 3 {
      DecodeEncodeGroup(b, true);
      DecodeQuadsSplit(ToBase64(b), EncodeGroup(b), "", b, []);
      assert b + [] == b;
    } else if |b| > 3 {
      var tail := ToBase64(b[3..]);
      assert ToBase64(b) == EncodeGroup(b[..3]) + tail;
      DecodeEncodeGroup(b[..3], tail == []);
      DecodeQuadsToBase64(b[3..]);
      DecodeQuadsSplit(ToBase64(b), EncodeGroup(b[..3]), tail, b[..3], b[3..]);
      assert b[..3] + b[3..] == b;
    }
  }

  lemma FromBase64ToBase64(b: seq<byte>)
    ensures FromBase64(ToBase64(b)) == Some(b)
  {
    ToBase64Alphabet(b);
    StripNoSpace(ToBase64(b));
    DecodeQuadsToBase64(b);
  }
}
