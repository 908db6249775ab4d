/** `btoa` and `atob`: the Base64 encoding of section 4 of RFC 4648 over strings whose units are bytes, and
    the "forgiving-base64 decode" of the WHATWG Infra Standard, which `atob` of the WHATWG HTML standard
    applies. */
module Base64 {
  import opened Types
  import opened Arith
  import opened Unicode

  const Pad: int := 0x3D

  /** The character of a 6-bit value: `A`-`Z`, `a`-`z`, `0`-`9`, `+`, `/`. */
  function Base64Char(v: int): (c: CodeUnit)
    requires 0 <= v < 64
    ensures Base64Value(c) == Some(v)
  {
    if v < 26 then 0x41 + v
    else if v < 52 then 0x61 + (v - 26)
    else if v < 62 then 0x30 + (v - 52)
    else if v == 62 then 0x2B
    else 0x2F
  }

  /** The 6-bit value of an alphabet character, or None for any other unit (padding included). */
  function Base64Value(c: int): (r: Option<int>)
    ensures r.Some? ==> 0 <= r.value < 64
  {
    if 0x41 <= c <= 0x5A then Some(c - 0x41)
    else if 0x61 <= c <= 0x7A then Some(c - 0x61 + 26)
    else if 0x30 <= c <= 0x39 then Some(c - 0x30 + 52)
    else if c == 0x2B then Some(62)
    else if c == 0x2F then Some(63)
    else None
  }

  predicate InAlphabet(c: int) { Base64Value(c).Some? }

  predicate AllInAlphabet(s: seq<int>) { forall k :: 0 <= k < |s| ==> InAlphabet(s[k]) }

  /** The four characters of a full group of three bytes. */
  function Quad(b0: int, b1: int, b2: int): (r: seq<CodeUnit>)
    requires IsByte(b0) && IsByte(b1) && IsByte(b2)
    ensures |r| == 4 && AllInAlphabet(r) && DecodeQuad(r) == [b0, b1, b2]
  {
    FullGroup(b0, b1, b2);
    [Base64Char(b0 / 4), Base64Char(b0 % 4 * 16 + b1 / 16), Base64Char(b1 % 16 * 4 + b2 / 64), Base64Char(b2 % 64)]
  }

  /** The three characters of a last pair of bytes; the spare low bits are zero. */
  function Triple(b0: int, b1: int): (r: seq<CodeUnit>)
    requires IsByte(b0) && IsByte(b1)
    ensures |r| == 3 && AllInAlphabet(r) && DecodeTriple(r) == [b0, b1]
  {
    PairGroup(b0, b1);
    [Base64Char(b0 / 4), Base64Char(b0 % 4 * 16 + b1 / 16), Base64Char(b1 % 16 * 4)]
  }

  /** The two characters of a last single byte; the spare low bits are zero. */
  function Duo(b0: int): (r: seq<CodeUnit>)
    requires IsByte(b0)
    ensures |r| == 2 && AllInAlphabet(r) && DecodeDuo(r) == [b0]
  {
    SingleGroup(b0);
    [Base64Char(b0 / 4), Base64Char(b0 % 4 * 16)]
  }

  /** The alphabet characters of the encoding: four per full group of three bytes, then two for a last
      single byte or three for a last pair. */
  function Unpadded(bs: seq<int>): (r: seq<CodeUnit>)
    requires AllBytes(bs)
    ensures |r| == EncodedLength(|bs|)
    ensures AllInAlphabet(r)
  {
    if |bs| == 0 then []
    else if |bs| == 1 then Duo(bs[0])
    else if |bs| == 2 then Triple(bs[0], bs[1])
    else Quad(bs[0], bs[1], bs[2]) + Unpadded(bs[3..])
  }

  /** The `=` characters that fill the last group to four. */
  function Padding(rem: int): (r: seq<CodeUnit>)
    ensures |r| == (if rem == 1 then 2 else if rem == 2 then 1 else 0)
    ensures forall k :: 0 <= k < |r| ==> r[k] == Pad
  {
    if rem == 1 then [Pad, Pad] else if rem == 2 then [Pad] else []
  }

  /** The padded encoding: whole groups of four characters, `=` only at the end. */
  function Base64Encode(bs: seq<int>): (r: seq<CodeUnit>)
    requires AllBytes(bs)
    ensures |r| % 4 == 0 && |r| == (|bs| + 2) / 3 * 4
    ensures forall k :: 0 <= k < |r| ==> InAlphabet(r[k]) || (r[k] == Pad && k >= |r| - 2)
  {
    var u, p := Unpadded(bs), Padding(|bs| % 3);
    PaddedLength(|bs|);
    PaddedShape(u, p);
    u + p
  }

  /** Alphabet characters followed by at most two `=`. */
  lemma PaddedShape(u: seq<CodeUnit>, p: seq<CodeUnit>)
    requires AllInAlphabet(u) && |p| <= 2 && forall k :: 0 <= k < |p| ==> p[k] == Pad
    ensures forall k :: 0 <= k < |u + p| ==> InAlphabet((u + p)[k]) || ((u + p)[k] == Pad && k >= |u + p| - 2)
    ensures NoWhitespace(u + p)
  {
    forall k | 0 <= k < |u + p| ensures InAlphabet((u + p)[k]) || ((u + p)[k] == Pad && k >= |u + p| - 2) {
      if k < |u| {
        assert (u + p)[k] == u[k];
      } else {
        assert (u + p)[k] == p[k - |u|];
      }
    }
  }

  /** The number of alphabet characters for `n` bytes: four per full group, then two or three. */
  function EncodedLength(n: nat): (len: nat)
    ensures len % 4 != 1
  {
    if n == 0 then 0 else if n == 1 then 2 else if n == 2 then 3 else 4 + EncodedLength(n - 3)
  }

  /** With its padding the encoding of `n` bytes fills `(n + 2) / 3` groups of four. */
  lemma {:induction false} PaddedLength(n: nat)
    ensures EncodedLength(n) + |Padding(n % 3)| == (n + 2) / 3 * 4
    ensures (n + 2) / 3 * 4 % 4 == 0
  {
    DivMod4((n + 2) / 3 * 4, (n + 2) / 3, 0);
    if n >= 3 {
      PaddedLength(n - 3);
      DivMod3(n, (n - 3) / 3 + 1, (n - 3) % 3);
      DivMod3(n + 2, (n - 1) / 3 + 1, (n - 1) % 3);
    }
  }

  /** `btoa`: None is the InvalidCharacterError thrown for a unit above 0xFF. */
  function Btoa(s: seq<CodeUnit>): (r: Option<seq<CodeUnit>>)
    ensures r.Some? <==> AllBytes(s)
    ensures r.Some? ==> r.value == Base64Encode(s)
  {
    if AllBytes(s) then Some(Base64Encode(s)) else None
  }

  /** ASCII whitespace as the HTML standard defines it: TAB, LF, FF, CR and SPACE. */
  predicate AsciiWhitespace(c: int) { c == 0x09 || c == 0x0A || c == 0x0C || c == 0x0D || c == 0x20 }

  function StripWhitespace(s: seq<CodeUnit>): (r: seq<CodeUnit>)
    ensures NoWhitespace(r)
    ensures NoWhitespace(s) ==> r == s
  {
    if s == [] then []
    else if AsciiWhitespace(s[0]) then StripWhitespace(s[1..])
    else
      var r := [s[0]] + StripWhitespace(s[1..]);
      assert s == [s[0]] + s[1..];
      r
  }

  /** When the length is a multiple of four, one or two trailing `=` are dropped. */
  function StripPadding(t: seq<CodeUnit>): (r: seq<CodeUnit>)
    ensures r == t || (|t| % 4 == 0 && 1 <= |t| - |r| <= 2 && r == t[..|r|])
  {
    if |t| % 4 != 0 then t
    else if |t| >= 2 && t[|t| - 1] == Pad && t[|t| - 2] == Pad then t[..|t| - 2]
    else if |t| >= 1 && t[|t| - 1] == Pad then t[..|t| - 1]
    else t
  }

  /** Four characters to three bytes. */
  function DecodeQuad(u: seq<CodeUnit>): (r: seq<int>)
    requires |u| == 4 && AllInAlphabet(u)
    ensures |r| == 3 && AllBytes(r)
  {
    var v0, v1, v2, v3 := Base64Value(u[0]).value, Base64Value(u[1]).value, Base64Value(u[2]).value, Base64Value(u[3]).value;
    [v0 * 4 + v1 / 16, v1 % 16 * 16 + v2 / 4, v2 % 4 * 64 + v3]
  }

  /** Three characters (18 bits) to two bytes, the last two bits discarded. */
  function DecodeTriple(u: seq<CodeUnit>): (r: seq<int>)
    requires |u| == 3 && AllInAlphabet(u)
    ensures |r| == 2 && AllBytes(r)
  {
    var v0, v1, v2 := Base64Value(u[0]).value, Base64Value(u[1]).value, Base64Value(u[2]).value;
    [v0 * 4 + v1 / 16, v1 % 16 * 16 + v2 / 4]
  }

  /** Two characters (12 bits) to one byte, the last four bits discarded. */
  function DecodeDuo(u: seq<CodeUnit>): (r: seq<int>)
    requires |u| == 2 && AllInAlphabet(u)
    ensures |r| == 1 && AllBytes(r)
  {
    var v0, v1 := Base64Value(u[0]).value, Base64Value(u[1]).value;
    [v0 * 4 + v1 / 16]
  }

  /** The bytes of alphabet characters, four characters to three bytes, then a last group of two or
      three characters. */
  function DecodeGroups(u: seq<CodeUnit>): (r: seq<int>)
    requires AllInAlphabet(u) && |u| % 4 != 1
    ensures AllBytes(r)
    ensures |r| == |u| / 4 * 3 + (if |u| % 4 == 0 then 0 else |u| % 4 - 1)
  {
    if |u| == 0 then []
    else if |u| == 2 then DecodeDuo(u)
    else if |u| == 3 then DecodeTriple(u)
    else DecodeQuad(u[..4]) + DecodeGroups(u[4..])
  }

  /** `atob`: None is the InvalidCharacterError thrown for a length that leaves one character over or
      for a character outside the alphabet; the result's units are bytes. */
  function Atob(s: seq<CodeUnit>): (r: Option<seq<int>>)
    ensures r.Some? ==> AllBytes(r.value)
  {
    var u := StripPadding(StripWhitespace(s));
    if |u| % 4 == 1 || !AllInAlphabet(u) then None
    else Some(DecodeGroups(u))
  }

  lemma FullGroup(b0: int, b1: int, b2: int)
    requires IsByte(b0) && IsByte(b1) && IsByte(b2)
    ensures var v0, v1, v2, v3 := b0 / 4, b0 % 4 * 16 + b1 / 16, b1 % 16 * 4 + b2 / 64, b2 % 64;
      && v0 * 4 + v1 / 16 == b0
      && v1 % 16 * 16 + v2 / 4 == b1
      && v2 % 4 * 64 + v3 == b2
  {
    DivMod16(b0 % 4 * 16 + b1 / 16, b0 % 4, b1 / 16);
    DivMod4(b1 % 16 * 4 + b2 / 64, b1 % 16, b2 / 64);
  }

  lemma PairGroup(b0: int, b1: int)
    requires IsByte(b0) && IsByte(b1)
    ensures var v0, v1, v2 := b0 / 4, b0 % 4 * 16 + b1 / 16, b1 % 16 * 4;
      v0 * 4 + v1 / 16 == b0 && v1 % 16 * 16 + v2 / 4 == b1
  {
    DivMod16(b0 % 4 * 16 + b1 / 16, b0 % 4, b1 / 16);
    DivMod4(b1 % 16 * 4, b1 % 16, 0);
  }

  lemma SingleGroup(b0: int)
    requires IsByte(b0)
    ensures var v0, v1 := b0 / 4, b0 % 4 * 16; v0 * 4 + v1 / 16 == b0
  {
    DivMod16(b0 % 4 * 16, b0 % 4, 0);
  }

  /** Decoding the alphabet characters of an encoding gives the bytes back. */
  lemma {:induction false} DecodeUnpadded(bs: seq<int>)
    requires AllBytes(bs)
    ensures DecodeGroups(Unpadded(bs)) == bs
  {
    if |bs| >= 3 {
      var q, rest := Quad(bs[0], bs[1], bs[2]), Unpadded(bs[3..]);
      assert Unpadded(bs) == q + rest;
      DecodeGroupsCons(q, rest);
      DecodeUnpadded(bs[3..]);
      assert bs == [bs[0], bs[1], bs[2]] + bs[3..];
    }
  }

  /** A full group in front decodes on its own. */
  lemma DecodeGroupsCons(q: seq<CodeUnit>, rest: seq<CodeUnit>)
    requires |q| == 4 && AllInAlphabet(q) && AllInAlphabet(rest) && |rest| % 4 != 1
    ensures AllInAlphabet(q + rest) && DecodeGroups(q + rest) == DecodeQuad(q) + DecodeGroups(rest)
  {
    var u := q + rest;
    assert u[..4] == q && u[4..] == rest;
  }

  predicate NoWhitespace(s: seq<int>) { forall k :: 0 <= k < |s| ==> !AsciiWhitespace(s[k]) }

  lemma EncodingHasNoWhitespace(bs: seq<int>)
    requires AllBytes(bs)
    ensures NoWhitespace(Base64Encode(bs))
  {
    PaddedShape(Unpadded(bs), Padding(|bs| % 3));
  }

  /** Alphabet characters followed by at most two `=` that complete a group lose exactly the `=`. */
  lemma StripPaddingOf(u: seq<CodeUnit>, p: seq<CodeUnit>)
    requires AllInAlphabet(u) && |p| <= 2 && (|u| + |p|) % 4 == 0
    requires forall k :: 0 <= k < |p| ==> p[k] == Pad
    requires |p| > 0 ==> |u| > 0
    ensures StripPadding(u + p) == u
  {
    var t := u + p;
    assert t[..|u|] == u;
    if |p| == 0 {
      assert t == u;
      assert |u| > 0 ==> InAlphabet(t[|t| - 1]);
    } else if |p| == 1 {
      assert t[|t| - 1] == Pad;
      assert t[|t| - 2] == u[|u| - 1];
    } else {
      assert t[|t| - 1] == Pad && t[|t| - 2] == Pad;
    }
  }

  lemma StripEncoding(bs: seq<int>)
    requires AllBytes(bs)
    ensures StripPadding(StripWhitespace(Base64Encode(bs))) == Unpadded(bs)
  {
    EncodingHasNoWhitespace(bs);
    StripPaddingOf(Unpadded(bs), Padding(|bs| % 3));
  }

  /** `atob(btoa(s))` gives back every byte string. */
  lemma AtobBtoa(bs: seq<int>)
    requires AllBytes(bs)
    ensures Atob(Base64Encode(bs)) == Some(bs)
  {
    StripEncoding(bs);
    DecodeUnpadded(bs);
  }

  /** Distinct byte strings have distinct encodings. */
  lemma Base64Injective(a: seq<int>, b: seq<int>)
    requires AllBytes(a) && AllBytes(b) && Base64Encode(a) == Base64Encode(b)
    ensures a == b
  {
    AtobBtoa(a);
    AtobBtoa(b);
  }
}
