/** Percent-escapes (section 2.1 of RFC 3986) as the sync codec uses them: `encodeURIComponent` and
    `decodeURIComponent` (ECMA-262, section 19.2.6), the `%XX` replacement of the encoder and the
    byte-to-escape mapping of the decoder. Strings are sequences of UTF-16 code units. */
module Uri {
  import opened Types
  import opened Unicode

  const Percent: int := 0x25

  /** The units `encodeURIComponent` leaves as they are: ASCII letters, digits and `-_.!~*'()`. */
  predicate Unreserved(u: int)
  {
    || 0x41 <= u <= 0x5A || 0x61 <= u <= 0x7A || 0x30 <= u <= 0x39
    || u == 0x2D || u == 0x5F || u == 0x2E || u == 0x21 || u == 0x7E || u == 0x2A || u == 0x27 || u == 0x28 || u == 0x29
  }

  /** The value of a hexadecimal digit of either case. */
  function HexValue(c: int): (r: Option<int>)
    ensures r.Some? ==> 0 <= r.value < 16
  {
    if 0x30 <= c <= 0x39 then Some(c - 0x30)
    else if 0x41 <= c <= 0x46 then Some(c - 0x37)
    else if 0x61 <= c <= 0x66 then Some(c - 0x57)
    else None
  }

  /** A digit the encoder's pattern `[0-9A-F]` accepts. */
  predicate IsUpperHex(c: int) { 0x30 <= c <= 0x39 || 0x41 <= c <= 0x46 }

  function UpperDigit(d: int): (c: CodeUnit)
    requires 0 <= d < 16
    ensures IsUpperHex(c) && HexValue(c) == Some(d)
  {
    if d < 10 then 0x30 + d else 0x37 + d
  }

  function LowerDigit(d: int): (c: CodeUnit)
    requires 0 <= d < 16
    ensures HexValue(c) == Some(d)
  {
    if d < 10 then 0x30 + d else 0x57 + d
  }

  /** Upper-case `%XX` escapes of bytes, as `encodeURIComponent` writes them. */
  function UpperEscapes(bs: seq<int>): (r: seq<CodeUnit>)
    requires AllBytes(bs)
    ensures |r| == 3 * |bs|
    ensures forall k :: 0 <= k < |r| ==> r[k] == Percent || IsUpperHex(r[k])
  {
    if bs == [] then [] else [Percent, UpperDigit(bs[0] / 16), UpperDigit(bs[0] % 16)] + UpperEscapes(bs[1..])
  }

  /** `encodeURIComponent`: unreserved units stay, every other code point becomes the escapes of its
      UTF-8 bytes; None is the URIError thrown for an unpaired surrogate. */
  function EncodeUriComponent(s: seq<CodeUnit>): (r: Option<seq<CodeUnit>>)
    ensures r.Some? ==> forall k :: 0 <= k < |r.value| ==> Unreserved(r.value[k]) || r.value[k] == Percent
    decreases |s|
  {
    if s == [] then Some([])
    else if Unreserved(s[0]) then
      match EncodeUriComponent(s[1..])
      case None => None
      case Some(rest) => Some([s[0]] + rest)
    else
      match CodePointAt(s)
      case None => None
      case Some((cp, n)) =>
        match EncodeUriComponent(s[n..])
        case None => None
        case Some(rest) => Some(UpperEscapes(Utf8Unit(cp)) + rest)
  }

  /** `e.replace(/%([0-9A-F]{2})/g, …)`: a left-to-right scan turning each upper-case escape into the one
      unit whose code is the escaped byte; everything else is copied. */
  function ReplaceEscapes(e: seq<CodeUnit>): (r: seq<CodeUnit>)
    ensures |r| <= |e|
    ensures (forall k :: 0 <= k < |e| ==> e[k] < 0x100) ==> AllBytes(r)
    decreases |e|
  {
    if e == [] then []
    else if |e| >= 3 && e[0] == Percent && IsUpperHex(e[1]) && IsUpperHex(e[2]) then
      [HexValue(e[1]).value * 16 + HexValue(e[2]).value] + ReplaceEscapes(e[3..])
    else [e[0]] + ReplaceEscapes(e[1..])
  }

  lemma ReplaceOneEscape(b: int, rest: seq<CodeUnit>)
    requires IsByte(b)
    ensures ReplaceEscapes([Percent, UpperDigit(b / 16), UpperDigit(b % 16)] + rest) == [b] + ReplaceEscapes(rest)
  {
    var e := [Percent, UpperDigit(b / 16), UpperDigit(b % 16)] + rest;
    assert e[3..] == rest;
    assert e[0] == Percent && IsUpperHex(e[1]) && IsUpperHex(e[2]);
    assert HexValue(e[1]).value * 16 + HexValue(e[2]).value == b;
  }

  lemma {:induction false} ReplaceUpperEscapes(bs: seq<int>, rest: seq<CodeUnit>)
    requires AllBytes(bs)
    ensures ReplaceEscapes(UpperEscapes(bs) + rest) == bs + ReplaceEscapes(rest)
  {
    if bs == [] {
      assert UpperEscapes(bs) + rest == rest;
    } else {
      var head := [Percent, UpperDigit(bs[0] / 16), UpperDigit(bs[0] % 16)];
      var tail := UpperEscapes(bs[1..]) + rest;
      assert UpperEscapes(bs) == head + UpperEscapes(bs[1..]);
      assert UpperEscapes(bs) + rest == head + tail;
      ReplaceOneEscape(bs[0], tail);
      ReplaceUpperEscapes(bs[1..], rest);
      assert bs == [bs[0]] + bs[1..];
    }
  }

  /** The encoder accepts exactly the strings without unpaired surrogates, and replacing its escapes
      yields the UTF-8 byte string of the text, one unit per byte. */
  lemma {:induction false} EncodeThenReplace(s: seq<CodeUnit>)
    ensures EncodeUriComponent(s).Some? <==> Utf16Decode(s).Some?
    ensures EncodeUriComponent(s).Some? ==>
      ReplaceEscapes(EncodeUriComponent(s).value) == Utf8Encode(Utf16Decode(s).value)
    decreases |s|
  {
    if s != [] {
      var (cp, n) := if Unreserved(s[0]) then (s[0] as int, 1) else
        if CodePointAt(s).Some? then CodePointAt(s).value else (0, 1);
      if Unreserved(s[0]) {
        assert CodePointAt(s) == Some((s[0] as int, 1));
        EncodeThenReplace(s[1..]);
        if EncodeUriComponent(s).Some? {
          var rest := EncodeUriComponent(s[1..]).value;
          assert ReplaceEscapes([s[0]] + rest) == [s[0]] + ReplaceEscapes(rest) by {
            assert ([s[0]] + rest)[1..] == rest;
          }
        }
      } else if CodePointAt(s).Some? {
        EncodeThenReplace(s[n..]);
        if EncodeUriComponent(s).Some? {
          ReplaceUpperEscapes(Utf8Unit(cp), EncodeUriComponent(s[n..]).value);
        }
      }
    }
  }

  /** The byte an escape `%XX` at the start of `s` denotes (digits of either case), or None. */
  function ParseEscape(s: seq<CodeUnit>): (r: Option<int>)
    ensures r.Some? ==> IsByte(r.value) && |s| >= 3 && s[0] == Percent
  {
    if |s| < 3 || s[0] != Percent then None
    else match (HexValue(s[1]), HexValue(s[2]))
      case (Some(hi), Some(lo)) => Some(hi * 16 + lo)
      case _ => None
  }

  /** The bytes of `n` consecutive escapes at the start of `s`. */
  function ParseEscapes(s: seq<CodeUnit>, n: nat): (r: Option<seq<int>>)
    requires |s| >= 3 * n
    ensures r.Some? ==> |r.value| == n && AllBytes(r.value)
  {
    if n == 0 then Some([])
    else
      match ParseEscape(s)
      case None => None
      case Some(b) =>
        match ParseEscapes(s[3..], n - 1)
        case None => None
        case Some(rest) => Some([b] + rest)
  }

  /** `decodeURIComponent`: a unit other than `%` is copied; an escape of an ASCII byte becomes that unit;
      an escape of a lead byte must be followed by escapes of its continuation bytes that together
      encode one scalar value, which is written in UTF-16. None is the URIError thrown otherwise. */
  function DecodeUriComponent(s: seq<CodeUnit>): (r: Option<seq<CodeUnit>>)
    ensures r.Some? ==> |r.value| <= |s|
    ensures (forall k :: 0 <= k < |s| ==> s[k] != Percent) ==> r == Some(s)
    decreases |s|
  {
    if s == [] then Some([])
    else if s[0] != Percent then
      assert s == [s[0]] + s[1..];
      match DecodeUriComponent(s[1..])
      case None => None
      case Some(rest) => Some([s[0]] + rest)
    else
      match ParseEscape(s)
      case None => None
      case Some(b) =>
        if b < 0x80 then
          match DecodeUriComponent(s[3..])
          case None => None
          case Some(rest) => Some([b] + rest)
        else
          var n := LeadingOnes(b);
          if n == 1 || n > 4 || |s| < 3 * n then None
          else
            match ParseEscapes(s[3..], n - 1)
            case None => None
            case Some(tail) =>
              match Utf8DecodeUnit([b] + tail)
              case None => None
              case Some(cp) =>
                match DecodeUriComponent(s[3 * n..])
                case None => None
                case Some(rest) => Some(Utf16Unit(cp) + rest)
  }

  /** `c.charCodeAt(0).toString(16)`: the lower-case hexadecimal numeral of a number. */
  function ToHexString(n: nat): (r: seq<CodeUnit>)
    ensures |r| >= 1
    decreases n
  {
    if n < 16 then [LowerDigit(n)] else ToHexString(n / 16) + [LowerDigit(n % 16)]
  }

  /** `'%' + ('00' + hex).slice(-2)` for one byte of the decoded Base64 text. */
  function EscapeByte(b: int): (r: seq<CodeUnit>)
    requires IsByte(b)
    ensures |r| == 3 && r[0] == Percent
  {
    var padded := [0x30, 0x30] + ToHexString(b);
    [Percent] + padded[|padded| - 2..]
  }

  /** Every byte becomes `%` and exactly two zero-padded hexadecimal digits of its value. */
  lemma EscapeByteDigits(b: int)
    requires IsByte(b)
    ensures EscapeByte(b) == [Percent, LowerDigit(b / 16), LowerDigit(b % 16)]
  {
    if b < 16 {
      assert ToHexString(b) == [LowerDigit(b)];
    } else {
      assert ToHexString(b / 16) == [LowerDigit(b / 16)];
    }
  }

  /** `.split('').map(escape).join('')` over the decoded bytes. */
  function EscapeAll(bs: seq<int>): (r: seq<CodeUnit>)
    requires AllBytes(bs)
    ensures |r| == 3 * |bs|
  {
    if bs == [] then [] else EscapeByte(bs[0]) + EscapeAll(bs[1..])
  }

  lemma {:induction false} EscapeAllConcat(a: seq<int>, b: seq<int>)
    requires AllBytes(a) && AllBytes(b)
    ensures EscapeAll(a + b) == EscapeAll(a) + EscapeAll(b)
  {
    if a == [] {
      assert a + b == b;
    } else {
      var e := EscapeByte(a[0]);
      assert (a + b)[0] == a[0] && (a + b)[1..] == a[1..] + b;
      assert EscapeAll(a + b) == e + EscapeAll(a[1..] + b);
      EscapeAllConcat(a[1..], b);
      assert EscapeAll(a) == e + EscapeAll(a[1..]);
    }
  }

  /** Each escape the decoder's mapping writes parses back to its byte. */
  lemma ParseEscapeByte(b: int, rest: seq<CodeUnit>)
    requires IsByte(b)
    ensures ParseEscape(EscapeByte(b) + rest) == Some(b)
  {
    EscapeByteDigits(b);
  }

  /** An escape in front of `n` parsed escapes makes `n + 1`. */
  lemma ParseEscapesStep(e: seq<CodeUnit>, t: seq<CodeUnit>, b: int, rest: seq<int>)
    requires |e| == 3 && ParseEscape(e + t) == Some(b)
    requires |t| >= 3 * |rest| && ParseEscapes(t, |rest|) == Some(rest)
    ensures ParseEscapes(e + t, |rest| + 1) == Some([b] + rest)
  {
    assert (e + t)[3..] == t;
  }

  lemma {:induction false} ParseEscapeAll(bs: seq<int>, rest: seq<CodeUnit>)
    requires AllBytes(bs)
    ensures ParseEscapes(EscapeAll(bs) + rest, |bs|) == Some(bs)
  {
    if bs != [] {
      var e, t := EscapeByte(bs[0]), EscapeAll(bs[1..]) + rest;
      assert EscapeAll(bs) + rest == e + t;
      ParseEscapeByte(bs[0], t);
      ParseEscapeAll(bs[1..], rest);
      ParseEscapesStep(e, t, bs[0], bs[1..]);
      assert bs == [bs[0]] + bs[1..];
    }
  }

  /** Decoding the escaped UTF-8 bytes of one scalar value followed by decodable text yields its UTF-16
      units followed by the decoding of that text. */
  lemma DecodeOneScalar(cp: int, rest: seq<CodeUnit>, r: seq<CodeUnit>)
    requires IsScalar(cp) && DecodeUriComponent(rest) == Some(r)
    ensures DecodeUriComponent(EscapeAll(Utf8Unit(cp)) + rest) == Some(Utf16Unit(cp) + r)
  {
    if cp < 0x80 {
      DecodeAscii(cp, rest, r);
    } else {
      DecodeMultiByte(cp, rest, r);
    }
  }

  lemma DecodeAscii(cp: int, rest: seq<CodeUnit>, r: seq<CodeUnit>)
    requires 0 <= cp < 0x80 && DecodeUriComponent(rest) == Some(r)
    ensures DecodeUriComponent(EscapeAll(Utf8Unit(cp)) + rest) == Some(Utf16Unit(cp) + r)
  {
    var s := EscapeAll([cp]) + rest;
    assert s == EscapeByte(cp) + rest;
    ParseEscapeByte(cp, rest);
    assert s[3..] == rest;
  }

  lemma DecodeMultiByte(cp: int, rest: seq<CodeUnit>, r: seq<CodeUnit>)
    requires IsScalar(cp) && cp >= 0x80 && DecodeUriComponent(rest) == Some(r)
    ensures DecodeUriComponent(EscapeAll(Utf8Unit(cp)) + rest) == Some(Utf16Unit(cp) + r)
  {
    var bs := Utf8Unit(cp);
    var s := EscapeAll(bs) + rest;
    assert s == EscapeByte(bs[0]) + (EscapeAll(bs[1..]) + rest);
    ParseEscapeByte(bs[0], EscapeAll(bs[1..]) + rest);
    Utf8UnitRoundTrip(cp);
    var n := |bs|;
    assert s[3..] == EscapeAll(bs[1..]) + rest;
    ParseEscapeAll(bs[1..], rest);
    assert [bs[0]] + bs[1..] == bs;
    assert s[3 * n..] == rest;
    DecodeLeadEscape(s, bs[0], bs[1..], cp, r);
  }

  /** One step of the decoder at the escape of a lead byte whose continuation escapes decode. */
  lemma DecodeLeadEscape(s: seq<CodeUnit>, b: int, tail: seq<int>, cp: int, r: seq<CodeUnit>)
    requires ParseEscape(s) == Some(b) && b >= 0x80
    requires LeadingOnes(b) == |tail| + 1 && 2 <= |tail| + 1 <= 4 && |s| >= 3 * (|tail| + 1)
    requires ParseEscapes(s[3..], |tail|) == Some(tail) && Utf8DecodeUnit([b] + tail) == Some(cp)
    requires DecodeUriComponent(s[3 * (|tail| + 1)..]) == Some(r)
    ensures DecodeUriComponent(s) == Some(Utf16Unit(cp) + r)
  {
  }

  /** Decoding the escapes of the UTF-8 encoding of scalar values yields their UTF-16 encoding. */
  lemma {:induction false} DecodeEscapedUtf8(cps: seq<int>)
    requires AllScalars(cps)
    ensures DecodeUriComponent(EscapeAll(Utf8Encode(cps))) == Some(Utf16Encode(cps))
  {
    if cps != [] {
      EscapeAllConcat(Utf8Unit(cps[0]), Utf8Encode(cps[1..]));
      DecodeEscapedUtf8(cps[1..]);
      DecodeOneScalar(cps[0], EscapeAll(Utf8Encode(cps[1..])), Utf16Encode(cps[1..]));
    }
  }
}
