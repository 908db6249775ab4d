/** UTF-16 code units (a JavaScript string), Unicode code points, and UTF-8 (RFC 3629) byte sequences. */
module Unicode {
  import opened Types
  import opened Arith

  /** One element of a JavaScript string. */
  type CodeUnit = u: int | 0 <= u < 0x10000

  predicate IsHighSurrogate(u: int) { 0xD800 <= u <= 0xDBFF }
  predicate IsLowSurrogate(u: int) { 0xDC00 <= u <= 0xDFFF }

  /** A Unicode scalar value: a code point that is not a surrogate. */
  predicate IsScalar(cp: int) { 0 <= cp < 0xD800 || 0xE000 <= cp <= 0x10FFFF }

  predicate AllScalars(cps: seq<int>) { forall k :: 0 <= k < |cps| ==> IsScalar(cps[k]) }

  /** The UTF-16 encoding of one scalar value: one unit below 0x10000, a surrogate pair above. */
  function Utf16Unit(cp: int): (r: seq<CodeUnit>)
    requires IsScalar(cp)
    ensures |r| == (if cp < 0x10000 then 1 else 2)
    ensures |r| == 1 ==> r[0] == cp && !IsHighSurrogate(r[0]) && !IsLowSurrogate(r[0])
    ensures |r| == 2 ==>
      && IsHighSurrogate(r[0]) && IsLowSurrogate(r[1])
      && cp == 0x10000 + (r[0] as int - 0xD800) * 0x400 + (r[1] as int - 0xDC00)
  {
    if cp < 0x10000 then [cp]
    else [0xD800 + (cp - 0x10000) / 0x400, 0xDC00 + (cp - 0x10000) % 0x400]
  }

  /** `CodePointAt` (ECMA-262, section 11.1.4): the code point the string starts with and how many units
      it takes, or None for an unpaired surrogate. */
  function CodePointAt(s: seq<CodeUnit>): (r: Option<(int, nat)>)
    requires |s| > 0
    ensures r.Some? ==> IsScalar(r.value.0) && 1 <= r.value.1 <= |s| && Utf16Unit(r.value.0) == s[..r.value.1]
    ensures r.None? <==> (IsHighSurrogate(s[0]) && (|s| == 1 || !IsLowSurrogate(s[1]))) || IsLowSurrogate(s[0])
  {
    if IsHighSurrogate(s[0]) && |s| > 1 && IsLowSurrogate(s[1]) then
      Some((0x10000 + (s[0] as int - 0xD800) * 0x400 + (s[1] as int - 0xDC00), 2))
    else if IsHighSurrogate(s[0]) || IsLowSurrogate(s[0]) then None
    else Some((s[0] as int, 1))
  }

  /** The code points of a string, or None when it holds an unpaired surrogate. */
  function Utf16Decode(s: seq<CodeUnit>): (r: Option<seq<int>>)
    ensures r.Some? ==> AllScalars(r.value)
    decreases |s|
  {
    if s == [] then Some([])
    else match CodePointAt(s)
      case None => None
      case Some((cp, n)) =>
        match Utf16Decode(s[n..])
        case None => None
        case Some(rest) => Some([cp] + rest)
  }

  function Utf16Encode(cps: seq<int>): (r: seq<CodeUnit>)
    requires AllScalars(cps)
  {
    if cps == [] then [] else Utf16Unit(cps[0]) + Utf16Encode(cps[1..])
  }

  /** A decodable string is its first code point's units followed by a decodable rest. */
  lemma DecodeStep(s: seq<CodeUnit>)
    requires s != [] && Utf16Decode(s).Some?
    ensures CodePointAt(s).Some?
    ensures var cp, n := CodePointAt(s).value.0, CodePointAt(s).value.1;
      && Utf16Decode(s[n..]).Some?
      && Utf16Decode(s).value == [cp] + Utf16Decode(s[n..]).value
      && s == Utf16Unit(cp) + s[n..]
  {
    var cp, n := CodePointAt(s).value.0, CodePointAt(s).value.1;
    assert Utf16Unit(cp) == s[..n];
    assert s == s[..n] + s[n..];
  }

  lemma EncodeStep(cp: int, rest: seq<int>)
    requires IsScalar(cp) && AllScalars(rest)
    ensures AllScalars([cp] + rest) && Utf16Encode([cp] + rest) == Utf16Unit(cp) + Utf16Encode(rest)
  {
    assert ([cp] + rest)[0] == cp && ([cp] + rest)[1..] == rest;
  }

  /** Every string without unpaired surrogates is the UTF-16 encoding of its code points. */
  lemma {:induction false} Utf16EncodeDecode(s: seq<CodeUnit>)
    requires Utf16Decode(s).Some?
    ensures Utf16Encode(Utf16Decode(s).value) == s
    decreases |s|
  {
    if s != [] {
      DecodeStep(s);
      var cp, n := CodePointAt(s).value.0, CodePointAt(s).value.1;
      Utf16EncodeDecode(s[n..]);
      EncodeStep(cp, Utf16Decode(s[n..]).value);
    }
  }

  /** Encoding scalar values as UTF-16 and decoding gives them back. */
  lemma {:induction false} Utf16DecodeEncode(cps: seq<int>)
    requires AllScalars(cps)
    ensures Utf16Decode(Utf16Encode(cps)) == Some(cps)
  {
    if cps != [] {
      var u := Utf16Unit(cps[0]);
      var s := Utf16Encode(cps);
      assert s == u + Utf16Encode(cps[1..]);
      assert s[..|u|] == u;
      assert s[|u|..] == Utf16Encode(cps[1..]);
      assert CodePointAt(s) == Some((cps[0], |u|));
      Utf16DecodeEncode(cps[1..]);
      assert Utf16Decode(s) == Some([cps[0]] + cps[1..]);
      assert [cps[0]] + cps[1..] == cps;
    }
  }

  predicate IsByte(b: int) { 0 <= b < 256 }
  predicate AllBytes(bs: seq<int>) { forall k :: 0 <= k < |bs| ==> IsByte(bs[k]) }
  predicate IsContinuation(b: int) { 0x80 <= b < 0xC0 }

  /** The UTF-8 encoding of one scalar value (RFC 3629, section 3). */
  function Utf8Unit(cp: int): (r: seq<int>)
    requires IsScalar(cp)
    ensures AllBytes(r)
    ensures |r| == (if cp < 0x80 then 1 else if cp < 0x800 then 2 else if cp < 0x10000 then 3 else 4)
    ensures |r| == 1 ==> r[0] == cp
  {
    if cp < 0x80 then [cp]
    else if cp < 0x800 then [0xC0 + cp / 64, 0x80 + cp % 64]
    else if cp < 0x10000 then [0xE0 + cp / 4096, 0x80 + (cp / 64) % 64, 0x80 + cp % 64]
    else [0xF0 + cp / 262144, 0x80 + (cp / 4096) % 64, 0x80 + (cp / 64) % 64, 0x80 + cp % 64]
  }

  function Utf8Encode(cps: seq<int>): (r: seq<int>)
    requires AllScalars(cps)
    ensures AllBytes(r)
  {
    if cps == [] then [] else Utf8Unit(cps[0]) + Utf8Encode(cps[1..])
  }

  /** The number of leading one bits of a byte: 0 for ASCII, 1 for a continuation byte, else the sequence length. */
  function LeadingOnes(b: int): (n: nat)
    requires IsByte(b)
    ensures n <= 8
  {
    if b < 0x80 then 0
    else if b < 0xC0 then 1
    else if b < 0xE0 then 2
    else if b < 0xF0 then 3
    else if b < 0xF8 then 4
    else if b < 0xFC then 5
    else if b < 0xFE then 6
    else if b < 0xFF then 7
    else 8
  }

  lemma Utf8Two(b0: int, b1: int)
    requires 0xC0 <= b0 < 0xE0 && IsContinuation(b1)
    ensures var cp := (b0 - 0xC0) * 64 + (b1 - 0x80);
      cp >= 0x80 ==> IsScalar(cp) && Utf8Unit(cp) == [b0, b1]
  {
    var cp := (b0 - 0xC0) * 64 + (b1 - 0x80);
    DivMod64(cp, b0 - 0xC0, b1 - 0x80);
  }

  lemma Utf8Three(b0: int, b1: int, b2: int)
    requires 0xE0 <= b0 < 0xF0 && IsContinuation(b1) && IsContinuation(b2)
    ensures var cp := (b0 - 0xE0) * 4096 + (b1 - 0x80) * 64 + (b2 - 0x80);
      cp >= 0x800 && IsScalar(cp) ==> Utf8Unit(cp) == [b0, b1, b2]
  {
    var cp := (b0 - 0xE0) * 4096 + (b1 - 0x80) * 64 + (b2 - 0x80);
    var hi := (b0 - 0xE0) * 64 + (b1 - 0x80);
    DivMod64(cp, hi, b2 - 0x80);
    DivMod64(hi, b0 - 0xE0, b1 - 0x80);
    DivMod4096(cp, b0 - 0xE0, (b1 - 0x80) * 64 + (b2 - 0x80));
  }

  lemma Utf8Four(b0: int, b1: int, b2: int, b3: int)
    requires 0xF0 <= b0 < 0xF8 && IsContinuation(b1) && IsContinuation(b2) && IsContinuation(b3)
    ensures var cp := (b0 - 0xF0) * 262144 + (b1 - 0x80) * 4096 + (b2 - 0x80) * 64 + (b3 - 0x80);
      0x10000 <= cp <= 0x10FFFF ==> Utf8Unit(cp) == [b0, b1, b2, b3]
  {
    var cp := (b0 - 0xF0) * 262144 + (b1 - 0x80) * 4096 + (b2 - 0x80) * 64 + (b3 - 0x80);
    var hi := (b0 - 0xF0) * 4096 + (b1 - 0x80) * 64 + (b2 - 0x80);
    var top := (b0 - 0xF0) * 64 + (b1 - 0x80);
    DivMod64(cp, hi, b3 - 0x80);
    DivMod64(hi, top, b2 - 0x80);
    DivMod64(top, b0 - 0xF0, b1 - 0x80);
    DivMod4096(cp, top, (b2 - 0x80) * 64 + (b3 - 0x80));
    DivMod262144(cp, b0 - 0xF0, (b1 - 0x80) * 4096 + (b2 - 0x80) * 64 + (b3 - 0x80));
  }

  predicate ContinuationsFollow(bs: seq<int>)
  {
    forall k :: 1 <= k < |bs| ==> IsContinuation(bs[k])
  }

  /** The scalar value a multi-byte sequence encodes, or None when it is not a valid UTF-8 encoding of one
      (a missing continuation byte, an overlong form, a surrogate or a value above U+10FFFF). */
  function Utf8DecodeUnit(bs: seq<int>): (r: Option<int>)
    requires 2 <= |bs| <= 4 && AllBytes(bs) && LeadingOnes(bs[0]) == |bs|
    ensures r.Some? ==> IsScalar(r.value) && Utf8Unit(r.value) == bs
  {
    if !ContinuationsFollow(bs) then None
    else if |bs| == 2 then
      var cp := (bs[0] - 0xC0) * 64 + (bs[1] - 0x80);
      Utf8Two(bs[0], bs[1]);
      if cp >= 0x80 then Some(cp) else None
    else if |bs| == 3 then
      var cp := (bs[0] - 0xE0) * 4096 + (bs[1] - 0x80) * 64 + (bs[2] - 0x80);
      Utf8Three(bs[0], bs[1], bs[2]);
      if cp >= 0x800 && IsScalar(cp) then Some(cp) else None
    else
      var cp := (bs[0] - 0xF0) * 262144 + (bs[1] - 0x80) * 4096 + (bs[2] - 0x80) * 64 + (bs[3] - 0x80);
      Utf8Four(bs[0], bs[1], bs[2], bs[3]);
      if 0x10000 <= cp <= 0x10FFFF then Some(cp) else None
  }

  /** Decoding the UTF-8 encoding of a non-ASCII scalar value gives it back. */
  lemma Utf8UnitRoundTrip(cp: int)
    requires IsScalar(cp) && cp >= 0x80
    ensures var bs := Utf8Unit(cp); LeadingOnes(bs[0]) == |bs| && Utf8DecodeUnit(bs) == Some(cp)
  {
    if cp < 0x800 {
      RoundTripTwo(cp);
    } else if cp < 0x10000 {
      RoundTripThree(cp);
    } else {
      RoundTripFour(cp);
    }
  }

  lemma RoundTripTwo(cp: int)
    requires 0x80 <= cp < 0x800
    ensures var bs := Utf8Unit(cp); LeadingOnes(bs[0]) == 2 && Utf8DecodeUnit(bs) == Some(cp)
  {
    var bs := Utf8Unit(cp);
    assert bs == [0xC0 + cp / 64, 0x80 + cp % 64];
    assert ContinuationsFollow(bs);
  }

  lemma RoundTripThree(cp: int)
    requires 0x800 <= cp < 0x10000 && IsScalar(cp)
    ensures var bs := Utf8Unit(cp); LeadingOnes(bs[0]) == 3 && Utf8DecodeUnit(bs) == Some(cp)
  {
    var bs := Utf8Unit(cp);
    var hi, lo := cp / 64, cp % 64;
    DivMod4096(cp, hi / 64, hi % 64 * 64 + lo);
    assert bs == [0xE0 + hi / 64, 0x80 + hi % 64, 0x80 + lo];
    assert ContinuationsFollow(bs);
  }

  lemma RoundTripFour(cp: int)
    requires 0x10000 <= cp <= 0x10FFFF
    ensures var bs := Utf8Unit(cp); LeadingOnes(bs[0]) == 4 && Utf8DecodeUnit(bs) == Some(cp)
  {
    var bs := Utf8Unit(cp);
    var hi, lo := cp / 64, cp % 64;
    var top, mid := hi / 64, hi % 64;
    DivMod4096(cp, top, mid * 64 + lo);
    DivMod262144(cp, top / 64, top % 64 * 4096 + mid * 64 + lo);
    assert bs == [0xF0 + top / 64, 0x80 + top % 64, 0x80 + mid, 0x80 + lo];
    assert ContinuationsFollow(bs);
  }
}
