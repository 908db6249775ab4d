/** The simulated sign-in of the login screen (AuthScreen.tsx): no server is asked, the user record is made
    from the form fields. */
module Auth {
  import opened Types
  import opened Unicode
  import opened Base64
  import Text

  /** The code points of a Dafny string. */
  function CodePoints(s: string): (r: seq<int>)
    ensures |r| == |s| && AllScalars(r)
    ensures forall k :: 0 <= k < |s| ==> r[k] == s[k] as int
  {
    seq(|s|, k requires 0 <= k < |s| => s[k] as int)
  }

  /** The JavaScript string (UTF-16 code units) holding the same text. */
  function JsString(s: string): (r: seq<CodeUnit>)
  {
    Utf16Encode(CodePoints(s))
  }

  /** Text whose characters are all in U+0000..U+00FF, the only text `btoa` accepts. */
  predicate IsLatin1(s: string) { forall k :: 0 <= k < |s| ==> s[k] as int <= 0xFF }

  /** A string's units are all bytes exactly when each code point is at most 0xFF; then the units are the
      code points themselves. */
  lemma {:induction false} ByteUnits(cps: seq<int>)
    requires AllScalars(cps)
    ensures AllBytes(Utf16Encode(cps)) <==> forall k :: 0 <= k < |cps| ==> cps[k] <= 0xFF
    ensures AllBytes(Utf16Encode(cps)) ==> Utf16Encode(cps) == cps
  {
    if cps != [] {
      ByteUnits(cps[1..]);
      var u, rest := Utf16Unit(cps[0]), Utf16Encode(cps[1..]);
      assert Utf16Encode(cps) == u + rest;
      if AllBytes(u + rest) {
        assert u[0] == (u + rest)[0];
        assert forall k :: 0 <= k < |rest| ==> rest[k] == (u + rest)[|u| + k];
        assert cps == [cps[0]] + cps[1..];
      }
    }
  }

  /** The characters of an encoding whose units are all ASCII. */
  function AsciiText(u: seq<CodeUnit>): (r: string)
    requires forall k :: 0 <= k < |u| ==> u[k] < 0x80
    ensures |r| == |u| && forall k :: 0 <= k < |u| ==> r[k] as int == u[k]
  {
    seq(|u|, k requires 0 <= k < |u| => u[k] as char)
  }

  /** The user record built on submission. The id is `btoa` of the e-mail address, which throws (None here,
      and nobody is signed in) unless every character is in U+0000..U+00FF. In login mode the display
      name is the part of the address before the first `@`; on registration it is the name typed in.
      The address is kept as typed, there is no avatar, and the password is never looked at. */
  function MockUser(isLogin: bool, email: string, name: string): (r: Option<User>)
    ensures r.Some? <==> Btoa(JsString(email)).Some?
    ensures r.Some? <==> IsLatin1(email)
    ensures r.Some? ==> r.value.email == email && r.value.avatar == None
    ensures r.Some? ==> r.value.name == (if isLogin then Text.Split(email, '@')[0] else name)
    ensures r.Some? ==>
      && |r.value.id| == |Btoa(JsString(email)).value|
      && forall k :: 0 <= k < |r.value.id| ==> r.value.id[k] as int == Btoa(JsString(email)).value[k]
  {
    ByteUnits(CodePoints(email));
    match Btoa(JsString(email))
    case None => None
    case Some(encoded) =>
      assert forall k :: 0 <= k < |encoded| ==> encoded[k] < 0x80;
      Some(User(AsciiText(encoded), if isLogin then Text.Split(email, '@')[0] else name, email, None))
  }

  /** On login the display name is the address up to its first `@`, or the whole address without one. */
  lemma LoginName(email: string, name: string)
    requires IsLatin1(email)
    ensures '@' !in email ==> MockUser(true, email, name).value.name == email
    ensures '@' in email ==> exists i :: 0 <= i < |email| && email[i] == '@' && '@' !in email[..i]
                                        && MockUser(true, email, name).value.name == email[..i]
  {
    Text.SplitHead(email, '@');
  }

  /** The id depends on the address alone, and two different addresses never share an id. */
  lemma IdsIdentifyEmails(isLogin1: bool, email1: string, name1: string, isLogin2: bool, email2: string, name2: string)
    requires MockUser(isLogin1, email1, name1).Some? && MockUser(isLogin2, email2, name2).Some?
    ensures MockUser(isLogin1, email1, name1).value.id == MockUser(isLogin2, email2, name2).value.id
            <==> email1 == email2
  {
    var id1, id2 := MockUser(isLogin1, email1, name1).value.id, MockUser(isLogin2, email2, name2).value.id;
    if id1 == id2 {
      var c1, c2 := CodePoints(email1), CodePoints(email2);
      ByteUnits(c1);
      ByteUnits(c2);
      var e1, e2 := Base64Encode(JsString(email1)), Base64Encode(JsString(email2));
      assert |e1| == |id1| && |e2| == |id2|;
      assert forall k :: 0 <= k < |e1| ==> e1[k] == id1[k] as int;
      assert e1 == e2;
      Base64Injective(c1, c2);
      assert forall k :: 0 <= k < |email1| ==> email1[k] as int == c1[k];
      assert email1 == email2;
    }
  }
}
