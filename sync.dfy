/** The sync dialog (components/SyncModal.tsx): the transfer-code codec and the four export and import
    handlers. JSON text is produced and read by an opaque codec; browser dialogs and the clipboard are
    inputs, and what a handler does to the outside world is returned as a list of effects. */
module Sync {
  import opened Types
  import opened Unicode
  import opened Uri
  import opened Base64
  import Text

  /** `toBase64`: the Base64 encoding of the text's UTF-8 bytes; None is the `null` returned when
      `encodeURIComponent` throws on an unpaired surrogate. */
  function ToBase64(s: seq<CodeUnit>): (r: Option<seq<CodeUnit>>)
    ensures r.Some? <==> Utf16Decode(s).Some?
    ensures r.Some? ==> r.value == Base64Encode(Utf8Encode(Utf16Decode(s).value))
  {
    EncodeThenReplace(s);
    match EncodeUriComponent(s)
    case None => None
    case Some(e) => Btoa(ReplaceEscapes(e))
  }

  /** `fromBase64`: the bytes `atob` yields, each written as a two-digit escape, then decoded as UTF-8;
      None is the `null` returned when either step throws. */
  function FromBase64(s: seq<CodeUnit>): (r: Option<seq<CodeUnit>>)
    ensures Atob(s).None? ==> r.None?
  {
    match Atob(s)
    case None => None
    case Some(bytes) => DecodeUriComponent(EscapeAll(bytes))
  }

  /** Every text the encoder accepts, whatever its script, decodes back to itself. */
  lemma FromToBase64(s: seq<CodeUnit>)
    requires ToBase64(s).Some?
    ensures FromBase64(ToBase64(s).value) == Some(s)
  {
    var cps := Utf16Decode(s).value;
    AtobBtoa(Utf8Encode(cps));
    DecodeEscapedUtf8(cps);
    Utf16EncodeDecode(s);
  }

  /** "বিক্রি" (sale): six code units, none of them ASCII, survive the round trip. */
  lemma BengaliRoundTrip()
    ensures var w: seq<CodeUnit> := [0x09AC, 0x09BF, 0x0995, 0x09CD, 0x09B0, 0x09BF];
      ToBase64(w).Some? && FromBase64(ToBase64(w).value) == Some(w)
  {
    var w: seq<CodeUnit> := [0x09AC, 0x09BF, 0x0995, 0x09CD, 0x09B0, 0x09BF];
    assert Utf16Decode(w).Some?;
    FromToBase64(w);
  }

  /** The units `String.prototype.trim` removes: WhiteSpace and LineTerminator (ECMA-262, sections 12.2
      and 12.3). */
  predicate JsWhitespace(u: int)
  {
    || u == 0x09 || u == 0x0B || u == 0x0C || u == 0x20 || u == 0xA0 || u == 0xFEFF || u == 0x1680
    || (0x2000 <= u <= 0x200A) || u == 0x202F || u == 0x205F || u == 0x3000
    || u == 0x0A || u == 0x0D || u == 0x2028 || u == 0x2029
  }

  predicate AllWhitespace(s: seq<CodeUnit>) { forall k :: 0 <= k < |s| ==> JsWhitespace(s[k]) }

  /** `s.trimStart()`: the longest suffix that does not start with whitespace. */
  function TrimStart(s: seq<CodeUnit>): (r: seq<CodeUnit>)
    ensures |r| <= |s| && r == s[|s| - |r|..] && AllWhitespace(s[..|s| - |r|])
    ensures r != [] ==> !JsWhitespace(r[0])
    decreases |s|
  {
    if s != [] && JsWhitespace(s[0]) then
      var r := TrimStart(s[1..]);
      assert s[1..][..|s| - 1 - |r|] == s[1..|s| - |r|];
      assert forall k :: 1 <= k < |s| - |r| ==> s[k] == s[1..|s| - |r|][k - 1];
      r
    else
      s
  }

  /** `s.trimEnd()`: the longest prefix that does not end with whitespace. */
  function TrimEnd(s: seq<CodeUnit>): (r: seq<CodeUnit>)
    ensures |r| <= |s| && r == s[..|r|] && AllWhitespace(s[|r|..])
    ensures r != [] ==> !JsWhitespace(r[|r| - 1])
    decreases |s|
  {
    if s != [] && JsWhitespace(s[|s| - 1]) then
      var r := TrimEnd(s[..|s| - 1]);
      forall k | |r| <= k < |s| ensures JsWhitespace(s[k]) {
        if k < |s| - 1 {
          assert s[k] == s[..|s| - 1][|r|..][k - |r|];
        }
      }
      r
    else
      s
  }

  /** `s.trim()`: the text with leading and trailing whitespace removed. */
  function Trim(s: seq<CodeUnit>): (r: seq<CodeUnit>)
    ensures r != [] ==> !JsWhitespace(r[0]) && !JsWhitespace(r[|r| - 1])
    ensures |r| <= |s|
  {
    TrimEnd(TrimStart(s))
  }

  /** Text that neither starts nor ends with whitespace is left alone by `trim`. */
  lemma TrimUnchanged(s: seq<CodeUnit>)
    requires s != [] ==> !JsWhitespace(s[0]) && !JsWhitespace(s[|s| - 1])
    ensures Trim(s) == s
  {
  }

  /** A code as the encoder writes it is left alone by `trim`: neither the alphabet nor `=` is whitespace. */
  lemma TrimCode(bs: seq<int>)
    requires AllBytes(bs)
    ensures Trim(Base64Encode(bs)) == Base64Encode(bs)
  {
    PaddedCodeTrimmed(Base64Encode(bs));
  }

  lemma PaddedCodeTrimmed(e: seq<CodeUnit>)
    requires |e| % 4 == 0
    requires forall k :: 0 <= k < |e| ==> InAlphabet(e[k]) || (e[k] == Pad && k >= |e| - 2)
    ensures Trim(e) == e
  {
    if e != [] {
      assert InAlphabet(e[0]);
      assert InAlphabet(e[|e| - 1]) || e[|e| - 1] == Pad;
    }
    TrimUnchanged(e);
  }

  /** What `JSON.parse` yields, as far as the handlers look at it: an array, or anything else. */
  datatype JsonValue = JArray(items: seq<Transaction>) | JOther

  /** The JSON library: `JSON.stringify(x)`, `JSON.stringify(x, null, 2)` and `JSON.parse`, whose None is
      the SyntaxError it throws. */
  datatype JsonCodec = JsonCodec(
    stringify: seq<Transaction> -> seq<CodeUnit>,
    pretty: seq<Transaction> -> seq<CodeUnit>,
    parse: seq<CodeUnit> -> Option<JsonValue>)

  /** What a handler does outside the dialog: an alert, a code on the clipboard, a call of `onImport`,
      a file download. */
  datatype Effect =
    | Alert(message: string)
    | Copied(code: seq<CodeUnit>)
    | Imported(data: seq<Transaction>)
    | Downloaded(fileName: string, content: seq<CodeUnit>)

  const NothingToCopy: string := "কপি করার জন্য কোনো ডাটা নেই।"
  const CodeFailed: string := "কোড তৈরি করতে সমস্যা হয়েছে।"
  const CopiedToClipboard: string := "কোডটি ক্লিপবোর্ডে কপি করা হয়েছে। অন্য ডিভাইসে এটি পেস্ট করুন।"
  const CopiedByFallback: string := "কোডটি কপি করা হয়েছে।"
  const CopyFailed: string := "কপি করা সম্ভব হয়নি। ম্যানুয়ালি ফাইল ব্যাকআপ ব্যবহার করুন।"
  const ImportDone: string := "সফলভাবে ইমপোর্ট হয়েছে!"
  const WrongCode: string := "ভুল কোড দেওয়া হয়েছে। দয়া করে সঠিক কোডটি কপি করে আনুন।"
  const NothingToDownload: string := "ডাউনলোড করার জন্য কোনো ডাটা নেই।"
  const FileImported: string := "ফাইল থেকে ডাটা সফলভাবে নেওয়া হয়েছে!"
  const BadFile: string := "ফাইলের ফরম্যাট সঠিক নয়। শুধুমাত্র .json ফাইল আপলোড করুন।"

  predicate ImportsNothing(effects: seq<Effect>)
  {
    forall k :: 0 <= k < |effects| ==> !effects[k].Imported?
  }

  /** A code as the encoder writes it, pasted and trimmed, decodes back to the encoded text. */
  lemma CodeDecodes(text: seq<CodeUnit>)
    requires ToBase64(text).Some?
    ensures FromBase64(Trim(ToBase64(text).value)) == Some(text)
  {
    TrimCode(Utf8Encode(Utf16Decode(text).value));
    FromToBase64(text);
  }

  /** `handleExportCode`. `clipboardApi` says whether `navigator.clipboard.writeText` exists and `copyOk`
      whether the copy went through without an exception; an empty code counts as a failed one. */
  method ExportCode(txs: seq<Transaction>, json: JsonCodec, clipboardApi: bool, copyOk: bool)
    returns (effects: seq<Effect>)
    ensures ImportsNothing(effects)
    ensures txs == [] ==> effects == [Alert(NothingToCopy)]
    ensures txs != [] ==>
      var code := ToBase64(json.stringify(txs));
      if code.None? || code.value == [] then effects == [Alert(CodeFailed)]
      else if !copyOk then effects == [Alert(CopyFailed)]
      else effects == [Copied(code.value), Alert(if clipboardApi then CopiedToClipboard else CopiedByFallback)]
  {
    if |txs| == 0 {
      return [Alert(NothingToCopy)];
    }
    var jsonStr := json.stringify(txs);
    var code := ToBase64(jsonStr);
    if code.None? || code.value == [] {
      return [Alert(CodeFailed)];
    }
    if !copyOk {
      return [Alert(CopyFailed)];
    }
    if clipboardApi {
      effects := [Copied(code.value), Alert(CopiedToClipboard)];
    } else {
      effects := [Copied(code.value), Alert(CopiedByFallback)];
    }
  }

  /** `handleImportCode`. `pasted` is what the prompt returned (None when cancelled) and `confirmed` the
      answer to the confirmation. Records are imported only from an array the user confirmed. */
  method ImportCode(pasted: Option<seq<CodeUnit>>, json: JsonCodec, confirmed: bool)
    returns (effects: seq<Effect>)
    ensures pasted.None? || Trim(pasted.value) == [] ==> effects == []
    ensures pasted.Some? && Trim(pasted.value) != [] ==>
      var text := FromBase64(Trim(pasted.value));
      if text.None? || text.value == [] || json.parse(text.value).None? || json.parse(text.value).value.JOther? then
        effects == [Alert(WrongCode)]
      else if confirmed then
        effects == [Imported(json.parse(text.value).value.items), Alert(ImportDone)]
      else
        effects == []
  {
    if pasted.None? || Trim(pasted.value) == [] {
      return [];
    }
    var decodedStr := FromBase64(Trim(pasted.value));
    if decodedStr.None? || decodedStr.value == [] {
      return [Alert(WrongCode)];
    }
    var decoded := json.parse(decodedStr.value);
    if decoded.None? {
      return [Alert(WrongCode)];
    }
    match decoded.value {
      case JArray(items) =>
        if confirmed {
          effects := [Imported(items), Alert(ImportDone)];
        } else {
          effects := [];
        }
      case JOther =>
        effects := [Alert(WrongCode)];
    }
  }

  /** `handleDownloadFile`. `isoNow` is `new Date().toISOString()`; the file is named after its date part. */
  method DownloadFile(txs: seq<Transaction>, json: JsonCodec, isoNow: string) returns (effects: seq<Effect>)
    ensures ImportsNothing(effects)
    ensures txs == [] ==> effects == [Alert(NothingToDownload)]
    ensures txs != [] ==> effects == [Downloaded("ShopBackup_" + Text.Split(isoNow, 'T')[0] + ".json", json.pretty(txs))]
  {
    if |txs| == 0 {
      return [Alert(NothingToDownload)];
    }
    var dataStr := json.pretty(txs);
    var day := Text.Split(isoNow, 'T')[0];
    effects := [Downloaded("ShopBackup_" + day + ".json", dataStr)];
  }

  /** `handleUploadFile`: the file's text is parsed directly and an array is imported without asking. */
  method UploadFile(file: Option<seq<CodeUnit>>, json: JsonCodec) returns (effects: seq<Effect>)
    ensures file.None? ==> effects == []
    ensures file.Some? && json.parse(file.value).Some? && json.parse(file.value).value.JArray? ==>
      effects == [Imported(json.parse(file.value).value.items), Alert(FileImported)]
    ensures file.Some? && (json.parse(file.value).None? || json.parse(file.value).value.JOther?) ==>
      effects == [Alert(BadFile)]
  {
    if file.None? {
      return [];
    }
    var decoded := json.parse(file.value);
    if decoded.Some? && decoded.value.JArray? {
      effects := [Imported(decoded.value.items), Alert(FileImported)];
    } else {
      effects := [Alert(BadFile)];
    }
  }

  /** What the JSON library is relied on for: the text of a list is non-empty, free of unpaired
      surrogates, and parses back to that list. */
  predicate Faithful(json: JsonCodec, txs: seq<Transaction>)
  {
    var text := json.stringify(txs);
    text != [] && Utf16Decode(text).Some? && json.parse(text) == Some(JArray(txs))
  }

  /** A code copied on one device and pasted, confirmed, on another imports exactly the exported records. */
  method TransferByCode(txs: seq<Transaction>, json: JsonCodec, clipboardApi: bool)
    returns (exported: seq<Effect>, imported: seq<Effect>)
    requires txs != [] && Faithful(json, txs)
    ensures |exported| == 2 && exported[0].Copied?
    ensures FromBase64(exported[0].code) == Some(json.stringify(txs))
    ensures imported == [Imported(txs), Alert(ImportDone)]
  {
    var text := json.stringify(txs);
    var cps := Utf16Decode(text).value;
    assert cps != [];
    assert Utf8Encode(cps) != [];
    exported := ExportCode(txs, json, clipboardApi, true);
    CodeDecodes(text);
    FromToBase64(text);
    var code := exported[0].code;
    imported := ImportCode(Some(code), json, true);
  }
}
