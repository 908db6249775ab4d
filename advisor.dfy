/** The request side of the advisory service (services/geminiService.ts): the digest, the prompt and the fallbacks. */
module Advisor {
  import opened Types
  import opened Text

  const DigestLimit: nat := 50
  const NoInsight: string := "দুঃখিত, কোনো ইনসাইট তৈরি করা সম্ভব হয়নি।"
  const Unavailable: string := "AI এই মুহূর্তে কাজ করছে না। দয়া করে পরে চেষ্টা করুন।"

  const PromptHead: string :=
    "\n      You are a business consultant for a small shop owner. \n"
    + "      Analyze the following recent transactions and provide 2-3 short, actionable bullet points in Bengali for the shop owner to improve profit or manage expenses.\n"
    + "      Be encouraging and concise.\n\n      Transactions Data:\n      "
  const PromptTail: string := "\n\n      Response should be entirely in Bengali. Max 3 sentences.\n    "

  /** What the service call came to: an answer (possibly empty), a failed call, or a client that could not be created. */
  datatype Response = Answered(text: string) | CallFailed | ClientFailed

  /** One digest line, `date: description - type - €amount`; the amount's rendering is a parameter. */
  function Line(t: Transaction, showAmount: int -> string): string
  {
    t.date + ": " + t.description + " - " + TypeValue(t.kind) + " - €" + showAmount(t.amount)
  }

  function Lines(txs: seq<Transaction>, showAmount: int -> string): (r: seq<string>)
    ensures |r| == |txs|
    ensures forall k :: 0 <= k < |txs| ==> r[k] == Line(txs[k], showAmount)
  {
    seq(|txs|, k requires 0 <= k < |txs| => Line(txs[k], showAmount))
  }

  function Used(txs: seq<Transaction>): (r: seq<Transaction>)
    ensures |r| == if |txs| < DigestLimit then |txs| else DigestLimit
    ensures r == txs[..|r|]
  {
    if |txs| <= DigestLimit then txs else txs[..DigestLimit]
  }

  /** `transactions.slice(0, 50).map(line).join('\n')`. */
  function Digest(txs: seq<Transaction>, showAmount: int -> string): (r: string)
    ensures txs == [] ==> r == ""
    ensures txs != [] ==> Line(txs[0], showAmount) <= r
  {
    Join(Lines(Used(txs), showAmount), "\n")
  }

  predicate SingleLine(s: string) { '\n' !in s }

  /** When no field renders a line break, the digest splits back into one line per used record, in list order. */
  lemma DigestLines(txs: seq<Transaction>, showAmount: int -> string)
    requires |txs| > 0
    requires forall t :: t in txs ==>
      SingleLine(t.date) && SingleLine(t.description) && SingleLine(showAmount(t.amount))
    ensures var used := if |txs| < DigestLimit then |txs| else DigestLimit;
            Split(Digest(txs, showAmount), '\n') == Lines(txs[..used], showAmount)
  {
    var lines := Lines(Used(txs), showAmount);
    forall k | 0 <= k < |lines| ensures '\n' !in lines[k] {
      var t := Used(txs)[k];
      assert t in txs;
      assert lines[k] == t.date + ": " + t.description + " - " + TypeValue(t.kind) + " - €" + showAmount(t.amount);
    }
    SplitJoin(lines, '\n');
  }

  /** The text sent to the model. */
  function Prompt(txs: seq<Transaction>, showAmount: int -> string): (r: string)
    ensures |r| == |PromptHead| + |Digest(txs, showAmount)| + |PromptTail|
    ensures r[..|PromptHead|] == PromptHead && r[|r| - |PromptTail|..] == PromptTail
  {
    var head, digest, tail := PromptHead, Digest(txs, showAmount), PromptTail;
    var r := head + digest + tail;
    assert r[..|head|] == head;
    assert r[|r| - |tail|..] == tail;
    r
  }

  /** The prompt is the fixed template with the digest, unchanged, in its one slot. */
  lemma PromptEmbedsDigest(txs: seq<Transaction>, showAmount: int -> string)
    ensures var p := Prompt(txs, showAmount);
            && |p| == |PromptHead| + |Digest(txs, showAmount)| + |PromptTail|
            && p[..|PromptHead|] == PromptHead
            && p[|p| - |PromptTail|..] == PromptTail
            && p[|PromptHead|..|p| - |PromptTail|] == Digest(txs, showAmount)
  {
  }

  /** The string `analyzeBusiness` resolves to once the client exists: it never rejects from the call itself. */
  function Analyze(response: Response): (r: Option<string>)
    ensures r.None? <==> response.ClientFailed?
    ensures response.Answered? && response.text != "" ==> r == Some(response.text)
    ensures response.Answered? && response.text == "" ==> r == Some(NoInsight)
    ensures response.CallFailed? ==> r == Some(Unavailable)
    ensures r.Some? ==> r.value != ""
  {
    match response
    case Answered(text) => Some(if text != "" then text else NoInsight)
    case CallFailed => Some(Unavailable)
    case ClientFailed => None
  }
}
