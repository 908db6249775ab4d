# Shop ledger: a Dafny model

This project models the core of a small-shop bookkeeping web app. A user signs in and records income and
expense transactions. The app shows one month's totals and a daily trend series, asks an AI service for
advice, and moves the ledger between devices as a copy-paste transfer code or a JSON file.

What is modelled, file by file:

- `types.dfy`: the records of `types.ts`. `TransactionType` has two kinds stored as `"Income"` and
  `"Expense"`. `Transaction` has its seven fields, with amounts as whole cents (`int`) and dates as
  `YYYY-MM-DD` strings. Also `User` (optional avatar) and `DailyStats`.
- `app.dfy`: the `App` component's state as a class `Shop`. It holds the session user, the in-memory
  list, the shared all-users store `blob` (the `shop_ai_cloud_data` key), the saved session, the month
  on view and the insight text. Its methods are the load effect, `saveToCloud`, add, delete (the
  confirmation answer is an input), import, login, logout and the insight button. `Valid()` is the
  invariant that the list holds only the current user's records, and nothing when nobody is signed in.
  Every method keeps it; `saveToCloud` keeps it when given the user's own records, as all its callers
  do. Every write replaces only the current user's partition of the store, and the
  contracts prove that every other user's partition is unchanged.
- `ledger.dfy`: the pure derivations behind the store and the views. These are the per-user partition,
  the merge that `saveToCloud` writes, re-stamping on import, deletion by id, the month filter (a string
  prefix match) and the income/expense/profit totals. The totals are proved against a one-record-at-a-time
  reference definition.
- `sync.dfy`, `base64.dfy`, `uri.dfy`, `unicode.dfy`: the transfer-code codec of `SyncModal.tsx`.
  Strings are sequences of UTF-16 code units, as in JavaScript. `toBase64` is `encodeURIComponent`
  (UTF-8 as escapes, section 2.1 of RFC 3986 and section 3 of RFC 3629), then the `%XX`-to-character
  replacement, then `btoa` (section 4 of RFC 4648). `fromBase64` is `atob`, then the escape of each
  byte as `%` and two hex digits, then `decodeURIComponent`. The model proves that decoding gives back
  every text the encoder accepts, including Bengali. The four handlers (export code, import code,
  download file, upload file) return the list of effects they cause. These are alerts, the copied code,
  the call of `onImport` and the download.
- `trends.dfy`: the daily series of `TrendsChart.tsx`. It sorts a copy by date, then a loop
  accumulates per-date sums into a map and records the keys in insertion order. The model proves one
  entry per distinct date in ascending order, per-date sums, and conservation of the totals.
- `form.dfy`: the entry form of `TransactionForm.tsx` as a class: its initial state, the field edits
  and the submit rule.
- `auth.dfy`: the simulated sign-in of `AuthScreen.tsx`. The id is `btoa` of the e-mail. The name is
  the part before `@` when logging in, or the name typed in when registering.
- `advisor.dfy`: the digest and prompt of `services/geminiService.ts` and its two fallback strings.
- `text.dfy`, `seqs.dfy`, `arith.dfy`: one-character `split` and `join`, order-preserving selection,
  and division facts.

Behaviour of the code worth stating up front:

- Import replaces the current user's partition (`handleImportData` calls `saveToCloud`). It does not
  append, and incoming ids are kept. Only `userId` is re-stamped.
- There is no remote database. The only store is the shared local `shop_ai_cloud_data` key. Deleting
  filters the in-memory list, which `Valid()` proves holds only the current user's records.

## Model

| member | source | states |
|---|---|---|
| Types.TypeValue | types.ts:2-5 | the two kinds are stored as "Income" and "Expense" and no other string |
| Types.TypeValueRoundTrip | types.ts:3-4 | the stored value of a kind identifies the kind, so the two values differ |
| Types.WithUserId | App.tsx:95 | `{ ...t, userId }` changes the owner and keeps every other field |
| Ledger.ForUser | App.tsx:53 | the load filter keeps exactly the records owned by the user, each as many times as in the store, in store order |
| Ledger.OtherUsers | App.tsx:67 | `saveToCloud` keeps exactly the records of other users, each as many times as in the store, in store order |
| Ledger.Merged | App.tsx:67-68 | the written store holds the other users' records and the new list, with the new list last and whole; `MergedOwnPartition` and `MergedKeepsAllOthers` state its partitions |
| Ledger.MergedKeepsOthers | App.tsx:65-70 | after the read-partition-write, any other user's partition of the store is what it was |
| Ledger.MergedKeepsAllOthers | App.tsx:65-70 | the write leaves all other users' partitions equal at once |
| Ledger.MergedOwnPartition | App.tsx:65-70 | after the write the current user's partition is exactly the new list |
| Ledger.Stamped | App.tsx:109 | import re-stamps each record with the user's id, keeping order, count, ids and other fields |
| Ledger.WithoutId | App.tsx:102 | delete drops exactly the records with that id and keeps the rest, with their multiplicity, in order |
| Ledger.InMonth | App.tsx:131-133 | the month view keeps exactly the records whose date starts with the view key, with their multiplicity, in their order |
| Ledger.MonthKeyIsDatePrefix | App.tsx:132 | for a `YYYY-MM-DD` date and a `YYYY-MM` key, matching is equality of the first seven characters |
| Ledger.PrefixScenario | App.tsx:131-133 | "2024-03-31" is in month "2024-03" and the malformed "2024-3-1" is excluded |
| Ledger.OfKind | App.tsx:136-141 | the type filter keeps exactly the records of that kind, with their multiplicity, in order |
| Ledger.SumAmounts | App.tsx:136-141 | the `reduce` starting at 0 gives 0 for no records and is non-negative for non-negative amounts; `SumIncomeIsIncomeOf` and `SumExpenseIsExpenseOf` state what it sums |
| Ledger.SumIncomeIsIncomeOf | App.tsx:136-138 | filtering INCOME and summing equals the per-record income reference sum |
| Ledger.SumExpenseIsExpenseOf | App.tsx:139-141 | filtering EXPENSE and summing equals the per-record expense reference sum |
| Ledger.NetIsIncomeMinusExpense | App.tsx:146 | income minus expense is the signed sum (+amount for income, -amount for expense) |
| Ledger.Totals | App.tsx:135-148 | income and expense are the reference sums, profit is their difference and the signed sum, and the empty view gives 0/0/0 |
| Ledger.TotalsConcat | App.tsx:135-148 | the totals of two lists put together are the sums of their totals |
| Ledger.JuneScenario | App.tsx:131-148 | a June sale of 100 and rent of 40 give income 100, expense 40, profit 60 |
| App.Shop.constructor | App.tsx:25-36 | on mount nobody is signed in, the list is empty, and the month is the given current month |
| App.Shop.RestoreSession | App.tsx:39-44 | a saved session becomes the current user and nothing else changes |
| App.Shop.Login | App.tsx:74-80 | the user is saved and set, the view moves to the current month, and the store is untouched |
| App.Shop.Load | App.tsx:47-59 | with a user and a stored blob the list becomes exactly that user's records; with no user it is empty; with no stored blob it is unchanged |
| App.Shop.SaveToCloud | App.tsx:61-72 | no user: nothing changes; otherwise the store is other users' records then the new list, the list is the new list, and other partitions are unchanged |
| App.Shop.Add | App.tsx:93-98 | with a user the stamped record is put in front of the list and the store is updated; other partitions are unchanged; no user: nothing changes |
| App.Shop.Delete | App.tsx:100-105 | when confirmed, every record with that id leaves the list and the user's partition; when not, nothing changes |
| App.Shop.Import | App.tsx:107-113 | the user's partition and the list become the stamped imported records (kept ids); other partitions are unchanged |
| App.Shop.Logout | App.tsx:82-91 | user, saved session, list and insight are cleared, the dialogs close, and the shared store is kept |
| App.Shop.SetViewDate | App.tsx:230 | the month picker sets the view key |
| App.Shop.Filtered | App.tsx:131-133 | the view is the month filter of the in-memory list, so it holds exactly the records of the month on view, with their multiplicity |
| App.Shop.MonthStats | App.tsx:135-148 | the month's income and expense are the reference sums of the view and profit is their difference |
| App.Shop.GetAiInsight | App.tsx:115-129 | an empty month gives the fixed no-data text and sends nothing; otherwise the month's prompt is sent and the answer or the failure text becomes the insight |
| App.EditsKeepOtherPartition | App.tsx:61-113 | any add, import and delete by the signed-in user leaves another user's partition of the store unchanged |
| Sync.ToBase64 | components/SyncModal.tsx:15-24 | the code is the Base64 of the text's UTF-8 bytes; null exactly when the text holds an unpaired surrogate |
| Sync.FromBase64 | components/SyncModal.tsx:27-36 | invalid Base64 gives null instead of an exception |
| Sync.FromToBase64 | components/SyncModal.tsx:15-36 | decoding the code of any text the encoder accepts gives back that text |
| Sync.BengaliRoundTrip | components/SyncModal.tsx:14-36 | the Bengali word বিক্রি survives encoding and decoding unchanged |
| Sync.Trim | components/SyncModal.tsx:73-76 | the trimmed code neither starts nor ends with JavaScript whitespace and is no longer than the input |
| Sync.TrimStart | components/SyncModal.tsx:73-76 | only a whitespace prefix is removed, and what remains does not start with whitespace |
| Sync.TrimEnd | components/SyncModal.tsx:73-76 | only a whitespace suffix is removed, and what remains does not end with whitespace |
| Sync.TrimCode | components/SyncModal.tsx:76 | a code as the encoder writes it is unchanged by trimming |
| Sync.CodeDecodes | components/SyncModal.tsx:72-79 | a generated code, pasted and trimmed, decodes to the exported text |
| Sync.ExportCode | components/SyncModal.tsx:38-69 | an empty list gives only the no-data alert; an encoding failure gives only its alert; otherwise the code is copied and a success alert follows; export never imports |
| Sync.ImportCode | components/SyncModal.tsx:71-92 | a cancelled or blank paste does nothing; a decode, empty-text, parse or non-array failure gives a single error alert; an array is imported only when confirmed |
| Sync.DownloadFile | components/SyncModal.tsx:94-107 | an empty list gives only the no-data alert; otherwise one file with the pretty JSON, named after today's date |
| Sync.UploadFile | components/SyncModal.tsx:109-131 | no file does nothing; an array is imported without confirmation; anything else gives the format alert |
| Sync.TransferByCode | components/SyncModal.tsx:38-92 | a code exported on one device and imported (confirmed) on another imports exactly the exported records |
| Base64.Base64Encode | components/SyncModal.tsx:17 | the output has length 4 * ceil(n / 3), uses only the RFC 4648 alphabet, and has '=' only in the last two places |
| Base64.Btoa | components/SyncModal.tsx:17 | `btoa` throws exactly when a unit exceeds 0xFF, and otherwise gives the Base64 encoding |
| Base64.Atob | components/SyncModal.tsx:29 | `atob` yields only bytes |
| Base64.AtobBtoa | components/SyncModal.tsx:17-29 | `atob(btoa(bytes))` gives back every byte string |
| Base64.Base64Injective | components/AuthScreen.tsx:22 | distinct byte strings have distinct Base64 encodings |
| Uri.EncodeThenReplace | components/SyncModal.tsx:17-19 | `encodeURIComponent` accepts exactly the texts without unpaired surrogates, and replacing its escapes gives the text's UTF-8 byte string |
| Uri.EncodeUriComponent | components/SyncModal.tsx:17 | a successful encoding holds only unreserved characters and escapes; `EncodeThenReplace` states when it succeeds and what it yields |
| Uri.ReplaceEscapes | components/SyncModal.tsx:17-19 | the replacement never lengthens the text and turns text of units below 0x100 into bytes; `EncodeThenReplace` states it gives the UTF-8 bytes |
| Uri.EscapeAll | components/SyncModal.tsx:29-31 | each byte becomes three units; `EscapeByteDigits` and `DecodeEscapedUtf8` state their form and meaning |
| Uri.DecodeUriComponent | components/SyncModal.tsx:29-31 | the decoding is never longer than the input and copies escape-free text unchanged; `DecodeEscapedUtf8` states it inverts the escaping of UTF-8 |
| Uri.EscapeByteDigits | components/SyncModal.tsx:30 | each decoded byte becomes '%' and exactly two zero-padded hex digits of its value |
| Uri.DecodeEscapedUtf8 | components/SyncModal.tsx:29-31 | `decodeURIComponent` of the escaped UTF-8 bytes of a text gives back the text |
| Unicode.Utf16EncodeDecode | components/SyncModal.tsx:15-36 | a string without unpaired surrogates is the UTF-16 encoding of its code points |
| Unicode.Utf16DecodeEncode | components/SyncModal.tsx:15-36 | decoding the UTF-16 encoding of scalar values gives them back |
| Unicode.Utf8UnitRoundTrip | components/SyncModal.tsx:17-31 | the UTF-8 bytes of a scalar value decode back to it and have the expected lead and continuation bytes |
| Trends.SortByDate | components/TrendsChart.tsx:23 | the copy is sorted by date and is a permutation of the input |
| Trends.DayTotalSorted | components/TrendsChart.tsx:23-35 | sorting changes no date's sums |
| Trends.DatesAscend | components/TrendsChart.tsx:23-37 | the insertion order of dates over a sorted list is strictly ascending |
| Trends.SumDaysTotals | components/TrendsChart.tsx:25-35 | summed over all dates, the per-date sums are the list's income and expense |
| Trends.Added | components/TrendsChart.tsx:30-34 | an INCOME record adds its amount to income only, any other record to expense only |
| Trends.TracksStep | components/TrendsChart.tsx:26-34 | one callback step keeps every map entry equal to its date's sums and the key order equal to first occurrence |
| Trends.AccumulateOne | components/TrendsChart.tsx:25-35 | a record's date gets an entry at zero on first sight, then the amount is added to income or expense |
| Trends.Accumulate | components/TrendsChart.tsx:25-35 | after the loop the map has one entry per date of the sorted list, each holding that date's sums, with keys in first-occurrence order |
| Trends.DailySeries | components/TrendsChart.tsx:20-51 | one entry per distinct input date (no date twice), in ascending order, with that date's income and expense; totals conserved; empty exactly for empty input |
| Trends.SeriesOrder | components/TrendsChart.tsx:23-37 | the series lists each input date once, ascending, and is empty only for empty input |
| Trends.SeriesValues | components/TrendsChart.tsx:30-34 | each entry holds the input's income and expense sums for its date |
| Trends.SeriesTotals | components/TrendsChart.tsx:25-37 | the series' income and expense sum to the input's totals |
| Form.DayOf | components/TransactionForm.tsx:16 | the default date is the timestamp's text before the first 'T' |
| Form.TransactionForm.constructor | components/TransactionForm.tsx:11-16 | a new form has empty description and amount, type INCOME, category পণ্য বিক্রয়, and today's date |
| Form.TransactionForm.Edit | components/TransactionForm.tsx:44-98 | each input sets its field |
| Form.TransactionForm.Submit | components/TransactionForm.tsx:18-36 | a blank description or amount sends nothing and changes nothing; otherwise one record from the fields and owner is sent, and only description and amount are cleared |
| Auth.MockUser | components/AuthScreen.tsx:21-25 | the id is the Base64 of the e-mail (none when `btoa` throws); the name is the text before '@' when logging in, else the typed name; the e-mail is kept and no password appears |
| Auth.LoginName | components/AuthScreen.tsx:23 | the login name is the e-mail up to its first '@', or the whole e-mail without one |
| Auth.IdsIdentifyEmails | components/AuthScreen.tsx:22 | two submissions get the same id exactly when the e-mails are equal |
| Advisor.Used | services/geminiService.ts:12 | the digest uses the first min(50, n) records, in list order |
| Advisor.Lines | services/geminiService.ts:12-13 | one line per record, in the form `date: description - type - €amount` |
| Advisor.Digest | services/geminiService.ts:12-14 | no records give the empty digest, and a non-empty digest starts with the first record's line; `DigestLines` states it is exactly the used records' lines |
| Advisor.DigestLines | services/geminiService.ts:12-14 | splitting the digest at '\n' gives back one line per used record, so there is no trailing separator |
| Advisor.Prompt | services/geminiService.ts:16-25 | the prompt starts with the fixed head, ends with the fixed tail, and has room for exactly the digest between them; `PromptEmbedsDigest` states the middle is the digest |
| Advisor.PromptEmbedsDigest | services/geminiService.ts:16-25 | the prompt is the fixed head, the digest unchanged, then the fixed tail |
| Advisor.Analyze | services/geminiService.ts:27-38 | a non-empty answer is returned as is, an empty one gives the apology, and a failed call gives the fallback; the result is never empty |
| Text.SplitHead | components/AuthScreen.tsx:23 | the first piece of a split is the text before the first separator, or all of it |
| Text.SplitJoin | services/geminiService.ts:14 | joining separator-free lines and splitting again gives the lines back |

## Left out

- Rendering: JSX, styling, icons, chart drawing, `DashboardCards.tsx` and `TransactionTable.tsx`
  display only. The chart's day labels (`getDate`, `toLocaleDateString`) and `getDisplayMonth` are
  locale and clock code.
- Browser storage: the `localStorage` keys are fields of `Shop` (`blob`, `blobStored`, `savedUser`).
  Reading the stored blob is taken to yield a list of records. Corrupt stored JSON is not modelled.
- JSON: `JSON.stringify` and `JSON.parse` are an opaque `JsonCodec` parameter. An array it parses is
  taken to hold well-formed records. The source does not check element shape either, so records with
  missing fields or a type string other than the two values cannot be expressed.
- Trends.SortByDate: the source compares `new Date(date).getTime()`. The model compares date strings,
  which gives the same order for valid `YYYY-MM-DD` dates. Invalid dates, whose comparator returns
  NaN, are not modelled.
- Trends.DailySeries: `Object.entries` lists integer-like keys first. Dates are never integer-like, so
  the model uses insertion order.
- Trends.Added: "any non-INCOME record counts as expense" is stated over the two kinds only, since no
  third type value can be expressed.
- Browser I/O: clipboard, `execCommand`, Blob download, FileReader, `prompt`, `confirm` and `alert`.
  Dialog answers are method inputs. Alerts, the copied code, downloads and `onImport` calls are
  returned as effects.
- The AI service call (`GoogleGenAI`, `generateContent`): its outcome is the `Advisor.Response` input,
  and the loading flag is not modelled.
- Floating point: amounts are whole cents. `parseFloat` and the `€${amount}` rendering are function
  parameters.
- Clock: the current month, `toISOString()` and `crypto.randomUUID()` are inputs.
- React effect scheduling: the load effect is the method `Load`, which callers invoke after the user
  changes.
- Sync.FromBase64: its own contract states only that invalid Base64 gives null. What it decodes is
  stated by `Sync.FromToBase64` and `Uri.DecodeEscapedUtf8`. UTF-8 that `decodeURIComponent` rejects
  is modelled, but not characterised separately.
- Sync.Trim: its contract states the trimmed ends and the length bound. The exact removed prefix and
  suffix are stated by its helpers `TrimStart` and `TrimEnd`.
- Auth.MockUser: when `btoa` throws on an e-mail with a character above U+00FF, the handler throws
  and nobody is signed in. The model returns None for this case.
- Persistence beyond the browser: there is no remote database in the code. The only store is the
  shared local `shop_ai_cloud_data` key.
