# Anatomy Guru answer-sheet evaluation: a verified model of its core logic

Anatomy Guru is a browser application that asks a multimodal AI model to grade
an answer sheet. An instructor uploads a question paper, an optional answer
key and the student's handwritten sheets. The application builds an ordered
request for the model: a fixed examiner instruction, then one labelled image
per page. It recomputes the total and the percentage from the itemized
grades the model returns, keeps a per-user history of reports, and shows a
dashboard with a usage bill.

This Dafny project models the deterministic parts of that system:

- `DataUrl` (`data_url.dfy`): `parseDataUrl`. It splits a data URL on `,`.
  The media type is what the regular expression `/:(.*?);/` captures, with
  JavaScript's rule that `.` never matches a line terminator. The fallback
  media type is `image/jpeg`.
- `Request` (`request.dfy`): the part list and `addFiles`. `AddFiles` is a
  loop that grows the list; it is proved against the function `GroupParts`.
- `ScoreReconciler` (`reconcile.dfy`): the recomputation of the score from the grades. The
  total is recomputed as a fold in which absent, NaN and zero marks count as
  0. The percentage is guarded by `maxScore > 0`.
- `GeminiService` (`gemini_service.dfy`): `evaluateAnswerSheet`. It covers
  the credential guard, request composition, the empty-response check,
  decoding and reconciliation. The model call and `JSON.parse` are foreign
  code, so they are the function parameters `generate` and `decode`.
- `Billing` (`billing.dfy`): `getBillingInfo`. Money is in integer cents
  (50 per sheet). The due date is a calendar date.
- `Dashboard` (`dashboard.dfy`): the derived metrics. These are the
  evaluation count, the average performance (exactly 0 when there is no
  history), the billing-banner condition, the 40 % pass styling, and the
  choice between the table and the empty-state placeholder.
- `AppState` (`app.dfy`): the application component as a class `App`. It
  has the component's state fields and one method per handler. The pure
  parts of the handlers are functions beside the class: the size filter,
  deletion by id, and the mapping from an error to its message.
- `Types` (`types.dfy`): the records of `types.ts` as datatypes.

Modelling choices:

- Percentages and marks are `real`, so arithmetic is exact.
- A report's number field that may be absent is `JsNumber`. `JSON.parse` never yields NaN; the `NotANumber` case is there so that `|| 0` is modelled for every falsy number, not because the decoder can produce it.
- A stored record's sheet count that may be missing is `Option<nat>`.
- Ids, timestamps, the current date and the credential are handler inputs.
- The reconciliation overwrites two fields of a report that `JSON.parse` has
  just created and that nothing else references. The model therefore writes
  it as a datatype update.

Three behaviours of the code that are easy to miss:

- Page labels number pages by their index in the uploaded list. A page whose
  data URL does not parse is skipped, but the numbers of later pages keep
  counting. So the labels can have gaps, and the model proves exactly that
  (`Request.GroupPartsAt`).
- Nothing checks the decoded report against the declared schema before the
  score is recomputed. Text that `JSON.parse` accepts but whose value has no
  `grades` array (or a `null` grade) makes the recomputation at
  services/geminiService.ts:122 throw a `TypeError`, whose message is then
  shown. The model's `decode` returns a typed report, so it stands for
  `JSON.parse` together with that shape, and both kinds of failure reach the
  model as a rejection by `decode` (`Malformed`).
- Any error whose message is the text `API_KEY_MISSING` gets the
  configuration message, not only the credential guard's error. The model
  keeps that comparison on the message (`AppState.ErrorText`).

## Model

| member | source | states |
|---|---|---|
| `DataUrl.Split` | services/geminiService.ts:7 | splitting on a one-character separator yields one piece more than there are separators, and no piece contains the separator |
| `DataUrl.SplitJoin` | services/geminiService.ts:7 | joining the pieces with the separator gives back the original string |
| `DataUrl.SplitAround` | services/geminiService.ts:7-9 | a string with exactly one comma splits into the text before it and the text after it |
| `DataUrl.SplitWithout` | services/geminiService.ts:7 | a string without the separator splits into a single piece, itself |
| `DataUrl.IndexOf` | services/geminiService.ts:7-9 | the index returned holds the character and no earlier position does |
| `DataUrl.SemicolonReach` | services/geminiService.ts:10 | the lazy `.*?;` stops at the first `;` when no line terminator precedes it, and fails otherwise |
| `DataUrl.FirstMatchFrom` | services/geminiService.ts:10 | the match position is the leftmost `:` from which `.*?;` succeeds; no earlier position matches, and `None` means none matches at all |
| `DataUrl.SemicolonReachPlain` | services/geminiService.ts:10 | without line breaks, `.*?;` stops exactly at the first `;`, and fails when there is none |
| `DataUrl.FirstMatchPlain` | services/geminiService.ts:10 | without line breaks, the regex matches at the first `:` when a `;` follows it, and nowhere otherwise |
| `DataUrl.MimeTypeWithoutLineBreaks` | services/geminiService.ts:10 | without line breaks, the media type is the text between the first `:` and the next `;`, and `image/jpeg` when either is missing or that text is empty |
| `DataUrl.MimeTypeAtMatch` | services/geminiService.ts:10-11 | at the first match, the media type is the captured group, or `image/jpeg` when that group is empty |
| `DataUrl.ParseDataUrlCharacterized` | services/geminiService.ts:5-15 | parsing succeeds iff the URL has exactly one comma (so zero or two or more commas give null); the data is then exactly the text after the comma and the media type is taken from the text before it |
| `DataUrl.FormatThenParse` | services/geminiService.ts:5-11 | round trip: the `data:<type>;base64,<data>` URL of a payload parses back to that payload and media type |
| `DataUrl.MimeTypeOf` | services/geminiService.ts:10 | `match(/:(.*?);/)?.[1] \|\| "image/jpeg"` on the header; its meaning is stated by `DataUrl.MimeTypeAtMatch`, `DataUrl.MimeTypeWithoutMatch`, `DataUrl.MimeTypeWithoutLineBreaks` and `DataUrl.LineBreakFallsBack` |
| `DataUrl.MimeTypeWithoutMatch` | services/geminiService.ts:10 | when the regular expression matches nowhere in the header, including when a line terminator stops every lazy match, the media type is `image/jpeg` |
| `DataUrl.LineBreakFallsBack` | services/geminiService.ts:10 | the header `data:\nimage/png;base64` has no match, because `.*?` cannot cross the line break, so its media type is `image/jpeg` |
| `DataUrl.ParseDataUrl` | services/geminiService.ts:5-15 | `parseDataUrl`; its contract is stated by `DataUrl.ParseDataUrlCharacterized` (success iff one comma, data and media type) and `DataUrl.FormatThenParse` (round trip) |
| `Request.Decimal` | services/geminiService.ts:59 | the printed page number is a non-empty string of decimal digits with no leading zero, and zero prints as `0`, as JavaScript's template literal prints it |
| `Request.DecimalRoundTrip` | services/geminiService.ts:59 | the page numeral reads back as the page number, so distinct pages get distinct labels |
| `Request.PageLabel` | services/geminiService.ts:59 | the label text `DOCUMENT: <label> (Page <n>)`; its numeral is stated by `Request.Decimal` and `Request.DecimalRoundTrip` |
| `Request.GroupPartsLength` | services/geminiService.ts:55-63 | a group contributes two parts per page whose URL parses and none for any other page |
| `Request.GroupPartsNoInstruction` | services/geminiService.ts:55-63 | no group ever contains the instruction part |
| `Request.ParseableMonotone` | services/geminiService.ts:55-63 | counting parseable pages over a longer prefix never gives fewer |
| `Request.GroupPartsAt` | services/geminiService.ts:55-63 | the page at original index `i`, if it parses, is at position 2 × (earlier parseable pages): a label `DOCUMENT: <label> (Page i+1)` immediately followed by its inline payload |
| `Request.Concatenation` | services/geminiService.ts:31-67 | in the instruction followed by three groups, each group occupies exactly its slice and the instruction occurs only first |
| `Request.RequestLayout` | services/geminiService.ts:31-67 | the request starts with the single instruction part and holds no other; it has 1 + 2 × (parseable pages) parts; and the question paper, key and student groups occupy consecutive slices in that order |
| `Request.AddFiles` | services/geminiService.ts:55-63 | the loop appends exactly the group's parts to the existing list |
| `Request.ComposeRequest` | services/geminiService.ts:31-67 | the list built by pushing is the request specification: instruction, then question paper, key and student groups |
| `Request.GroupParts` | services/geminiService.ts:55-63 | the parts one `addFiles` call pushes; stated by `Request.GroupPartsLength`, `Request.GroupPartsAt` and `Request.GroupPartsNoInstruction`, and built by `Request.AddFiles` |
| `Request.RequestParts` | services/geminiService.ts:31-67 | the `parts` array sent to the model; stated by `Request.RequestLayout` and built by `Request.ComposeRequest` |
| `ScoreReconciler.Reconcile` | services/geminiService.ts:121-124 | the result's total equals the sum of marks, counting falsy marks as 0; its percentage is total/max × 100 when max > 0 and 0 otherwise; grades, maxScore, studentInfo and generalFeedback pass through unchanged |
| `ScoreReconciler.ReconcileIgnoresReportedTotals` | services/geminiService.ts:122-124 | the total and percentage the model reported have no effect on the result |
| `ScoreReconciler.ReconcileIdempotent` | services/geminiService.ts:121-126 | reconciling twice is the same as reconciling once |
| `ScoreReconciler.ReconcileFixpoint` | services/geminiService.ts:122-124 | a report is left unchanged by reconciliation iff its total and percentage already agree with its grades |
| `ScoreReconciler.SumMarksAppend` | services/geminiService.ts:122 | the marks fold over a concatenation is the sum of the folds |
| `ScoreReconciler.SumMarksOrderFree` | services/geminiService.ts:122 | the total does not depend on the order of the grades |
| `ScoreReconciler.FalsyMarkCountsAsZero` | services/geminiService.ts:122 | a grade whose mark is absent or NaN contributes exactly what a mark of 0 does |
| `ScoreReconciler.SumMarksBounded` | services/geminiService.ts:122 | when every mark is between 0 and its question's marks, the total is between 0 and the marks available |
| `ScoreReconciler.RatioAtMostOne` | services/geminiService.ts:124 | a non-negative total that does not exceed a positive maximum gives a ratio between 0 and 1 |
| `ScoreReconciler.PercentageBounded` | services/geminiService.ts:124 | under the same condition, and with maxScore equal to the marks available, the reconciled percentage is between 0 and 100 |
| `ScoreReconciler.ThreeOutOfTen` | services/geminiService.ts:121-124 | marks 3/5 and 0/5 with maxScore 10 reconcile to a total of 3 and 30 percent, whatever was reported |
| `ScoreReconciler.SumMarks` | services/geminiService.ts:122 | the marks fold with `\|\| 0`; stated by `ScoreReconciler.SumMarksAppend`, `ScoreReconciler.SumMarksOrderFree`, `ScoreReconciler.FalsyMarkCountsAsZero` and `ScoreReconciler.SumMarksBounded` |
| `GeminiService.Interpret` | services/geminiService.ts:118-129 | a failed call propagates as an upstream error carrying the call's own message, and every upstream error comes from one; a missing or empty text, and only that, gives the empty-response error; any success is reconciled; the key error never arises after the call; conversely a non-empty text that decodes gives the decoded report reconciled, and one the decoder rejects gives `Malformed` with the decoder's detail |
| `GeminiService.EvaluateAnswerSheet` | services/geminiService.ts:17-130 | an unusable key (unset, `"undefined"` or empty) fails with `API_KEY_MISSING` before any part is built or the model is called; otherwise the composed request is what the model receives, and the outcome is its interpreted reply |
| `GeminiService.KeyErrorIffUnusableKey` | services/geminiService.ts:22-26 | the evaluation fails with the key error exactly when the key is unusable |
| `GeminiService.SuccessIsDecodedAndReconciled` | services/geminiService.ts:117-126 | a successful evaluation had a usable key and a non-empty reply text that decoded, and it returns that report reconciled |
| `GeminiService.NonEmptyReplyOutcome` | services/geminiService.ts:117-126 | with a usable key and a non-empty reply text, a text that decodes gives `Success` of that report reconciled, and a text the decoder rejects gives `Malformed` with the decoder's detail |
| `GeminiService.CallFailureRethrown` | services/geminiService.ts:127-129 | with a usable key, a failed model call makes the evaluation fail with that same error and message |
| `GeminiService.KeyUsable` | services/geminiService.ts:22-26 | the key guard: unset, `"undefined"` and empty keys are unusable; stated by `GeminiService.KeyErrorIffUnusableKey` |
| `GeminiService.EvaluationOutcome` | services/geminiService.ts:17-130 | the value `evaluateAnswerSheet` resolves or rejects with; stated by `GeminiService.KeyErrorIffUnusableKey`, `GeminiService.SuccessIsDecodedAndReconciled`, `GeminiService.NonEmptyReplyOutcome`, `GeminiService.CallFailureRethrown`, and computed by `GeminiService.EvaluateAnswerSheet` |
| `Billing.NextDueDate` | App.tsx:72-74 | the due date is day 1 of the month right after the current one: a valid month whose month index is one more, so December rolls over to January of the next year |
| `Billing.SheetsTotalAppend` | App.tsx:70 | the sheets fold over a concatenation is the sum of the folds |
| `Billing.SheetsTotalOrderFree` | App.tsx:70 | the sheet total does not depend on the order of the history |
| `Billing.SheetsTotalPrepend` | App.tsx:70 | prepending a record adds its count, or 0 when the count is missing |
| `Billing.SheetsTotalZero` | App.tsx:70 | the total is 0 exactly when every record's count is missing or 0 |
| `Billing.BillingProjection` | App.tsx:69-82 | sheets evaluated is the folded total, the pending amount is 50 cents per sheet, isPaid is false, and the due date is the first of next month |
| `Billing.EmptyHistoryBillsNothing` | App.tsx:70-80 | an empty history gives 0 sheets and a pending amount of 0 |
| `Billing.TenSheetsBillFiveDollars` | App.tsx:70-71 | one record of ten sheets bills 500 cents |
| `Billing.SheetsTotal` | App.tsx:70 | the sheets fold with `\|\| 0`; stated by `Billing.SheetsTotalAppend`, `Billing.SheetsTotalOrderFree`, `Billing.SheetsTotalPrepend` and `Billing.SheetsTotalZero` |
| `Billing.GetBillingInfo` | App.tsx:69-82 | `getBillingInfo`; stated by `Billing.BillingProjection`, `Billing.EmptyHistoryBillsNothing` and `Billing.TenSheetsBillFiveDollars` |
| `Dashboard.RecordsOneRowPerItem` | components/Dashboard.tsx:80-133 | an empty history shows the placeholder, and any other history shows one row per record in history order; the row count equals the evaluation count, and a row is styled as passing iff its percentage is at least 40 |
| `Dashboard.EvaluationsCountSpec` | components/Dashboard.tsx:54 | the count is the history's length, and 0 exactly when the history is absent or empty |
| `Dashboard.SumPercentagesBounded` | components/Dashboard.tsx:64 | when every percentage lies in [lo, hi], the sum over n records lies in [lo × n, hi × n] |
| `Dashboard.MeanBetween` | components/Dashboard.tsx:64 | dividing the bounds of a sum by a positive count gives bounds on the mean |
| `Dashboard.AverageBounded` | components/Dashboard.tsx:63-65 | for a non-empty history whose percentages lie in [lo, hi], the average lies in [lo, hi] |
| `Dashboard.SumPercentagesAppend` | components/Dashboard.tsx:63-65 | the percentage sum splits over concatenation of histories |
| `Dashboard.AverageIsMean` | components/Dashboard.tsx:63-65 | a non-empty history's average times its length is the sum of all its percentages |
| `Dashboard.AverageOrderFree` | components/Dashboard.tsx:63-65 | the average does not depend on the order of the history |
| `Dashboard.EmptyAverageIsZero` | components/Dashboard.tsx:63-65 | an empty history averages exactly 0, with no division |
| `Dashboard.BannerIffSheetsBilled` | components/Dashboard.tsx:17 | with the application's billing, the banner shows exactly when some record counts at least one sheet |
| `Dashboard.EvaluationsCount` | components/Dashboard.tsx:54 | `history?.length \|\| 0`; stated by `Dashboard.EvaluationsCountSpec` |
| `Dashboard.AveragePerformance` | components/Dashboard.tsx:63-65 | the mean percentage, 0 without history; stated by `Dashboard.AverageIsMean`, `Dashboard.SumPercentagesAppend`, `Dashboard.AverageOrderFree`, `Dashboard.AverageBounded` and `Dashboard.EmptyAverageIsZero` |
| `Dashboard.ShowBillingBanner` | components/Dashboard.tsx:17 | pending amount above 0 and not paid; stated by `Dashboard.BannerIffSheetsBilled` |
| `Dashboard.IsPassing` | components/Dashboard.tsx:113 | a percentage of at least 40; stated by `Dashboard.RecordsOneRowPerItem` |
| `Dashboard.Records` | components/Dashboard.tsx:80-133 | the placeholder or one row per record; stated by `Dashboard.RecordsOneRowPerItem` |
| `AppState.FilterBySize` | App.tsx:141-148 | the loop keeps exactly the admitted files in order, and the error it leaves is the message for the last oversized file (none if no file is oversized) |
| `AppState.AdmittedMembers` | App.tsx:142-148 | a file is admitted iff it is in the selection and its size is at most 3 × 1024 × 1024 bytes |
| `AppState.AdmittedAppend` | App.tsx:142-148 | admission keeps relative order: filtering a concatenation concatenates the filtered parts |
| `AppState.LastOversizedSpec` | App.tsx:142-148 | there is an error iff some file is oversized, and it names an oversized file after which every file fits, so the last oversized file wins |
| `AppState.ThreeMegabyteBoundary` | App.tsx:142-148 | a file of exactly 3 MB is admitted with no error; one byte more is rejected with the message naming it |
| `AppState.Admitted` | App.tsx:142-148 | the files the size filter keeps; stated by `AppState.AdmittedMembers` and `AppState.AdmittedAppend`, and computed by `AppState.FilterBySize` |
| `AppState.SelectionError` | App.tsx:141-148 | the error the selection leaves: cleared first, then the message of each oversized file in turn; stated by `AppState.LastOversizedSpec` and `AppState.ThreeMegabyteBoundary` |
| `AppState.RemoveByIdMembers` | App.tsx:325 | after deletion, a record remains iff it was there and has a different id |
| `AppState.RemoveAbsentId` | App.tsx:325 | deleting an id that no record has is a no-op |
| `AppState.RemoveByIdAppend` | App.tsx:325 | deletion keeps the order of the remaining records: it distributes over concatenation |
| `AppState.RemoveById` | App.tsx:325 | `history.filter(item => item.id !== id)`; stated by `AppState.RemoveByIdMembers`, `AppState.RemoveAbsentId` and `AppState.RemoveByIdAppend` |
| `AppState.ErrorTextSpec` | App.tsx:190-196 | an error whose message is `API_KEY_MISSING`, the key error among them, shows the configuration message; an error whose message is not `API_KEY_MISSING` shows its own message, or the fallback when that message is empty |
| `AppState.ErrorText` | App.tsx:190-196 | the message shown for a failed evaluation; stated by `AppState.ErrorTextSpec` |
| `AppState.App.constructor` | App.tsx:18-27 | the initial state: no user, uploader view, empty file lists, no report, no error, empty history |
| `AppState.App.HandleLogin` | App.tsx:84-94 | the given user becomes the current user and nothing else changes |
| `AppState.App.HandleLogout` | App.tsx:96-101 | the user is cleared, history is emptied and the view returns to the uploader; the file lists, report and error are untouched |
| `AppState.App.HandleFileSelection` | App.tsx:140-160 | the error becomes the last oversized file's message, or none; the admitted files are appended in order after the selected role's files only; the other two lists and the rest of the state are unchanged |
| `AppState.App.RunEvaluation` | App.tsx:162-200 | without a user nothing happens; with an empty question-paper or student list the input error is set and the grading service is not called; on success exactly one record (given id, user id, time, the report, the student file count) is prepended to the unchanged history, the report is shown and the error is cleared; on failure the history, report and view are unchanged and the error message is set |
| `AppState.App.ApplyOutcome` | App.tsx:179-196 | a report becomes one new record (given id, the user's id, the time, the report, the student file count) in front of the unchanged history and is shown in the report view; an error leaves history, report and view alone and sets its message |
| `AppState.App.DeleteReport` | App.tsx:325 | the history becomes the old history without the records that have that id; nothing else changes |
| `AppState.App.ViewReport` | App.tsx:324 | the chosen record's report is shown in the report view |
| `AppState.App.SelectTab` | App.tsx:228-239 | the audit tab shows the uploader and the hub tab the dashboard; nothing else changes |
| `AppState.App.StartNew` | App.tsx:202-209 | all three file lists are emptied, the report and error are cleared, and the view is the uploader; the history and the user are untouched |

`App.Valid()` is preserved by every handler. It says four things about the
state between handlers:

- nothing is loading;
- the report view always has a report;
- there is no history without a user;
- every record belongs to the signed-in user. This last clause holds in the
  model, where loading history from storage is left out.

## Left out

- The model call (`generateContent`) and `JSON.parse` are foreign code; they are the parameters `generate` and `decode`. `decode` also stands for the trimming before parsing and for the report's shape: a parsed value without a `grades` array, which would make the score recomputation throw a `TypeError`, is a `decode` failure in the model, and the exact `TypeError` message is not modelled.
- The fixed instruction text, the model name and the generation settings (temperature, seed, thinking budget, response schema) are data with no behaviour; the instruction is the single `Instruction` part.
- Reading files as data URLs (the browser file reader) is I/O; each selected file carries the data URL it would produce.
- Browser storage (session restore, per-user history load and save), the external key selector and the `hasApiKey` flag are I/O; they are not modelled.
- `btoa`, `crypto.randomUUID` and `Date.now` are I/O; user ids, record ids, timestamps and the current date are handler inputs.
- `simulateProgress` is a cosmetic timer that runs concurrently with other work; uploads stay at progress 0 with status uploading.
- All rendering, the `Auth` component, the `FileUpload` and report views, and the usage-fee line are presentation; they are not modelled.
- Number and date formatting (`toFixed`, `toLocaleDateString`) are presentation; the model keeps cents, `real` percentages and a calendar date.
- ScoreReconciler.Reconcile: a decoded value without `maxScore` does not throw in the source; `data.maxScore > 0` is false, so it is returned with percentage 0 and no `maxScore` field. The typed `decode` must either reject such a value or supply a `maxScore`, so that reply is not represented as it is.
- AppState.App.HandleFileSelection: a file read that fails rejects the `Promise.all`, so none of the selection's files is appended and the handler stops with an unhandled rejection. The model treats every read as successful and always appends the admitted files.
- ScoreReconciler.Reconcile: uses exact real arithmetic, not IEEE doubles. Rounding, and a string mark concatenating instead of adding, are not captured.
- AppState.App.HandleFileSelection: takes effect as one step. In the source the error is set before, and the files appended after, an asynchronous read, and other handlers may run in between.
- AppState.App.RunEvaluation: takes effect as one step. It shows the busy flag cleared afterwards, not the flag held true while the model call is outstanding.
- AppState.App.HandleLogin: requires that nobody is signed in, because the sign-in form is rendered only then (App.tsx:211-213).
