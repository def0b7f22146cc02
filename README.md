# presupuestos — a Dafny model of the budget-extraction core

The application photographs a handwritten budget sheet, sends the photo to a
vision-language model, and turns the JSON the model returns into a budget
document (`BudgetData`) that is shown, kept in a short history and exported.
This project models the three pieces of logic in that flow:

- **Extraction post-processing** (`GeminiService`, `JsText`): sending the
  payload of the captured data URL, the stable "lines without numbers first"
  sort, the line totals, the subtotal, IVA (21 %) and total, and the
  `SANTI-<year>-<NNN>` budget number. The model call is a function parameter
  `ask` from the request's image part to the reply; the reply is one of: the
  request rejects, the text is not JSON, the text is empty, or the parsed object.
- **The App state machine** (`AppState.App`): the six `useState` fields as
  class fields and each handler as a method that changes exactly the fields
  whose setters it calls, with the history capped at 20 entries, newest first.
  `handleProcess` is split at its `await` into `BeginProcess` and
  `FinishProcess`. `HandleProcess` composes the two for the common case in
  which nothing else happens while the extraction is pending. That is not
  guaranteed. A file read started earlier can still call `handleCapture`
  (CameraCapture.tsx:71-74). If a history entry was selected meanwhile, the
  header's "Nuevo" button (App.tsx:106) stays live during processing. For
  those runs the two halves and the other handlers compose step by step, as
  `ResetWhileProcessing` does. `FinishProcess` also models the exceptions the
  `try` block can raise after the result is set. `crypto.randomUUID()` can
  throw outside a secure context, and `localStorage.setItem` can throw when
  storage is full or disabled. The state the page is left in is then partial:
  the result is shown beside the error message.
- **The capture dimension rule** (`Camera`): the prop defaults, the choice of
  the first selected file, and whether `downscaleIfNeeded` resizes and to what size.

Money and the scale factor are `real`. `Math.round` is `floor(x + 0.5)`.
`Math.random()`, `new Date()`, `crypto.randomUUID()` and
`new Date().toISOString()` are parameters.

`[...rawData.lines].sort(cmp)` is modelled by its result, `SortLines`. The
comparator has two classes, and `Array.prototype.sort` is stable (ECMA-262,
2023 edition, section 23.1.3.30). So the result is determined: the lines
without numbers, then the lines with numbers, each group in input order.
`SortLinesUnique` proves that every arrangement that is sorted by the
comparator and keeps each group's order is this one. The model works on
values, so the input list is never changed. That is what the spread copy
guarantees in the source.

The model follows the code, which does less than a description of the
system might suggest. It does not uppercase the client or the descriptions.
It does not drop lines with empty descriptions. It does not merge several
photos, and it does not tell error kinds apart. Every line gets
`totalPrice = (units || 0) * (unitPrice || 0)` (geminiService.ts:80-82), so
a line whose units or price is absent or 0 gets 0. The total is never left
absent. The App shows one generic error message for every failure. The
`jpegQuality` default is 0.95 (CameraCapture.tsx:21), while the doc comment
on the prop (line 9) says 0.92.

## Model

| member | source | states |
|---|---|---|
| GeminiService.Payload | presupuestos/services/geminiService.ts:55 | `split(',')[1]` is absent iff the string has no comma, and otherwise holds no comma |
| GeminiService.RequestPart | presupuestos/services/geminiService.ts:52-57 | the image part is JPEG, its data is the payload of the captured string, and it carries data exactly when that string contains a comma |
| GeminiService.PayloadOfDataUrl | presupuestos/services/geminiService.ts:55 | for an RFC 2397 data URL whose header and data hold no comma, `split(',')[1]` is exactly the data |
| GeminiService.PayloadIsSecondSegment | presupuestos/services/geminiService.ts:55 | no payload iff no comma; otherwise the payload is comma-free and sits right after the first comma, running to the next comma or the end |
| JsText.Split | presupuestos/services/geminiService.ts:55 | `split` yields at least one segment, and no segment holds the separator |
| JsText.JoinSplit | presupuestos/services/geminiService.ts:55 | joining the segments of `split` restores the string |
| JsText.SplitJoin | presupuestos/services/geminiService.ts:55 | splitting a join of comma-free segments restores the segments |
| JsText.SplitSingleSegment | presupuestos/services/geminiService.ts:55 | `split` yields one segment iff the separator does not occur |
| GeminiService.HasNumbers | presupuestos/services/geminiService.ts:70-71 | a line has numbers iff its units or its unit price is present and positive |
| GeminiService.Compare | presupuestos/services/geminiService.ts:69-75 | the comparator is negative iff only `b` has numbers, positive iff only `a` has, zero iff both are in the same group |
| GeminiService.CompareIsConsistent | presupuestos/services/geminiService.ts:69-75 | the comparator is antisymmetric in sign and transitive, as a consistent comparator must be |
| GeminiService.Group | presupuestos/services/geminiService.ts:70-71 | a group holds only lines of its class ("has numbers" = positive units or positive price), drawn from the input |
| GeminiService.SortLines | presupuestos/services/geminiService.ts:69 | the sorted copy is a permutation of the model's lines (same multiset, same length) |
| GeminiService.SortLinesSorted | presupuestos/services/geminiService.ts:69-75 | after sorting, no line with numbers comes before a line without |
| GeminiService.SortLinesStable | presupuestos/services/geminiService.ts:69-75 | within each group the lines keep the order the model returned them in |
| GeminiService.SortLinesUnique | presupuestos/services/geminiService.ts:69-75 | any sorted, group-stable arrangement of the lines is the modelled sort result |
| GeminiService.SortedIsGrouped | presupuestos/services/geminiService.ts:69-75 | a list sorted by the comparator is its unnumbered lines followed by its numbered lines |
| GeminiService.OrZero | presupuestos/services/geminiService.ts:80-81 | `x || 0` is 0 for an absent value and the value otherwise |
| GeminiService.WithTotal | presupuestos/services/geminiService.ts:79-84 | a processed line keeps description, units and price; its total is units times price when both are present, and 0 when either is absent or 0 |
| GeminiService.WithTotals | presupuestos/services/geminiService.ts:79-85 | the `map` keeps the number of lines and gives line `i` the total of input line `i` |
| GeminiService.ProcessLines | presupuestos/services/geminiService.ts:78-85 | the map pass gives each line its total, keeps the count, and the accumulated subtotal equals the sum of the processed totals |
| GeminiService.TotalPriceSumConcat | presupuestos/services/geminiService.ts:78-85 | the subtotal of two lists together is the sum of their subtotals |
| GeminiService.SubtotalIgnoresOrder | presupuestos/services/geminiService.ts:69-85 | sorting does not change the subtotal: it is the sum of units times price over the lines as returned |
| GeminiService.TotalIsSubtotalPlusIva | presupuestos/services/geminiService.ts:87-88 | with `iva = 0.21 * subtotal` and `total = subtotal + iva`, total is 1.21 times subtotal |
| GeminiService.SequenceNumber | presupuestos/services/geminiService.ts:90 | `floor(random * 1000)` lies in 0..999 for a draw in [0, 1) |
| GeminiService.SequenceSuffix | presupuestos/services/geminiService.ts:90 | the padded number is exactly three digits that read back as the drawn number |
| GeminiService.PaddedSequenceNumber | presupuestos/services/geminiService.ts:90 | `padStart(3, '0')` of a number below 1000 gives three digits with its value |
| GeminiService.BudgetNumber | presupuestos/services/geminiService.ts:90 | the budget number is `SANTI-`, the decimal year (digits reading back as the year), `-`, and three digits reading as the drawn number |
| GeminiService.ExtractBudgetData | presupuestos/services/geminiService.ts:29-101 | succeeds iff the reply parsed and has lines; each failure kind maps to its error; on success client, date and notes are copied, the lines are the sorted lines with totals, the totals are consistent, and the budget number is built from year and draw |
| GeminiService.TwoLineExample | presupuestos/services/geminiService.ts:69-88 | a priced line (10 at 5) and an unpriced line: the unpriced comes first with total 0, subtotal 50, IVA 10.5, total 60.5 |
| JsText.NatToString | presupuestos/services/geminiService.ts:90 | `toString` of a non-negative integer is a non-empty digit string without a leading zero |
| JsText.NatToStringValue | presupuestos/services/geminiService.ts:90 | reading back the digits of `n.toString()` gives `n` |
| JsText.NatToStringBelow1000 | presupuestos/services/geminiService.ts:90 | a number below 1000 has at most three digits |
| JsText.PadStart | presupuestos/services/geminiService.ts:90 | `padStart` keeps the string as a suffix and fills the front up to the width |
| JsText.LeadingZerosValue | presupuestos/services/geminiService.ts:90 | leading zeros do not change the value of a digit string |
| AppState.Take | presupuestos/App.tsx:52 | `slice(0, n)` is the prefix of length `min(n, length)` |
| AppState.PushHistory | presupuestos/App.tsx:52 | the new history has between 1 and 20 entries, the new item first, then the first 19 old entries in order |
| AppState.PushHistoryEviction | presupuestos/App.tsx:52 | below the cap nothing is dropped; at the cap exactly the oldest entry is dropped |
| AppState.RemoveId | presupuestos/App.tsx:74 | delete keeps exactly the entries whose id differs, and no kept entry has the id |
| AppState.RemoveIdConcat | presupuestos/App.tsx:74 | deleting from a concatenation deletes from each part, so the kept entries stay in order |
| AppState.RemoveIdAbsent | presupuestos/App.tsx:74 | deleting an id that does not occur leaves the history as it was |
| AppState.RemoveIdIdempotent | presupuestos/App.tsx:74 | deleting twice equals deleting once |
| AppState.FindById | presupuestos/App.tsx:78 | `find` gives nothing iff no entry has the id, and otherwise an entry with that id |
| AppState.FindByIdFirst | presupuestos/App.tsx:78 | the entry found is the earliest with that id |
| AppState.DeleteClearsResult | presupuestos/App.tsx:78-80 | the result is cleared iff there is a result and the first entry with the id has the result's budget number |
| AppState.Truthy | presupuestos/App.tsx:35 | `!capturedImage` holds for a missing image and for the empty string |
| AppState.NewItem | presupuestos/App.tsx:44-50 | the history item copies the client and total of the data and stores the data itself |
| AppState.App.constructor | presupuestos/App.tsx:10-15 | the initial state: no image, not processing, no error, no result, empty history, no auto-download |
| AppState.App.HandleCapture | presupuestos/App.tsx:29-32 | the photo is kept and the error cleared; nothing else changes |
| AppState.App.Retake | presupuestos/App.tsx:138 | the photo is dropped; nothing else changes |
| AppState.App.BeginProcess | presupuestos/App.tsx:34-38 | without a truthy captured image nothing changes; otherwise processing is on and the error cleared |
| AppState.App.FinishProcess | presupuestos/App.tsx:39-63 | on a failed extraction only the message is set; on success the result is shown, and then: if no id can be drawn, the message is set and nothing else changes; otherwise the item is pushed on the history, and if saving throws the message is set, else the photo and auto-download request are dropped; processing ends in every case |
| AppState.App.HandleProcess | presupuestos/App.tsx:34-64 | the whole handler with nothing in between: no change without an image; otherwise the failure, partial-success or success state above, with error cleared on full success and the history capped at 20 |
| AppState.App.HandleReset | presupuestos/App.tsx:66-71 | photo, result, error and auto-download are cleared; the history is untouched |
| AppState.App.HandleDeleteFromHistory | presupuestos/App.tsx:73-81 | the history loses exactly the entries with the id; the result is cleared exactly when the save returns and DeleteClearsResult says so |
| AppState.App.HandleSelectFromHistory | presupuestos/App.tsx:83-88 | the result becomes the item's data, the photo is dropped, and auto-download is the argument, false by default |
| AppState.App.AutoDownloadComplete | presupuestos/App.tsx:181 | the auto-download request is cleared; nothing else changes |
| AppState.ExampleSession | presupuestos/App.tsx:29-81 | two captures processed with a reset between them leave the newer first in the history; deleting the newer while it is shown clears the result and leaves only the older entry |
| AppState.ResetWhileProcessing | presupuestos/App.tsx:34-71 | a reset between the two halves of a failing `handleProcess` ends with the error on an empty screen: no photo, no result |
| Camera.Settings | presupuestos/components/CameraCapture.tsx:18-22 | omitted props default to a 2200 px longest side and JPEG quality 0.95; given props are used as they are |
| Camera.JsRound | presupuestos/components/CameraCapture.tsx:47-48 | `Math.round` gives the integer within half of its argument, halves rounded up |
| Camera.Side | presupuestos/components/CameraCapture.tsx:39-40 | the natural size is used unless it is 0; the side is 0 only when both sizes are |
| Camera.ScaledBounds | presupuestos/components/CameraCapture.tsx:46-48 | scaling by `maxSidePx / maxSide` shrinks every side and keeps it within the bound, and the longest side scales exactly to the bound |
| Camera.ScaledSide | presupuestos/components/CameraCapture.tsx:46-48 | a scaled and rounded side is non-negative, does not grow, stays within the bound, and is exactly the bound for the longest side |
| Camera.DownscalePlan | presupuestos/components/CameraCapture.tsx:39-48 | resize iff both sides are non-zero and the longer side exceeds the bound, and then to the rescaled size |
| Camera.Rescaled | presupuestos/components/CameraCapture.tsx:43-48 | the longer new side equals the bound, neither side grows, and each is within half a pixel of its exact scaled value |
| Camera.Downscale | presupuestos/components/CameraCapture.tsx:35-63 | the original data URL comes back on a load error, without a 2D context, or when no resize is needed; otherwise the image re-encoded at the new size and the quality |
| Camera.HandleChange | presupuestos/components/CameraCapture.tsx:65-81 | with no file `onCapture` is not called; otherwise only the first file is read and, if reading succeeds, its downscaled data URL is passed on |
| Camera.DefaultSizeExamples | presupuestos/components/CameraCapture.tsx:20 | with the defaults, 4400 by 3300 becomes 2200 by 1650 and 2000 by 1500 is kept |

## Left out

- The model client, the prompt text and the response schema (geminiService.ts:5-47, 60-64). The prompt's rules describe what the model should do, not what the code does. The reply is an abstract input.
- `JSON.parse` of the response text. The reply is given already classified: rejected, not JSON, empty, or parsed.
- A parsed reply without `client` or `date` cannot be expressed. The schema marks both as required, and the model types them as strings.
- IEEE-754 arithmetic. Money and the scale are exact reals, so rounding drift in `subtotal * 0.21`, in the running sum and in `w * scale` is not modelled. NaN values are not modelled either, although `x || 0` maps them to 0.
- The history's `localStorage` load and what the saves write (App.tsx:17-27, 54, 76), and `console.error`. The history lives only in memory. Whether a save throws is a parameter (`saved`). Because the load is left out, the constructor starts with an empty history.
- `window.scrollTo` in `handleSelectFromHistory` and all rendering: the result view, the history list, the document export service and the build configuration.
- AppState.App.HandleProcess: requires `!processing`. The source has no such check, but its button is rendered only when nothing is processing (App.tsx:131, 144). It also assumes that no other handler runs while the extraction is pending. When one does, `BeginProcess`, that handler and `FinishProcess` are the steps to compose. `HandleProcess`'s own contract does not describe those runs.
- In CameraCapture: the file input element, `FileReader`, `Image` decoding, canvas drawing and clearing the input after a capture (CameraCapture.tsx:79). These are the `read`, `load` and `encode` parameters or are omitted.
- Camera.Settings: `maxSidePx` is a natural number, so non-integer or negative values of the prop are not modelled.
- GeminiService.BudgetNumber: the year is a natural number, written as `toString` writes it. Negative years are not modelled.
