# Invoice processor: record store, mock API, list view and upload checks

This project models the logic of a small invoice-management web application.
Users pick invoice images or PDFs. Each file is checked and its extracted fields are validated,
then the result is posted to a mock API that keeps an in-memory list. A list view searches
that list and toggles an invoice between `approved` and `pending`. A client-side store
offers the same record operations over the browser's storage.

The model has seven modules:

- `Wrappers`: `Option` and `Result`.
- `Seqs`: JavaScript's `filter`, `find` and `findIndex` on sequences, with lemmas about
  order (subsequence, distribution over concatenation), idempotence and distinct keys.
- `Strings`: ASCII `toLowerCase`, `includes`, `join`, and `split` on one character.
- `Storage` (src/lib/storage.ts): the `Invoice` record, the seed records and the
  required-field / amount / duplicate checks. These checks are shared with the mock route,
  which runs the same sequence. The store itself is the class `InvoiceStore`, which holds
  the ordered list in a `seq` field that its methods reassign.
- `Route` (src/app/api/invoices/route.ts): the class `InvoicesRoute`, whose `mockInvoices`
  list `POST` appends to and `GET` returns, with status codes and messages.
- `InvoiceList` (src/components/InvoiceList.tsx): the search filter, the toggle rule and
  the by-id update of the local list, all as functions.
- `Upload` (src/components/UploadInvoice.tsx): the file acceptance loop and the progress
  table set-up as methods with loops, the form state as the class `UploadForm`, the
  required-field check on extracted data, and the removal of the data URL header
  (RFC 2397) before the base64 payload.

Modelling choices:

- A record's `type` key is the field `invoiceType`, because `type` is reserved in Dafny.
  The error messages still say `type`.
- The five required keys are the enumeration `Field`, and `Key` gives each key's name as
  the message spells it. `requiredFields.filter` runs over that enumeration in the
  source's order.
- A caller-supplied `amount` is `Absent`, a `Number` or `Text`. Validation looks only at its
  JavaScript type and truthiness: `0` and `""` count as missing.
  A string key the caller left out is the empty string.
- Record ids come from the clock in the source. Here they are the parameter `newId`.
  The source never checks them for freshness, so no precondition does either.
  Id uniqueness is stated as preserved when `newId` is fresh.
- Where the specification and the code differ, the model follows the code:
  - `update` merges any key, including `invoiceNumber` and `id`, and re-validates
    nothing, so it can break number uniqueness. The model states preservation only for
    patches that leave those keys alone.
  - The data URL strip keeps `split(',')[1]`: the piece between the first and the second
    comma, not everything after the first comma.
  - An `amount` of `0` is reported as a missing field, not as a valid number.

## Model

| member | source | states |
|---|---|---|
| `Storage.MissingFields` | src/lib/storage.ts:92-96 | each required key is listed iff its value is falsy; the list is empty iff all five are truthy |
| `Storage.Keys` | src/lib/storage.ts:92-96 | the names listed in the message are the missing keys' names, one per key, in the same order |
| `Storage.MissingFieldsInOrder` | src/lib/storage.ts:92-93 | the missing keys appear in `requiredFields` order, each once |
| `Storage.Message` | src/lib/storage.ts:95-128 | the exact error texts: "Missing required fields: " followed by the keys joined by ", ", "Amount must be a number", "Invoice number already exists", "Invoice not found" |
| `Seqs.Filter` | src/lib/storage.ts:142 | `filter` keeps an element iff it passes, and never adds one |
| `Seqs.FilterIsSubsequence` | src/components/InvoiceList.tsx:72 | the filtered sequence is a subsequence of the input |
| `Seqs.FindIndex` | src/lib/storage.ts:125 | `findIndex` answers the first index whose element passes, and none iff no element passes |
| `Seqs.Find` | src/lib/storage.ts:85 | `find` answers the element at the index `findIndex` answers, and none iff no element passes |
| `Storage.NumberTaken` | src/lib/storage.ts:104-107 | true iff some stored record has that invoice number |
| `Storage.CheckCandidate` | src/lib/storage.ts:91-109 | passes iff no field is missing, amount is a number and the number is new; the first failing check in order (missing, type, duplicate) is the one reported |
| `Storage.NewInvoice` | src/lib/storage.ts:112-116 | the new record takes the candidate's fields, id `newId` and status `pending`, whatever id or status the caller sent |
| `Storage.Merge` | src/lib/storage.ts:131 | for each of the seven keys, a value the patch holds wins and an absent one keeps the record's value; an empty patch changes nothing |
| `Storage.StatusPatch` | src/lib/storage.ts:136-138 | the `{ status }` patch, merged into any record, sets its status and changes no other field |
| `Storage.FindById` | src/lib/storage.ts:83-86 | absent iff no record has the id; otherwise the first record with it |
| `Storage.IndexById` | src/lib/storage.ts:125-129 | absent iff no record has the id; otherwise the first index holding it |
| `Storage.RemoveById` | src/lib/storage.ts:140-144 | the result holds exactly the records whose id differs |
| `Storage.RemoveByIdKeepsOrder` | src/lib/storage.ts:142 | deletion keeps the survivors in their original order |
| `Storage.RemoveByIdIdempotent` | src/lib/storage.ts:140-144 | deleting the same id twice equals deleting it once |
| `Storage.RemoveAbsentId` | src/lib/storage.ts:140-144 | deleting an absent id leaves the list unchanged, with no error |
| `Storage.UniqueNumbersIffLookupFindsEach` | src/lib/storage.ts:104-109 | invoice numbers are unique, the invariant the duplicate check keeps, iff looking up any record's number finds that very record |
| `Storage.RemoveByIdKeepsUnique` | src/lib/storage.ts:140-144 | deletion preserves unique invoice numbers and unique ids |
| `Storage.IndexByIdAfterStatusChange` | src/lib/storage.ts:125 | a status change leaves the index found by id unchanged |
| `Storage.StatusRoundTrip` | src/lib/storage.ts:136-138 | `updateStatus` to `approved` then to `pending` restores a list whose target record was pending |
| `Storage.Seed` | src/lib/storage.ts:17-45 | the three seed records, with unique numbers and ids |
| `Storage.InvoiceStore.constructor` | src/lib/storage.ts:57-59 | an empty store starts from the seed records |
| `Storage.InvoiceStore.GetAll` | src/lib/storage.ts:79-81 | returns the whole list in insertion order |
| `Storage.InvoiceStore.GetById` | src/lib/storage.ts:83-86 | absent iff no record has the id, else the record at the first index with it |
| `Storage.InvoiceStore.Create` | src/lib/storage.ts:88-121 | a failing check leaves the list unchanged and returns that error; success appends exactly the new pending record with id `newId`; number uniqueness is preserved, and id uniqueness too when `newId` is fresh |
| `Storage.InvoiceStore.Update` | src/lib/storage.ts:123-134 | an absent id fails with not-found and changes nothing; otherwise only the first record with the id is replaced, by its merge with the patch, and returned; length and all other entries are unchanged |
| `Storage.InvoiceStore.UpdateStatus` | src/lib/storage.ts:136-138 | as `Update`, with only the target's status changed; number and id uniqueness are preserved |
| `Storage.InvoiceStore.Delete` | src/lib/storage.ts:140-144 | the list becomes the records whose id differs, in order; unique numbers stay unique |
| `Storage.InvoiceStore.Clear` | src/lib/storage.ts:146-152 | the list is the three seed records again |
| `Storage.CreateAsWritten` | src/lib/storage.ts:47-121 | `create` over the browser storage as written: it writes to storage, and leaves the defaults alone once the key is set |
| `Storage.ClearAsWritten` | src/lib/storage.ts:146-152 | `clear` as written stores whatever the defaults array holds now |
| `Storage.ClearAfterFirstCreateKeepsRecord` | src/lib/storage.ts:47-152 | from empty storage, a successful first `create` then `clear` leaves the created record stored, not the seed |
| `Route.Rejection` | src/app/api/invoices/route.ts:53-76 | every validation failure answers 400 with that failure's message |
| `Route.InvoicesRoute.constructor` | src/app/api/invoices/route.ts:4-32 | `mockInvoices` starts as the three seed records |
| `Route.InvoicesRoute.Get` | src/app/api/invoices/route.ts:34-44 | answers 200 with the whole list in insertion order |
| `Route.InvoicesRoute.Post` | src/app/api/invoices/route.ts:46-97 | an unreadable body answers 500; the first failing check answers 400 and the list is unchanged; otherwise exactly one record, with id `newId` and status `pending`, is appended and returned with 201; number uniqueness is preserved |
| `Strings.ToLower` | src/components/InvoiceList.tsx:73-74 | `toLowerCase` keeps the length and maps each ASCII capital to its small letter, leaving every other character alone; the result holds no capital |
| `InvoiceList.Matches` | src/components/InvoiceList.tsx:73-74 | a record matches iff the lower-cased term occurs at some position of its lower-cased number or of its lower-cased vendor |
| `Strings.Contains` | src/components/InvoiceList.tsx:73-74 | `includes` holds iff the needle occurs at some position of the text |
| `InvoiceList.FilteredInvoices` | src/components/InvoiceList.tsx:72-75 | an invoice is kept iff the lower-cased term occurs in its lower-cased number or vendor |
| `InvoiceList.FilteredKeepsOrder` | src/components/InvoiceList.tsx:72-75 | the filtered list is a subsequence of the invoices, in their original order |
| `InvoiceList.EmptyTermKeepsAll` | src/components/InvoiceList.tsx:72-75 | an empty search term keeps every invoice |
| `InvoiceList.LacksLetterNoMatch` | src/components/InvoiceList.tsx:72-75 | a record matches no term whose lower-cased form holds a letter that its number and vendor lack in both cases |
| `InvoiceList.PremiumSearchOnSeed` | src/components/InvoiceList.tsx:72-75 | searching the seed records for "Premium" yields exactly the two records of vendor "Premium Supplier A" |
| `InvoiceList.Toggle` | src/components/InvoiceList.tsx:44 | the result is `approved` or `pending`, and `pending` exactly when the status was `approved` |
| `InvoiceList.ToggleTwice` | src/components/InvoiceList.tsx:44 | toggling twice is the identity on `approved` and `pending` |
| `InvoiceList.SetStatusById` | src/components/InvoiceList.tsx:59-65 | same length; entries with the id get only their status set, and all other entries are unchanged |
| `InvoiceList.StatusChange` | src/components/InvoiceList.tsx:39-70 | an unknown id or a failed request leaves the list alone; otherwise every entry with the id gets the toggle of the status first seen for it, and the others are unchanged |
| `InvoiceList.StatusChangeTwice` | src/components/InvoiceList.tsx:39-65 | with unique ids, two successful clicks restore an approved or pending record |
| `Upload.CheckFile` | src/components/UploadInvoice.tsx:51-63 | accepted iff the type starts with `image/` or is `application/pdf` and the size is at most 10·1024·1024; a wrong type gets only the type error |
| `Upload.SupportedType` | src/components/UploadInvoice.tsx:52 | a type is supported iff its first six characters are `image/` or it is exactly `application/pdf` |
| `Upload.Rejections` | src/components/UploadInvoice.tsx:48-64 | the error lines are at most one per file, and each is the rejection message of some selected file |
| `Upload.RejectionsCount` | src/components/UploadInvoice.tsx:48-64 | one error line per rejected file; there are no lines iff every file is accepted |
| `Upload.PartitionFiles` | src/components/UploadInvoice.tsx:48-64 | `validFiles` are the accepted files in selection order; `errors` are the rejection lines in order; the two counts add up to the selection |
| `Upload.EveryFileLandsOnce` | src/components/UploadInvoice.tsx:48-64 | each file is accepted or gives one error line, and the accepted files keep their order |
| `Strings.Join` | src/components/UploadInvoice.tsx:67 | `join` of no parts is the empty text and of one part is that part |
| `Strings.JoinStartsWith` | src/lib/storage.ts:95 | the joined text starts with the first part, followed by the separator and the join of the rest when there are more parts |
| `Upload.ErrorText` | src/components/UploadInvoice.tsx:66-70 | there is no error text iff there are no error lines |
| `Upload.ErrorClearedIffAllAccepted` | src/components/UploadInvoice.tsx:66-70 | the error is cleared iff no selected file was rejected |
| `Upload.InitialProgress` | src/components/UploadInvoice.tsx:74-82 | the table's keys are exactly the accepted files' names, each mapped to pending at 0% |
| `Upload.UploadForm.constructor` | src/components/UploadInvoice.tsx:37-40 | no files, no error and an empty progress table |
| `Upload.UploadForm.HandleFileChange` | src/components/UploadInvoice.tsx:42-84 | no file list changes nothing; otherwise files, error text and progress table are set from the selection as above |
| `Upload.ExtractedFieldsError` | src/components/UploadInvoice.tsx:148-153 | an error iff some required key is falsy, naming exactly the missing keys in order |
| `Strings.Split` | src/components/UploadInvoice.tsx:100 | the pieces hold no separator, there is at least one, and joining them with the separator gives back the text |
| `Upload.StripDataUrlPrefix` | src/components/UploadInvoice.tsx:100 | text without a comma comes back whole; any result is the whole text or a non-empty, comma-free piece occurring in it |
| `Upload.CommaTextShape` | src/components/UploadInvoice.tsx:100 | every text with a comma is a comma-free header, a comma, a comma-free piece, and a tail that is empty or starts with a comma |
| `Upload.StripKeepsSecondPiece` | src/components/UploadInvoice.tsx:100 | for such a text the strip gives the piece when it is not empty and the whole text otherwise |
| `Upload.StripDataUrl` | src/components/UploadInvoice.tsx:100 | a header, a comma and a non-empty comma-free payload yield the payload |
| `Upload.StripEmptyPayload` | src/components/UploadInvoice.tsx:100 | an empty piece after the first comma, at the end or before a second comma (as in `data:,,x`), gives back the whole text |
| `Upload.StripStopsAtSecondComma` | src/components/UploadInvoice.tsx:100 | the kept piece ends at the second comma |

## Left out

- Browser storage, JSON serialisation and the `typeof window` branches are not modelled,
  except in `CreateAsWritten`/`ClearAsWritten` for the finding below. `InvoiceStore` keeps
  the list in memory.
- On the server, `getInvoices` returns `defaultInvoices` itself and saving does nothing.
  That path is not modelled, and neither is the fallback to the seed when storage throws.
- Id generation from `Date.now()` is the parameter `newId`. Two ids drawn in the same millisecond are not modelled.
- The generative-AI call, prompt choice, `FileReader`, the `fetch` calls and
  `response.json()` are external I/O. A status change's PATCH result is the `requestOk`
  parameter.
- The PATCH handler in src/app/api/invoices/[id]/route.ts is not part of this model.
- `Promise.all` over files and the duplicate-number race between concurrent uploads are concurrency.
- Float parsing (`parseFloat(...) || 0`), NaN, currency and MB formatting: `amount` is a `real`.
- Non-string values in string keys are not modelled.
- Booleans, objects and `null` as `amount` are not modelled. Each would behave like
  `Text` (truthy) or `Absent` (falsy).
- Extra keys in a POST body are not modelled. The stored object keeps them through
  `...invoiceData`.
- Patch keys explicitly set to `undefined` are not modelled. JavaScript's spread would copy them.
- `toLowerCase` is modelled on ASCII letters only.
- `processFile`'s progress transitions are not modelled: processing, success with result,
  error with message. Neither is `handleUpload`'s "Please select files" message.
- Taking the first element when the extracted JSON is an array is not modelled.
- `GET`'s 500 path is not modelled, because serialising a list of plain records cannot throw.
- `StatusChange` maps over the list as it is when the response arrives (`latest`), which
  may differ from the list the click saw. React's scheduling of state updates is not modelled.
- All rendering.

## Findings

| source | as written | input that shows it | evidently intended | confidence | as-written member | corrected member |
|---|---|---|---|---|---|---|
| src/lib/storage.ts:47-152 | with the storage key unset, `getInvoices` returns the module-level `defaultInvoices` array itself; `create` pushes into it (:118) and `update` writes into it (:131), and `clear` later stores that mutated array | empty storage, `create` of a valid new invoice as the first call, then `clear`: storage holds the three seeds plus the new record | `clear` restores exactly the three seed records | high; not executed | `Storage.ClearAfterFirstCreateKeepsRecord` | `Storage.InvoiceStore.Clear` |
