# Upload workflow of `upload-transaction`, modelled in Dafny

The web application lets a user drag a file onto a drop zone or choose it with
a file picker, checks its size locally, posts it Base64-encoded to
`/api/upload`, and shows either the transactions the backend parsed from it or
the backend's error messages. This project models that client workflow, the
`FileUpload` form component, and the server's `Transaction` record it displays.

- `TransactionEntity` (`transaction.dfy`): the `Transaction` record and its
  constructor from `TransactionConstructor`, a field-by-field copy. JavaScript
  `number` fields are kept as the 64-bit pattern of the double (`JsNumber`);
  nothing computes on them. The field `type` is called `transactionType`
  because `type` is a Dafny keyword.
- `DataUrl` (`data_url.dfy`): `split(',')[1]`, the strip of the data URL
  header (RFC 2397) before the Base64 payload (section 4 of RFC 4648). `Split`
  is JavaScript's `String.prototype.split` on a comma, proved to be the inverse
  of `Join` in both directions; `StripPrefix` is its second segment, `None`
  standing for the `undefined` a comma-free string gives.
- `UploadWorkflow` (`upload_workflow.dfy`): the five state cells (`dragging`,
  `file`, `uploadState`, `transactions`, `errors`) as a `Snapshot`, one
  function per event handler, the invariant every reachable snapshot keeps
  (`Inv`), and `Run`, the snapshot after any sequence of events.
- `FileUploadComponent` (`file_upload.dfy`): the component as a class whose
  fields are the five cells and whose methods are the handlers, writing the
  cells as the source's setters do. Each method keeps `Valid()` and ends in
  the snapshot `Step` gives for its event; `OnSubmit` also returns the request
  it posts.

The browser's I/O enters as inputs. A drop or a picker change carries an
optional list of files, each a name and a byte size. A submission carries the
data URL the `FileReader` produced (`None` when the reader failed, which the
source's `catch` turns into `error`) and the `Outcome` of the request: `Ok`
with the body's optional `transactions`, `NotOk` with the body's optional
`errors`, or `Exception` (network failure, a body that is not JSON).

Details of the code's behaviour the model keeps:
- When no event arrives while a submission awaits, the error list is empty
  after a reader failure or an exception: `onSubmit` clears it at line 76,
  before the request, and the `catch` at lines 102-105 never sets it.
- A failed response whose `errors` is an empty array keeps the empty list; only
  an absent field falls back to `["Upload failed"]`, because the fallback at
  line 94 is `||` and an empty array is truthy.
- The size-limit message differs by path: a drop says "5MB" (line 47), the
  picker says "1MB" (line 59). Both paths check the same 1 MiB limit, and the
  model keeps one constant per path.

## Model

| member | source | states |
|---|---|---|
| `TransactionEntity.NewTransaction` | src/server/entities/Transaction.ts:9-16 | every field of the constructed transaction (`id`, `type`, `date`, `productDescription`, `value`, `transactionOwnerName`) equals the argument's field of the same name |
| `TransactionEntity.NewTransactionIsBijection` | src/server/entities/Transaction.ts:9-26 | construction is total and neither validates, defaults nor derives: it is a bijection between constructor arguments and transactions |
| `DataUrl.Split` | src/app/components/FileUpload.tsx:25 | `split(',')` yields at least one segment, no segment holds a comma, and there are two or more exactly when the string holds a comma |
| `DataUrl.JoinSplit` | src/app/components/FileUpload.tsx:25 | the segments of a split, joined with commas, give back the string: no character is lost or added |
| `DataUrl.SplitJoin` | src/app/components/FileUpload.tsx:25 | splitting a comma-join of comma-free segments gives back those segments |
| `DataUrl.StripPrefix` | src/app/components/FileUpload.tsx:25 | the strip yields a value exactly when the data URL holds a comma, and that value holds no comma |
| `DataUrl.StripPrefixSegment` | src/app/components/FileUpload.tsx:25 | the strip yields exactly the segment between the first and the second comma (or the end of the string) |
| `DataUrl.StripDataUrl` | src/app/components/FileUpload.tsx:25 | for `header,payload` with no comma in either part, the strip yields `payload` |
| `UploadWorkflow.SelectFirst` | src/app/components/FileUpload.tsx:44-64 | only the first file of a non-empty list counts; over 1,048,576 bytes it keeps the stored file and sets exactly one size-limit message; at most that (inclusive) it stores the file and clears the errors; an absent or empty list changes nothing; the upload state, transactions and drag flag never change; the invariant is kept |
| `UploadWorkflow.Begin` | src/app/components/FileUpload.tsx:75-80 | the first phase of a submission clears the errors and the transactions and sets `uploading`, keeping the stored file and the drag flag; with a file stored it keeps the invariant |
| `UploadWorkflow.Settle` | src/app/components/FileUpload.tsx:92-105 | once the reader and the request resolve: `success` exactly when the file was read and the response was ok, with the response's transactions or `[]`; a not-ok response gives its `errors` or `["Upload failed"]`; a reader failure or exception gives `error`; the stored file, the drag flag and whatever the outcome does not set stay as they were; the invariant is kept |
| `UploadWorkflow.Submit` | src/app/components/FileUpload.tsx:71-106 | without a stored file nothing changes; the stored file and drag flag always survive; `success` exactly when the file was read and the response was ok, with no errors and the response's transactions or `[]`; a not-ok response gives its `errors` or `["Upload failed"]` and no transactions; a reader failure or exception gives `error` with both lists empty; the invariant is kept |
| `UploadWorkflow.SubmitRequest` | src/app/components/FileUpload.tsx:73-90 | a request is posted exactly when a file is stored and was read; it carries the stored file's name and the stripped data URL |
| `UploadWorkflow.RequestCarriesPayload` | src/app/components/FileUpload.tsx:82-89 | for a data URL `header,payload` with a comma-free Base64 payload, the posted body is exactly that payload and the stored file's name |
| `UploadWorkflow.SubmitReplacesPrevious` | src/app/components/FileUpload.tsx:75-99 | a submission with a stored file fully replaces the previous upload state, errors and transactions: its result does not depend on them |
| `UploadWorkflow.Step` | src/app/components/FileUpload.tsx:32-106 | `onDragOver` only sets `dragging`; `onDragLeave` only clears it; `onDrop` clears it whether or not the file is accepted; only a submission changes the upload state or the transactions; only a drop or a picker change can change the stored file, and only by storing it and clearing the errors; every handler keeps the invariant |
| `UploadWorkflow.RunKeepsInv` | src/app/components/FileUpload.tsx:9-106 | any sequence of handler calls, each submission atomic, keeps the invariant: stored file within the limit, transactions only in `success`, a non-idle state only with a stored file |
| `UploadWorkflow.Reachable` | src/app/components/FileUpload.tsx:9-17 | every state reached from the initial cell values, when no event arrives while a submission awaits, satisfies the invariant, so a file failing the size check is never stored |
| `UploadWorkflow.OverlappingSubmissionsBreakInv` | src/app/components/FileUpload.tsx:75-104 | with two overlapping submissions, one resolving ok and the other then throwing, the component ends in `error` still showing the first one's transactions, which breaks the invariant |
| `UploadWorkflow.DropDuringUploadKeepsMessage` | src/app/components/FileUpload.tsx:41-53 | an oversized drop while a submission awaits sets the size-limit message, and a later reader failure or exception leaves it in the error list |
| `FileUploadComponent.FileUpload.constructor` | src/app/components/FileUpload.tsx:9-15 | the cells start as not dragging, no file, `idle`, no transactions, no errors, which satisfies the invariant |
| `FileUploadComponent.FileUpload.OnDragOver` | src/app/components/FileUpload.tsx:32-35 | sets `dragging` and nothing else; keeps the invariant |
| `FileUploadComponent.FileUpload.OnDragLeave` | src/app/components/FileUpload.tsx:37-39 | clears `dragging` and nothing else; keeps the invariant |
| `FileUploadComponent.FileUpload.OnDrop` | src/app/components/FileUpload.tsx:41-53 | clears `dragging`, then the first dropped file is accepted or rejected as `SelectFirst` states, with the drop's message; keeps the invariant |
| `FileUploadComponent.FileUpload.OnFileChange` | src/app/components/FileUpload.tsx:55-65 | the first chosen file is accepted or rejected as `SelectFirst` states, with the picker's message; keeps the invariant |
| `FileUploadComponent.FileUpload.OnSubmit` | src/app/components/FileUpload.tsx:71-106 | writes the cells to the snapshot `Submit` gives and returns the request `SubmitRequest` gives; keeps the invariant |

## Left out

- Rendering: the JSX, the CSS class chosen by `dragging`, the status paragraphs
  and the error and transaction lists (FileUpload.tsx lines 108-140) are
  display only.
- `onBrowseClick` and `fileInputRef` (lines 67-69) only click a hidden input,
  a DOM side effect.
- `FileReader`, `fetch`, `JSON.stringify` and `response.json()` are browser
  I/O. Their results enter as the `dataUrl` and `Outcome` inputs. Base64
  encoding itself is not modelled; only the strip of its data-URL header is.
- The request's method and headers are constant and are left out; only its
  JSON body (`file`, `fileName`) is modelled.
- A response body whose `errors` or `transactions` is present but not an
  array: a truthy non-array value (a non-empty string, a non-zero number) would
  be stored as it is, which the model cannot express; a falsy one (`null`,
  `""`, `0`, `false`, `NaN`) falls back like an absent field, which the model's
  `None` covers. The model's `Outcome` holds only an array or an absent field.
- `event.preventDefault()` in `onDragOver`, `onDrop` and `onSubmit` (lines 33,
  42 and 72) is a DOM effect that stops the browser's default handling; it
  does not touch the component's state.
- `console.error` in the `catch` (line 103) is logging.
- Overlapping submissions and the awaits inside `onSubmit`: in `Run` each
  submission is atomic with respect to its outcome. Its first phase is
  `UploadWorkflow.Begin` and its second `UploadWorkflow.Settle`, but no event
  arrives between them in `Run`, so `uploading` is never a state `Run` ends in,
  and a request that never resolves (the state stays `uploading`) is not
  represented. The button is never disabled, so in the component other events
  can arrive during the awaits at lines 82, 84, 93 and 97, and two claims
  then fail. First, `Inv`'s "transactions only in `success`": submissions A
  and B both begin, A resolves ok, then B throws and ends in `error` with A's
  transactions (`OverlappingSubmissionsBreakInv`). Second, "the error list is
  empty after a failure": an oversized drop during the upload sets its
  message, and a later exception leaves it there
  (`DropDuringUploadKeepsMessage`). The size part of `Inv` holds under any
  interleaving, since `file` is only set after the size check.
- The transient `idle` write at line 75 is overwritten by `uploading` at line
  80 within the same submission and is not modelled.
- The client's transaction list is typed `Omit<Transaction, "id">[]`, but at
  run time it holds the parsed JSON records as received; the model stores them
  as full `Transaction` values.
- `src/app/users/page.tsx` is a fetch-and-render page whose only logic is
  throwing on a non-ok response; it is not part of this model.
- `Transaction.value` and `Transaction.type` are JavaScript doubles on which
  nothing is computed; the model keeps their bit patterns only.
