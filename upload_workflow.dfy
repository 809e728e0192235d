/**
 * The upload workflow of the `FileUpload` form component, as a state machine
 * on values: the five state cells of the component form a `Snapshot`, and each
 * event handler is a function from the snapshot before the event to the
 * snapshot after it. The browser's I/O enters as inputs: the files an event
 * carries, the data URL the `FileReader` produced (or its failure), and the
 * outcome of the request to the upload endpoint.
 */
module UploadWorkflow {
  import opened Wrappers
  import opened TransactionEntity
  import DataUrl

  /** `MAX_FILE_SIZE`: 1 MiB, in bytes. A file of exactly this size is accepted. */
  const MaxFileSize: nat := 1 * 1024 * 1024

  /** The size-limit message of a drop (its text names 5MB, the limit checked is still 1 MiB). */
  const DropSizeError: string := "File size exceeds the allowed limit of 5MB"

  /** The size-limit message of the file picker. */
  const PickerSizeError: string := "File size exceeds the allowed limit of 1MB"

  /** The message shown when a failed response carries no `errors`. */
  const UploadFailed: string := "Upload failed"

  datatype UploadState = Idle | Uploading | Success | Error

  /** A browser `File`: its name and its size in bytes. Its content is only seen through the data URL. */
  datatype SelectedFile = SelectedFile(name: string, size: nat)

  /**
   * What the request to `/api/upload` resolves to: a response with `ok` set and
   * the body's `transactions` field, if any; a response without `ok` and the
   * body's `errors` field, if any; or a thrown exception (network failure, a
   * body that is not JSON).
   */
  datatype Outcome =
    | Ok(transactions: Option<seq<Transaction>>)
    | NotOk(errors: Option<seq<string>>)
    | Exception

  /**
   * The JSON body posted to the endpoint. `file` is `None` when the strip found
   * no comma, in which case the source's `undefined` leaves the field out.
   */
  datatype UploadRequest = UploadRequest(file: Option<string>, fileName: string)

  /** The five state cells of the component. */
  datatype Snapshot = Snapshot(
    dragging: bool,
    file: Option<SelectedFile>,
    uploadState: UploadState,
    transactions: seq<Transaction>,
    errors: seq<string>)

  /** The `useState` initial values. */
  const Initial: Snapshot := Snapshot(false, None, Idle, [], [])

  /**
   * What every snapshot `Run` reaches satisfies, each submission being atomic
   * (no event arrives while it awaits): a stored file never exceeds the size
   * limit; transactions are shown only after a successful upload; and the
   * upload state leaves `Idle` only once a file is stored, which no handler
   * ever removes. The first conjunct holds however events interleave, since
   * `file` is only set after the size check; the second does not hold once
   * submissions overlap (see `OverlappingSubmissionsBreakInv`).
   */
  ghost predicate Inv(s: Snapshot) {
    && (s.file.Some? ==> s.file.value.size <= MaxFileSize)
    && (s.transactions != [] ==> s.uploadState == Success)
    && (s.uploadState != Idle ==> s.file.Some?)
  }

  /**
   * The selection logic shared by `onDrop` and `onFileChange`, with the
   * handler's own size-limit message. Only the first file of a non-empty list
   * is looked at; an absent or empty list changes nothing.
   */
  function SelectFirst(s: Snapshot, files: Option<seq<SelectedFile>>, tooLarge: string): (t: Snapshot)
    ensures t.dragging == s.dragging
    ensures t.uploadState == s.uploadState && t.transactions == s.transactions
    ensures files.None? || files == Some([]) ==> t == s
    ensures files.Some? && |files.value| > 0 && files.value[0].size > MaxFileSize ==>
              t.file == s.file && t.errors == [tooLarge]
    ensures files.Some? && |files.value| > 0 && files.value[0].size <= MaxFileSize ==>
              t.file == Some(files.value[0]) && t.errors == []
    ensures Inv(s) ==> Inv(t)
  {
    if files.Some? && |files.value| > 0 then
      if files.value[0].size > MaxFileSize then s.(errors := [tooLarge])
      else s.(file := Some(files.value[0]), errors := [])
    else s
  }

  /**
   * The first phase of `onSubmit`, before its awaits: the errors and the
   * transactions are cleared and the upload state becomes `Uploading`; the
   * stored file and the drag flag are kept.
   */
  function Begin(s: Snapshot): (t: Snapshot)
    ensures t.uploadState == Uploading && t.errors == [] && t.transactions == []
    ensures t.file == s.file && t.dragging == s.dragging
    ensures Inv(s) && s.file.Some? ==> Inv(t)
  {
    s.(uploadState := Uploading, errors := [], transactions := [])
  }

  /**
   * The second phase of `onSubmit`, once the reader and the request have
   * resolved: `Success` with the response's transactions (or none) after an
   * ok response, `Error` otherwise, with the response's errors (or the
   * generic message) after a failed one. The stored file and the drag flag
   * are kept, and what the outcome does not set stays as `Begin` left it.
   */
  function Settle(s: Snapshot, dataUrl: Option<string>, outcome: Outcome): (t: Snapshot)
    requires s.uploadState == Uploading
    ensures t.file == s.file && t.dragging == s.dragging
    ensures t.uploadState == Success <==> dataUrl.Some? && outcome.Ok?
    ensures t.uploadState == Error <==> !(dataUrl.Some? && outcome.Ok?)
    ensures t.uploadState == Success ==>
              t.errors == s.errors && t.transactions == outcome.transactions.GetOr([])
    ensures dataUrl.Some? && outcome.NotOk? ==>
              t.errors == outcome.errors.GetOr([UploadFailed]) && t.transactions == s.transactions
    ensures dataUrl.None? || outcome.Exception? ==>
              t.errors == s.errors && t.transactions == s.transactions
    ensures Inv(s) ==> Inv(t)
  {
    if dataUrl.None? then s.(uploadState := Error)
    else
      match outcome
      case NotOk(errors) => s.(errors := errors.GetOr([UploadFailed]), uploadState := Error)
      case Ok(transactions) => s.(transactions := transactions.GetOr([]), uploadState := Success)
      case Exception => s.(uploadState := Error)
  }

  /**
   * `onSubmit`, atomic with respect to its outcome. Without a stored file it
   * changes nothing. Otherwise it runs `Begin`, reads the file as a data URL
   * (`None`: the reader failed), posts it and runs `Settle` on the outcome.
   */
  function Submit(s: Snapshot, dataUrl: Option<string>, outcome: Outcome): (t: Snapshot)
    ensures s.file.None? ==> t == s
    ensures t.file == s.file && t.dragging == s.dragging
    ensures s.file.Some? ==> (t.uploadState == Success <==> dataUrl.Some? && outcome.Ok?)
    ensures s.file.Some? ==> (t.uploadState == Error <==> !(dataUrl.Some? && outcome.Ok?))
    ensures s.file.Some? && t.uploadState == Success ==>
              t.errors == [] && t.transactions == outcome.transactions.GetOr([])
    ensures s.file.Some? && dataUrl.Some? && outcome.NotOk? ==>
              t.errors == outcome.errors.GetOr([UploadFailed]) && t.transactions == []
    ensures s.file.Some? && (dataUrl.None? || outcome.Exception?) ==>
              t.errors == [] && t.transactions == []
    ensures Inv(s) ==> Inv(t)
  {
    if s.file.None? then s else Settle(Begin(s), dataUrl, outcome)
  }

  /**
   * The request `onSubmit` issues: one exactly when a file is stored and was
   * read, carrying the stripped data URL and the stored file's name.
   */
  function SubmitRequest(s: Snapshot, dataUrl: Option<string>): (request: Option<UploadRequest>)
    ensures request.Some? <==> s.file.Some? && dataUrl.Some?
    ensures request.Some? ==> request.value.fileName == s.file.value.name
    ensures request.Some? ==> request.value.file == DataUrl.StripPrefix(dataUrl.value)
  {
    if s.file.Some? && dataUrl.Some? then
      Some(UploadRequest(DataUrl.StripPrefix(dataUrl.value), s.file.value.name))
    else None
  }

  /**
   * For a data URL `header,payload` with a Base64 payload (no comma), the
   * request carries exactly the payload and the stored file's name.
   */
  lemma RequestCarriesPayload(s: Snapshot, header: string, payload: string)
    requires s.file.Some?
    requires DataUrl.Separator !in header && DataUrl.Separator !in payload
    ensures SubmitRequest(s, Some(header + [DataUrl.Separator] + payload))
            == Some(UploadRequest(Some(payload), s.file.value.name))
  {
    DataUrl.StripDataUrl(header, payload);
  }

  /**
   * A submission with a stored file fully replaces what the previous one left:
   * its result does not depend on the earlier upload state, errors or
   * transactions.
   */
  lemma SubmitReplacesPrevious(s1: Snapshot, s2: Snapshot, dataUrl: Option<string>, outcome: Outcome)
    requires s1.file.Some? && s1.file == s2.file && s1.dragging == s2.dragging
    ensures Submit(s1, dataUrl, outcome) == Submit(s2, dataUrl, outcome)
  {
  }

  /** One event the component handles. */
  datatype Event =
    | DragOverEvent
    | DragLeaveEvent
    | DropEvent(dropped: Option<seq<SelectedFile>>)
    | FileChangeEvent(chosen: Option<seq<SelectedFile>>)
    | SubmitEvent(dataUrl: Option<string>, outcome: Outcome)

  /**
   * The effect of one event handler. The drag handlers change only `dragging`;
   * `onDrop` clears it whether or not its file is accepted; only a submission
   * touches the upload state and the transactions; and the stored file changes
   * only by a selection that also clears the errors.
   */
  function Step(s: Snapshot, e: Event): (t: Snapshot)
    ensures e.DragOverEvent? ==> t == s.(dragging := true)
    ensures e.DragLeaveEvent? || e.DropEvent? ==> !t.dragging
    ensures e.DragLeaveEvent? ==> t.(dragging := s.dragging) == s
    ensures e.FileChangeEvent? || e.SubmitEvent? ==> t.dragging == s.dragging
    ensures !e.SubmitEvent? ==> t.uploadState == s.uploadState && t.transactions == s.transactions
    ensures !e.DropEvent? && !e.FileChangeEvent? ==> t.file == s.file
    ensures e.DropEvent? && t.file != s.file ==>
              e.dropped.Some? && |e.dropped.value| > 0 && t.file == Some(e.dropped.value[0])
    ensures e.FileChangeEvent? && t.file != s.file ==>
              e.chosen.Some? && |e.chosen.value| > 0 && t.file == Some(e.chosen.value[0])
    ensures t.file == s.file || (t.file.Some? && t.errors == [])
    ensures Inv(s) ==> Inv(t)
  {
    match e
    case DragOverEvent => s.(dragging := true)
    case DragLeaveEvent => s.(dragging := false)
    case DropEvent(files) => SelectFirst(s.(dragging := false), files, DropSizeError)
    case FileChangeEvent(files) => SelectFirst(s, files, PickerSizeError)
    case SubmitEvent(dataUrl, outcome) => Submit(s, dataUrl, outcome)
  }

  /** The snapshot after the handlers of `events` ran one after the other. */
  function Run(s: Snapshot, events: seq<Event>): Snapshot
    decreases |events|
  {
    if events == [] then s else Run(Step(s, events[0]), events[1..])
  }

  /** Every handler keeps `Inv`, so any sequence of events does. */
  lemma {:induction false} RunKeepsInv(s: Snapshot, events: seq<Event>)
    requires Inv(s)
    ensures Inv(Run(s, events))
    decreases |events|
  {
    if events != [] {
      RunKeepsInv(Step(s, events[0]), events[1..]);
    }
  }

  /**
   * In every state the component reaches from its initial values when no
   * event arrives while a submission awaits, a stored file is within the size
   * limit, transactions are shown only in `Success`, and a non-idle upload
   * state means a file is stored.
   */
  lemma Reachable(events: seq<Event>)
    ensures Inv(Run(Initial, events))
  {
    RunKeepsInv(Initial, events);
  }

  /**
   * What the atomic `Submit` does not cover: two overlapping submissions A and
   * B. Both begin, A resolves ok and shows its transactions, then B throws and
   * its `catch` sets only `error`. The component ends in `Error` still
   * showing A's transactions, so `Inv` fails.
   */
  lemma OverlappingSubmissionsBreakInv(s: Snapshot, dataUrl: string, tx: Transaction)
    requires s.file.Some?
    ensures var bothBegun := Begin(Begin(s));
            var aSettled := Settle(bothBegun, Some(dataUrl), Ok(Some([tx])));
            var bThrown := aSettled.(uploadState := Error);
            bThrown.uploadState == Error && bThrown.transactions == [tx] && !Inv(bThrown)
  {
  }

  /**
   * A drop while a submission awaits: an oversized file sets the size-limit
   * message after `Begin` cleared the errors, and a later exception leaves it
   * on screen, so the error list after a failure need not be empty.
   */
  lemma DropDuringUploadKeepsMessage(s: Snapshot, big: SelectedFile)
    requires s.file.Some? && big.size > MaxFileSize
    ensures var begun := Begin(s);
            var dropped := Step(begun, DropEvent(Some([big])));
            dropped.uploadState == Uploading &&
            Settle(dropped, None, Exception).errors == [DropSizeError] &&
            Settle(dropped, Some([]), Exception).errors == [DropSizeError]
  {
  }
}
