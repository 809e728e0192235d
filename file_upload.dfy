/**
 * The `FileUpload` component: its five state cells as fields, and one method
 * per event handler that writes them as the handler's setters do. Each method
 * keeps the workflow invariant and leaves the component in the snapshot the
 * workflow's `Step` gives for its event.
 */
module FileUploadComponent {
  import opened Wrappers
  import opened TransactionEntity
  import opened UploadWorkflow
  import DataUrl

  class FileUpload {
    var dragging: bool
    var file: Option<SelectedFile>
    var uploadState: UploadState
    var transactions: seq<Transaction>
    var errors: seq<string>

    /** The state cells as a snapshot. */
    function View(): Snapshot
      reads this
    {
      Snapshot(dragging, file, uploadState, transactions, errors)
    }

    ghost predicate Valid()
      reads this
    {
      Inv(View())
    }

    /** The `useState` initial values. */
    constructor ()
      ensures Valid() && View() == Initial
    {
      dragging, file, uploadState, transactions, errors := false, None, Idle, [], [];
    }

    /** `onDragOver`: the drop zone is highlighted. */
    method OnDragOver()
      requires Valid()
      modifies this
      ensures Valid() && View() == Step(old(View()), DragOverEvent)
    {
      dragging := true;
    }

    /** `onDragLeave`: the highlight is removed. */
    method OnDragLeave()
      requires Valid()
      modifies this
      ensures Valid() && View() == Step(old(View()), DragLeaveEvent)
    {
      dragging := false;
    }

    /** `onDrop`: the highlight is removed, then the first dropped file is size-checked. */
    method OnDrop(files: Option<seq<SelectedFile>>)
      requires Valid()
      modifies this
      ensures Valid() && View() == Step(old(View()), DropEvent(files))
    {
      dragging := false;
      if files.Some? && |files.value| > 0 {
        if files.value[0].size > MaxFileSize {
          errors := [DropSizeError];
        } else {
          file := Some(files.value[0]);
          errors := [];
        }
      }
    }

    /** `onFileChange`: the first chosen file is size-checked. */
    method OnFileChange(files: Option<seq<SelectedFile>>)
      requires Valid()
      modifies this
      ensures Valid() && View() == Step(old(View()), FileChangeEvent(files))
    {
      if files.Some? && |files.value| > 0 {
        if files.value[0].size > MaxFileSize {
          errors := [PickerSizeError];
        } else {
          file := Some(files.value[0]);
          errors := [];
        }
      }
    }

    /**
     * `onSubmit`: returns the request it posts, if any. `dataUrl` is what the
     * `FileReader` produced (`None`: it failed); `outcome` is what the request
     * resolved to.
     */
    method OnSubmit(dataUrl: Option<string>, outcome: Outcome) returns (request: Option<UploadRequest>)
      requires Valid()
      modifies this
      ensures request == SubmitRequest(old(View()), dataUrl)
      ensures Valid() && View() == Step(old(View()), SubmitEvent(dataUrl, outcome))
    {
      if file.None? {
        return None;
      }
      errors := [];
      transactions := [];
      uploadState := Uploading;
      assert View() == Begin(old(View()));
      if dataUrl.None? {
        uploadState := Error;
        return None;
      }
      request := Some(UploadRequest(DataUrl.StripPrefix(dataUrl.value), file.value.name));
      match outcome {
        case NotOk(errs) =>
          errors := errs.GetOr([UploadFailed]);
          uploadState := Error;
        case Ok(txs) =>
          transactions := txs.GetOr([]);
          uploadState := Success;
        case Exception =>
          uploadState := Error;
      }
    }
  }
}
