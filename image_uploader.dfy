/**
 * app/components/ImageUploader.tsx: the client-side guards on a picked or dropped
 * image, the preview, and the upload's effect on the form. The `FileReader`
 * result and the outcome of the `fetch` arrive as method arguments; the
 * `onUploadSuccess` calls are recorded in `events`.
 */
module ImageUploader {
  import opened Common
  import FileService

  /** What the guards read of a browser `File`: `name`, `size` and `type`. */
  datatype PickedFile = PickedFile(name: string, size: nat, fileType: string)

  /** `50 * 1024 * 1024`: the same bound the server enforces. */
  const MaxSize: int := 50 * 1024 * 1024

  /** The messages `setError` shows, by cause. */
  datatype UploadError = TooLarge | NotAnImage | UploadFailed | Thrown(message: string)

  /** How the `POST /api/v1/files/upload` ended. */
  datatype Outcome = Uploaded(filePath: string) | NotOk | NetworkError(message: string)

  /** `handleFile`'s guards: the size first, then the `image/` type prefix. */
  function CheckFile(f: PickedFile): (r: Option<UploadError>)
    ensures r == Some(TooLarge) <==> f.size > MaxSize
    ensures r == Some(NotAnImage) <==> f.size <= MaxSize && !StartsWith(f.fileType, "image/")
    ensures r.None? <==> f.size <= MaxSize && StartsWith(f.fileType, "image/")
  {
    if f.size > MaxSize then Some(TooLarge)
    else if !StartsWith(f.fileType, "image/") then Some(NotAnImage)
    else None
  }

  /** Exactly 50 MiB passes the size guard and one byte more does not. */
  lemma MaxSizeBoundary(name: string, fileType: string)
    requires StartsWith(fileType, "image/")
    ensures CheckFile(PickedFile(name, 52428800, fileType)).None?
    ensures CheckFile(PickedFile(name, 52428801, fileType)) == Some(TooLarge)
  {
  }

  /** The client's size bound is the server's: a non-empty file is too large for one exactly when it is for the other. */
  lemma SizeBoundAgrees(f: PickedFile)
    requires f.size > 0
    ensures CheckFile(f) == Some(TooLarge) <==>
      FileService.ValidateFile(FileService.Upload(Some(f.name), f.size)) == Some(FileService.FileTooLarge)
  {
  }

  /**
   * The client does not check for an empty file: a 0-byte PNG passes its guards,
   * and the server refuses it as empty.
   */
  lemma EmptyImagePassesClientOnly()
    ensures CheckFile(PickedFile("a.png", 0, "image/png")).None?
    ensures FileService.ValidateFile(FileService.Upload(Some("a.png"), 0)) == Some(FileService.EmptyFile)
  {
    assert "image/" <= "image/png";
  }

  class Uploader {
    var selectedFile: Option<PickedFile>
    /** The data URL of the preview, once the reader has finished. */
    var preview: Option<string>
    var uploading: bool
    var error: Option<UploadError>
    var isDragging: bool
    /** The `onUploadSuccess` calls, with the stored file's path. */
    var events: seq<string>

    /** Nothing picked, nothing shown. */
    constructor()
      ensures selectedFile.None? && preview.None? && !uploading && error.None? && !isDragging && events == []
    {
      selectedFile := None;
      preview := None;
      uploading := false;
      error := None;
      isDragging := false;
      events := [];
    }

    /**
     * `handleFile`: a refused file only sets the error and keeps the earlier pick;
     * an accepted one becomes the pick and clears the error.
     */
    method HandleFile(f: PickedFile)
      modifies this
      ensures CheckFile(f).Some? ==> error == CheckFile(f) && selectedFile == old(selectedFile)
      ensures CheckFile(f).None? ==> error.None? && selectedFile == Some(f)
      ensures preview == old(preview) && uploading == old(uploading)
      ensures isDragging == old(isDragging) && events == old(events)
    {
      if f.size > 50 * 1024 * 1024 {
        error := Some(TooLarge);
        return;
      }
      if !StartsWith(f.fileType, "image/") {
        error := Some(NotAnImage);
        return;
      }
      selectedFile := Some(f);
      error := None;
    }

    /** `reader.onloadend`: the preview shows the data URL. */
    method HandlePreviewLoaded(dataUrl: string)
      modifies this
      ensures preview == Some(dataUrl)
      ensures selectedFile == old(selectedFile) && uploading == old(uploading) && error == old(error)
      ensures isDragging == old(isDragging) && events == old(events)
    {
      preview := Some(dataUrl);
    }

    /** `handleDragEnter` and `handleDragLeave`. */
    method SetDragging(dragging: bool)
      modifies this
      ensures isDragging == dragging
      ensures selectedFile == old(selectedFile) && preview == old(preview)
      ensures uploading == old(uploading) && error == old(error) && events == old(events)
    {
      isDragging := dragging;
    }

    /** `handleDrop`: the drag ends and the first dropped file, if any, goes through `handleFile`. */
    method HandleDrop(first: Option<PickedFile>)
      modifies this
      ensures !isDragging
      ensures first.None? ==> selectedFile == old(selectedFile) && error == old(error)
      ensures first.Some? && CheckFile(first.value).Some? ==>
        error == CheckFile(first.value) && selectedFile == old(selectedFile)
      ensures first.Some? && CheckFile(first.value).None? ==> error.None? && selectedFile == first
      ensures preview == old(preview) && uploading == old(uploading) && events == old(events)
    {
      isDragging := false;
      if first.Some? {
        HandleFile(first.value);
      }
    }

    /**
     * `handleUpload`, from the click to the `finally`: without a pick nothing
     * happens; a success reports the path and clears the pick and the preview; a
     * failure keeps the pick and shows why.
     */
    method HandleUpload(outcome: Outcome, hasOnUploadSuccess: bool)
      modifies this
      ensures old(selectedFile).None? ==>
        selectedFile == old(selectedFile) && preview == old(preview) && uploading == old(uploading) &&
        error == old(error) && events == old(events)
      ensures old(selectedFile).Some? ==> !uploading
      ensures old(selectedFile).Some? && outcome.Uploaded? ==>
        selectedFile.None? && preview.None? && error.None? &&
        events == old(events) + (if hasOnUploadSuccess then [outcome.filePath] else [])
      ensures old(selectedFile).Some? && outcome.NotOk? ==>
        selectedFile == old(selectedFile) && preview == old(preview) && error == Some(UploadFailed) && events == old(events)
      ensures old(selectedFile).Some? && outcome.NetworkError? ==>
        selectedFile == old(selectedFile) && preview == old(preview) &&
        error == Some(Thrown(outcome.message)) && events == old(events)
      ensures isDragging == old(isDragging)
    {
      if selectedFile.None? {
        return;
      }
      uploading := true;
      error := None;
      if outcome.Uploaded? {
        if hasOnUploadSuccess {
          events := events + [outcome.filePath];
        }
        selectedFile := None;
        preview := None;
      } else if outcome.NotOk? {
        error := Some(UploadFailed);
      } else {
        error := Some(Thrown(outcome.message));
      }
      uploading := false;
    }
  }
}
