/**
 * app/components/AlbumDetailModal.tsx: the album viewer's selected photo, its
 * index in `album.files`, and the previous/next buttons and keys.
 */
module AlbumDetailModal {
  import opened Common
  import opened ClientModel

  datatype Key = ArrowLeft | ArrowRight | Escape | OtherKey

  class AlbumDetail {
    /** `album.files`, fixed for the life of the modal. */
    const files: seq<ClientFile>
    var selectedFile: Option<ClientFile>
    var currentIndex: int

    /**
     * The index is 0 or names a file of the album, and a selected photo is always
     * the file at the index.
     */
    ghost predicate Valid()
      reads this
    {
      0 <= currentIndex && (currentIndex == 0 || currentIndex < |files|) &&
      (selectedFile.Some? ==> currentIndex < |files| && selectedFile.value == files[currentIndex])
    }

    /** Nothing selected, index 0. */
    constructor(albumFiles: seq<ClientFile>)
      ensures Valid()
      ensures files == albumFiles && selectedFile.None? && currentIndex == 0
    {
      files := albumFiles;
      selectedFile := None;
      currentIndex := 0;
    }

    /** `handleFileClick(file, index)` from the thumbnail grid: both are set together. */
    method HandleFileClick(index: int)
      requires Valid() && 0 <= index < |files|
      modifies this
      ensures Valid()
      ensures selectedFile == Some(files[index]) && currentIndex == index
    {
      selectedFile := Some(files[index]);
      currentIndex := index;
    }

    /** `handlePrevious`: one step back, unless at the first photo. */
    method HandlePrevious()
      requires Valid()
      modifies this
      ensures Valid()
      ensures old(currentIndex) > 0 ==> currentIndex == old(currentIndex) - 1 && selectedFile == Some(files[currentIndex])
      ensures old(currentIndex) <= 0 ==> currentIndex == old(currentIndex) && selectedFile == old(selectedFile)
    {
      if currentIndex > 0 {
        currentIndex := currentIndex - 1;
        selectedFile := Some(files[currentIndex]);
      }
    }

    /** `handleNext`: one step on, unless at the last photo. */
    method HandleNext()
      requires Valid()
      modifies this
      ensures Valid()
      ensures old(currentIndex) < |files| - 1 ==> currentIndex == old(currentIndex) + 1 && selectedFile == Some(files[currentIndex])
      ensures old(currentIndex) >= |files| - 1 ==> currentIndex == old(currentIndex) && selectedFile == old(selectedFile)
    {
      if currentIndex < |files| - 1 {
        currentIndex := currentIndex + 1;
        selectedFile := Some(files[currentIndex]);
      }
    }

    /** The window's `keydown` handler. */
    method HandleKeyDown(key: Key)
      requires Valid()
      modifies this
      ensures Valid()
      ensures old(selectedFile).None? || key == OtherKey ==>
        selectedFile == old(selectedFile) && currentIndex == old(currentIndex)
      ensures old(selectedFile).Some? && key == Escape ==> selectedFile.None? && currentIndex == old(currentIndex)
      ensures old(selectedFile).Some? && key == ArrowLeft ==>
        currentIndex == (if old(currentIndex) > 0 then old(currentIndex) - 1 else old(currentIndex)) &&
        selectedFile == Some(files[currentIndex])
      ensures old(selectedFile).Some? && key == ArrowRight ==>
        currentIndex == (if old(currentIndex) < |files| - 1 then old(currentIndex) + 1 else old(currentIndex)) &&
        selectedFile == Some(files[currentIndex])
    {
      if selectedFile.None? {
        return;
      }
      match key
      case ArrowLeft => HandlePrevious();
      case ArrowRight => HandleNext();
      case Escape => selectedFile := None;
      case OtherKey =>
    }
  }

  /** Next then previous, from anywhere but the last photo, comes back to the same photo. */
  method NextThenPrevious(m: AlbumDetail)
    requires m.Valid() && m.currentIndex < |m.files| - 1
    modifies m
    ensures m.Valid() && m.currentIndex == old(m.currentIndex) && m.selectedFile == Some(m.files[m.currentIndex])
  {
    m.HandleNext();
    m.HandlePrevious();
  }
}
