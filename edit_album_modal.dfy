/**
 * app/components/EditAlbumModal.tsx: the form that edits an album's title,
 * description and files. The `onSave` and `onClose` calls are recorded in
 * `events`; whether the awaited `onSave` resolves or rejects is the argument of
 * `HandleSave`.
 */
module EditAlbumModal {
  import opened Common
  import opened ClientModel

  datatype Event = Save(albumId: int, title: string, description: string, fileIds: seq<int>) | Close

  /** `album.description || ''`: a missing description edits as the empty text. */
  function InitialDescription(description: Option<string>): (d: string)
    ensures description.None? ==> d == ""
    ensures description.Some? ==> d == description.value
  {
    if description.Some? then description.value else ""
  }

  /** `selectedFiles.some(f => f.id === file.id)`: the ring on a thumbnail. */
  predicate IsSelected(selected: seq<ClientFile>, file: ClientFile) {
    file.id in FileIds(selected)
  }

  /** `prev.filter(f => f.id !== id)`. */
  function WithoutId(s: seq<ClientFile>, id: int): (r: seq<ClientFile>)
    ensures id !in FileIds(r)
    ensures forall i :: 0 <= i < |r| ==> r[i] in s
    ensures forall i :: 0 <= i < |s| && s[i].id != id ==> s[i] in r
  {
    var r := Filter(s, (f: ClientFile) => f.id != id);
    assert forall i :: 0 <= i < |r| ==> FileIds(r)[i] != id;
    r
  }

  /** The ids of the kept files are among the original ids, in order. */
  lemma {:induction false} WithoutIdKeepsNoDuplicates(s: seq<ClientFile>, id: int)
    requires NoDuplicates(FileIds(s))
    ensures NoDuplicates(FileIds(WithoutId(s, id)))
  {
    assert DistinctKeys(s, (f: ClientFile) => f.id) by {
      forall i, j | 0 <= i < j < |s| ensures s[i].id != s[j].id {
        assert FileIds(s)[i] == s[i].id && FileIds(s)[j] == s[j].id;
      }
    }
    FilterKeepsDistinctKeys(s, (f: ClientFile) => f.id, (f: ClientFile) => f.id != id);
    var r := WithoutId(s, id);
    forall i, j | 0 <= i < j < |r| ensures FileIds(r)[i] != FileIds(r)[j] {
      assert FileIds(r)[i] == r[i].id && FileIds(r)[j] == r[j].id;
    }
  }

  /** `handleFileToggle`: a file whose id is selected is dropped, another is appended. */
  function ToggleById(s: seq<ClientFile>, file: ClientFile): (r: seq<ClientFile>)
    ensures IsSelected(r, file) <==> !IsSelected(s, file)
    ensures !IsSelected(s, file) ==> r == s + [file]
    ensures forall i :: 0 <= i < |s| && s[i].id != file.id ==> s[i] in r
    ensures forall i :: 0 <= i < |r| && r[i].id != file.id ==> r[i] in s
  {
    if IsSelected(s, file) then WithoutId(s, file.id)
    else
      assert FileIds(s + [file])[|s|] == file.id;
      s + [file]
  }

  /** Toggling never lets a file id into the selection twice. */
  lemma {:induction false} ToggleByIdKeepsNoDuplicates(s: seq<ClientFile>, file: ClientFile)
    requires NoDuplicates(FileIds(s))
    ensures NoDuplicates(FileIds(ToggleById(s, file)))
  {
    if IsSelected(s, file) {
      WithoutIdKeepsNoDuplicates(s, file.id);
    } else {
      var ids := FileIds(s + [file]);
      forall i, j | 0 <= i < j < |ids| ensures ids[i] != ids[j] {
        if j == |s| {
          assert ids[i] == FileIds(s)[i];
        } else {
          assert ids[i] == FileIds(s)[i] && ids[j] == FileIds(s)[j];
        }
      }
    }
  }

  /** Toggling a file that was not selected, twice, gives back the selection. */
  lemma {:induction false} ToggleByIdTwiceAbsent(s: seq<ClientFile>, file: ClientFile)
    requires !IsSelected(s, file)
    ensures ToggleById(ToggleById(s, file), file) == s
  {
    FilterSnoc(s, file, (f: ClientFile) => f.id != file.id);
    forall i | 0 <= i < |s| ensures s[i].id != file.id {
      assert FileIds(s)[i] == s[i].id;
    }
    FilterAll(s, (f: ClientFile) => f.id != file.id);
  }

  class EditAlbumState {
    /** `album.id`. */
    const albumId: int
    var title: string
    var description: string
    var selectedFiles: seq<ClientFile>
    /** The files fetched from `/api/v1/files/list`. */
    var allFiles: seq<ClientFile>
    var events: seq<Event>

    /** The form starts from the album: its title, its description or "", its files. */
    constructor(album: ClientAlbum)
      ensures albumId == album.id && title == album.title
      ensures description == InitialDescription(album.description)
      ensures selectedFiles == album.files && allFiles == [] && events == []
    {
      albumId := album.id;
      title := album.title;
      description := if album.description.Some? then album.description.value else "";
      selectedFiles := album.files;
      allFiles := [];
      events := [];
    }

    /** `setAllFiles(data)` once the file list arrives. */
    method SetAllFiles(data: seq<ClientFile>)
      modifies this
      ensures allFiles == data
      ensures title == old(title) && description == old(description)
      ensures selectedFiles == old(selectedFiles) && events == old(events)
    {
      allFiles := data;
    }

    method SetTitle(value: string)
      modifies this
      ensures title == value
      ensures description == old(description) && selectedFiles == old(selectedFiles)
      ensures allFiles == old(allFiles) && events == old(events)
    {
      title := value;
    }

    method SetDescription(value: string)
      modifies this
      ensures description == value
      ensures title == old(title) && selectedFiles == old(selectedFiles)
      ensures allFiles == old(allFiles) && events == old(events)
    {
      description := value;
    }

    /** `handleFileToggle(file)`. */
    method HandleFileToggle(file: ClientFile)
      modifies this
      ensures selectedFiles == ToggleById(old(selectedFiles), file)
      ensures NoDuplicates(FileIds(old(selectedFiles))) ==> NoDuplicates(FileIds(selectedFiles))
      ensures title == old(title) && description == old(description)
      ensures allFiles == old(allFiles) && events == old(events)
    {
      if NoDuplicates(FileIds(selectedFiles)) {
        ToggleByIdKeepsNoDuplicates(selectedFiles, file);
      }
      var isSelected := file.id in FileIds(selectedFiles);
      if isSelected {
        selectedFiles := WithoutId(selectedFiles, file.id);
      } else {
        selectedFiles := selectedFiles + [file];
      }
    }

    /**
     * `handleSave`: `onSave` gets the album id, the form's title and description and
     * the selected ids in selection order; the modal closes only when it resolves.
     */
    method HandleSave(saved: bool)
      modifies this
      ensures events == old(events) + [Save(albumId, title, description, FileIds(selectedFiles))] + (if saved then [Close] else [])
      ensures title == old(title) && description == old(description)
      ensures selectedFiles == old(selectedFiles) && allFiles == old(allFiles)
    {
      events := events + [Save(albumId, title, description, FileIds(selectedFiles))];
      if saved {
        events := events + [Close];
      }
    }

    /** The cancel button calls `onClose` and saves nothing. */
    method HandleCancel()
      modifies this
      ensures events == old(events) + [Close]
      ensures title == old(title) && description == old(description)
      ensures selectedFiles == old(selectedFiles) && allFiles == old(allFiles)
    {
      events := events + [Close];
    }
  }
}
