/**
 * app/components/CreateAlbum.tsx: picking files for a new album, the guard on the
 * submit button, and the body posted to the album endpoint.
 */
module CreateAlbum {
  import opened Common
  import opened ClientModel
  import Domain
  import AlbumService

  /** The JSON body of `POST /api/v1/files/albums`. */
  datatype CreateRequest = CreateRequest(title: string, description: string, fileIds: seq<int>)

  /** `selectedFiles.length === 0 || !albumTitle`: the empty title is falsy. */
  function SubmitDisabled(selected: seq<int>, title: string): (d: bool)
    ensures d <==> selected == [] || title == ""
  {
    |selected| == 0 || |title| == 0
  }

  class CreateAlbumState {
    var files: seq<ClientFile>
    var selectedFiles: seq<int>
    var albumTitle: string
    var albumDescription: string

    /** A selection never names a file twice. */
    ghost predicate Valid()
      reads this
    {
      NoDuplicates(selectedFiles)
    }

    /** Nothing selected, empty title and description. */
    constructor()
      ensures Valid()
      ensures files == [] && selectedFiles == [] && albumTitle == "" && albumDescription == ""
    {
      files := [];
      selectedFiles := [];
      albumTitle := "";
      albumDescription := "";
    }

    /** `setFiles(data)` once the file list arrives. */
    method SetFiles(data: seq<ClientFile>)
      modifies this
      ensures files == data
      ensures selectedFiles == old(selectedFiles) && albumTitle == old(albumTitle)
      ensures albumDescription == old(albumDescription)
    {
      files := data;
    }

    /** `handleFileSelect`: a selected id is dropped, another one is appended. */
    method HandleFileSelect(fileId: int)
      requires Valid()
      modifies this
      ensures Valid()
      ensures selectedFiles == Toggle(old(selectedFiles), fileId)
      ensures fileId in selectedFiles <==> fileId !in old(selectedFiles)
      ensures files == old(files) && albumTitle == old(albumTitle) && albumDescription == old(albumDescription)
    {
      if fileId in selectedFiles {
        selectedFiles := Remove(selectedFiles, fileId);
      } else {
        selectedFiles := selectedFiles + [fileId];
      }
    }

    method SetTitle(title: string)
      modifies this
      ensures albumTitle == title
      ensures files == old(files) && selectedFiles == old(selectedFiles) && albumDescription == old(albumDescription)
    {
      albumTitle := title;
    }

    method SetDescription(description: string)
      modifies this
      ensures albumDescription == description
      ensures files == old(files) && selectedFiles == old(selectedFiles) && albumTitle == old(albumTitle)
    {
      albumDescription := description;
    }

    /** The body `handleSubmit` posts: the form's title and description, the ids in selection order. */
    method Submit() returns (body: CreateRequest)
      ensures body.title == albumTitle && body.description == albumDescription
      ensures body.fileIds == selectedFiles
    {
      body := CreateRequest(albumTitle, albumDescription, selectedFiles);
    }
  }

  /**
   * What the server makes of a submitted selection: when every selected id is a
   * stored file, the new album holds exactly those files, one per selected id.
   */
  lemma {:induction false} ServerKeepsSelection(store: map<int, Domain.FileInfo>, selected: seq<int>)
    requires AlbumService.KeyedById(store) && NoDuplicates(selected)
    requires forall k :: 0 <= k < |selected| ==> selected[k] in store
    ensures |AlbumService.FindAllById(store, selected)| == |selected|
    ensures (set x | x in Domain.Ids(AlbumService.FindAllById(store, selected))) == set x | x in selected
  {
    var ids := Domain.Ids(AlbumService.FindAllById(store, selected));
    SelectedFound(store, selected);
    FoundSelected(store, selected);
    SameElementsSameLength(ids, selected);
  }

  /** Two duplicate-free sequences with the same elements have the same length. */
  lemma SameElementsSameLength(a: seq<int>, b: seq<int>)
    requires NoDuplicates(a) && NoDuplicates(b)
    requires forall x :: x in a <==> x in b
    ensures (set x | x in a) == (set x | x in b) && |a| == |b|
  {
    assert (set x | x in a) == set x | x in b;
    NoDuplicatesCardinality(a);
    NoDuplicatesCardinality(b);
  }

  /** Every selected id that is stored comes back. */
  lemma SelectedFound(store: map<int, Domain.FileInfo>, selected: seq<int>)
    requires AlbumService.KeyedById(store)
    requires forall k :: 0 <= k < |selected| ==> selected[k] in store
    ensures forall x :: x in selected ==> x in Domain.Ids(AlbumService.FindAllById(store, selected))
  {
    var r := AlbumService.FindAllById(store, selected);
    var ids := Domain.Ids(r);
    forall x | x in selected ensures x in ids {
      var k :| 0 <= k < |selected| && selected[k] == x;
      var i :| 0 <= i < |r| && r[i] == store[x];
      assert ids[i] == x;
    }
  }

  /** Only selected ids come back. */
  lemma FoundSelected(store: map<int, Domain.FileInfo>, selected: seq<int>)
    requires AlbumService.KeyedById(store)
    ensures forall x :: x in Domain.Ids(AlbumService.FindAllById(store, selected)) ==> x in selected
  {
    var r := AlbumService.FindAllById(store, selected);
    var ids := Domain.Ids(r);
    forall x | x in ids ensures x in selected {
      var i :| 0 <= i < |ids| && ids[i] == x;
      assert r[i].id == x;
    }
  }
}
