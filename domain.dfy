/**
 * The backend entities the services work on: `Tag`, `FileInfo` and `Album`
 * (domain/Tag.java, domain/FileInfo.java, domain/Album.java).
 */
module Domain {
  import opened Common

  /** A tag row: its generated id and its unique name. */
  datatype Tag = Tag(id: int, name: string)

  /**
   * A stored file. The columns are fixed when the row is saved (`createdAt` by
   * `@PrePersist`, as seconds on the server's local clock); only the tag set is
   * changed afterwards, in place, by `addTag` and `removeTag`.
   */
  class FileInfo {
    const id: int
    const fileName: string
    const originalFileName: string
    const storagePath: string
    const fileSize: int
    const fileType: string
    const createdAt: int
    var tags: set<Tag>

    constructor (id: int, fileName: string, originalFileName: string, storagePath: string,
                 fileSize: int, fileType: string, createdAt: int)
      ensures this.id == id && this.fileName == fileName
      ensures this.originalFileName == originalFileName && this.storagePath == storagePath
      ensures this.fileSize == fileSize && this.fileType == fileType
      ensures this.createdAt == createdAt
      ensures tags == {}
    {
      this.id := id;
      this.fileName := fileName;
      this.originalFileName := originalFileName;
      this.storagePath := storagePath;
      this.fileSize := fileSize;
      this.fileType := fileType;
      this.createdAt := createdAt;
      tags := {};
    }

    /** `tags.add(tag)`: a tag already present leaves the set as it was. */
    method AddTag(tag: Tag)
      modifies this`tags
      ensures tags == old(tags) + {tag}
      ensures tag in tags
      ensures tag in old(tags) ==> tags == old(tags)
    {
      tags := tags + {tag};
    }

    /** `tags.remove(tag)`: removes that tag only; an absent tag changes nothing. */
    method RemoveTag(tag: Tag)
      modifies this`tags
      ensures tags == old(tags) - {tag}
      ensures tag !in tags
      ensures tag !in old(tags) ==> tags == old(tags)
    {
      tags := tags - {tag};
    }

    /** Adding a tag that was absent and removing it again restores the set. */
    method AddThenRemove(tag: Tag)
      requires tag !in tags
      modifies this`tags
      ensures tags == old(tags)
    {
      AddTag(tag);
      RemoveTag(tag);
    }
  }

  /** `Album`: the persistent album row with its ordered list of files. */
  datatype Album = Album(
    id: Option<int>,
    title: string,
    description: string,
    photoCount: int,
    coverImageId: Option<int>,
    coverImagePosition: Option<string>,
    files: seq<FileInfo>,
    startDate: Option<int>)

  /** A fresh `new Album()` with title and description set. */
  function NewAlbum(title: string, description: string): (a: Album)
    ensures a.title == title && a.description == description
    ensures a.id.None? && a.files == [] && a.photoCount == 0
    ensures a.coverImageId.None? && a.coverImagePosition.None? && a.startDate.None?
  {
    Album(None, title, description, 0, None, None, [], None)
  }

  /** The ids of a list of files, in order. */
  function Ids(files: seq<FileInfo>): (r: seq<int>)
    ensures |r| == |files| && forall i :: 0 <= i < |files| ==> r[i] == files[i].id
  {
    Map(files, (f: FileInfo) => f.id)
  }

  /** `files.stream().anyMatch(file -> file.getId().equals(fileId))`. */
  predicate HasFile(files: seq<FileInfo>, fileId: int) {
    exists i :: 0 <= i < |files| && files[i].id == fileId
  }
}
