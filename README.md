# do-you-remember: a verified model of the photo album core

"do-you-remember" is a photo archive. A Spring backend stores uploaded images,
tags them, searches them by tag, date and EXIF fields, and groups them into
albums. A React client lists, sorts, filters and groups the photos and edits
albums. This project models in Dafny the parts of both sides that make decisions:

- upload validation (two validators and the extension/MIME table);
- content-type selection and the stored-path format;
- album generation by calendar day, and album maintenance;
- tag get-or-create and attach/detach;
- the declarative search query and the controller's date bounds;
- the client's sort, filter, grouping and selection logic;
- the client's small UI state machines and the service worker's cache decisions.

Backend entities whose fields change in place (`FileInfo`'s tag set, the album
and tag tables of the services) are Dafny classes with `modifies` frames. Pure
guards and queries are functions. Every module is one source file, with shared
vocabulary in `Common` (options, results, filter, distinct, ASCII case, string
search, decimal rendering) and `Sorting` (a stable sort by integer key).

Conventions used throughout:

- A backend `LocalDateTime` is an integer count of seconds on the server's local
  clock. Its `LocalDate` is `DayOf(t) = t / 86400`.
- A client timestamp is an integer count of milliseconds.
- `localeCompare` is an integer collation key passed in as a function. So is the
  album-title date formatter.
- Clock readings, Tika's detected MIME type and the outcome of network calls are
  parameters.
- Callbacks the client components invoke (`onSelect`, `onClose`, `onTagsChange`
  and so on) are appended to an `events` log field, so their order and arguments
  can be stated.

## Model

| member | source | states |
|---|---|---|
| Domain.FileInfo.AddTag | backend/src/main/java/com/doyou/remember/backend/domain/FileInfo.java:45-47 | the tag set gains the tag; adding a tag already present leaves the set unchanged |
| Domain.FileInfo.RemoveTag | backend/src/main/java/com/doyou/remember/backend/domain/FileInfo.java:49-51 | only that tag leaves the set; removing an absent tag changes nothing |
| Domain.FileInfo.AddThenRemove | backend/src/main/java/com/doyou/remember/backend/domain/FileInfo.java:45-51 | adding a previously absent tag and removing it restores the original set |
| FileService.GetFileExtension | backend/src/main/java/com/doyou/remember/backend/service/FileService.java:140-145 | fails exactly on a null name or a name without '.'; otherwise the text after the last '.', which contains no '.' and may be empty |
| FileService.ValidateFile | backend/src/main/java/com/doyou/remember/backend/service/FileService.java:105-118 | empty first, then size above 50 MiB, then a missing dot, then an unlisted lower-cased extension; each error iff its guard is the first to fail, and acceptance iff the name's last extension lower-cases into {jpg, jpeg, png, gif} |
| FileService.IsImageFile | backend/src/main/java/com/doyou/remember/backend/service/FileService.java:147-149 | true exactly for jpg, jpeg and png in any case; gif is not an image here |
| FileService.ExactlyMaxSizeAccepted | backend/src/main/java/com/doyou/remember/backend/service/FileService.java:42 | an upload of exactly 52,428,800 bytes passes the size guard and one byte more fails it |
| FileService.EmptyCheckedFirst | backend/src/main/java/com/doyou/remember/backend/service/FileService.java:106-108 | an empty upload is refused as empty even when it has no name |
| FileService.UpperCaseExtensionAccepted | backend/src/main/java/com/doyou/remember/backend/service/FileService.java:114-117 | "IMG.JPEG" is accepted: the extension check ignores case |
| FileService.TrailingDotRejected | backend/src/main/java/com/doyou/remember/backend/service/FileService.java:144 | "photo." has the empty extension and is refused as not allowed |
| FileService.GifAcceptedButNotImage | backend/src/main/java/com/doyou/remember/backend/service/FileService.java:41 | a gif upload is accepted although isImageFile("gif") is false |
| FileService.CreateStoragePath | backend/src/main/java/com/doyou/remember/backend/service/FileService.java:120-138 | the path is the year, "/", the two-digit month, "/", the two-digit day, "/", the millis, "_" and the original name; splitting it at '/' gives those four parts, and the month and day read back as the numbers |
| FileService.SplitFourParts | backend/src/main/java/com/doyou/remember/backend/service/FileService.java:135-137 | four parts without '/' joined by '/' split back into those parts |
| FileService.DateGroup | backend/src/main/java/com/doyou/remember/backend/service/FileService.java:178-181 | the files of one calendar day, all of them and nothing else |
| FileService.DateAlbum | backend/src/main/java/com/doyou/remember/backend/service/FileService.java:185-197 | the album of one day: that day's whole group, the formatted date as title, its size as photoCount and in the description "N개의 사진", the first file's id as cover, and no id, position or start date |
| FileService.GenerateDateBasedAlbums | backend/src/main/java/com/doyou/remember/backend/service/FileService.java:177-198 | every album holds the complete group of one day with at least minimumPhotos files; photoCount is its size, description "N개의 사진", cover the first file's id, title the formatted day |
| FileService.DateAlbumsPartition | backend/src/main/java/com/doyou/remember/backend/service/FileService.java:178-184 | a file is in some album iff its day has at least minimumPhotos files, and no file is in two albums |
| FileService.GenerateDateBasedAlbumsAsWritten | backend/src/main/java/com/doyou/remember/backend/service/FileService.java:199 | as written, the method throws exactly when two or more days are kept, because the final sort reads the createdAt of unsaved albums; otherwise it returns the albums |
| FileService.TwoDaysThrow | backend/src/main/java/com/doyou/remember/backend/service/FileService.java:199 | as written, two files on different days, both days with enough files, make the method throw |
| FileService.DateAlbumAt | backend/src/main/java/com/doyou/remember/backend/service/FileService.java:183-189 | album i holds the group of the i-th kept day |
| FileService.GroupingOf | backend/src/main/java/com/doyou/remember/backend/service/FileService.java:166-174 | "tag" and "location" select their strategies; null, "date" and any other name select date grouping |
| FileService.MinimumPhotos | backend/src/main/java/com/doyou/remember/backend/service/FileService.java:164 | a null minPhotos becomes 3 |
| FileService.GenerateAlbums | backend/src/main/java/com/doyou/remember/backend/service/FileService.java:162-211 | "tag" and "location" give no albums; anything else gives the date albums |
| FileService.DefaultGrouping | backend/src/main/java/com/doyou/remember/backend/service/FileService.java:164-174 | null, "date" and an unknown groupBy give the same albums, and a null minPhotos acts as 3 |
| FileController.ServedExtension | backend/src/main/java/com/doyou/remember/backend/controller/FileController.java:103 | the lower-cased text after the last '.' (the one with no '.' after it), or the whole lower-cased name when there is no '.' |
| FileController.ServedExtensionAfterPrefix | backend/src/main/java/com/doyou/remember/backend/controller/FileController.java:103 | a dot in the name with no dot after it decides the extension whatever directory text precedes the name |
| FileController.GetContentType | backend/src/main/java/com/doyou/remember/backend/controller/FileController.java:102-115 | image/jpeg iff the extension is jpg or jpeg, image/png iff png, image/gif iff gif, application/octet-stream otherwise |
| FileController.UpperCaseNameIsJpeg | backend/src/main/java/com/doyou/remember/backend/controller/FileController.java:103-107 | "A.JPG" is served as image/jpeg |
| FileController.NameWithoutDotIsItsOwnExtension | backend/src/main/java/com/doyou/remember/backend/controller/FileController.java:103 | a name without '.' is taken whole: "jpeg" is served as image/jpeg |
| FileController.ContentTypeIgnoresCase | backend/src/main/java/com/doyou/remember/backend/controller/FileController.java:103 | upper-casing the file name never changes the content type |
| FileController.AcceptedUploadServedAsImage | backend/src/main/java/com/doyou/remember/backend/controller/FileController.java:102-111 | a name the upload guard accepts, behind any stored prefix, is served with an image content type |
| FileController.StartBound | backend/src/main/java/com/doyou/remember/backend/controller/FileController.java:60 | an absent start date stays absent; a given one becomes the first second of that day |
| FileController.EndBound | backend/src/main/java/com/doyou/remember/backend/controller/FileController.java:61 | an absent end date stays absent; a given one becomes the first second of the following day |
| FileController.BuildCriteria | backend/src/main/java/com/doyou/remember/backend/controller/FileController.java:58-67 | tags and the EXIF fields are passed unchanged; the dates become the two bounds |
| FileController.SearchDateWindow | backend/src/main/java/com/doyou/remember/backend/controller/FileController.java:60-61 | with both dates, a time passes the inclusive bounds iff its day lies in [start, end] or it is exactly midnight after the end day |
| FileController.NextMidnightIncluded | backend/src/main/java/com/doyou/remember/backend/controller/FileController.java:61 | a file stamped exactly at midnight after the end day matches the window |
| FileController.ServeFilePath | backend/src/main/java/com/doyou/remember/backend/controller/FileController.java:79 | year, month, day and file name joined by '/', splitting back into the four parts |
| FileController.ServeStoredPath | backend/src/main/java/com/doyou/remember/backend/controller/FileController.java:73-79 | re-joining the four segments of a stored path gives the stored path back |
| AlbumService.FindAllById | backend/src/main/java/com/doyou/remember/backend/service/AlbumService.java:26 | exactly the stored files whose ids were requested, each once, never more than requested |
| AlbumService.MinCreatedAt | backend/src/main/java/com/doyou/remember/backend/service/AlbumService.java:31-34 | the least createdAt of the files, attained by one of them |
| AlbumService.CreatedAlbum | backend/src/main/java/com/doyou/remember/backend/service/AlbumService.java:21-38 | title, description, the found files and photoCount = their number; startDate is the earliest createdAt when files were found and unset otherwise |
| AlbumService.UpdatedAlbum | backend/src/main/java/com/doyou/remember/backend/service/AlbumService.java:58-69 | title and description always overwritten; new files replace files and photoCount only when given; id, startDate and cover untouched |
| AlbumService.WithCover | backend/src/main/java/com/doyou/remember/backend/service/AlbumService.java:84-85 | only coverImageId and coverImagePosition change |
| AlbumService.UpdateCanOrphanCover | backend/src/main/java/com/doyou/remember/backend/service/AlbumService.java:63-67 | replacing the files can leave the cover id pointing at a file no longer in the album |
| AlbumService.AlbumService.CreateAlbum | backend/src/main/java/com/doyou/remember/backend/service/AlbumService.java:21-39 | saves the created album under a fresh id and changes no other album |
| AlbumService.AlbumService.GetAlbum | backend/src/main/java/com/doyou/remember/backend/service/AlbumService.java:47-50 | the stored album, or the not-found error exactly when the id is unknown |
| AlbumService.AlbumService.DeleteAlbum | backend/src/main/java/com/doyou/remember/backend/service/AlbumService.java:53-55 | removes only the album with that id |
| AlbumService.AlbumService.UpdateAlbum | backend/src/main/java/com/doyou/remember/backend/service/AlbumService.java:58-70 | not-found on an unknown id with nothing changed; otherwise stores the updated album in place of the old one |
| AlbumService.AlbumService.UpdateCoverImage | backend/src/main/java/com/doyou/remember/backend/service/AlbumService.java:73-87 | not-found on an unknown album, file-not-in-album when no file has that id, each changing nothing; otherwise only the cover fields change and the cover is one of the album's files |
| AlbumService.CreateGetDelete | backend/src/main/java/com/doyou/remember/backend/service/AlbumService.java:21-55 | a created album reads back, and after deleting it the album table is as before |
| TagService.WithName | backend/src/main/java/com/doyou/remember/backend/service/TagService.java:25 | the stored tags with the given name |
| TagService.TagService.CreateTag | backend/src/main/java/com/doyou/remember/backend/service/TagService.java:23-28 | an existing name returns the stored tag and inserts nothing; a new name is saved under a fresh id; names stay unique |
| TagService.TagService.AddTagsToAttachment | backend/src/main/java/com/doyou/remember/backend/service/TagService.java:31-41 | an unknown attachment fails before any tag is created; otherwise every name is among the attachment's tags, earlier tags remain, no other attachment changes, and the tag table keeps every old row and gains rows only for names in tagNames (one per new name, as names stay unique) |
| TagService.TagService.GetTagsByAttachment | backend/src/main/java/com/doyou/remember/backend/service/TagService.java:44-48 | the attachment's tags, or the empty set for an unknown id |
| TagService.TagService.RemoveTagFromAttachment | backend/src/main/java/com/doyou/remember/backend/service/TagService.java:56-64 | fails on an unknown attachment, then on an unknown tag, changing nothing; otherwise only that tag leaves that attachment and the tag table is untouched |
| TagService.CreateTagIdempotent | backend/src/main/java/com/doyou/remember/backend/service/TagService.java:23-28 | asking twice for one name returns the same tag with that name, stored; the table gains it once if the name was new and is unchanged otherwise |
| TagService.TagService.ExistsByName | backend/src/main/java/com/doyou/remember/backend/service/TagService.java:25 | true iff some stored tag has that name |
| FileValidator.GetFileExtension | backend/src/main/java/com/doyou/remember/backend/common/utils/FileValidator.java:42-48 | fails exactly when there is no '.'; otherwise the lower-cased text from the last '.' inclusive |
| FileValidator.ValidateFile | backend/src/main/java/com/doyou/remember/backend/common/utils/FileValidator.java:13-40 | empty, then null name or "..", then no '.', then an extension that names no constant, then a detected type not starting with "image/"; each error iff its guard is the first to fail |
| FileValidator.NoDoubleDot | backend/src/main/java/com/doyou/remember/backend/common/utils/FileValidator.java:19 | a name whose dots are never adjacent does not contain ".." |
| FileValidator.NamesConstantOfSuffix | backend/src/main/java/com/doyou/remember/backend/common/utils/FileValidator.java:23-24 | the last extension check passes iff the extension without its dot names an enum constant |
| FileValidator.JpegRejected | backend/src/main/java/com/doyou/remember/backend/common/utils/FileValidator.java:23-26 | ".jpeg" is refused because no constant is named JPEG |
| FileValidator.PdfDecidedByType | backend/src/main/java/com/doyou/remember/backend/common/utils/FileValidator.java:23-32 | ".pdf" passes the extension check, so only the detected type decides |
| FileValidator.WebpAccepted | backend/src/main/java/com/doyou/remember/backend/common/utils/FileValidator.java:23-32 | ".webp" with an image type is accepted |
| FileValidator.DotDotRejected | backend/src/main/java/com/doyou/remember/backend/common/utils/FileValidator.java:19-21 | any name containing ".." is refused as a bad name |
| FileValidator.ValidatorsDisagree | backend/src/main/java/com/doyou/remember/backend/common/utils/FileValidator.java:23-26 | the service guard accepts ".jpeg" and refuses ".webp", the validator does the opposite |
| AllowedFileExtension.ValueOf | backend/src/main/java/com/doyou/remember/backend/common/enums/AllowedFileExtension.java:44 | the constant with exactly that name, or none when no constant has it |
| AllowedFileExtension.ValueOfName | backend/src/main/java/com/doyou/remember/backend/common/enums/AllowedFileExtension.java:11-23 | every constant is found by its own name |
| AllowedFileExtension.Contains | backend/src/main/java/com/doyou/remember/backend/common/enums/AllowedFileExtension.java:42-49 | true iff the extension equals some constant's name ignoring case |
| AllowedFileExtension.ContainsExamples | backend/src/main/java/com/doyou/remember/backend/common/enums/AllowedFileExtension.java:11-49 | "jpg", "PNG", "webp" and "txt" are contained; "jpeg" and "" are not |
| AllowedFileExtension.JpegListedButNotNamed | backend/src/main/java/com/doyou/remember/backend/common/enums/AllowedFileExtension.java:11 | ".jpeg" is among JPG's extensions, yet "jpeg" is not contained |
| AllowedFileExtension.DottedExtension | backend/src/main/java/com/doyou/remember/backend/common/enums/AllowedFileExtension.java:34 | the lower-cased text from the last '.' (the one with no '.' after it) inclusive |
| AllowedFileExtension.DottedExtensionAt | backend/src/main/java/com/doyou/remember/backend/common/enums/AllowedFileExtension.java:34 | the extension is the lower-cased text from any dot that has no dot after it |
| AllowedFileExtension.IsAllowed | backend/src/main/java/com/doyou/remember/backend/common/enums/AllowedFileExtension.java:33-40 | fails exactly on a name without '.'; otherwise true iff some constant lists the dotted extension and has exactly the given MIME type |
| AllowedFileExtension.JpegAllowedAsJpeg | backend/src/main/java/com/doyou/remember/backend/common/enums/AllowedFileExtension.java:11-38 | "photo.jpeg" with image/jpeg is allowed |
| AllowedFileExtension.JpgNotAllowedAsPng | backend/src/main/java/com/doyou/remember/backend/common/enums/AllowedFileExtension.java:11-38 | "photo.jpg" with image/png is not allowed |
| AllowedFileExtension.UpperCaseExtensionAllowed | backend/src/main/java/com/doyou/remember/backend/common/enums/AllowedFileExtension.java:34 | the extension is lower-cased before lookup: "PHOTO.PNG" with image/png is allowed |
| AllowedFileExtension.MimeTypeIsCaseSensitive | backend/src/main/java/com/doyou/remember/backend/common/enums/AllowedFileExtension.java:38 | "IMAGE/PNG" does not match image/png |
| AllowedFileExtension.NoDotFails | backend/src/main/java/com/doyou/remember/backend/common/enums/AllowedFileExtension.java:34 | a name without '.' fails |
| AttachmentRepository.JoinedTags | backend/src/main/java/com/doyou/remember/backend/repository/AttachmentRepository.java:14 | the LEFT JOIN gives one row per tag, or a single null row for an untagged attachment |
| AttachmentRepository.FindBySearchCriteria | backend/src/main/java/com/doyou/remember/backend/repository/AttachmentRepository.java:13-24 | the attachments of the table with a joined row that matches, each once |
| AttachmentRepository.SomeRowMatchesIff | backend/src/main/java/com/doyou/remember/backend/repository/AttachmentRepository.java:14-23 | a joined row matches iff the attachment has any tag in the set (when given), lies inclusively between the dates, and its EXIF fields equal every given criterion |
| AttachmentRepository.FindBySearchCriteriaSpec | backend/src/main/java/com/doyou/remember/backend/repository/AttachmentRepository.java:13-24 | an attachment is found iff it is in the table and meets every given criterion |
| AttachmentRepository.NoCriteriaFindsAll | backend/src/main/java/com/doyou/remember/backend/repository/AttachmentRepository.java:16-23 | with every criterion null, every attachment is found |
| AttachmentRepository.UntaggedFailsTagCriterion | backend/src/main/java/com/doyou/remember/backend/repository/AttachmentRepository.java:14-16 | an untagged attachment never matches a given tag set |
| AttachmentRepository.NoExifFailsExifCriterion | backend/src/main/java/com/doyou/remember/backend/repository/AttachmentRepository.java:15-23 | an attachment without EXIF data fails any given EXIF criterion |
| AttachmentRepository.FindByTagNames | backend/src/main/java/com/doyou/remember/backend/repository/AttachmentRepository.java:26-27 | the attachments with some tag in the set, each once |
| AttachmentRepository.TagQueryNeedsTags | backend/src/main/java/com/doyou/remember/backend/repository/AttachmentRepository.java:26 | the inner join never returns an untagged attachment |
| AttachmentRepository.TagQueriesAgree | backend/src/main/java/com/doyou/remember/backend/repository/AttachmentRepository.java:16-27 | the tag query finds exactly what the search query finds with only a tag criterion |
| ClientModel.FindById | frontend/src/app/components/AlbumView.tsx:248 | none exactly when no file has the id; otherwise a file with that id with no earlier file sharing it |
| ClientModel.StoragePathOf | frontend/src/app/components/AlbumView.tsx:248 | undefined exactly when no file has the id; otherwise the storage path of the first file with it |
| ClientModel.ContentUrl | frontend/src/app/components/AlbumView.tsx:248 | the content URL of a path, with "undefined" in place of a missing path |
| ClientModel.ObjectPosition | frontend/src/app/components/AlbumView.tsx:251 | never empty: a non-empty stored position, else "center" |
| ClientModel.FormatFileSize | frontend/src/app/components/FileList.tsx:82-86 | bytes below 1024, kilobytes below 1024², megabytes above, one unit per size; the byte label is the size's decimal digits followed by " B" (ImageDetailModal.tsx has the same function) |
| SearchPanel.OrUndefined | frontend/src/app/components/SearchPanel.tsx:32-38 | undefined exactly for the empty text, the text itself otherwise |
| SearchPanel.BuildCriteria | frontend/src/app/components/SearchPanel.tsx:30-39 | tags are undefined iff none is selected, else the selection unchanged; each text field is undefined iff empty |
| SearchPanel.Entries | frontend/src/app/components/SearchPanel.tsx:30-39 | exactly the eight keys tags, startDate, endDate, make, model, fNumber, exposureTime, isoSpeedRatings, in that order |
| SearchPanel.HandleSearch | frontend/src/app/components/SearchPanel.tsx:29-41 | `onSearch` is called exactly once, with the built criteria |
| SearchPanel.EntriesOfForm | frontend/src/app/components/SearchPanel.tsx:30-39 | a criterion is defined iff its input is filled; a defined text is never empty and the tag value is the non-empty selection |
| SearchPanel.EmptySearch | frontend/src/app/components/SearchPanel.tsx:30-39 | an untouched panel with no tags leaves every criterion undefined |
| FileList.Flip | frontend/src/app/components/FileList.tsx:99 | the other direction |
| FileList.SameSortTwice | frontend/src/app/components/FileList.tsx:97-104 | pressing the current sort button twice restores the option and direction; files, field and tags are untouched |
| FileList.OtherSortTwice | frontend/src/app/components/FileList.tsx:97-104 | pressing another sort button twice selects it, descending |
| FileList.SortFiles | frontend/src/app/components/FileList.tsx:110-125 | a permutation of the input, ascending by the option's key for "asc" and descending for "desc" |
| FileList.FilterByTags | frontend/src/app/components/FileList.tsx:128-136 | an empty selection keeps every file; otherwise a file is kept iff it has every selected name, so untagged files go; never longer than the input |
| FileList.FilteredAndSorted | frontend/src/app/components/FileList.tsx:128-136 | the displayed files are a permutation of the filtered ones, exactly the files with every selected tag, ordered by the sort |
| FileList.NoSelectionShowsAll | frontend/src/app/components/FileList.tsx:128-136 | with no tag selected every file is displayed |
| FileList.FileListState.constructor | frontend/src/app/components/FileList.tsx:21-30 | no files, sort by date descending, sort field createdAt, no tags |
| FileList.FileListState.Displayed | frontend/src/app/components/FileList.tsx:128-136 | exactly the loaded files that have every selected tag |
| FileList.FileListState.SetFiles | frontend/src/app/components/FileList.tsx:53 | the files are replaced, nothing else changes |
| FileList.FileListState.HandleSort | frontend/src/app/components/FileList.tsx:97-104 | the current option flips the direction; another option is chosen ascending |
| FileList.FileListState.ToggleDirection | frontend/src/app/components/FileList.tsx:215 | flips the direction only |
| FileList.FileListState.SetSortField | frontend/src/app/components/FileList.tsx:224-226 | the sort-field selector never changes the displayed list, for every collation |
| FileList.FileListState.HandleTagSelect | frontend/src/app/components/FileList.tsx:106-108 | the selection is replaced, nothing else changes |
| FileList.EveryImpliesAny | frontend/src/app/components/FileList.tsx:130-134 | a file the client keeps for a non-empty selection also matches the server's tag search, which needs only one of the tags |
| FileList.AnyDoesNotImplyEvery | frontend/src/app/components/FileList.tsx:130-134 | the converse fails: a file tagged "a" matches the server for {"a", "b"} but the client drops it |
| FileList.ParamText | frontend/src/app/components/FileList.tsx:42 | a text value is sent as is; a tag list is joined with ',' and splits back into the same names |
| FileList.ParamsHaveKey | frontend/src/app/components/FileList.tsx:41-43 | a key is sent iff some entry with that key has a truthy value |
| FileList.Params | frontend/src/app/components/FileList.tsx:41-43 | at most one parameter per entry, each the key and text of a truthy entry |
| FileList.ParamsContain | frontend/src/app/components/FileList.tsx:41-43 | every truthy entry is sent with its value's text |
| FileList.FetchRequest | frontend/src/app/components/FileList.tsx:37-45 | no criteria fetch the plain list; criteria fetch the advanced search, and a key is a parameter iff its criterion is truthy |
| FileList.SearchParamsFromForm | frontend/src/app/components/FileList.tsx:41-43 | a search from the panel sends a criterion iff its input was filled, carrying that input |
| AlbumView.ClampMinPhotos | frontend/src/app/components/AlbumView.tsx:229 | NaN exactly for unparseable input; otherwise the larger of 1 and the number |
| AlbumView.SortedAlbums | frontend/src/app/components/AlbumView.tsx:51-62 | a permutation of the albums: newest start date first, highest photo count first, or titles ascending by collation |
| AlbumView.Cover | frontend/src/app/components/AlbumView.tsx:245-251 | the placeholder iff the cover id is missing or 0; otherwise the looked-up file's content URL at the stored position or "center" |
| AlbumView.CoverShowsCoverFile | frontend/src/app/components/AlbumView.tsx:248 | a cover id naming one file of the album shows that file |
| AlbumView.DanglingCoverId | frontend/src/app/components/AlbumView.tsx:248 | a cover id naming no file still renders an image, at ".../content/undefined" |
| AlbumView.AlbumViewState.constructor | frontend/src/app/components/AlbumView.tsx:17-22 | no albums, grouping by date, at least 3 photos, sort by date |
| AlbumView.AlbumViewState.SetAlbums | frontend/src/app/components/AlbumView.tsx:42 | the fetched albums replace the list; grouping, minimum and sort are untouched |
| AlbumView.AlbumViewState.Displayed | frontend/src/app/components/AlbumView.tsx:51-62 | a permutation of the loaded albums; the stored list is not reordered |
| AlbumView.AlbumViewState.SetMinPhotos | frontend/src/app/components/AlbumView.tsx:229 | the stored minimum is the clamp of the input |
| AlbumView.AlbumViewState.SetGroupBy | frontend/src/app/components/AlbumView.tsx:175-197 | the grouping is replaced, nothing else changes |
| AlbumView.AlbumViewState.SetSortBy | frontend/src/app/components/AlbumView.tsx:213 | the sort is replaced, nothing else changes |
| AlbumCard.CardCoverPath | frontend/src/app/components/AlbumCard.tsx:43-47 | a truthy cover id gives the path of the first file with it; otherwise the first file's path, or none for an empty album |
| AlbumCard.CardImage | frontend/src/app/components/AlbumCard.tsx:43-51 | the content URL of the cover path (or of "undefined" when there is none), and the stored position when it is set and non-empty, else "center" |
| AlbumCard.NoPathCases | frontend/src/app/components/AlbumCard.tsx:44-46 | no path iff the lookup fails, or there is no cover id and no file |
| AlbumCard.CardAgreesWithGrid | frontend/src/app/components/AlbumCard.tsx:43-51 | with a truthy cover id the card and the album grid show the same image at the same position |
| AlbumCard.CardFallsBackToFirstFile | frontend/src/app/components/AlbumCard.tsx:46 | without one the grid shows its placeholder while the card shows the first file |
| Common.Toggle | frontend/src/app/components/CreateAlbum.tsx:44-50 | the element is in the result iff it was not in the selection; an absent one is appended; other elements stay; no duplicates are introduced |
| Common.ToggleTwiceAbsent | frontend/src/app/components/CreateAlbum.tsx:44-50 | toggling an absent element twice restores the selection |
| Common.ToggleTwicePresent | frontend/src/app/components/CreateAlbum.tsx:44-50 | toggling a present element twice moves it to the end |
| Common.ToggleTwiceReorders | frontend/src/app/components/CreateAlbum.tsx:44-50 | so [1, 2] toggled twice on 1 is [2, 1] |
| CreateAlbum.SubmitDisabled | frontend/src/app/components/CreateAlbum.tsx:198 | disabled iff no file is selected or the title is empty |
| CreateAlbum.CreateAlbumState.constructor | frontend/src/app/components/CreateAlbum.tsx:20-23 | nothing loaded or selected, empty title and description |
| CreateAlbum.CreateAlbumState.SetFiles | frontend/src/app/components/CreateAlbum.tsx:36 | the files are replaced, nothing else changes |
| CreateAlbum.CreateAlbumState.SetTitle | frontend/src/app/components/CreateAlbum.tsx:132 | the title is replaced, nothing else changes |
| CreateAlbum.CreateAlbumState.SetDescription | frontend/src/app/components/CreateAlbum.tsx:145 | the description is replaced, nothing else changes |
| CreateAlbum.CreateAlbumState.HandleFileSelect | frontend/src/app/components/CreateAlbum.tsx:44-50 | the selection becomes the toggle of the id and stays free of duplicates |
| CreateAlbum.CreateAlbumState.Submit | frontend/src/app/components/CreateAlbum.tsx:63-67 | the body carries the title, the description and the ids in selection order |
| CreateAlbum.ServerKeepsSelection | frontend/src/app/components/CreateAlbum.tsx:66 | when every selected id is stored, the server's lookup yields one file per selected id, with exactly those ids |
| ImageDetailModal.JsRem | frontend/src/app/components/ImageDetailModal.tsx:63 | JavaScript's remainder: it takes the dividend's sign and is smaller than the divisor |
| ImageDetailModal.JsRemTurn | frontend/src/app/components/ImageDetailModal.tsx:63-67 | within two turns, `% 360` takes off at most one turn |
| ImageDetailModal.RotateLeft | frontend/src/app/components/ImageDetailModal.tsx:62-64 | a quarter turn left, -270 wrapping to 0; stays a multiple of 90 in (-360, 360) |
| ImageDetailModal.RotateRight | frontend/src/app/components/ImageDetailModal.tsx:66-68 | a quarter turn right, 270 wrapping to 0; stays a multiple of 90 in (-360, 360) |
| ImageDetailModal.RotationsCancel | frontend/src/app/components/ImageDetailModal.tsx:62-68 | left then right, or right then left, returns to the same angle modulo 360 |
| ImageDetailModal.RotationsNeedNotReturn | frontend/src/app/components/ImageDetailModal.tsx:62-68 | but not always to the same number: from -270, left then right gives 90 |
| ImageDetailModal.Rotation.constructor | frontend/src/app/components/ImageDetailModal.tsx:19 | the viewer opens unrotated |
| ImageDetailModal.Rotation.HandleRotateLeft | frontend/src/app/components/ImageDetailModal.tsx:62-64 | the angle turns left and stays reachable |
| ImageDetailModal.Rotation.HandleRotateRight | frontend/src/app/components/ImageDetailModal.tsx:66-68 | the angle turns right and stays reachable |
| ImageDetailModal.TypeLabel | frontend/src/app/components/ImageDetailModal.tsx:87 | throws iff the type has no '/'; otherwise the upper-cased second segment |
| ImageDetailModal.TypeLabelOfMime | frontend/src/app/components/ImageDetailModal.tsx:87 | "major/minor" is labelled with the upper-cased minor part |
| SelectAlbumCoverModal.ClampPercent | frontend/src/app/components/SelectAlbumCoverModal.tsx:41-42 | within [0, 100], equal to the input there, 0 below and 100 above |
| SelectAlbumCoverModal.PositionString | frontend/src/app/components/SelectAlbumCoverModal.tsx:69 | split at the space, the string gives back the two coordinates each followed by "%" |
| SelectAlbumCoverModal.PositionOfValidPoint | frontend/src/app/components/SelectAlbumCoverModal.tsx:69 | a point in the box is reported as two decimal percentages that read back as its coordinates |
| SelectAlbumCoverModal.CoverPicker.constructor | frontend/src/app/components/SelectAlbumCoverModal.tsx:13-16 | no file, position (50, 50), not dragging |
| SelectAlbumCoverModal.CoverPicker.SelectFile | frontend/src/app/components/SelectAlbumCoverModal.tsx:96 | the file is selected, nothing else changes |
| SelectAlbumCoverModal.CoverPicker.HandleMouseDown | frontend/src/app/components/SelectAlbumCoverModal.tsx:19-26 | dragging starts, with the offset from the current position |
| SelectAlbumCoverModal.CoverPicker.HandleMouseMove | frontend/src/app/components/SelectAlbumCoverModal.tsx:28-48 | ignored unless dragging over the image; otherwise each coordinate is the clamped percentage, so it stays in [0, 100] |
| SelectAlbumCoverModal.CoverPicker.HandleMouseUp | frontend/src/app/components/SelectAlbumCoverModal.tsx:50-53 | dragging stops, nothing else changes |
| SelectAlbumCoverModal.CoverPicker.HandleSelect | frontend/src/app/components/SelectAlbumCoverModal.tsx:67-73 | without a file nothing happens; otherwise `onSelect` gets the file's id and "x% y%", then `onClose` |
| AlbumDetailModal.AlbumDetail.constructor | frontend/src/app/components/AlbumDetailModal.tsx:13-14 | nothing selected, index 0 |
| AlbumDetailModal.AlbumDetail.HandleFileClick | frontend/src/app/components/AlbumDetailModal.tsx:16-19 | the file and its index are set together |
| AlbumDetailModal.AlbumDetail.HandlePrevious | frontend/src/app/components/AlbumDetailModal.tsx:21-26 | one step back unless at the first photo, and the selection follows the index |
| AlbumDetailModal.AlbumDetail.HandleNext | frontend/src/app/components/AlbumDetailModal.tsx:28-33 | one step on unless at the last photo, and the selection follows the index |
| AlbumDetailModal.AlbumDetail.HandleKeyDown | frontend/src/app/components/AlbumDetailModal.tsx:36-46 | ignored without a selection or for other keys; Escape clears the selection; the arrows navigate |
| AlbumDetailModal.NextThenPrevious | frontend/src/app/components/AlbumDetailModal.tsx:21-33 | next then previous, away from the last photo, comes back to the same photo |
| Timeline.DateKey | frontend/src/app/components/Timeline.tsx:57-59 | none iff the EXIF time is missing or empty; otherwise the text before the first space |
| Timeline.KeysMembership | frontend/src/app/components/Timeline.tsx:57-59 | a day is a key iff some photo was taken on it |
| Timeline.FindGroup | frontend/src/app/components/Timeline.tsx:60 | the first group of that day, or -1 when none has it |
| Timeline.AddFile | frontend/src/app/components/Timeline.tsx:57-68 | an undated photo changes nothing; a photo joins the end of the first group of its day, leaving the others; a new day appends a one-photo group |
| Timeline.AddToExisting | frontend/src/app/components/Timeline.tsx:62-63 | a photo of a day with a group joins the end of that group, keeping the grouping exact |
| Timeline.AddNewGroup | frontend/src/app/components/Timeline.tsx:64-66 | a photo of a new day opens a group at the end, keeping the grouping exact |
| Timeline.GroupsOfSpec | frontend/src/app/components/Timeline.tsx:56-69 | groups appear once per day in order of each day's first photo, and each holds exactly that day's photos in file order |
| Timeline.GroupsOf | frontend/src/app/components/Timeline.tsx:56-69 | no more groups than photos |
| Timeline.GroupsDistinctAndNonEmpty | frontend/src/app/components/Timeline.tsx:56-69 | no two groups share a day and no group is empty |
| Timeline.FilesOnContains | frontend/src/app/components/Timeline.tsx:56-69 | a dated photo is in the group of its day |
| Timeline.GroupByDate | frontend/src/app/components/Timeline.tsx:56-69 | the reducer loop builds exactly that grouping |
| UseSwipe.ThresholdOf | frontend/src/hooks/useSwipe.ts:25 | 50 unless the caller gives a threshold |
| UseSwipe.Classify | frontend/src/hooks/useSwipe.ts:53-73 | each direction fires iff its axis dominates (a tie is vertical), the distance exceeds the threshold, the sign matches and the handler exists |
| UseSwipe.DiagonalIsVertical | frontend/src/hooks/useSwipe.ts:53 | an exact diagonal never fires a horizontal handler |
| UseSwipe.ShortMoveFiresNothing | frontend/src/hooks/useSwipe.ts:55-66 | a move within the threshold on both axes fires nothing |
| UseSwipe.SwipeTracker.constructor | frontend/src/hooks/useSwipe.ts:25-26 | the given handlers and threshold, no touch in progress |
| UseSwipe.SwipeTracker.HandleTouchStart | frontend/src/hooks/useSwipe.ts:28-40 | the start point is stored |
| UseSwipe.SwipeTracker.HandleTouchMove | frontend/src/hooks/useSwipe.ts:42-78 | without a start nothing happens; otherwise the classified handler, if any, is called and only then is the start forgotten |
| UseSwipe.SwipeTracker.HandleTouchEnd | frontend/src/hooks/useSwipe.ts:80-82 | the start is always forgotten |
| ImageGallery.PrevIndex | frontend/src/components/common/ImageGallery.tsx:23 | one back, 0 wrapping to the last index; stays in range |
| ImageGallery.NextIndex | frontend/src/components/common/ImageGallery.tsx:30 | one on modulo the length; stays in range |
| ImageGallery.PrevNextInverse | frontend/src/components/common/ImageGallery.tsx:23-30 | previous undoes next and next undoes previous |
| ImageGallery.GallerySwipesAreHorizontal | frontend/src/components/common/ImageGallery.tsx:34-37 | the gallery's swipes are only left or right |
| ImageGallery.Gallery.constructor | frontend/src/components/common/ImageGallery.tsx:17-18 | the first image, not animating |
| ImageGallery.Gallery.HandlePrevious | frontend/src/components/common/ImageGallery.tsx:20-25 | ignored while animating; otherwise one back with wrap-around, and the animation starts |
| ImageGallery.Gallery.HandleNext | frontend/src/components/common/ImageGallery.tsx:27-32 | ignored while animating; otherwise one on with wrap-around, and the animation starts |
| ImageGallery.Gallery.HandleAnimationEnd | frontend/src/components/common/ImageGallery.tsx:24 | the lock is released and the index stays |
| ImageGallery.Gallery.HandleSelectIndex | frontend/src/components/common/ImageGallery.tsx:107 | a thumbnail or indicator click selects that index unless animating |
| ImageGallery.Gallery.HandleSwipe | frontend/src/components/common/ImageGallery.tsx:34-37 | a left swipe goes next, a right swipe previous |
| ImageGallery.NextThenPrevious | frontend/src/components/common/ImageGallery.tsx:20-32 | next, the end of its animation, then previous returns to the start |
| ImageGallery.NextThenPreviousTooSoon | frontend/src/components/common/ImageGallery.tsx:21-31 | without the end of the animation the second press is ignored |
| TagSearch.FilteredTags | frontend/src/app/components/TagSearch.tsx:71-74 | every offered tag is a listed tag whose lower-cased name contains the lower-cased term and that is not chosen, and every such tag is offered |
| TagSearch.FilteredTagsSnoc | frontend/src/app/components/TagSearch.tsx:71-74 | the empty list offers nothing, and a tag listed last is offered last or not at all, so the offered tags keep the server's order and duplicates |
| TagSearch.SuggestionsShown | frontend/src/app/components/TagSearch.tsx:117 | the list is open iff it was opened and the term is non-empty |
| TagSearch.EmptyTermOffersUnselected | frontend/src/app/components/TagSearch.tsx:71-74 | the empty term offers every tag not chosen |
| TagSearch.TermCaseIgnored | frontend/src/app/components/TagSearch.tsx:72 | an upper-cased term offers the same tags in the same order |
| TagSearch.PickedTagNotOffered | frontend/src/app/components/TagSearch.tsx:61-74 | a picked tag is no longer offered, whatever the term |
| TagSearch.TagSearchState.constructor | frontend/src/app/components/TagSearch.tsx:15-18 | no tags, empty term, list closed |
| TagSearch.TagSearchState.SetTags | frontend/src/app/components/TagSearch.tsx:30 | the tags are replaced, nothing else changes |
| TagSearch.TagSearchState.HandleInput | frontend/src/app/components/TagSearch.tsx:108-111 | the term is replaced and the list opens |
| TagSearch.TagSearchState.HandleFocus | frontend/src/app/components/TagSearch.tsx:112 | the list opens |
| TagSearch.TagSearchState.HandleClickOutside | frontend/src/app/components/TagSearch.tsx:45-50 | a visible list closes; when the list is not mounted (empty term) the flag is left as it was; tags, term and events are untouched |
| TagSearch.FocusThenClickOutside | frontend/src/app/components/TagSearch.tsx:45-50 | with an empty term, focusing then clicking outside leaves the flag set, since the list ref is not mounted |
| TagSearch.TagSearchState.HandleTagSelect | frontend/src/app/components/TagSearch.tsx:61-69 | `onTagSelect` when given, then `onTagsChange`, receive the toggled list; the term is cleared and the list closed |
| EditAlbumModal.InitialDescription | frontend/src/app/components/EditAlbumModal.tsx:13 | a missing description edits as "" |
| EditAlbumModal.WithoutId | frontend/src/app/components/EditAlbumModal.tsx:40 | no file with the id remains; the others all stay |
| EditAlbumModal.WithoutIdKeepsNoDuplicates | frontend/src/app/components/EditAlbumModal.tsx:40 | removing keeps the ids unique |
| EditAlbumModal.ToggleById | frontend/src/app/components/EditAlbumModal.tsx:36-45 | the file's id is selected afterwards iff it was not; an absent file is appended; files with other ids stay |
| EditAlbumModal.ToggleByIdKeepsNoDuplicates | frontend/src/app/components/EditAlbumModal.tsx:36-45 | toggling never selects an id twice |
| EditAlbumModal.ToggleByIdTwiceAbsent | frontend/src/app/components/EditAlbumModal.tsx:36-45 | toggling an unselected file twice restores the selection |
| EditAlbumModal.EditAlbumState.constructor | frontend/src/app/components/EditAlbumModal.tsx:12-15 | the album's title, its description or "", its files selected |
| EditAlbumModal.EditAlbumState.SetAllFiles | frontend/src/app/components/EditAlbumModal.tsx:30 | the file list is replaced, nothing else changes |
| EditAlbumModal.EditAlbumState.SetTitle | frontend/src/app/components/EditAlbumModal.tsx:75 | the title is replaced, nothing else changes |
| EditAlbumModal.EditAlbumState.SetDescription | frontend/src/app/components/EditAlbumModal.tsx:86 | the description is replaced, nothing else changes |
| EditAlbumModal.EditAlbumState.HandleFileToggle | frontend/src/app/components/EditAlbumModal.tsx:36-45 | the selection is toggled by id and unique ids stay unique |
| EditAlbumModal.EditAlbumState.HandleSave | frontend/src/app/components/EditAlbumModal.tsx:47-59 | `onSave` gets the album id, title, description and selected ids in order; `onClose` follows only when it succeeds |
| EditAlbumModal.EditAlbumState.HandleCancel | frontend/src/app/components/EditAlbumModal.tsx:118-120 | `onClose` only |
| TagContext.AddTagTo | frontend/src/app/contexts/TagContext.tsx:23-31 | the list unchanged when the id is present, else the tag appended |
| TagContext.RemoveTagFrom | frontend/src/app/contexts/TagContext.tsx:33-35 | no tag with the id remains; every other tag stays |
| TagContext.AddKeepsIdsUnique | frontend/src/app/contexts/TagContext.tsx:23-31 | adding keeps the ids unique |
| TagContext.RemoveKeepsIdsUnique | frontend/src/app/contexts/TagContext.tsx:33-35 | removing keeps the ids unique |
| TagContext.RemoveDistributes | frontend/src/app/contexts/TagContext.tsx:34 | removal works part by part, so the remaining tags keep their order |
| TagContext.AddThenRemove | frontend/src/app/contexts/TagContext.tsx:23-35 | adding a new id and removing it restores the list |
| TagContext.AddIdempotent | frontend/src/app/contexts/TagContext.tsx:23-31 | adding twice is adding once |
| TagContext.RemoveIdempotent | frontend/src/app/contexts/TagContext.tsx:33-35 | removing twice is removing once |
| TagContext.TagStore.constructor | frontend/src/app/contexts/TagContext.tsx:21 | the list starts empty |
| TagContext.TagStore.SetTags | frontend/src/app/contexts/TagContext.tsx:21 | the list is replaced |
| TagContext.TagStore.AddTag | frontend/src/app/contexts/TagContext.tsx:23-31 | the list becomes the added list, and unique ids stay unique |
| TagContext.TagStore.RemoveTag | frontend/src/app/contexts/TagContext.tsx:33-35 | the list becomes the removed list, and unique ids stay unique |
| ImageUploader.CheckFile | frontend/src/app/components/ImageUploader.tsx:15-26 | too large iff over 50 MiB; not an image iff within the bound and the type lacks the "image/" prefix; accepted otherwise |
| ImageUploader.MaxSizeBoundary | frontend/src/app/components/ImageUploader.tsx:17 | exactly 52,428,800 bytes pass and one more byte does not |
| ImageUploader.SizeBoundAgrees | frontend/src/app/components/ImageUploader.tsx:17-20 | a non-empty file is too large for the client iff it is for the server |
| ImageUploader.EmptyImagePassesClientOnly | frontend/src/app/components/ImageUploader.tsx:15-26 | a 0-byte PNG passes the client's guards and the server refuses it as empty |
| ImageUploader.Uploader.constructor | frontend/src/app/components/ImageUploader.tsx:9-13 | nothing picked, no preview, not uploading, no error, not dragging |
| ImageUploader.Uploader.HandleFile | frontend/src/app/components/ImageUploader.tsx:15-37 | a refused file only sets the error and keeps the earlier pick; an accepted one is picked and clears the error |
| ImageUploader.Uploader.HandlePreviewLoaded | frontend/src/app/components/ImageUploader.tsx:33-35 | the preview shows the data URL |
| ImageUploader.Uploader.SetDragging | frontend/src/app/components/ImageUploader.tsx:46-56 | the drag highlight follows enter and leave |
| ImageUploader.Uploader.HandleDrop | frontend/src/app/components/ImageUploader.tsx:63-72 | the drag ends and the first dropped file goes through the guards |
| ImageUploader.Uploader.HandleUpload | frontend/src/app/components/ImageUploader.tsx:74-104 | nothing without a pick; success reports the path and clears pick and preview; failure keeps the pick and sets the error; uploading ends false |
| ServiceWorker.StaleCaches | frontend/public/sw.js:31-39 | exactly the app-prefixed caches other than the two current ones |
| ServiceWorker.StaleExamples | frontend/public/sw.js:1-2 | an older version's cache is stale, another app's cache is not, and both current names carry the prefix |
| ServiceWorker.StrategyOf | frontend/public/sw.js:49-69 | any URL containing "/api/" is network first whatever its destination; otherwise an image is cache first |
| ServiceWorker.HandleAsWritten | frontend/public/sw.js:47-119 | only a network reply is ever stored; an image hit is answered from the cache, a miss fetched and stored; the API stores every reply; for other requests online, an ok reply is the answer and is stored, a non-ok one gives the cached copy or else a 408; offline falls back to the cache, then "/offline.html" for documents, else a 408; a document's reply is never used |
| ServiceWorker.DocumentIgnoresNetwork | frontend/public/sw.js:93-98 | as written, a document gets the same answer whatever the network says |
| ServiceWorker.OnlineDocumentFails | frontend/public/sw.js:92-116 | as written, an uncached page fails to open on a healthy network, since "/offline.html" is never precached |
| ServiceWorker.HandleIntended | frontend/public/sw.js:88-105 | corrected: an ok reply in the last branch is the answer, and documents are never stored |
| ServiceWorker.IntendedDiffersOnlyForOkDocuments | frontend/public/sw.js:92-98 | the correction changes only ok document replies of the last branch |
| ServiceWorker.OnlineDocumentOpens | frontend/public/sw.js:92-98 | corrected, the same page opens from the network |
| ServiceWorker.ApiNetworkFirstStores | frontend/public/sw.js:49-66 | an API reply is the answer and is stored; offline, the cached one is the answer |
| ServiceWorker.MatchIn | frontend/public/sw.js:62 | none iff no cache holds the URL; otherwise the entry of the first cache, in creation order, that holds it |
| ServiceWorker.MatchInOnlyHolder | frontend/public/sw.js:62 | a URL only one cache holds is answered from that cache |
| ServiceWorker.CacheStorage.Match | frontend/public/sw.js:62 | none iff no open cache holds the URL; otherwise the entry of the first open cache, in creation order, that holds it |
| ServiceWorker.AddAll | frontend/public/sw.js:19 | every precached URL is present and every earlier entry stays |
| ServiceWorker.AddAllValues | frontend/public/sw.js:19 | with distinct URLs each holds its own reply |
| ServiceWorker.CacheStorage.Open | frontend/public/sw.js:18 | an unknown name opens an empty cache created last |
| ServiceWorker.CacheStorage.constructor | frontend/public/sw.js:18 | no caches are open |
| ServiceWorker.CacheStorage.Fill | frontend/public/sw.js:19 | only the named cache changes, to its entries with every URL added |
| ServiceWorker.CacheStorage.Install | frontend/public/sw.js:15-22 | the precache is opened and filled iff every reply is ok |
| ServiceWorker.CacheStorage.Activate | frontend/public/sw.js:25-44 | exactly the stale caches are deleted; the others keep their entries |
| ServiceWorker.CacheStorage.HandleFetch | frontend/public/sw.js:47-119 | the corrected handler's answer, with the runtime cache updated exactly when it stores |
| ServiceWorker.ApiReplayOffline | frontend/public/sw.js:49-66 | an API reply seen online is what the same request gets offline |

## Left out

- File-system and clock I/O in the file service (saving, deleting and loading files, creating directories, `LocalDate.now`, `currentTimeMillis`): the clock readings are parameters of `CreateStoragePath`.
- FileService.GenerateDateBasedAlbums: the order of the albums is not stated. The final sort compares `Album.createdAt`, which is null on these unsaved albums, so with two or more albums it throws (see Findings); the model emits the albums in order of each day's first file.
- `FileService.searchFiles` and the EXIF extraction service: both are stubs or library wrappers.
- Tika content detection: the detected MIME type is an input of `FileValidator.ValidateFile`.
- The executable-header check in the validator: it compares a 4-byte buffer with a 2-byte array, so it never rejects, and the model has no guard for it.
- The tag link of an attachment: attachment tags are a map from attachment id to a set of tags.
- Case mapping is ASCII only: Java's and JavaScript's Unicode and locale-sensitive case rules are not modelled.
- Floating point on the client: `toFixed(1)` of the KB and MB sizes (the model keeps the byte count), the pixel-to-percent division of the cover picker (the percentages are inputs), and the zoom and scale of the image viewer.
- `localeCompare` is an integer collation key, so ties in it and its locale rules are not modelled.
- `Intl` and `date-fns` date formatting, toasts, timers other than the gallery's animation end, and the loading and error flags of the fetches: the outcome of each fetch is an argument.
- The descending sort of the timeline groups: it parses "yyyy:MM:dd" with `new Date`, whose result for that text is implementation-defined. The model stops at the grouping.
- The stability of the client's sorts: the model sorts stably, but the contracts do not state it.
- URL encoding of query parameters: the model keeps the key and text of each one.
- The album list's own fetch URL and the server-side effects of what the client sends.
- ImageGallery with no images: the model states its index invariant only for a non-empty gallery.
- Service worker: `skipWaiting`, `clients.claim`, request methods and `Vary` matching are not modelled. `cache.put` takes effect at once, though the source does not await it.
- ServiceWorker.CacheStorage.HandleFetch: it answers with the corrected handler described under Findings, not the one as written.
- The `useState` initialisers of the edit form run once, so a later change to the album prop is not modelled.

## Findings

| source | as written | input that shows it | evidently intended | confidence | as-written member | corrected member |
|---|---|---|---|---|---|---|
| frontend/public/sw.js:93-98 | in the network-first branch, an ok response to a document request is thrown away. The page then gets the cached copy or "/offline.html", and that page is never precached. | A navigation to "/albums" on a healthy network, with an empty runtime cache. The network answers 200, the cache lookups find nothing, and the navigation fails. | The comment above the check says HTML is always fetched from the network. So an ok document response should be the answer and simply not be cached. | not executed | ServiceWorker.OnlineDocumentFails | ServiceWorker.OnlineDocumentOpens |
| backend/src/main/java/com/doyou/remember/backend/service/FileService.java:199 | the albums are sorted by `createdAt` with `compareTo`, but `new Album()` leaves `createdAt` null until the album is saved. | Two photos taken on different days with minPhotos 1: two albums are kept and the comparator dereferences null, so the request fails. | Return the generated albums, e.g. ordered by their day. | not executed | FileService.TwoDaysThrow | FileService.DateAlbumsPartition |
