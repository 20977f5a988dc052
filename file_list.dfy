/**
 * app/components/FileList.tsx: the photo list's sort controls, its client-side tag
 * filter, the list it displays, and the query parameters a search sends.
 */
module FileList {
  import opened Common
  import opened Sorting
  import opened ClientModel
  import SearchPanel
  import AttachmentRepository

  datatype SortOption = Name | Date | Size
  datatype SortDirection = Asc | Desc
  /** The value of the sort-field `<select>`. */
  datatype SortField = FileName | FileSize | CreatedAt

  function Flip(d: SortDirection): (r: SortDirection)
    ensures r != d
  {
    if d == Asc then Desc else Asc
  }

  /**
   * The quantity the comparator of `sortFiles` subtracts: the collation key of the
   * name (standing for `localeCompare`), the creation time or the size.
   */
  function BaseKey(option: SortOption, collate: string -> int): ClientFile -> int {
    match option
    case Name => (f: ClientFile) => collate(f.fileName)
    case Date => (f: ClientFile) => f.createdAt
    case Size => (f: ClientFile) => f.fileSize
  }

  /** "desc" negates the comparison, which is sorting by the negated key. */
  function SortKey(option: SortOption, direction: SortDirection, collate: string -> int): ClientFile -> int {
    var base := BaseKey(option, collate);
    if direction == Asc then base else (f: ClientFile) => -base(f)
  }

  /** `sortFiles`: a sorted copy, ascending or descending by the chosen key. */
  function SortFiles(fs: seq<ClientFile>, option: SortOption, direction: SortDirection, collate: string -> int)
    : (r: seq<ClientFile>)
    ensures multiset(r) == multiset(fs)
    ensures direction == Asc ==> forall i, j :: 0 <= i < j < |r| ==>
      BaseKey(option, collate)(r[i]) <= BaseKey(option, collate)(r[j])
    ensures direction == Desc ==> forall i, j :: 0 <= i < j < |r| ==>
      BaseKey(option, collate)(r[i]) >= BaseKey(option, collate)(r[j])
  {
    var r := SortByKey(fs, SortKey(option, direction, collate));
    assert SortedByKey(r, SortKey(option, direction, collate));
    r
  }

  /** `file.tags?.some(fileTag => fileTag.name === tag)`: false for an untagged file. */
  predicate HasTag(f: ClientFile, tag: string) {
    f.tags.Some? && exists k :: 0 <= k < |f.tags.value| && f.tags.value[k].name == tag
  }

  /** `selectedTags.every(tag => ...)`. */
  predicate HasAllTags(f: ClientFile, selected: seq<string>) {
    forall i :: 0 <= i < |selected| ==> HasTag(f, selected[i])
  }

  /** The tag step of `filteredAndSortedFiles`. */
  function FilterByTags(fs: seq<ClientFile>, selected: seq<string>): (r: seq<ClientFile>)
    ensures selected == [] ==> r == fs
    ensures |r| <= |fs|
    ensures forall f :: f in r <==> f in fs && HasAllTags(f, selected)
    ensures selected != [] ==> forall i :: 0 <= i < |r| ==> r[i].tags.Some?
  {
    if |selected| > 0 then
      var r := Filter(fs, (f: ClientFile) => HasAllTags(f, selected));
      assert forall i :: 0 <= i < |r| ==> HasTag(r[i], selected[0]);
      r
    else fs
  }

  /** `filteredAndSortedFiles`: the tag filter, then `sortFiles`. */
  function FilteredAndSorted(fs: seq<ClientFile>, selected: seq<string>, option: SortOption,
                             direction: SortDirection, collate: string -> int): (r: seq<ClientFile>)
    ensures multiset(r) == multiset(FilterByTags(fs, selected))
    ensures |r| <= |fs|
    ensures forall f :: f in r <==> f in fs && HasAllTags(f, selected)
    ensures direction == Asc ==> forall i, j :: 0 <= i < j < |r| ==>
      BaseKey(option, collate)(r[i]) <= BaseKey(option, collate)(r[j])
    ensures direction == Desc ==> forall i, j :: 0 <= i < j < |r| ==>
      BaseKey(option, collate)(r[i]) >= BaseKey(option, collate)(r[j])
  {
    var kept := FilterByTags(fs, selected);
    var r := SortFiles(kept, option, direction, collate);
    assert |r| == |multiset(r)| == |multiset(kept)| == |kept|;
    forall f ensures f in r <==> f in kept {
      assert f in r <==> f in multiset(r);
      assert f in kept <==> f in multiset(kept);
    }
    r
  }

  /** An empty tag selection displays every file. */
  lemma {:induction false} NoSelectionShowsAll(fs: seq<ClientFile>, option: SortOption,
                                               direction: SortDirection, collate: string -> int)
    ensures multiset(FilteredAndSorted(fs, [], option, direction, collate)) == multiset(fs)
  {
    assert FilterByTags(fs, []) == fs;
  }

  /** The component's state; `selectedTags` is the SearchPanel/TagSearch selection. */
  class FileListState {
    var files: seq<ClientFile>
    var sortOption: SortOption
    var sortDirection: SortDirection
    var sortField: SortField
    var selectedTags: seq<string>

    /** The initial state: no files, newest first. */
    constructor()
      ensures files == [] && selectedTags == []
      ensures sortOption == Date && sortDirection == Desc && sortField == CreatedAt
    {
      files := [];
      sortOption := Date;
      sortDirection := Desc;
      sortField := CreatedAt;
      selectedTags := [];
    }

    /** The list the grid renders. `sortField` plays no part in it. */
    function Displayed(collate: string -> int): (r: seq<ClientFile>)
      reads this
      ensures forall f :: f in r <==> f in files && HasAllTags(f, selectedTags)
    {
      FilteredAndSorted(files, selectedTags, sortOption, sortDirection, collate)
    }

    /** `setFiles(data)` after a fetch. */
    method SetFiles(data: seq<ClientFile>)
      modifies this
      ensures files == data
      ensures sortOption == old(sortOption) && sortDirection == old(sortDirection)
      ensures sortField == old(sortField) && selectedTags == old(selectedTags)
    {
      files := data;
    }

    /** `handleSort`: the current option flips the direction, another one sorts ascending by it. */
    method HandleSort(option: SortOption)
      modifies this
      ensures option == old(sortOption) ==> sortOption == option && sortDirection == Flip(old(sortDirection))
      ensures option != old(sortOption) ==> sortOption == option && sortDirection == Asc
      ensures files == old(files) && sortField == old(sortField) && selectedTags == old(selectedTags)
    {
      if option == sortOption {
        sortDirection := if sortDirection == Asc then Desc else Asc;
      } else {
        sortOption := option;
        sortDirection := Asc;
      }
    }

    /** The direction button beside the field `<select>`. */
    method ToggleDirection()
      modifies this
      ensures sortDirection == Flip(old(sortDirection))
      ensures files == old(files) && sortOption == old(sortOption)
      ensures sortField == old(sortField) && selectedTags == old(selectedTags)
    {
      sortDirection := if sortDirection == Asc then Desc else Asc;
    }

    /** The field `<select>`: it is stored, and the displayed list does not change. */
    method SetSortField(field: SortField)
      modifies this
      ensures sortField == field
      ensures files == old(files) && sortOption == old(sortOption)
      ensures sortDirection == old(sortDirection) && selectedTags == old(selectedTags)
      ensures forall collate :: Displayed(collate) == old(Displayed(collate))
    {
      sortField := field;
    }

    /** `handleTagSelect` and the panel's `onTagsChange`: the selection is replaced. */
    method HandleTagSelect(tags: seq<string>)
      modifies this
      ensures selectedTags == tags
      ensures files == old(files) && sortOption == old(sortOption)
      ensures sortDirection == old(sortDirection) && sortField == old(sortField)
    {
      selectedTags := tags;
    }
  }

  /** Pressing the current sort button twice gives back the state it started from. */
  method SameSortTwice(s: FileListState)
    modifies s
    ensures s.sortOption == old(s.sortOption) && s.sortDirection == old(s.sortDirection)
    ensures s.files == old(s.files) && s.sortField == old(s.sortField) && s.selectedTags == old(s.selectedTags)
  {
    s.HandleSort(s.sortOption);
    s.HandleSort(s.sortOption);
  }

  /** Another sort button twice: that option, now descending. */
  method OtherSortTwice(s: FileListState, option: SortOption)
    requires option != s.sortOption
    modifies s
    ensures s.sortOption == option && s.sortDirection == Desc
    ensures s.files == old(s.files) && s.sortField == old(s.sortField) && s.selectedTags == old(s.selectedTags)
  {
    s.HandleSort(option);
    s.HandleSort(option);
  }

  // ------------------------------------------------------------ client versus server

  /** The tag names of a file, in order; none for an untagged file. */
  function TagNames(f: ClientFile): (ns: seq<string>)
    ensures |ns| == (if f.tags.Some? then |f.tags.value| else 0)
    ensures forall k :: 0 <= k < |ns| ==> ns[k] == f.tags.value[k].name
  {
    if f.tags.Some? then Map(f.tags.value, (t: ClientTag) => t.name) else []
  }

  /** The attachment row the server would match a file against (dates and EXIF aside). */
  function AsAttachment(f: ClientFile): AttachmentRepository.Attachment {
    AttachmentRepository.Attachment(f.id, f.createdAt, TagNames(f), None)
  }

  /** The server criteria for a tag selection alone. */
  function TagCriteria(selected: seq<string>): AttachmentRepository.SearchCriteria {
    AttachmentRepository.SearchCriteria(
      Some(set i | 0 <= i < |selected| :: selected[i]), None, None, None, None, None, None, None)
  }

  /**
   * The client keeps a file only when it has EVERY selected tag; the server's tag
   * criterion accepts ANY of them. Every file the client keeps, the server matches.
   */
  lemma {:induction false} EveryImpliesAny(f: ClientFile, selected: seq<string>)
    requires selected != [] && HasAllTags(f, selected)
    ensures AttachmentRepository.Matches(TagCriteria(selected), AsAttachment(f))
  {
    assert HasTag(f, selected[0]);
    var k :| 0 <= k < |f.tags.value| && f.tags.value[k].name == selected[0];
    var a := AsAttachment(f);
    assert a.tagNames[k] == selected[0];
    assert a.tagNames[k] in TagCriteria(selected).tags.value;
  }

  /** The converse fails: a file with only "a" matches the server's "a or b" but not the client's "a and b". */
  lemma AnyDoesNotImplyEvery()
    ensures var f := ClientFile(1, "p.jpg", "p.jpg", 1, "image/jpeg", 0, Some([ClientTag(1, "a")]), None);
      AttachmentRepository.Matches(TagCriteria(["a", "b"]), AsAttachment(f)) &&
      !HasAllTags(f, ["a", "b"])
  {
    var f := ClientFile(1, "p.jpg", "p.jpg", 1, "image/jpeg", 0, Some([ClientTag(1, "a")]), None);
    var a := AsAttachment(f);
    assert a.tagNames[0] == "a";
    assert ["a", "b"][0] == "a";
    assert !HasTag(f, ["a", "b"][1]);
  }

  // ------------------------------------------------------------ query parameters

  /** JavaScript truthiness of a criteria value: "" and undefined are falsy, an array never is. */
  predicate Truthy(v: SearchPanel.Value) {
    match v
    case Undefined => false
    case Text(s) => s != ""
    case Names(_) => true
  }

  /** `value.toString()`: an array of names is joined with ','. */
  function ParamText(v: SearchPanel.Value): (s: string)
    requires !v.Undefined?
    ensures v.Text? ==> s == v.text
    ensures v.Names? && |v.names| >= 1 && (forall k :: 0 <= k < |v.names| ==> ',' !in v.names[k]) ==>
      Split(s, ',') == v.names
  {
    match v
    case Text(t) => t
    case Names(ns) =>
      var s := Join(ns, ',');
      assert |ns| >= 1 && (forall k :: 0 <= k < |ns| ==> ',' !in ns[k]) ==> Split(s, ',') == ns by {
        if |ns| >= 1 && (forall k :: 0 <= k < |ns| ==> ',' !in ns[k]) {
          SplitJoin(ns, ',');
        }
      }
      s
  }

  /** One `params.append(key, value.toString())`. */
  function Param(e: (string, SearchPanel.Value)): (string, string)
    requires Truthy(e.1)
  {
    (e.0, ParamText(e.1))
  }

  /** The parameters appended for the truthy entries, in entry order. */
  function Params(es: seq<(string, SearchPanel.Value)>): (ps: seq<(string, string)>)
    ensures |ps| <= |es|
    ensures forall i :: 0 <= i < |ps| ==> SentFrom(ps[i], es)
  {
    if es == [] then []
    else
      var rest := Params(es[1..]);
      assert forall i :: 0 <= i < |rest| ==> SentFrom(rest[i], es) by {
        forall i | 0 <= i < |rest| ensures SentFrom(rest[i], es) { SentFromTail(rest[i], es); }
      }
      if Truthy(es[0].1) then
        assert SentFrom(Param(es[0]), es) by { assert Truthy(es[0].1) && Param(es[0]) == Param(es[0]); }
        [Param(es[0])] + rest
      else rest
  }

  /** `p` is the parameter of some truthy entry of `es`. */
  predicate SentFrom(p: (string, string), es: seq<(string, SearchPanel.Value)>) {
    exists k :: 0 <= k < |es| && Truthy(es[k].1) && p == Param(es[k])
  }

  lemma SentFromTail(p: (string, string), es: seq<(string, SearchPanel.Value)>)
    requires es != [] && SentFrom(p, es[1..])
    ensures SentFrom(p, es)
  {
    var k :| 0 <= k < |es[1..]| && Truthy(es[1..][k].1) && p == Param(es[1..][k]);
    assert es[k + 1] == es[1..][k];
  }

  /** A key is sent exactly when some entry with that key has a truthy value. */
  lemma {:induction false} ParamsHaveKey(es: seq<(string, SearchPanel.Value)>, key: string)
    ensures HasParam(Params(es), key) <==> HasTruthyEntry(es, key)
  {
    if es != [] {
      ParamsHaveKey(es[1..], key);
      TruthyEntryCons(es, key);
      if Truthy(es[0].1) {
        HasParamCons(Param(es[0]), Params(es[1..]), key);
      }
    }
  }

  /** Some entry of `es` has key `key` and a truthy value. */
  predicate HasTruthyEntry(es: seq<(string, SearchPanel.Value)>, key: string) {
    exists k :: 0 <= k < |es| && es[k].0 == key && Truthy(es[k].1)
  }

  lemma HasParamCons(p: (string, string), rest: seq<(string, string)>, key: string)
    ensures HasParam([p] + rest, key) <==> p.0 == key || HasParam(rest, key)
  {
    var ps := [p] + rest;
    if HasParam(rest, key) {
      var j :| 0 <= j < |rest| && rest[j].0 == key;
      assert ps[j + 1].0 == key;
    }
    if HasParam(ps, key) && p.0 != key {
      var j :| 0 <= j < |ps| && ps[j].0 == key;
      assert rest[j - 1].0 == key;
    }
    if p.0 == key {
      assert ps[0].0 == key;
    }
  }

  lemma TruthyEntryCons(es: seq<(string, SearchPanel.Value)>, key: string)
    requires es != []
    ensures HasTruthyEntry(es, key) <==> (es[0].0 == key && Truthy(es[0].1)) || HasTruthyEntry(es[1..], key)
  {
    if HasTruthyEntry(es[1..], key) {
      var k :| 0 <= k < |es[1..]| && es[1..][k].0 == key && Truthy(es[1..][k].1);
      assert es[k + 1] == es[1..][k];
    }
    if HasTruthyEntry(es, key) {
      var k :| 0 <= k < |es| && es[k].0 == key && Truthy(es[k].1);
      if k > 0 {
        assert es[1..][k - 1] == es[k];
      }
    }
    if es[0].0 == key && Truthy(es[0].1) {
      assert 0 < |es|;
    }
  }

  /** Every truthy entry is sent, with its value's text. */
  lemma {:induction false} ParamsContain(es: seq<(string, SearchPanel.Value)>, k: int)
    requires 0 <= k < |es| && Truthy(es[k].1)
    ensures Param(es[k]) in Params(es)
  {
    if k > 0 {
      assert es[k] == es[1..][k - 1];
      ParamsContain(es[1..], k - 1);
    }
  }

  /** The keys of a list of parameters. */
  predicate HasParam(ps: seq<(string, string)>, key: string) {
    exists j :: 0 <= j < |ps| && ps[j].0 == key
  }

  /** The request `fetchFiles` sends: the plain list, or the advanced search with its parameters. */
  datatype Request = Request(path: string, params: seq<(string, string)>)

  function FetchRequest(criteria: Option<SearchPanel.Criteria>): (r: Request)
    ensures criteria.None? ==> r == Request("/api/v1/files/list", [])
    ensures criteria.Some? ==>
      r.path == "/api/v1/files/search/advanced" && r.params == Params(SearchPanel.Entries(criteria.value))
    ensures criteria.Some? ==> forall key :: HasParam(r.params, key) <==>
      exists k :: 0 <= k < |SearchPanel.CriteriaKeys| && SearchPanel.CriteriaKeys[k] == key &&
                  Truthy(SearchPanel.Entries(criteria.value)[k].1)
  {
    if criteria.None? then Request("/api/v1/files/list", [])
    else
      var es := SearchPanel.Entries(criteria.value);
      assert forall key :: HasParam(Params(es), key) <==>
        exists k :: 0 <= k < |SearchPanel.CriteriaKeys| && SearchPanel.CriteriaKeys[k] == key && Truthy(es[k].1) by {
        forall key ensures HasParam(Params(es), key) <==>
          exists k :: 0 <= k < |SearchPanel.CriteriaKeys| && SearchPanel.CriteriaKeys[k] == key && Truthy(es[k].1)
        {
          ParamsHaveKey(es, key);
        }
      }
      Request("/api/v1/files/search/advanced", Params(es))
  }

  /**
   * A search from the panel sends a parameter for a criterion exactly when its
   * input was filled, carrying the input's text (or the joined tag names).
   */
  lemma {:induction false} SearchParamsFromForm(form: SearchPanel.Form, selected: seq<string>, k: int)
    requires 0 <= k < |SearchPanel.CriteriaKeys|
    ensures var ps := FetchRequest(Some(SearchPanel.BuildCriteria(form, selected))).params;
      HasParam(ps, SearchPanel.CriteriaKeys[k]) <==> SearchPanel.Filled(form, selected, k)
    ensures var es := SearchPanel.Entries(SearchPanel.BuildCriteria(form, selected));
      var ps := FetchRequest(Some(SearchPanel.BuildCriteria(form, selected))).params;
      SearchPanel.Filled(form, selected, k) ==> Truthy(es[k].1) && Param(es[k]) in ps
  {
    var es := SearchPanel.Entries(SearchPanel.BuildCriteria(form, selected));
    TruthyIffFilled(form, selected, k);
    TruthyEntryAtKey(es, k);
    ParamsHaveKey(es, SearchPanel.CriteriaKeys[k]);
    if SearchPanel.Filled(form, selected, k) {
      ParamsContain(es, k);
    }
  }

  /** An entry of the built criteria is truthy exactly when its field is filled in. */
  lemma TruthyIffFilled(form: SearchPanel.Form, selected: seq<string>, k: int)
    requires 0 <= k < |SearchPanel.CriteriaKeys|
    ensures Truthy(SearchPanel.Entries(SearchPanel.BuildCriteria(form, selected))[k].1) <==>
      SearchPanel.Filled(form, selected, k)
  {
    SearchPanel.EntriesOfForm(form, selected);
  }

  /** The keys are distinct, so the only entry with the k-th key is the k-th one. */
  lemma TruthyEntryAtKey(es: seq<(string, SearchPanel.Value)>, k: int)
    requires |es| == |SearchPanel.CriteriaKeys| && 0 <= k < |es|
    requires forall i :: 0 <= i < |es| ==> es[i].0 == SearchPanel.CriteriaKeys[i]
    ensures HasTruthyEntry(es, SearchPanel.CriteriaKeys[k]) <==> Truthy(es[k].1)
  {
    var keys := SearchPanel.CriteriaKeys;
    assert forall a, b :: 0 <= a < b < |keys| ==> keys[a] != keys[b];
    assert es[k].0 == keys[k];
  }
}
