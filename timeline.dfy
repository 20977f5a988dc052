/**
 * app/components/Timeline.tsx: grouping the photos by the calendar day of their
 * EXIF timestamp. The `reduce` is a loop over the files that either appends a
 * file to the group of its day or opens a new group at the end.
 */
module Timeline {
  import opened Common
  import opened ClientModel

  /** `{ date, files }`. */
  datatype Group = Group(date: string, files: seq<ClientFile>)

  /**
   * `file.exifData.dateTime.split(' ')[0]`: the text before the first space, for a
   * file whose `dateTime` is truthy; `None` for the files the reducer skips.
   */
  function DateKey(f: ClientFile): (k: Option<string>)
    ensures k.None? <==> f.exifDateTime.None? || f.exifDateTime.value == ""
    ensures k.Some? ==> ' ' !in k.value && k.value <= f.exifDateTime.value
    ensures k.Some? && |k.value| < |f.exifDateTime.value| ==> f.exifDateTime.value[|k.value|] == ' '
  {
    if f.exifDateTime.None? || f.exifDateTime.value == "" then None
    else
      var t := f.exifDateTime.value;
      var i := IndexOf(t, ' ');
      assert i >= 0 ==> Split(t, ' ')[0] == t[..i];
      Some(Split(t, ' ')[0])
  }

  /** The day keys of the files, in file order, skipping undated files. */
  function Keys(fs: seq<ClientFile>): (ks: seq<string>)
    ensures |ks| <= |fs|
  {
    if fs == [] then []
    else
      var k := DateKey(fs[|fs| - 1]);
      Keys(fs[..|fs| - 1]) + (if k.Some? then [k.value] else [])
  }

  /** A day is among the keys exactly when some photo was taken on it. */
  lemma {:induction false} KeysMembership(fs: seq<ClientFile>, d: string)
    ensures d in Keys(fs) <==> exists i :: 0 <= i < |fs| && DateKey(fs[i]) == Some(d)
  {
    if fs != [] {
      var init := fs[..|fs| - 1];
      KeysMembership(init, d);
      assert forall i :: 0 <= i < |init| ==> init[i] == fs[i];
      if d in Keys(init) {
        var i :| 0 <= i < |init| && DateKey(init[i]) == Some(d);
        assert DateKey(fs[i]) == Some(d);
      }
    }
  }

  /** The files of day `d`, in file order. */
  function FilesOn(fs: seq<ClientFile>, d: string): (r: seq<ClientFile>)
    ensures forall i :: 0 <= i < |r| ==> r[i] in fs && DateKey(r[i]) == Some(d)
    ensures (forall i :: 0 <= i < |fs| ==> DateKey(fs[i]) != Some(d)) ==> r == []
  {
    if fs == [] then []
    else
      var init := fs[..|fs| - 1];
      var last := fs[|fs| - 1];
      assert forall i :: 0 <= i < |init| ==> init[i] == fs[i];
      FilesOn(init, d) + (if DateKey(last) == Some(d) then [last] else [])
  }

  function Dates(gs: seq<Group>): (ds: seq<string>)
    ensures |ds| == |gs| && forall j :: 0 <= j < |gs| ==> ds[j] == gs[j].date
  {
    Map(gs, (g: Group) => g.date)
  }

  /** `acc.find(group => group.date === date)`, as an index: -1 when there is none. */
  function FindGroup(gs: seq<Group>, d: string): (j: int)
    ensures -1 <= j < |gs|
    ensures j >= 0 ==> gs[j].date == d
    ensures forall k :: 0 <= k < |gs| && (j < 0 || k < j) ==> gs[k].date != d
  {
    if gs == [] then -1
    else
      var j := FindGroup(gs[..|gs| - 1], d);
      if j >= 0 then j else if gs[|gs| - 1].date == d then |gs| - 1 else -1
  }

  /** One step of the reducer. */
  function AddFile(gs: seq<Group>, f: ClientFile): (r: seq<Group>)
    ensures DateKey(f).None? ==> r == gs
    ensures DateKey(f).Some? && FindGroup(gs, DateKey(f).value) >= 0 ==>
      var j := FindGroup(gs, DateKey(f).value);
      |r| == |gs| && r[j] == Group(DateKey(f).value, gs[j].files + [f]) &&
      (forall m :: 0 <= m < |gs| && m != j ==> r[m] == gs[m])
    ensures DateKey(f).Some? && FindGroup(gs, DateKey(f).value) < 0 ==>
      r == gs + [Group(DateKey(f).value, [f])]
    ensures |r| <= |gs| + 1
  {
    var k := DateKey(f);
    if k.None? then gs
    else
      var j := FindGroup(gs, k.value);
      if j >= 0 then gs[j := Group(gs[j].date, gs[j].files + [f])]
      else gs + [Group(k.value, [f])]
  }

  /** The groups the reducer builds from `fs`, before the sort. */
  function GroupsOf(fs: seq<ClientFile>): (gs: seq<Group>)
    ensures |gs| <= |fs|
  {
    if fs == [] then [] else AddFile(GroupsOf(fs[..|fs| - 1]), fs[|fs| - 1])
  }

  /** `gs` is the grouping of `fs` by day, in first-occurrence order of the days. */
  predicate Describes(gs: seq<Group>, fs: seq<ClientFile>) {
    Dates(gs) == Distinct(Keys(fs)) &&
    forall j :: 0 <= j < |gs| ==> gs[j].files == FilesOn(fs, gs[j].date)
  }

  lemma FilesOnSnoc(fs: seq<ClientFile>, f: ClientFile, d: string)
    ensures FilesOn(fs + [f], d) == FilesOn(fs, d) + (if DateKey(f) == Some(d) then [f] else [])
  {
    assert (fs + [f])[..|fs|] == fs;
  }

  lemma KeysSnoc(fs: seq<ClientFile>, f: ClientFile)
    ensures Keys(fs + [f]) == Keys(fs) + (if DateKey(f).Some? then [DateKey(f).value] else [])
  {
    assert (fs + [f])[..|fs|] == fs;
  }

  /** A photo of a day that already has a group joins the end of that group. */
  lemma {:induction false} AddToExisting(gs: seq<Group>, fs: seq<ClientFile>, f: ClientFile)
    requires Describes(gs, fs) && DateKey(f).Some? && FindGroup(gs, DateKey(f).value) >= 0
    ensures Describes(AddFile(gs, f), fs + [f])
  {
    var d := DateKey(f).value;
    var j := FindGroup(gs, d);
    var gs' := AddFile(gs, f);
    assert gs' == gs[j := Group(gs[j].date, gs[j].files + [f])];
    ExistingDates(gs, fs, f, j);
    forall m | 0 <= m < |gs'| ensures gs'[m].files == FilesOn(fs + [f], gs'[m].date) {
      FilesOnSnoc(fs, f, gs'[m].date);
      if m != j {
        assert gs'[m] == gs[m];
      }
    }
  }

  /** Adding a photo to the existing group `j` of its day leaves the day list as it was. */
  lemma {:induction false} ExistingDates(gs: seq<Group>, fs: seq<ClientFile>, f: ClientFile, j: int)
    requires Dates(gs) == Distinct(Keys(fs)) && DateKey(f).Some?
    requires 0 <= j < |gs| && gs[j].date == DateKey(f).value
    ensures Dates(gs[j := Group(gs[j].date, gs[j].files + [f])]) == Distinct(Keys(fs + [f]))
  {
    var d := DateKey(f).value;
    KeysSnoc(fs, f);
    assert Dates(gs)[j] == d;
    DistinctSnoc(Keys(fs), d);
    var gs' := gs[j := Group(gs[j].date, gs[j].files + [f])];
    assert Dates(gs') == Dates(gs);
  }

  /** The day list after opening a group for a new day `d`. */
  lemma {:induction false} NewGroupDates(gs: seq<Group>, fs: seq<ClientFile>, f: ClientFile)
    requires Dates(gs) == Distinct(Keys(fs)) && DateKey(f).Some? && FindGroup(gs, DateKey(f).value) < 0
    ensures DateKey(f).value !in Keys(fs)
    ensures Dates(gs + [Group(DateKey(f).value, [f])]) == Distinct(Keys(fs + [f]))
  {
    var d := DateKey(f).value;
    NewDayUnseen(gs, fs, d);
    KeysSnoc(fs, f);
    DistinctSnoc(Keys(fs), d);
    DatesSnoc(gs, Group(d, [f]));
  }

  /** A day no group has is not among the keys the groups were built from. */
  lemma {:induction false} NewDayUnseen(gs: seq<Group>, fs: seq<ClientFile>, d: string)
    requires Dates(gs) == Distinct(Keys(fs)) && FindGroup(gs, d) < 0
    ensures d !in Keys(fs)
  {
    forall k | 0 <= k < |gs| ensures Dates(gs)[k] != d {
      assert Dates(gs)[k] == gs[k].date;
    }
  }

  lemma {:induction false} DatesSnoc(gs: seq<Group>, g: Group)
    ensures Dates(gs + [g]) == Dates(gs) + [g.date]
  {
    var gs' := gs + [g];
    forall k | 0 <= k < |gs'| ensures Dates(gs')[k] == (Dates(gs) + [g.date])[k] {
      if k < |gs| {
        assert gs'[k] == gs[k];
      }
    }
  }

  /** The groups after opening a group for a day none of the earlier photos has. */
  lemma {:induction false} NewGroupFiles(gs: seq<Group>, fs: seq<ClientFile>, f: ClientFile, d: string)
    requires forall j :: 0 <= j < |gs| ==> gs[j].files == FilesOn(fs, gs[j].date)
    requires forall j :: 0 <= j < |gs| ==> gs[j].date != d
    requires DateKey(f) == Some(d) && FilesOn(fs, d) == []
    ensures var gs' := gs + [Group(d, [f])];
      forall m :: 0 <= m < |gs'| ==> gs'[m].files == FilesOn(fs + [f], gs'[m].date)
  {
    var gs' := gs + [Group(d, [f])];
    forall m | 0 <= m < |gs'| ensures gs'[m].files == FilesOn(fs + [f], gs'[m].date) {
      FilesOnSnoc(fs, f, gs'[m].date);
      if m < |gs| {
        assert gs'[m] == gs[m];
      }
    }
  }

  /** A photo of a new day opens a group of its own at the end. */
  lemma {:induction false} AddNewGroup(gs: seq<Group>, fs: seq<ClientFile>, f: ClientFile)
    requires Describes(gs, fs) && DateKey(f).Some? && FindGroup(gs, DateKey(f).value) < 0
    ensures Describes(AddFile(gs, f), fs + [f])
  {
    var d := DateKey(f).value;
    assert AddFile(gs, f) == gs + [Group(d, [f])];
    NewGroupDates(gs, fs, f);
    KeysMembership(fs, d);
    NewGroupFiles(gs, fs, f, d);
  }

  /**
   * What the grouping means: the days appear once each, in the order their first
   * photo appears, and each day's group holds exactly that day's photos in file
   * order (so an undated photo is in no group and a dated one in exactly one).
   */
  lemma {:induction false} GroupsOfSpec(fs: seq<ClientFile>)
    ensures Describes(GroupsOf(fs), fs)
  {
    if fs != [] {
      var init := fs[..|fs| - 1];
      var f := fs[|fs| - 1];
      assert fs == init + [f];
      GroupsOfSpec(init);
      var gs0 := GroupsOf(init);
      var k := DateKey(f);
      assert GroupsOf(fs) == AddFile(gs0, f);
      if k.None? {
        assert GroupsOf(fs) == gs0;
        KeysSnoc(init, f);
        assert Keys(fs) == Keys(init);
        forall m | 0 <= m < |gs0| ensures gs0[m].files == FilesOn(fs, gs0[m].date) {
          FilesOnSnoc(init, f, gs0[m].date);
        }
      } else if FindGroup(gs0, k.value) >= 0 {
        AddToExisting(gs0, init, f);
      } else {
        AddNewGroup(gs0, init, f);
      }
    }
  }

  /** Corollary: no two groups share a day, and no group is empty. */
  lemma {:induction false} GroupsDistinctAndNonEmpty(fs: seq<ClientFile>)
    ensures NoDuplicates(Dates(GroupsOf(fs)))
    ensures forall j :: 0 <= j < |GroupsOf(fs)| ==> GroupsOf(fs)[j].files != []
  {
    GroupsOfSpec(fs);
    var gs := GroupsOf(fs);
    forall j | 0 <= j < |gs| ensures gs[j].files != [] {
      var d := gs[j].date;
      assert Dates(gs)[j] == d;
      assert d in Keys(fs);
      KeysMembership(fs, d);
      var i :| 0 <= i < |fs| && DateKey(fs[i]) == Some(d);
      FilesOnContains(fs, i);
    }
  }

  /** A dated photo is in the group of its day. */
  lemma {:induction false} FilesOnContains(fs: seq<ClientFile>, i: int)
    requires 0 <= i < |fs| && DateKey(fs[i]).Some?
    ensures fs[i] in FilesOn(fs, DateKey(fs[i]).value)
  {
    var init := fs[..|fs| - 1];
    if i < |fs| - 1 {
      assert init[i] == fs[i];
      FilesOnContains(init, i);
    }
  }

  /** The reducer as a loop: each file joins the group of its day or opens a new one. */
  method GroupByDate(files: seq<ClientFile>) returns (groups: seq<Group>)
    ensures groups == GroupsOf(files)
  {
    groups := [];
    var i := 0;
    while i < |files|
      invariant 0 <= i <= |files|
      invariant groups == GroupsOf(files[..i])
    {
      var f := files[i];
      assert files[..i + 1][..i] == files[..i];
      var time := f.exifDateTime;
      if time.Some? && time.value != "" {
        var date := Split(time.value, ' ')[0];
        var j := 0;
        while j < |groups| && groups[j].date != date
          invariant 0 <= j <= |groups|
          invariant forall k :: 0 <= k < j ==> groups[k].date != date
        {
          j := j + 1;
        }
        if j < |groups| {
          groups := groups[j := Group(groups[j].date, groups[j].files + [f])];
        } else {
          groups := groups + [Group(date, [f])];
        }
      }
      i := i + 1;
    }
    assert files[..i] == files;
  }
}
