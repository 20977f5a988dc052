/**
 * repository/AttachmentRepository.java: the two JPQL queries, read as filters over
 * the attachment table. An attachment's tag names and EXIF row stand for the
 * `a.tags` and `a.exifData` associations the queries join.
 */
module AttachmentRepository {
  import opened Common

  /** The EXIF columns the search compares; a column may be NULL. */
  datatype Exif = Exif(
    make: Option<string>,
    model: Option<string>,
    fNumber: Option<string>,
    exposureTime: Option<string>,
    isoSpeedRatings: Option<string>)

  /** An attachment row with its joined tag names and optional EXIF row. */
  datatype Attachment = Attachment(id: int, createdAt: int, tagNames: seq<string>, exif: Option<Exif>)

  /** dto/SearchCriteria.java: every criterion may be null. */
  datatype SearchCriteria = SearchCriteria(
    tags: Option<set<string>>,
    startDate: Option<int>,
    endDate: Option<int>,
    make: Option<string>,
    model: Option<string>,
    fNumber: Option<string>,
    exposureTime: Option<string>,
    isoSpeedRatings: Option<string>)

  /** The criteria that restrict nothing. */
  const NoCriteria := SearchCriteria(None, None, None, None, None, None, None, None)

  /**
   * The `t.name` values of the rows `LEFT JOIN a.tags t` produces for `a`: one row
   * per tag, or a single row with a NULL tag when `a` has none.
   */
  function JoinedTags(a: Attachment): (ts: seq<Option<string>>)
    ensures |ts| >= 1
    ensures a.tagNames == [] ==> ts == [None]
    ensures a.tagNames != [] ==> |ts| == |a.tagNames| && forall k :: 0 <= k < |ts| ==> ts[k] == Some(a.tagNames[k])
  {
    if a.tagNames == [] then [None]
    else Map(a.tagNames, (n: string) => Some(n))
  }

  /** `e.col = :value` under SQL's rules: a NULL row or NULL column compares false. */
  predicate ColumnEquals(exif: Option<Exif>, column: Exif -> Option<string>, value: string) {
    exif.Some? && column(exif.value) == Some(value)
  }

  predicate ExifCriterion(criterion: Option<string>, exif: Option<Exif>, column: Exif -> Option<string>) {
    criterion.None? || ColumnEquals(exif, column, criterion.value)
  }

  /** The WHERE clause of `findBySearchCriteria`, on one joined row. */
  predicate RowMatches(c: SearchCriteria, a: Attachment, tag: Option<string>) {
    (c.tags.None? || (tag.Some? && tag.value in c.tags.value)) &&
    (c.startDate.None? || a.createdAt >= c.startDate.value) &&
    (c.endDate.None? || a.createdAt <= c.endDate.value) &&
    ExifCriterion(c.make, a.exif, (e: Exif) => e.make) &&
    ExifCriterion(c.model, a.exif, (e: Exif) => e.model) &&
    ExifCriterion(c.fNumber, a.exif, (e: Exif) => e.fNumber) &&
    ExifCriterion(c.exposureTime, a.exif, (e: Exif) => e.exposureTime) &&
    ExifCriterion(c.isoSpeedRatings, a.exif, (e: Exif) => e.isoSpeedRatings)
  }

  /** Some joined row of `a` satisfies the WHERE clause. */
  predicate SomeRowMatches(c: SearchCriteria, a: Attachment) {
    var ts := JoinedTags(a);
    exists k :: 0 <= k < |ts| && RowMatches(c, a, ts[k])
  }

  /**
   * `findBySearchCriteria`: the attachments with a matching joined row, each once
   * (`SELECT DISTINCT`). The query has no ORDER BY; the model keeps table order.
   */
  function FindBySearchCriteria(table: seq<Attachment>, c: SearchCriteria): (r: seq<Attachment>)
    ensures NoDuplicates(r)
    ensures forall i :: 0 <= i < |r| ==> r[i] in table && SomeRowMatches(c, r[i])
    ensures forall i :: 0 <= i < |table| && SomeRowMatches(c, table[i]) ==> table[i] in r
  {
    var rows := Filter(table, (a: Attachment) => SomeRowMatches(c, a));
    Distinct(rows)
  }

  /**
   * The search as stated on attachments: every given criterion restricts, tags
   * match when the attachment has ANY of them, the date bounds are inclusive, and
   * EXIF values must be equal (a missing EXIF row fails every EXIF criterion).
   */
  predicate Matches(c: SearchCriteria, a: Attachment) {
    (c.tags.None? || exists k :: 0 <= k < |a.tagNames| && a.tagNames[k] in c.tags.value) &&
    (c.startDate.None? || c.startDate.value <= a.createdAt) &&
    (c.endDate.None? || a.createdAt <= c.endDate.value) &&
    (c.make.None? || (a.exif.Some? && a.exif.value.make == c.make)) &&
    (c.model.None? || (a.exif.Some? && a.exif.value.model == c.model)) &&
    (c.fNumber.None? || (a.exif.Some? && a.exif.value.fNumber == c.fNumber)) &&
    (c.exposureTime.None? || (a.exif.Some? && a.exif.value.exposureTime == c.exposureTime)) &&
    (c.isoSpeedRatings.None? || (a.exif.Some? && a.exif.value.isoSpeedRatings == c.isoSpeedRatings))
  }

  /** The join-based WHERE clause means exactly `Matches`. */
  lemma SomeRowMatchesIff(c: SearchCriteria, a: Attachment)
    ensures SomeRowMatches(c, a) <==> Matches(c, a)
  {
    var ts := JoinedTags(a);
    if Matches(c, a) {
      if c.tags.Some? {
        var k :| 0 <= k < |a.tagNames| && a.tagNames[k] in c.tags.value;
        assert RowMatches(c, a, ts[k]);
      } else {
        assert RowMatches(c, a, ts[0]);
      }
    }
    if SomeRowMatches(c, a) {
      var k :| 0 <= k < |ts| && RowMatches(c, a, ts[k]);
      if c.tags.Some? {
        assert a.tagNames[k] in c.tags.value;
      }
    }
  }

  /** An attachment is found exactly when it is stored and matches the criteria. */
  lemma FindBySearchCriteriaSpec(table: seq<Attachment>, c: SearchCriteria, a: Attachment)
    ensures a in FindBySearchCriteria(table, c) <==> a in table && Matches(c, a)
  {
    SomeRowMatchesIff(c, a);
  }

  /** Criteria that are all null return every stored attachment. */
  lemma {:induction false} NoCriteriaFindsAll(table: seq<Attachment>, a: Attachment)
    ensures a in FindBySearchCriteria(table, NoCriteria) <==> a in table
  {
    FindBySearchCriteriaSpec(table, NoCriteria, a);
  }

  /** An untagged attachment never matches a tag criterion, whatever the other criteria. */
  lemma UntaggedFailsTagCriterion(table: seq<Attachment>, c: SearchCriteria, a: Attachment)
    requires c.tags.Some? && a.tagNames == []
    ensures a !in FindBySearchCriteria(table, c)
  {
    FindBySearchCriteriaSpec(table, c, a);
  }

  /** An attachment without EXIF data fails every given EXIF criterion. */
  lemma NoExifFailsExifCriterion(table: seq<Attachment>, c: SearchCriteria, a: Attachment)
    requires a.exif.None?
    requires c.make.Some? || c.model.Some? || c.fNumber.Some? || c.exposureTime.Some? || c.isoSpeedRatings.Some?
    ensures a !in FindBySearchCriteria(table, c)
  {
    FindBySearchCriteriaSpec(table, c, a);
  }

  /** `findByTagNames`: an inner join, so only rows with a real tag take part. */
  function FindByTagNames(table: seq<Attachment>, tagNames: set<string>): (r: seq<Attachment>)
    ensures NoDuplicates(r)
    ensures forall i :: 0 <= i < |r| ==> r[i] in table && exists k :: 0 <= k < |r[i].tagNames| && r[i].tagNames[k] in tagNames
    ensures forall i :: 0 <= i < |table| && (exists k :: 0 <= k < |table[i].tagNames| && table[i].tagNames[k] in tagNames) ==>
      table[i] in r
  {
    Distinct(Filter(table, (a: Attachment) => exists k :: 0 <= k < |a.tagNames| && a.tagNames[k] in tagNames))
  }

  /** `findByTagNames` never returns an untagged attachment. */
  lemma TagQueryNeedsTags(table: seq<Attachment>, tagNames: set<string>, i: int)
    requires 0 <= i < |FindByTagNames(table, tagNames)|
    ensures FindByTagNames(table, tagNames)[i].tagNames != []
  {
  }

  /** With the same tag set, the two queries agree on which attachments they return. */
  lemma {:induction false} TagQueriesAgree(table: seq<Attachment>, names: set<string>, a: Attachment)
    ensures a in FindByTagNames(table, names) <==>
            a in FindBySearchCriteria(table, SearchCriteria(Some(names), None, None, None, None, None, None, None))
  {
    var c := SearchCriteria(Some(names), None, None, None, None, None, None, None);
    FindBySearchCriteriaSpec(table, c, a);
    var r := FindByTagNames(table, names);
    if a in r {
      var i :| 0 <= i < |r| && r[i] == a;
    }
    if a in table && Matches(c, a) {
      var i :| 0 <= i < |table| && table[i] == a;
    }
  }
}
