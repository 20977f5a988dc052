/**
 * service/TagService.java: the tag table (names are unique, `Tag.name` is a
 * unique column) and the tag set of each attachment, read and changed in place.
 */
module TagService {
  import opened Common
  import opened Domain

  datatype TagError = AttachmentNotFound | TagNotFound

  function Message(e: TagError): string {
    match e
    case AttachmentNotFound => "Attachment not found"
    case TagNotFound => "Tag not found"
  }

  /** No two stored tags share a name. */
  ghost predicate UniqueNames(tags: map<int, Tag>) {
    forall a, b :: a in tags && b in tags && tags[a].name == tags[b].name ==> a == b
  }

  /** `t` is the row the tag table holds under its id. */
  predicate Stored(tags: map<int, Tag>, t: Tag) {
    t.id in tags && tags[t.id] == t
  }

  /** The stored tags with that name: at most one when names are unique. */
  function WithName(tags: map<int, Tag>, name: string): (r: set<Tag>)
    requires forall id :: id in tags ==> tags[id].id == id
    ensures forall t :: t in r <==> Stored(tags, t) && t.name == name
  {
    var r := set id | id in tags && tags[id].name == name :: tags[id];
    assert forall t :: Stored(tags, t) && t.name == name ==> t in r by {
      forall t | Stored(tags, t) && t.name == name ensures t in r {
        assert tags[t.id] == t;
      }
    }
    r
  }

  /** The tag table of `tags` grown by the rows of `more`, with nothing overwritten. */
  ghost predicate Extends(more: map<int, Tag>, tags: map<int, Tag>) {
    forall id :: id in tags ==> id in more && more[id] == tags[id]
  }

  class TagService {
    var tags: map<int, Tag>
    var attachmentTags: map<int, set<Tag>>
    var nextTagId: int

    /**
     * Tags are filed under their own id, below `nextTagId`, with unique names;
     * attachments hold stored tags only.
     */
    ghost predicate Valid()
      reads this
    {
      (forall id :: id in tags ==> tags[id].id == id && id < nextTagId) &&
      UniqueNames(tags) &&
      (forall aid, t :: aid in attachmentTags && t in attachmentTags[aid] ==> Stored(tags, t))
    }

    /** A service over the given attachments, each with no tags yet, and an empty tag table. */
    constructor (attachmentIds: set<int>)
      ensures Valid()
      ensures tags == map[] && nextTagId == 1
      ensures attachmentTags == map aid | aid in attachmentIds :: {}
    {
      tags := map[];
      attachmentTags := map aid | aid in attachmentIds :: {};
      nextTagId := 1;
    }

    /** `tagRepository.existsByName`. */
    predicate ExistsByName(name: string): (r: bool)
      reads this
      ensures r <==> exists t :: t in tags.Values && t.name == name
    {
      assert (exists id :: id in tags && tags[id].name == name) ==> exists t :: t in tags.Values && t.name == name by {
        if exists id :: id in tags && tags[id].name == name {
          var id :| id in tags && tags[id].name == name;
          assert tags[id] in tags.Values;
        }
      }
      exists id :: id in tags && tags[id].name == name
    }

    /**
     * `createTag`: get-or-create. An existing name returns the stored tag and
     * inserts nothing; a new name is saved under the next id.
     */
    method CreateTag(name: string) returns (t: Tag)
      requires Valid()
      modifies this`tags, this`nextTagId
      ensures Valid()
      ensures t.name == name && Stored(tags, t)
      ensures old(ExistsByName(name)) ==>
        tags == old(tags) && nextTagId == old(nextTagId) && t in old(WithName(tags, name))
      ensures !old(ExistsByName(name)) ==>
        t == Tag(old(nextTagId), name) && old(nextTagId) !in old(tags) &&
        tags == old(tags)[t.id := t] && nextTagId == old(nextTagId) + 1
    {
      if exists id :: id in tags && tags[id].name == name {
        var id :| id in tags && tags[id].name == name;
        t := tags[id];
      } else {
        t := Tag(nextTagId, name);
        assert nextTagId !in tags;
        ghost var before := tags;
        tags := tags[nextTagId := t];
        assert forall u :: Stored(before, u) ==> Stored(tags, u);
        nextTagId := nextTagId + 1;
      }
    }

    /**
     * `addTagsToAttachment`: the attachment must exist, else nothing happens;
     * then a tag for every name is got or created and added to its tag set.
     */
    method AddTagsToAttachment(attachmentId: int, tagNames: set<string>) returns (err: Option<TagError>)
      requires Valid()
      modifies this`tags, this`nextTagId, this`attachmentTags
      ensures Valid()
      ensures attachmentId !in old(attachmentTags) ==>
        err == Some(AttachmentNotFound) &&
        tags == old(tags) && nextTagId == old(nextTagId) && attachmentTags == old(attachmentTags)
      ensures attachmentId in old(attachmentTags) ==>
        err.None? && Extends(tags, old(tags)) &&
        (forall id :: id in tags && id !in old(tags) ==> tags[id].name in tagNames) &&
        attachmentId in attachmentTags &&
        attachmentTags == old(attachmentTags)[attachmentId := attachmentTags[attachmentId]] &&
        old(attachmentTags[attachmentId]) <= attachmentTags[attachmentId] &&
        (forall n :: n in tagNames ==> exists t :: t in attachmentTags[attachmentId] && t.name == n) &&
        (forall t :: t in attachmentTags[attachmentId] - old(attachmentTags[attachmentId]) ==> t.name in tagNames)
    {
      if attachmentId !in attachmentTags {
        return Some(AttachmentNotFound);
      }
      var newTags: set<Tag> := {};
      var remaining := tagNames;
      while remaining != {}
        invariant Valid()
        invariant remaining <= tagNames
        invariant attachmentTags == old(attachmentTags)
        invariant Extends(tags, old(tags))
        invariant forall id :: id in tags && id !in old(tags) ==> tags[id].name in tagNames
        invariant forall t :: t in newTags ==> Stored(tags, t) && t.name in tagNames
        invariant forall n :: n in tagNames - remaining ==> exists t :: t in newTags && t.name == n
        decreases remaining
      {
        var n :| n in remaining;
        ghost var before := newTags;
        ghost var pending := remaining;
        var t := CreateTag(n);
        newTags := newTags + {t};
        remaining := remaining - {n};
        forall m | m in tagNames - remaining ensures exists u :: u in newTags && u.name == m {
          if m == n {
            assert t in newTags;
          } else {
            assert m in tagNames - pending;
            var u :| u in before && u.name == m;
            assert u in newTags;
          }
        }
      }
      assert tagNames - remaining == tagNames;
      var updated := attachmentTags[attachmentId] + newTags;
      attachmentTags := attachmentTags[attachmentId := updated];
      forall m | m in tagNames ensures exists u :: u in updated && u.name == m {
        var u :| u in newTags && u.name == m;
        assert u in updated;
      }
      err := None;
    }

    /** `getTagsByAttachment`: the attachment's tags, or the empty set for an unknown id. */
    method GetTagsByAttachment(attachmentId: int) returns (r: set<Tag>)
      ensures attachmentId in attachmentTags ==> r == attachmentTags[attachmentId]
      ensures attachmentId !in attachmentTags ==> r == {}
    {
      r := if attachmentId in attachmentTags then attachmentTags[attachmentId] else {};
    }

    /**
     * `removeTagFromAttachment`: the attachment and then the tag must exist; the tag
     * leaves that attachment's set only and stays in the tag table.
     */
    method RemoveTagFromAttachment(attachmentId: int, tagId: int) returns (err: Option<TagError>)
      requires Valid()
      modifies this`attachmentTags
      ensures Valid()
      ensures attachmentId !in old(attachmentTags) ==>
        err == Some(AttachmentNotFound) && attachmentTags == old(attachmentTags)
      ensures attachmentId in old(attachmentTags) && tagId !in tags ==>
        err == Some(TagNotFound) && attachmentTags == old(attachmentTags)
      ensures attachmentId in old(attachmentTags) && tagId in tags ==>
        err.None? &&
        attachmentTags == old(attachmentTags)[attachmentId := old(attachmentTags[attachmentId]) - {tags[tagId]}]
    {
      if attachmentId !in attachmentTags {
        return Some(AttachmentNotFound);
      }
      if tagId !in tags {
        return Some(TagNotFound);
      }
      var tag := tags[tagId];
      attachmentTags := attachmentTags[attachmentId := attachmentTags[attachmentId] - {tag}];
      err := None;
    }
  }

  /** Asking for the same name twice returns the same tag and stores it once. */
  method CreateTagIdempotent(service: TagService, name: string) returns (first: Tag, second: Tag)
    requires service.Valid()
    modifies service`tags, service`nextTagId
    ensures service.Valid()
    ensures second == first && first.name == name && Stored(service.tags, first)
    ensures old(service.ExistsByName(name)) ==> service.tags == old(service.tags)
    ensures !old(service.ExistsByName(name)) ==> service.tags == old(service.tags)[first.id := first]
  {
    first := service.CreateTag(name);
    second := service.CreateTag(name);
  }
}
