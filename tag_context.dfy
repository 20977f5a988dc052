/**
 * app/contexts/TagContext.tsx: the tag list shared through React context, with
 * functional updates that add a tag unless its id is present and remove a tag by id.
 */
module TagContext {
  import opened Common

  /** `{ id, name, createdAt }`; `createdAt` is the server's text. */
  datatype ContextTag = ContextTag(id: int, name: string, createdAt: string)

  function TagIds(ts: seq<ContextTag>): (ids: seq<int>)
    ensures |ids| == |ts| && forall i :: 0 <= i < |ts| ==> ids[i] == ts[i].id
  {
    Map(ts, (t: ContextTag) => t.id)
  }

  /** The update `addTag` applies: the list is kept when the id is present, else the tag is appended. */
  function AddTagTo(ts: seq<ContextTag>, tag: ContextTag): (r: seq<ContextTag>)
    ensures tag.id in TagIds(r)
    ensures tag.id in TagIds(ts) ==> r == ts
    ensures tag.id !in TagIds(ts) ==> r == ts + [tag]
  {
    if tag.id in TagIds(ts) then ts
    else
      assert TagIds(ts + [tag])[|ts|] == tag.id;
      ts + [tag]
  }

  /** The update `removeTag` applies: `prevTags.filter(tag => tag.id !== tagId)`. */
  function RemoveTagFrom(ts: seq<ContextTag>, id: int): (r: seq<ContextTag>)
    ensures id !in TagIds(r)
    ensures forall i :: 0 <= i < |r| ==> r[i] in ts
    ensures forall i :: 0 <= i < |ts| && ts[i].id != id ==> ts[i] in r
  {
    var r := Filter(ts, (t: ContextTag) => t.id != id);
    assert forall i :: 0 <= i < |r| ==> TagIds(r)[i] != id;
    r
  }

  /** Adding keeps the ids unique. */
  lemma {:induction false} AddKeepsIdsUnique(ts: seq<ContextTag>, tag: ContextTag)
    requires NoDuplicates(TagIds(ts))
    ensures NoDuplicates(TagIds(AddTagTo(ts, tag)))
  {
    if tag.id !in TagIds(ts) {
      var ids := TagIds(ts + [tag]);
      forall i, j | 0 <= i < j < |ids| ensures ids[i] != ids[j] {
        assert ids[i] == TagIds(ts)[i];
        if j < |ts| {
          assert ids[j] == TagIds(ts)[j];
        }
      }
    }
  }

  /** Removing keeps the ids unique. */
  lemma {:induction false} RemoveKeepsIdsUnique(ts: seq<ContextTag>, id: int)
    requires NoDuplicates(TagIds(ts))
    ensures NoDuplicates(TagIds(RemoveTagFrom(ts, id)))
  {
    assert DistinctKeys(ts, (t: ContextTag) => t.id) by {
      forall i, j | 0 <= i < j < |ts| ensures ts[i].id != ts[j].id {
        assert TagIds(ts)[i] == ts[i].id && TagIds(ts)[j] == ts[j].id;
      }
    }
    FilterKeepsDistinctKeys(ts, (t: ContextTag) => t.id, (t: ContextTag) => t.id != id);
    var r := RemoveTagFrom(ts, id);
    forall i, j | 0 <= i < j < |r| ensures TagIds(r)[i] != TagIds(r)[j] {
      assert TagIds(r)[i] == r[i].id && TagIds(r)[j] == r[j].id;
    }
  }

  /** Removing keeps the order of the tags that stay: the list splits and removes part by part. */
  lemma RemoveDistributes(a: seq<ContextTag>, b: seq<ContextTag>, id: int)
    ensures RemoveTagFrom(a + b, id) == RemoveTagFrom(a, id) + RemoveTagFrom(b, id)
  {
    FilterConcat(a, b, (t: ContextTag) => t.id != id);
  }

  /** Adding a tag with a new id and then removing that id gives back the list. */
  lemma {:induction false} AddThenRemove(ts: seq<ContextTag>, tag: ContextTag)
    requires tag.id !in TagIds(ts)
    ensures RemoveTagFrom(AddTagTo(ts, tag), tag.id) == ts
  {
    FilterSnoc(ts, tag, (t: ContextTag) => t.id != tag.id);
    forall i | 0 <= i < |ts| ensures ts[i].id != tag.id {
      assert TagIds(ts)[i] == ts[i].id;
    }
    FilterAll(ts, (t: ContextTag) => t.id != tag.id);
  }

  /** Adding the same tag twice is adding it once. */
  lemma AddIdempotent(ts: seq<ContextTag>, tag: ContextTag)
    ensures AddTagTo(AddTagTo(ts, tag), tag) == AddTagTo(ts, tag)
  {
  }

  /** Removing the same id twice is removing it once. */
  lemma {:induction false} RemoveIdempotent(ts: seq<ContextTag>, id: int)
    ensures RemoveTagFrom(RemoveTagFrom(ts, id), id) == RemoveTagFrom(ts, id)
  {
    var r := RemoveTagFrom(ts, id);
    forall i | 0 <= i < |r| ensures r[i].id != id {
      assert TagIds(r)[i] == r[i].id;
    }
    FilterAll(r, (t: ContextTag) => t.id != id);
  }

  /** The provider's state. */
  class TagStore {
    var tags: seq<ContextTag>

    /** `useState<Tag[]>([])`. */
    constructor()
      ensures tags == []
    {
      tags := [];
    }

    /** `setTags`: the list is replaced. */
    method SetTags(ts: seq<ContextTag>)
      modifies this
      ensures tags == ts
    {
      tags := ts;
    }

    /** `addTag`. */
    method AddTag(tag: ContextTag)
      modifies this
      ensures tags == AddTagTo(old(tags), tag)
      ensures NoDuplicates(TagIds(old(tags))) ==> NoDuplicates(TagIds(tags))
    {
      if NoDuplicates(TagIds(tags)) {
        AddKeepsIdsUnique(tags, tag);
      }
      if tag.id !in TagIds(tags) {
        tags := tags + [tag];
      }
    }

    /** `removeTag`. */
    method RemoveTag(tagId: int)
      modifies this
      ensures tags == RemoveTagFrom(old(tags), tagId)
      ensures NoDuplicates(TagIds(old(tags))) ==> NoDuplicates(TagIds(tags))
    {
      if NoDuplicates(TagIds(tags)) {
        RemoveKeepsIdsUnique(tags, tagId);
      }
      tags := RemoveTagFrom(tags, tagId);
    }
  }
}
