/**
 * app/components/TagSearch.tsx: the tag picker of the search panel. The chosen
 * tags are the parent's (`selectedTags` is a prop), so every handler that needs
 * them takes them as an argument; the `onTagSelect` and `onTagsChange` calls are
 * recorded in `events`.
 */
module TagSearch {
  import opened Common
  import opened ClientModel

  /** A callback to the parent, with the new list of chosen tag names. */
  datatype Event = TagSelect(names: seq<string>) | TagsChange(names: seq<string>)

  /** A tag is offered when its name contains the term, ignoring case, and it is not chosen yet. */
  predicate Suggests(t: ClientTag, term: string, selected: seq<string>) {
    IsSubstring(Lower(term), Lower(t.name)) && t.name !in selected
  }

  /** `filteredTags`: the offered tags, in the order the server listed them. */
  function FilteredTags(tags: seq<ClientTag>, term: string, selected: seq<string>): (r: seq<ClientTag>)
    ensures |r| <= |tags|
    ensures forall i :: 0 <= i < |r| ==> r[i] in tags && Suggests(r[i], term, selected)
    ensures forall i :: 0 <= i < |tags| && Suggests(tags[i], term, selected) ==> tags[i] in r
  {
    Filter(tags, t => Suggests(t, term, selected))
  }

  /**
   * A tag listed after the others is offered after them, if at all: together with
   * `FilteredTags([], ...) == []` this fixes the whole result, so the offered tags
   * keep the server's order and its duplicates.
   */
  lemma {:induction false} FilteredTagsSnoc(tags: seq<ClientTag>, t: ClientTag, term: string, selected: seq<string>)
    ensures FilteredTags([], term, selected) == []
    ensures FilteredTags(tags + [t], term, selected) ==
      FilteredTags(tags, term, selected) + (if Suggests(t, term, selected) then [t] else [])
  {
    FilterSnoc(tags, t, u => Suggests(u, term, selected));
  }

  /** `showSuggestions && searchTerm`: the list opens only for a non-empty term. */
  function SuggestionsShown(showSuggestions: bool, term: string): (shown: bool)
    ensures shown <==> showSuggestions && term != ""
  {
    showSuggestions && |term| > 0
  }

  /** The empty term offers every tag not yet chosen. */
  lemma {:induction false} EmptyTermOffersUnselected(tags: seq<ClientTag>, selected: seq<string>, t: ClientTag)
    requires t in tags
    ensures t in FilteredTags(tags, "", selected) <==> t.name !in selected
  {
    EmptyIsSubstring(Lower(t.name));
  }

  /** Matching ignores case: an upper-cased term offers the same tags in the same order. */
  lemma {:induction false} TermCaseIgnored(tags: seq<ClientTag>, term: string, selected: seq<string>)
    ensures FilteredTags(tags, Upper(term), selected) == FilteredTags(tags, term, selected)
  {
    LowerOfUpper(term);
    FilterExt(tags, t => Suggests(t, Upper(term), selected), t => Suggests(t, term, selected));
  }

  /** A tag that is picked stops being offered, whatever is typed next. */
  lemma {:induction false} PickedTagNotOffered(tags: seq<ClientTag>, term: string, selected: seq<string>, t: ClientTag)
    requires t.name !in selected
    ensures t !in FilteredTags(tags, term, Toggle(selected, t.name))
  {
  }

  class TagSearchState {
    /** The tags fetched from `/api/tags`. */
    var tags: seq<ClientTag>
    var searchTerm: string
    var showSuggestions: bool
    var events: seq<Event>

    /** No tags yet, empty term, list closed. */
    constructor()
      ensures tags == [] && searchTerm == "" && !showSuggestions && events == []
    {
      tags := [];
      searchTerm := "";
      showSuggestions := false;
      events := [];
    }

    /** `setTags(data)` once the tag list arrives. */
    method SetTags(data: seq<ClientTag>)
      modifies this
      ensures tags == data
      ensures searchTerm == old(searchTerm) && showSuggestions == old(showSuggestions) && events == old(events)
    {
      tags := data;
    }

    /** The input's `onChange`: the term is replaced and the list opens. */
    method HandleInput(value: string)
      modifies this
      ensures searchTerm == value && showSuggestions
      ensures tags == old(tags) && events == old(events)
    {
      searchTerm := value;
      showSuggestions := true;
    }

    /** The input's `onFocus`: the list opens. */
    method HandleFocus()
      modifies this
      ensures showSuggestions
      ensures tags == old(tags) && searchTerm == old(searchTerm) && events == old(events)
    {
      showSuggestions := true;
    }

    /**
     * A `mousedown` outside both the input and the list closes the list, but only
     * while the list is mounted: `suggestionsRef.current` is set only while
     * `showSuggestions && searchTerm` renders it. Otherwise the flag is kept.
     */
    method HandleClickOutside()
      modifies this
      ensures old(SuggestionsShown(showSuggestions, searchTerm)) ==> !showSuggestions
      ensures !old(SuggestionsShown(showSuggestions, searchTerm)) ==> showSuggestions == old(showSuggestions)
      ensures !SuggestionsShown(showSuggestions, searchTerm)
      ensures tags == old(tags) && searchTerm == old(searchTerm) && events == old(events)
    {
      if showSuggestions && searchTerm != "" {
        showSuggestions := false;
      }
    }

    /**
     * `handleTagSelect`: the name is toggled in the chosen list, `onTagSelect` (when
     * given) and then `onTagsChange` receive the new list, and the input is cleared
     * and closed.
     */
    method HandleTagSelect(selectedTags: seq<string>, tagName: string, hasOnTagSelect: bool)
      modifies this
      ensures var chosen := Toggle(selectedTags, tagName);
        events == old(events) + (if hasOnTagSelect then [TagSelect(chosen)] else []) + [TagsChange(chosen)]
      ensures searchTerm == "" && !showSuggestions && !SuggestionsShown(showSuggestions, searchTerm)
      ensures tags == old(tags)
    {
      var chosen := if tagName in selectedTags then Remove(selectedTags, tagName) else selectedTags + [tagName];
      if hasOnTagSelect {
        events := events + [TagSelect(chosen)];
      }
      events := events + [TagsChange(chosen)];
      searchTerm := "";
      showSuggestions := false;
    }
  }

  /**
   * With an empty term the list is not mounted, so a click outside after a focus
   * leaves the flag set: the list appears with the first keystroke's term.
   */
  method FocusThenClickOutside(s: TagSearchState)
    requires s.searchTerm == ""
    modifies s
    ensures s.showSuggestions && s.searchTerm == ""
    ensures s.tags == old(s.tags) && s.events == old(s.events)
  {
    s.HandleFocus();
    s.HandleClickOutside();
  }
}
