/** The page state of the story archive and the handlers that change it.
    Each handler is proved against the functions of the other modules. */
module App {
  import opened Text
  import opened Sorting
  import opened Stories
  import opened Store
  import opened Query
  import opened TagIndex
  import opened Timeline
  import opened Navigation

  /** `currentView`: "list" or "timeline". */
  datatype ViewMode = ListView | TimelineView

  function Flipped(o: SortOrder): (r: SortOrder)
    ensures r != o
  {
    if o == Desc then Asc else Desc
  }

  function OtherView(v: ViewMode): (r: ViewMode)
    ensures r != v
  {
    if v == ListView then TimelineView else ListView
  }

  /** The globals of the script and the tag panel it last drew. */
  class StoryArchive {
    var stories: seq<Story>
    var editingStoryId: Option<Id>
    var currentFilter: Filter
    var showSecret: bool
    var sortOrder: SortOrder
    var currentView: ViewMode
    var visibleStories: seq<Story>
    var tagPanel: Panel

    /** The visible list is drawn from the store, so it is never longer. */
    ghost predicate Valid()
      reads this
    {
      |visibleStories| <= |stories|
    }

    /** Ids are unique in the store and in the visible list, so the detail
        page's `findIndex` finds the position a story was opened from. */
    ghost predicate UniqueStories()
      reads this
    {
      UniqueIds(stories) && UniqueIds(visibleStories)
    }

    /** The initial globals, then the first `renderStories()` on the
        loaded stories (the empty store when loading fails). */
    constructor (loaded: seq<Story>)
      ensures stories == loaded && editingStoryId == None
      ensures showSecret == false && sortOrder == Desc && currentView == ListView
      ensures currentFilter == NoFilter
      ensures visibleStories == ListQuery(loaded, false, NoFilter, Desc)
      ensures tagPanel == TagPanel(loaded)
      ensures Valid()
      ensures UniqueIds(loaded) ==> UniqueStories()
    {
      stories := loaded;
      editingStoryId := None;
      currentFilter := NoFilter;
      showSecret := false;
      sortOrder := Desc;
      currentView := ListView;
      visibleStories := [];
      tagPanel := Panel([], []);
      new;
      RenderStories(NoFilter);
    }

    /** `renderStories(filterTag)` without its markup: record the filter,
        filter a copy of the store, sort it, and publish the result as
        `visibleStories`; the tag panel is redrawn from the whole store
        (the script draws it just before publishing, which nothing here
        can observe). */
    method RenderStories(filter: Filter)
      modifies this
      ensures currentFilter == filter
      ensures visibleStories == ListQuery(stories, showSecret, filter, sortOrder)
      ensures tagPanel == TagPanel(stories)
      ensures stories == old(stories) && editingStoryId == old(editingStoryId)
      ensures showSecret == old(showSecret) && sortOrder == old(sortOrder) && currentView == old(currentView)
      ensures Valid()
      ensures UniqueIds(stories) ==> UniqueStories()
    {
      currentFilter := filter;
      var filtered := FilterAndSort(filter);
      visibleStories := filtered;
      RenderTagList(stories);
    }

    /** The list computation of `renderStories`: copy the store, keep the
        stories of the current secret mode, apply the filter and sort by
        time. Unique ids in the store stay unique in the list. */
    method FilterAndSort(filter: Filter) returns (filtered: seq<Story>)
      ensures filtered == ListQuery(stories, showSecret, filter, sortOrder)
      ensures UniqueIds(stories) ==> UniqueIds(filtered)
    {
      filtered := stories;
      filtered := BySecretMode(filtered, showSecret);
      filtered := ByFilter(filtered, filter);
      filtered := SortBy(filtered, CreatedAt, sortOrder);
      if UniqueIds(stories) {
        ListQueryUnique(stories, showSecret, filter, sortOrder);
      }
    }

    /** `renderTagList(storyData)` without its markup: the tag panel is
        drawn from the given stories; nothing else changes. */
    method RenderTagList(storyData: seq<Story>)
      modifies this
      ensures tagPanel == TagPanel(storyData)
      ensures stories == old(stories) && editingStoryId == old(editingStoryId) && visibleStories == old(visibleStories)
      ensures currentFilter == old(currentFilter) && showSecret == old(showSecret)
      ensures sortOrder == old(sortOrder) && currentView == old(currentView)
    {
      tagPanel := TagPanel(storyData);
    }

    /** `renderTimelineView(filterTag)` without its markup. Unlike the list
        it leaves `currentFilter` and the tag panel alone. */
    method RenderTimelineView(filter: Filter)
      modifies this
      ensures visibleStories == Flatten(Sections(stories, showSecret, filter, sortOrder))
      ensures visibleStories == ListQuery(stories, showSecret, filter, sortOrder)
      ensures currentFilter == old(currentFilter) && tagPanel == old(tagPanel)
      ensures stories == old(stories) && editingStoryId == old(editingStoryId)
      ensures showSecret == old(showSecret) && sortOrder == old(sortOrder) && currentView == old(currentView)
      ensures Valid()
      ensures UniqueIds(stories) ==> UniqueStories()
    {
      visibleStories := [];
      var pushed := RenderTimeline(stories, showSecret, filter, sortOrder);
      visibleStories := pushed;
      assert UniqueIds(stories) ==> UniqueIds(visibleStories) by {
        if UniqueIds(stories) {
          ListQueryUnique(stories, showSecret, filter, sortOrder);
        }
      }
    }

    /** Redraw the current view with the current filter, as `backToList`
        and the three toggles do. */
    method Rerender()
      modifies this
      ensures visibleStories == ListQuery(stories, showSecret, old(currentFilter), sortOrder)
      ensures currentFilter == old(currentFilter)
      ensures tagPanel == if currentView == ListView then TagPanel(stories) else old(tagPanel)
      ensures stories == old(stories) && editingStoryId == old(editingStoryId)
      ensures showSecret == old(showSecret) && sortOrder == old(sortOrder) && currentView == old(currentView)
      ensures Valid()
      ensures UniqueIds(stories) ==> UniqueStories()
    {
      if currentView == ListView {
        RenderStories(currentFilter);
      } else {
        RenderTimelineView(currentFilter);
      }
    }

    /** The "new story" button: leave edit mode. */
    method NewStory()
      modifies this
      ensures editingStoryId == None
      ensures stories == old(stories) && visibleStories == old(visibleStories)
      ensures currentFilter == old(currentFilter) && tagPanel == old(tagPanel)
      ensures showSecret == old(showSecret) && sortOrder == old(sortOrder) && currentView == old(currentView)
      ensures old(Valid()) ==> Valid()
      ensures old(UniqueStories()) ==> UniqueStories()
    {
      editingStoryId := None;
    }

    /** The save button. An empty title or content is refused (the alert)
        and changes nothing. Otherwise the story being edited is updated
        field by field, or a new story is put in front of the store; edit
        mode ends and the list is drawn with the current filter. */
    method Save(titleIn: string, contentIn: string, tags1: string, tags2: string, tags3: string,
                newId: Id, now: nat)
      returns (saved: bool)
      modifies this
      ensures var r := Saved(old(stories), old(editingStoryId), titleIn, contentIn, tags1, tags2, tags3, newId, now);
              && (saved <==> r.Some?)
              && (saved ==> stories == r.value)
      ensures saved ==> && editingStoryId == None
                        && currentFilter == old(currentFilter)
                        && visibleStories == ListQuery(stories, showSecret, currentFilter, sortOrder)
                        && tagPanel == TagPanel(stories)
                        && Valid()
      ensures !saved ==> && stories == old(stories) && editingStoryId == old(editingStoryId)
                         && visibleStories == old(visibleStories) && currentFilter == old(currentFilter)
                         && tagPanel == old(tagPanel)
      ensures showSecret == old(showSecret) && sortOrder == old(sortOrder) && currentView == old(currentView)
      ensures old(UniqueStories()) && (IsEditing(old(editingStoryId)) || FreshId(old(stories), newId)) ==>
                UniqueStories()
    {
      var title := Trim(titleIn);
      var content := Trim(contentIn);
      var tags := ParseTags(tags1, tags2, tags3);
      if title == "" || content == "" {
        return false;
      }
      Commit(title, content, tags, newId, now);
      saved := true;
    }

    /** The rest of a successful save: write the story, leave edit mode
        and draw the list with the current filter. */
    method Commit(title: string, content: string, tags: seq<string>, newId: Id, now: nat)
      modifies this
      ensures stories == if IsEditing(old(editingStoryId))
                         then Edited(old(stories), old(editingStoryId).value, title, content, tags)
                         else [Story(newId, title, content, tags, false, now)] + old(stories)
      ensures editingStoryId == None && currentFilter == old(currentFilter)
      ensures visibleStories == ListQuery(stories, showSecret, currentFilter, sortOrder)
      ensures tagPanel == TagPanel(stories) && Valid()
      ensures showSecret == old(showSecret) && sortOrder == old(sortOrder) && currentView == old(currentView)
      ensures old(UniqueIds(stories)) && (IsEditing(old(editingStoryId)) || FreshId(old(stories), newId)) ==>
                UniqueStories()
    {
      WriteStory(title, content, tags, newId, now);
      editingStoryId := None;
      RenderStories(currentFilter);
    }

    /** The store write of a successful save: the three field writes on
        the story being edited, or the `unshift` of a new story. */
    method WriteStory(title: string, content: string, tags: seq<string>, newId: Id, now: nat)
      modifies this
      ensures stories == if IsEditing(old(editingStoryId))
                         then Edited(old(stories), old(editingStoryId).value, title, content, tags)
                         else [Story(newId, title, content, tags, false, now)] + old(stories)
      ensures editingStoryId == old(editingStoryId) && currentFilter == old(currentFilter)
      ensures visibleStories == old(visibleStories) && tagPanel == old(tagPanel)
      ensures showSecret == old(showSecret) && sortOrder == old(sortOrder) && currentView == old(currentView)
      ensures old(UniqueIds(stories)) && (IsEditing(old(editingStoryId)) || FreshId(old(stories), newId)) ==>
                UniqueIds(stories)
    {
      ghost var before := stories;
      if IsEditing(editingStoryId) {
        var index := FindIndex(stories, editingStoryId.value);
        if index != -1 {
          stories := stories[index := stories[index].(title := title)];
          stories := stories[index := stories[index].(content := content)];
          stories := stories[index := stories[index].(tags := tags)];
        }
      } else {
        stories := [Story(newId, title, content, tags, false, now)] + stories;
      }
      if UniqueIds(before) {
        if IsEditing(editingStoryId) {
          EditKeepsUnique(before, editingStoryId.value, title, content, tags);
        } else if FreshId(before, newId) {
          CreateKeepsUnique(before, Story(newId, title, content, tags, false, now));
        }
      }
    }

    /** `showDetail(story)` with the "next" guard as written, on a page
        state whose visible list is drawn from the store: "next" is
        offered and its click fails exactly on the last visible story
        while the view is shorter than the store. */
    method ShowDetailAsWritten(x: Story) returns (d: Detail)
      requires Valid()
      ensures d == OpenDetailAsWritten(visibleStories, |stories|, x)
      ensures d.hasNext && NextTarget(visibleStories, d.index).Err? <==>
                d.index == |visibleStories| - 1 && |visibleStories| < |stories|
    {
      d := OpenDetailAsWritten(visibleStories, |stories|, x);
      NextGapAsWritten(visibleStories, |stories|, x);
    }

    /** `showDetail(story)`: locate the story in the visible list and
        offer "previous" and "next" only where they lead to a story. */
    method ShowDetail(x: Story) returns (d: Detail)
      ensures d == OpenDetail(visibleStories, x)
      ensures d.hasPrev <==> PrevTarget(visibleStories, d.index).Ok?
      ensures d.hasNext <==> NextTarget(visibleStories, d.index).Ok?
      ensures d.body == ReplaceNewlines(x.content) && '\n' !in d.body
    {
      var index := FindIndex(visibleStories, x.id);
      d := Detail(x, ReplaceNewlines(x.content), index, index > 0, index < |visibleStories| - 1);
    }

    /** The "previous" button of an open detail page. */
    method OpenPrev(d: Detail) returns (r: Result<Detail>)
      requires d.hasPrev
      ensures d == OpenDetail(visibleStories, d.story) ==> r.Ok?
      ensures r.Ok? <==> PrevTarget(visibleStories, d.index).Ok?
      ensures r.Ok? ==> r.value == OpenDetail(visibleStories, visibleStories[d.index - 1])
    {
      var target := PrevTarget(visibleStories, d.index);
      if target.Err? {
        assert d != OpenDetail(visibleStories, d.story);
        return Err(target.error);
      }
      var next := ShowDetail(target.value);
      r := Ok(next);
    }

    /** The "next" button of an open detail page. */
    method OpenNext(d: Detail) returns (r: Result<Detail>)
      requires d.hasNext
      ensures d == OpenDetail(visibleStories, d.story) ==> r.Ok?
      ensures r.Ok? <==> NextTarget(visibleStories, d.index).Ok?
      ensures r.Ok? ==> r.value == OpenDetail(visibleStories, visibleStories[d.index + 1])
    {
      var target := NextTarget(visibleStories, d.index);
      if target.Err? {
        assert d != OpenDetail(visibleStories, d.story);
        return Err(target.error);
      }
      var next := ShowDetail(target.value);
      r := Ok(next);
    }

    /** `toggleFavorite(id)`: flip the flag of the first story with that id
        in place and reopen its detail page; an unknown id does nothing. */
    method ToggleFavorite(id: Id) returns (d: Option<Detail>)
      modifies this
      ensures stories == FavoriteToggled(old(stories), id)
      ensures d.Some? <==> FindIndex(old(stories), id) >= 0
      ensures d.Some? ==> d.value == OpenDetail(visibleStories, stories[FindIndex(old(stories), id)])
      ensures visibleStories == old(visibleStories) && editingStoryId == old(editingStoryId)
      ensures currentFilter == old(currentFilter) && tagPanel == old(tagPanel)
      ensures showSecret == old(showSecret) && sortOrder == old(sortOrder) && currentView == old(currentView)
      ensures old(Valid()) ==> Valid()
      ensures old(UniqueStories()) ==> UniqueStories()
    {
      assert UniqueIds(stories) ==> UniqueIds(FavoriteToggled(stories, id)) by {
        if UniqueIds(stories) {
          ToggleKeepsUnique(stories, id);
        }
      }
      var idx := FindIndex(stories, id);
      if idx != -1 {
        stories := stories[idx := stories[idx].(favorite := !stories[idx].favorite)];
        var shown := ShowDetail(stories[idx]);
        return Some(shown);
      }
      return None;
    }

    /** `deleteStory(id)` with the answer of the confirmation dialog: when
        confirmed, keep the stories with another id and go back to the
        current view; when declined, nothing changes. */
    method DeleteStory(id: Id, confirmed: bool)
      modifies this
      ensures confirmed ==> && stories == WithoutId(old(stories), id)
                            && visibleStories == ListQuery(stories, showSecret, old(currentFilter), sortOrder)
                            && tagPanel == (if currentView == ListView then TagPanel(stories) else old(tagPanel))
                            && Valid()
      ensures !confirmed ==> && stories == old(stories) && visibleStories == old(visibleStories)
                             && tagPanel == old(tagPanel)
      ensures currentFilter == old(currentFilter) && editingStoryId == old(editingStoryId)
      ensures showSecret == old(showSecret) && sortOrder == old(sortOrder) && currentView == old(currentView)
      ensures old(UniqueStories()) ==> UniqueStories()
    {
      if !confirmed {
        return;
      }
      assert UniqueIds(stories) ==> UniqueIds(WithoutId(stories, id)) by {
        if UniqueIds(stories) {
          WithoutIdUnique(stories, id);
        }
      }
      stories := WithoutId(stories, id);
      Rerender();
    }

    /** `editStory(id)`'s lookup: when a story has that id, enter edit mode
        for it; otherwise nothing changes. */
    method EditStory(id: Id) returns (found: bool)
      modifies this
      ensures found <==> exists j :: 0 <= j < |stories| && stories[j].id == id
      ensures editingStoryId == if found then Some(id) else old(editingStoryId)
      ensures stories == old(stories) && visibleStories == old(visibleStories)
      ensures currentFilter == old(currentFilter) && tagPanel == old(tagPanel)
      ensures showSecret == old(showSecret) && sortOrder == old(sortOrder) && currentView == old(currentView)
      ensures old(Valid()) ==> Valid()
      ensures old(UniqueStories()) ==> UniqueStories()
    {
      var index := FindIndex(stories, id);
      if index == -1 {
        assert forall j :: 0 <= j < |stories| ==> stories[j].id != id;
        return false;
      }
      editingStoryId := Some(stories[index].id);
      assert stories[index].id == id;
      found := true;
    }

    /** The secret toggle: switch between the normal and the secret
        stories and redraw the current view. */
    method ToggleSecret()
      modifies this
      ensures showSecret == !old(showSecret)
      ensures visibleStories == ListQuery(stories, showSecret, currentFilter, sortOrder)
      ensures tagPanel == if currentView == ListView then TagPanel(stories) else old(tagPanel)
      ensures stories == old(stories) && currentFilter == old(currentFilter) && editingStoryId == old(editingStoryId)
      ensures sortOrder == old(sortOrder) && currentView == old(currentView)
      ensures Valid()
      ensures UniqueIds(stories) ==> UniqueStories()
    {
      showSecret := !showSecret;
      Rerender();
    }

    /** `toggleSortOrder()`: flip between newest first and oldest first and
        redraw the current view. */
    method ToggleSortOrder()
      modifies this
      ensures sortOrder == Flipped(old(sortOrder))
      ensures visibleStories == ListQuery(stories, showSecret, currentFilter, sortOrder)
      ensures tagPanel == if currentView == ListView then TagPanel(stories) else old(tagPanel)
      ensures stories == old(stories) && currentFilter == old(currentFilter) && editingStoryId == old(editingStoryId)
      ensures showSecret == old(showSecret) && currentView == old(currentView)
      ensures Valid()
      ensures UniqueIds(stories) ==> UniqueStories()
    {
      sortOrder := if sortOrder == Desc then Asc else Desc;
      Rerender();
    }

    /** `toggleViewMode()`: switch between the list and the timeline and
        draw the new view. */
    method ToggleViewMode()
      modifies this
      ensures currentView == OtherView(old(currentView))
      ensures visibleStories == ListQuery(stories, showSecret, currentFilter, sortOrder)
      ensures tagPanel == if currentView == ListView then TagPanel(stories) else old(tagPanel)
      ensures currentView == TimelineView ==>
                visibleStories == Flatten(Sections(stories, showSecret, currentFilter, sortOrder))
      ensures stories == old(stories) && currentFilter == old(currentFilter) && editingStoryId == old(editingStoryId)
      ensures showSecret == old(showSecret) && sortOrder == old(sortOrder)
      ensures Valid()
      ensures UniqueIds(stories) ==> UniqueStories()
    {
      currentView := if currentView == ListView then TimelineView else ListView;
      if currentView == ListView {
        RenderStories(currentFilter);
      } else {
        RenderTimelineView(currentFilter);
      }
    }
  }
}
