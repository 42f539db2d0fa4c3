# Story archive: a verified model

`main.js` is a single-page browser script for a personal archive of short
stories. It loads an array of story records (`id`, `title`, `content`,
`tags`, `favorite`, `createdAt`) and keeps page state in a handful of globals:

- `stories`, `editingStoryId`, `currentFilter`, `showSecret`;
- `sortOrder`, `currentView` and `visibleStories`.

Its handlers:

- create, edit, delete and mark stories as favourites;
- draw a list view, filtered by a tag or by favourites and sorted by
  creation time;
- draw a timeline view that groups the same stories by calendar day;
- draw a tag side panel that separates "CP:" tags from the other tags and
  hides the `secret` tag;
- open a detail page with "previous" and "next" buttons that walk
  `visibleStories`.

A story tagged `secret` appears only in secret mode, and only such stories
appear there.

The model follows the script's structure:

- `Text` (text.dfy): `trim` and the `/\s/` white space class, the tag-field
  parsing of the save handler, the newline replacement of the detail page,
  `formatContent`, and the code-unit order of a comparator-less `sort()`.
- `Sorting` (sorting.dfy): the stable sort by a numeric key (`Array.prototype.sort`
  with the time comparator), its characterisation (sorted, a permutation,
  order kept among equal keys, and the only such sequence), its reversal
  when no two keys tie, and the sort of tag strings.
- `Stories` (stories.dfy): the story record, the filter argument, the
  visibility predicate and `findIndex`.
- `Store` (store.dfy): the store changes of save, favourite and delete,
  as functions from the old array to the new one.
- `Query` (query.dfy): the list query of `renderStories`.
- `TagIndex` (tagindex.dfy): `renderTagList`.
- `Timeline` (timeline.dfy): `renderTimelineView`. Its grouping and pushing
  loops are methods proved against the `Sections` function. The timeline
  is proved to hold the same stories in the same order as the list.
- `Navigation` (navigation.dfy): `showDetail` and its buttons, both as
  written and with the corrected "next" guard (see Findings).
- `App` (app.dfy): the globals as the fields of class `StoryArchive` and
  each handler as a method that states the whole new state.

Outside inputs are parameters:

- the loaded JSON is the constructor's argument;
- `crypto.randomUUID()` and the current time are arguments of `Save`;
- the answer to `confirm` is an argument of `DeleteStory`;
- the `alert` of an empty title or content is the `false` result of `Save`.

Times are whole milliseconds since the epoch (UTC), so the list's
`new Date(...)` difference is a comparison of naturals. The timeline's
`toISOString().slice(0, 10)` day is the day count `createdAt / 86400000`.

White space for `trim` and `\s` is the full ECMAScript set: white space
and line terminators, including U+00A0, U+FEFF, U+1680, U+2000-U+200A,
U+2028/2029, U+202F, U+205F and U+3000. It is not just the ASCII blanks.

List and timeline order is computed on copies (main.js:96, main.js:302-312),
so `stories` keeps its own order.

## Model

| member | source | states |
|---|---|---|
| Text.Trim | main.js:48-49 | the result has no white space at either end; it is empty exactly when the input is all white space; an input without white space is unchanged |
| Text.TrimIsInnerPiece | main.js:48-49 | `trim` keeps one contiguous piece of the input and cuts only white space before and after it |
| Text.SplitFields | main.js:55 | `split(/[,\s]+/)` yields at least one field and no field holds a comma or white space |
| Text.SplitWord | main.js:55 | text without a comma or white space is not cut: it splits into itself alone |
| Text.SplitCut | main.js:55 | where `split` cuts: a non-empty maximal run of separators between `a` and `b` makes the pieces of `a + run + b` the pieces of `a` followed by those of `b` (with `SplitWord`, this fixes the split of every input) |
| Text.TokensWord | main.js:55-57 | a non-empty word without separators gives exactly one tag, itself |
| Text.TokensCut | main.js:55-57 | a separator run between two parts of a field divides its tags into the tags of each part |
| Text.ParseTagsFirstOnly | main.js:50-57 | empty second and third fields add no tags |
| Text.TwoWordsTwoTags | main.js:50-57 | two words with a separator run between them give the two tags, not one tag spelling both words |
| Text.ParseTags | main.js:50-57 | every tag the three fields give is non-empty and holds no comma and no white space |
| Text.SplitFieldsConcat | main.js:55 | the fields of `split` joined together are the input with every separator deleted: nothing else is lost or reordered |
| Text.CleanAppend | main.js:55-57 | trimming and dropping empty pieces distributes over concatenation, so the three fields can be cleaned one by one |
| Text.ParseTagsSpec | main.js:50-57 | the tag list is field 1's tokens, then field 2's, then field 3's; every tag is non-empty without commas or white space; the tags joined spell the three fields with separators deleted |
| Text.ReplaceNewlines | main.js:205 | a single `\n` becomes `<br>` and any other single character stays; the result holds no `\n`; a text without `\n` is unchanged |
| Text.ReplaceNewlinesAppend | main.js:205 | the replacement works piece by piece over concatenation; with the single-character clause of `ReplaceNewlines` this fixes the result on every text: each `\n` becomes `<br>` |
| Text.FormatContent | main.js:86-92 | a content matching `^CP:(.+)` shows only the rest of its first line, non-empty, in `<strong>`; other content is its `ReplaceNewlines` rewrite (each `\n` becomes `<br>`), so it is unchanged when it has no newlines |
| Text.LexLessAsymmetric | main.js:163-164 | the code-unit order of `sort()` is asymmetric |
| Text.LexLessTotal | main.js:163-164 | any two different strings are ordered one way or the other |
| Text.LexAtMostTransitive | main.js:163-164 | not-greater in code-unit order is transitive |
| Sorting.SortBy | main.js:110-114 | sorting keeps the length and the multiset of stories (a permutation) |
| Sorting.SortBySorted | main.js:110-114 | the result is ordered by the key, descending or ascending as `sortOrder` says |
| Sorting.SortByStable | main.js:110-114 | among stories with the same key the store order is kept |
| Sorting.SortedUnique | main.js:110-114 | two sequences sorted by the key that agree on the stable order of each key are equal |
| Sorting.SortByCharacterized | main.js:110-114 | any sorted sequence with the same per-key order as the input is the sort of the input |
| Sorting.SortByDistinct | main.js:314-316 | sorting a sequence without repeats gives one without repeats |
| Sorting.ReversedSorted | main.js:110-114 | a sequence in newest-first order, read back to front, is in oldest-first order |
| Sorting.AtKeyReversed | main.js:110-114 | reading a sequence back to front reverses the order among the elements of each key |
| Sorting.SortByReversed | main.js:110-114 | when no two elements share a key, the oldest-first sort is the newest-first sort reversed |
| Sorting.SortStringsStrict | main.js:163-164 | sorting distinct tags gives a strictly ascending sequence holding the same tags |
| Sorting.SortStrings | main.js:163-164 | `sort()` on the tags keeps their number and each tag as often as before (a permutation) |
| Sorting.AtKeyMembers | main.js:110-114 | the stories with a given key are exactly the members with that key |
| Stories.FilterFromArg | main.js:94-95 | `null` and `""` mean no filter, `"#favorites"` the favourites, any other string that tag |
| Stories.Admitted | main.js:304-307 | the stories that survive the four early returns: never more than the store holds, and each one passes them |
| Stories.AdmittedUnique | main.js:304-307 | the admitted stories keep the store's unique ids |
| Stories.UniquePermuted | main.js:110-114 | a reordering of stories with unique ids has unique ids, so the sort cannot repeat an id |
| Stories.AdmittedMembers | main.js:98-108 | a story is admitted exactly when it is in the store, its secret tag matches the mode, it carries the filter tag, and it is a favourite under the favourites filter |
| Stories.FindIndex | main.js:62 | `findIndex` returns -1 exactly when no story has the id, otherwise the first position holding it |
| Stories.FindIndexByIds | main.js:249 | the lookup depends only on the ids, so changing other fields keeps every index |
| Store.Edited | main.js:61-67 | when editing, the first story with the id gets the new title, content and tags and keeps its id, flag and time; nothing else changes; an unknown id changes nothing |
| Store.FavoriteToggled | main.js:248-251 | only the first story with the id has its favourite flag flipped; every other position is unchanged |
| Store.ToggleTwice | main.js:248-251 | toggling the same story twice restores the store |
| Store.ToggleKeepsUnique | main.js:248-251 | flipping a favourite flag keeps ids unique |
| Store.WithoutId | main.js:258 | no remaining story carries the deleted id |
| Store.WithoutIdMembers | main.js:258 | a story survives deletion exactly when it was in the store with another id |
| Store.WithoutUnknownId | main.js:258 | deleting an id that no story carries leaves the store unchanged |
| Store.WithoutIdUnique | main.js:258 | deleting keeps ids unique |
| Store.DeleteOne | main.js:258 | with unique ids, deleting removes exactly the one story with that id and keeps the others in order |
| Store.Saved | main.js:47-77 | the save is refused (alert) exactly when the trimmed title or content is empty |
| Store.SavedFieldsEntered | main.js:48-57 | a saved story's title and content are non-empty and trimmed, and its tags are non-empty tokens |
| Store.SaveCreates | main.js:68-76 | a new story goes in front of the unchanged store with the given id and time, not favourite, with the entered fields |
| Store.CreateKeepsUnique | main.js:69-70 | putting a story with a fresh id in front keeps ids unique |
| Store.SaveEdits | main.js:61-67 | an edit keeps length, ids, order, flags and times; when the id is found, only that story changes, to the entered fields |
| Store.EditKeepsUnique | main.js:61-67 | editing a story keeps ids unique |
| Store.SameIdsUnique | main.js:61-67 | stores with the same ids in order are both unique or both not |
| Query.KeepAppend | main.js:99-107 | `filter` distributes over concatenation |
| Query.KeepSplits | main.js:98-102 | a predicate and its negation split a sequence into two parts with the same multiset |
| Query.BySecretMode | main.js:98-102 | secret mode keeps only stories tagged `secret`, normal mode only the others; never more than the input |
| Query.ByFilter | main.js:104-108 | under the favourites filter every kept story is a favourite; under a tag filter every kept story carries the tag; never more than the input |
| Query.ListQuery | main.js:96-114 | the list is never longer than the store (what it holds and in which order: `Query.ListQuerySpec`) |
| Query.SelectionIsAdmitted | main.js:98-108 | the secret filter followed by the tag or favourites filter keeps exactly the admitted stories in store order |
| Query.ListQuerySpec | main.js:94-118 | the visible list is a permutation of the admitted stories, sorted by time in `sortOrder`, with stories of equal time in store order |
| Query.ListMembers | main.js:94-118 | a story is listed exactly when it is in the store and passes; every listed story has the mode's secret tag, the filter tag, and is a favourite under the favourites filter |
| Query.ListQueryUnique | main.js:94-118 | with unique ids in the store, the visible list has unique ids |
| Query.ReverseOrder | main.js:110-114 | when no two admitted stories share a creation time, the oldest-first list is the newest-first list reversed |
| Query.SecretPartition | main.js:98-102 | without a filter, the secret view and the normal view together hold each story of the store exactly once |
| Query.SecretTagFilter | main.js:98-107 | filtering by `secret` is no filter in secret mode and empties the normal view |
| Query.AdmittedSameWhen | main.js:104-108 | filters that admit the same stories give the same selection |
| Query.AdmittedNone | main.js:104-108 | a filter that admits nothing gives an empty selection |
| TagIndex.AddTags | main.js:155-156 | adding a story's tags to a `Set` keeps every tag once and contains exactly the old and new tags |
| TagIndex.AllTagsMembers | main.js:155-156 | the tag set holds exactly the tags that some story of the whole store carries |
| TagIndex.KeepTags | main.js:163-164 | the filtered tags are exactly those satisfying the predicate, without repeats |
| TagIndex.TagPanel | main.js:155-164 | both groups are strictly ascending (no tag twice); every tag of the CP group starts with "CP:"; no tag of the other group does, and `secret` is not among them |
| TagIndex.TagPanelSpec | main.js:154-164 | both groups are strictly ascending; the CP group holds exactly the store's "CP:" tags; the other group holds exactly its other tags except `secret` |
| TagIndex.TagPanelPartition | main.js:163-164 | the two groups are disjoint and together hold every tag of the store except `secret` |
| TagIndex.CpName | main.js:171 | a "CP:" tag shows its name without the prefix; "CP:" plus that name gives the tag back |
| Timeline.DaysSeenMembers | main.js:309-310 | a day is a key of `grouped` exactly when an admitted story falls on it |
| Timeline.GroupByDay | main.js:303-312 | after the loop, the keys are the distinct days of the admitted stories in first-seen order, and each day holds its admitted stories in store order |
| Timeline.Sections | main.js:303-331 | one section per distinct day of the admitted stories |
| Timeline.PushSections | main.js:323-355 | pushing each day's sorted stories in `sortedDates` order leaves `visibleStories` equal to the sections concatenated |
| Timeline.PushAll | main.js:333-355 | pushing a day's stories one by one leaves the old `visibleStories` followed by those stories, in order |
| Timeline.RenderTimeline | main.js:299-362 | the timeline's `visibleStories` is the concatenation of its sections and equals the list query for the same mode, filter and order |
| Timeline.TimelineShape | main.js:303-331 | section days are strictly ordered as `sortOrder` says; no section is empty; each holds only stories of its day sorted by time; every admitted story's day has a section |
| Timeline.SectionsOrdered | main.js:314-331 | a story in a later section never sorts before a story in an earlier one |
| Timeline.TimelineMatchesList | main.js:299-362 | the timeline shows the same stories in the same order as the list view |
| Timeline.DayMonotone | main.js:309 | a later time never falls on an earlier day |
| Navigation.OpenDetailAsWritten | main.js:194-210 | the index is the story's `findIndex` in `visibleStories`; "previous" when it is positive; "next" when it is below the store length minus one |
| Navigation.OpenDetail | main.js:194-210 | the same, with "next" only when the index is below the visible length minus one |
| Navigation.PrevTarget | main.js:221-225 | the "previous" click opens `visibleStories[index - 1]` and fails exactly when that is out of range |
| Navigation.NextTarget | main.js:227-233 | the "next" click opens `visibleStories[index + 1]` and fails exactly when that is out of range |
| Navigation.PrevAlwaysDefined | main.js:208 | whenever "previous" is offered, its click opens a story |
| Navigation.NextOfferedPastView | main.js:210 | as written, a store of two with one secret story shows "next" on the only visible story, and its click reads `undefined` |
| Navigation.NextGapAsWritten | main.js:210 | as written, "next" is offered and fails exactly on the last visible story when the view is shorter than the store |
| Navigation.NextDefined | main.js:210 | with the corrected guard, "next" is offered exactly when its click opens a story, and only where the written guard offers it |
| Navigation.StepLandsOnNeighbour | main.js:221-233 | with unique ids, opening a visible story finds its position, and "previous"/"next" land on the neighbouring position |
| Navigation.UniqueFind | main.js:195 | with unique ids, looking up the id at a position finds that position |
| App.Flipped | main.js:290 | the sort toggle always changes the order |
| App.OtherView | main.js:366 | the view toggle always changes the view |
| App.StoryArchive.constructor | main.js:7-29 | the initial globals, then the first list render: visible list and tag panel are computed from the loaded stories with no filter, normal mode and newest first; loaded stories with unique ids give `UniqueStories` |
| App.StoryArchive.RenderStories | main.js:94-118 | records the filter; the visible list is the list query; the tag panel is drawn from the whole store; the store and modes are unchanged; a store with unique ids gives a visible list with unique ids |
| App.StoryArchive.FilterAndSort | main.js:96-114 | the copy, the two filters and the sort give the list query; unique ids in the store stay unique in the list |
| App.StoryArchive.RenderTagList | main.js:154-192 | the tag panel is drawn from the given stories; nothing else changes |
| App.StoryArchive.RenderTimelineView | main.js:299-362 | the visible list is the concatenated sections, equal to the list query; the filter and tag panel are untouched; a store with unique ids gives a visible list with unique ids |
| App.StoryArchive.Rerender | main.js:237-245 | redraws the current view with the current filter; the visible list is the list query either way; a store with unique ids gives a visible list with unique ids |
| App.StoryArchive.NewStory | main.js:32-38 | leaves edit mode and changes nothing else; unique ids stay unique |
| App.StoryArchive.Save | main.js:47-83 | saves exactly when `Store.Saved` accepts; the new store is its result; edit mode ends; the list is redrawn with the current filter; a refused save changes nothing; unique ids stay unique when editing, or when the new id is fresh |
| App.StoryArchive.Commit | main.js:61-82 | writes the story, leaves edit mode, and redraws the list with the current filter |
| App.StoryArchive.WriteStory | main.js:61-77 | the three field writes on the edited story, or the `unshift` of a new one, give `Store.Edited` or the prepended store |
| App.StoryArchive.ShowDetailAsWritten | main.js:194-210 | on a page state whose visible list is drawn from the store, the as-written detail offers a "next" whose click fails exactly on the last visible story when the view is shorter than the store |
| App.StoryArchive.ShowDetail | main.js:194-235 | the detail is `OpenDetail` of the visible list; each button is offered exactly when its click opens a story; the body has no `\n` |
| App.StoryArchive.OpenPrev | main.js:221-225 | on a detail page drawn from the current list, "previous" opens the detail of the preceding visible story |
| App.StoryArchive.OpenNext | main.js:227-233 | on a detail page drawn from the current list, "next" opens the detail of the following visible story |
| App.StoryArchive.ToggleFavorite | main.js:248-254 | the store becomes `FavoriteToggled`; the detail of the toggled story opens exactly when the id is found; nothing else changes; unique ids stay unique |
| App.StoryArchive.DeleteStory | main.js:256-260 | when confirmed, the store loses the stories with the id and the current view is redrawn: the tag panel from the new store in the list, kept in the timeline; when declined, nothing changes; unique ids stay unique |
| App.StoryArchive.EditStory | main.js:262-266 | enters edit mode for the id exactly when a story has it; otherwise nothing changes; unique ids stay unique |
| App.StoryArchive.ToggleSecret | main.js:276-286 | flips secret mode and redraws the current view with the current filter; the tag panel is redrawn in the list and kept in the timeline; a store with unique ids gives a visible list with unique ids |
| App.StoryArchive.ToggleSortOrder | main.js:289-296 | flips the order and redraws the current view; the tag panel is redrawn in the list and kept in the timeline; a store with unique ids gives a visible list with unique ids |
| App.StoryArchive.ToggleViewMode | main.js:365-377 | switches the view and draws it; in the timeline the visible list is the concatenated sections; the tag panel is redrawn in the list and kept in the timeline; a store with unique ids gives a visible list with unique ids |

## Left out

- The DOM is not modelled: markup, classes, `innerHTML`, the card click handlers of main.js:129-151 and the tag buttons' `onclick` are left out. The tag panel is modelled as the two sorted groups it draws, and a card click is `ShowDetail` of its story.
- `fetch("stories.json")` and its error path are not modelled; the constructor receives the loaded array (the empty array when loading fails). JSON parsing and the shape of the loaded records are not checked.
- `exportJSON` (main.js:380-387) is left out: it only serialises the store to a download.
- The cancel button (main.js:42-45) only hides and shows markup, so it is left out.
- `crypto.randomUUID()` and `new Date()` are parameters of `Save`. A fresh new id is a hypothesis of `Save`'s uniqueness clause, not something `Save` ensures.
- `Stories.Story`: `createdAt` is a natural number of milliseconds, not an ISO string. Unparseable dates (`NaN` times), dates before 1970 and years past 9999 are not modelled.
- `Timeline.DayOf`: the date keys are day counts, not `YYYY-MM-DD` strings. Their `localeCompare` order is modelled as numeric order, which agrees for four-digit years.
- `App.StoryArchive.NewStory` and `App.StoryArchive.EditStory`: the writes to the form inputs are left out. Both also write `tagsInput` (main.js:39, 269), an element the save handler never reads. If no such element exists, that write throws after the state change, which the model does not show.
- `App.StoryArchive.ToggleFavorite`: `visibleStories` holds values, not aliases of the store's objects. In the script, flipping a flag also changes the visible entry; the model leaves `visibleStories` unchanged until the next render.
- Scrolling (`lastScrollY`, `window.scrollTo`) and the `setTimeout` before the "next" click are left out; they do not change the model's state.
- Strings are sequences of `char`. Code-unit versus code-point differences, such as surrogate pairs in `trim` or `sort()`, are not modelled.
- The `index` stored with each timeline entry (main.js:311) and the second argument of `showDetail` are never used by `showDetail`, so they are left out.
- `Text.FormatContent` models `formatContent` (main.js:86-92), although the script never calls it; the detail page replaces newlines directly (main.js:205).
- Text.SplitFields: its own contract states only the shape of the pieces (at least one, none holding a separator); where the split cuts is stated by `Text.SplitWord` and `Text.SplitCut`, and what is kept by `Text.SplitFieldsConcat`.
- `App.StoryArchive.ShowDetail`, `App.StoryArchive.ToggleFavorite`, `App.StoryArchive.OpenPrev` and `App.StoryArchive.OpenNext` open the detail page with the corrected "next" guard of `Navigation.OpenDetail`; the guard as written is `Navigation.OpenDetailAsWritten` (see Findings).
- Query.ListQuery: its own contract states only the length bound; that the list is a permutation of the admitted stories, sorted by time and stable is stated by `Query.ListQuerySpec`, so that the handlers that mention the list stay cheap to prove.
- `App.StoryArchive.UniqueStories` (unique ids in the store and the visible list) is a property the handlers keep, not part of `Valid`: the script never checks the ids of the loaded JSON, so the constructor promises it only for loaded stories with unique ids.

## Findings

| source | as written | input that shows it | evidently intended | confidence | as-written member | corrected member |
|---|---|---|---|---|---|---|
| main.js:210, main.js:227 | "next" is offered when `index < stories.length - 1`, a bound on the whole store | store `[a, b]` with `b` tagged `secret`, normal mode: the visible list is `[a]`, `a`'s detail offers "next", and its click reads `visibleStories[1]`, `undefined`, so `showDetail` throws a `TypeError` | `index < visibleStories.length - 1`, the list the buttons walk | high; not executed | Navigation.NextOfferedPastView | Navigation.NextDefined |
