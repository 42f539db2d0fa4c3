/** The changes the save, favourite and delete handlers make to the global
    `stories` array, as functions from the old array to the new one. */
module Store {
  import opened Text
  import opened Stories

  /** The story at position `i` of `r` is the one of `s` with its title,
      content and tags replaced; every other position is unchanged. */
  predicate EditedAt(s: seq<Story>, r: seq<Story>, i: int, title: string, content: string, tags: seq<string>) {
    && |r| == |s|
    && 0 <= i < |s|
    && r[i] == Story(s[i].id, title, content, tags, s[i].favorite, s[i].createdAt)
    && forall j :: 0 <= j < |s| && j != i ==> r[j] == s[j]
  }

  /** The edit branch of the save handler: the first story carrying `id`
      gets the new title, content and tags; an unknown id changes nothing. */
  function Edited(store: seq<Story>, id: Id, title: string, content: string, tags: seq<string>): (r: seq<Story>)
    ensures FindIndex(store, id) == -1 ==> r == store
    ensures FindIndex(store, id) >= 0 ==> EditedAt(store, r, FindIndex(store, id), title, content, tags)
  {
    var i := FindIndex(store, id);
    if i == -1 then store
    else store[i := store[i].(title := title, content := content, tags := tags)]
  }

  /** The favourite flag of the first story carrying `id` is flipped;
      nothing else changes. */
  function FavoriteToggled(store: seq<Story>, id: Id): (r: seq<Story>)
    ensures |r| == |store|
    ensures forall j :: 0 <= j < |store| && j != FindIndex(store, id) ==> r[j] == store[j]
    ensures FindIndex(store, id) >= 0 ==>
              var i := FindIndex(store, id);
              r[i] == Story(store[i].id, store[i].title, store[i].content, store[i].tags,
                            !store[i].favorite, store[i].createdAt)
  {
    var i := FindIndex(store, id);
    if i == -1 then store
    else store[i := store[i].(favorite := !store[i].favorite)]
  }

  /** Toggling the same story twice restores the store. */
  lemma ToggleTwice(store: seq<Story>, id: Id)
    ensures FavoriteToggled(FavoriteToggled(store, id), id) == store
  {
    var once := FavoriteToggled(store, id);
    assert Ids(once) == Ids(store);
    FindIndexByIds(once, store, id);
  }

  /** `stories.filter(story => story.id !== id)`. */
  function WithoutId(store: seq<Story>, id: Id): (r: seq<Story>)
    ensures |r| <= |store|
    ensures forall j :: 0 <= j < |r| ==> r[j].id != id
  {
    if store == [] then []
    else
      var x := store[|store| - 1];
      WithoutId(store[..|store| - 1], id) + (if x.id != id then [x] else [])
  }

  /** Deleting keeps ids unique. */
  lemma {:induction false} WithoutIdUnique(store: seq<Story>, id: Id)
    requires UniqueIds(store)
    ensures UniqueIds(WithoutId(store, id))
  {
    if store != [] {
      var init, x := store[..|store| - 1], store[|store| - 1];
      var a := WithoutId(init, id);
      WithoutIdUnique(init, id);
      if x.id != id {
        var r := a + [x];
        forall i, j | 0 <= i < j < |r| ensures r[i].id != r[j].id {
          if j == |a| {
            WithoutIdMembers(init, id, r[i]);
            var k :| 0 <= k < |init| && init[k] == r[i];
            assert store[k].id != store[|store| - 1].id;
          }
        }
      }
    }
  }

  /** Deleting keeps exactly the stories with another id. */
  lemma {:induction false} WithoutIdMembers(store: seq<Story>, id: Id, x: Story)
    ensures x in WithoutId(store, id) <==> x in store && x.id != id
  {
    if store != [] {
      WithoutIdMembers(store[..|store| - 1], id, x);
      assert store == store[..|store| - 1] + [store[|store| - 1]];
    }
  }

  lemma {:induction false} WithoutIdAppend(a: seq<Story>, b: seq<Story>, id: Id)
    ensures WithoutId(a + b, id) == WithoutId(a, id) + WithoutId(b, id)
  {
    if b == [] {
      assert a + b == a;
    } else {
      var c := a + b;
      assert c[..|c| - 1] == a + b[..|b| - 1];
      WithoutIdAppend(a, b[..|b| - 1], id);
    }
  }

  /** Deleting an id no story carries leaves the store as it was. */
  lemma {:induction false} WithoutUnknownId(store: seq<Story>, id: Id)
    requires forall j :: 0 <= j < |store| ==> store[j].id != id
    ensures WithoutId(store, id) == store
  {
    if store != [] {
      WithoutUnknownId(store[..|store| - 1], id);
      assert store == store[..|store| - 1] + [store[|store| - 1]];
    }
  }

  /** Deleting an id carried by exactly one story, between stories with
      other ids, leaves the stories around it. */
  lemma DeleteBetween(pre: seq<Story>, x: Story, post: seq<Story>, id: Id)
    requires x.id == id
    requires forall j :: 0 <= j < |pre| ==> pre[j].id != id
    requires forall j :: 0 <= j < |post| ==> post[j].id != id
    ensures WithoutId(pre + [x] + post, id) == pre + post
  {
    WithoutIdAppend(pre + [x], post, id);
    WithoutIdAppend(pre, [x], id);
    assert WithoutId([x], id) == [] by {
      assert [x][..0] == [];
    }
    WithoutUnknownId(pre, id);
    WithoutUnknownId(post, id);
    assert pre + [] == pre;
  }

  /** In a store with unique ids, deleting removes exactly the one story
      with that id and keeps the others in order. */
  lemma DeleteOne(store: seq<Story>, id: Id)
    requires UniqueIds(store)
    requires FindIndex(store, id) >= 0
    ensures var i := FindIndex(store, id);
            WithoutId(store, id) == store[..i] + store[i + 1..]
  {
    var i := FindIndex(store, id);
    var pre, post := store[..i], store[i + 1..];
    assert store == pre + [store[i]] + post;
    forall j | 0 <= j < |pre| ensures pre[j].id != id {
      assert pre[j] == store[j];
    }
    forall j | 0 <= j < |post| ensures post[j].id != id {
      assert post[j] == store[i + 1 + j];
    }
    DeleteBetween(pre, store[i], post, id);
  }

  /** `if (editingStoryId)`: the identifier is set and not the empty string. */
  predicate IsEditing(editing: Option<Id>) {
    editing.Some? && editing.value != ""
  }

  /** The save handler on the store: `None` is the alert for an empty title
      or content, which leaves everything unchanged. When editing, the
      story with that id is updated; otherwise a new non-favourite story
      with the given identifier and time is put in front. */
  function Saved(store: seq<Story>, editing: Option<Id>, titleIn: string, contentIn: string,
                 tags1: string, tags2: string, tags3: string, newId: Id, now: nat): (r: Option<seq<Story>>)
    ensures r.None? <==> Trim(titleIn) == "" || Trim(contentIn) == ""
  {
    var title := Trim(titleIn);
    var content := Trim(contentIn);
    var tags := ParseTags(tags1, tags2, tags3);
    if title == "" || content == "" then None
    else if IsEditing(editing) then Some(Edited(store, editing.value, title, content, tags))
    else Some([Story(newId, title, content, tags, false, now)] + store)
  }

  /** What the form produces: a title and a content without white space at
      either end and not empty, and tags that are non-empty tokens without
      commas or white space. */
  predicate Entered(x: Story) {
    && x.title != "" && !IsSpace(x.title[0]) && !IsSpace(x.title[|x.title| - 1])
    && x.content != "" && !IsSpace(x.content[0]) && !IsSpace(x.content[|x.content| - 1])
    && forall i :: 0 <= i < |x.tags| ==> x.tags[i] != "" && NoSeparator(x.tags[i])
  }

  /** Whatever the form held, a story whose fields come from a successful
      save is `Entered`. */
  lemma SavedFieldsEntered(x: Story, titleIn: string, contentIn: string, tags1: string, tags2: string, tags3: string)
    requires x.title == Trim(titleIn) != "" && x.content == Trim(contentIn) != ""
    requires x.tags == ParseTags(tags1, tags2, tags3)
    ensures Entered(x)
  {
    ParseTagsSpec(tags1, tags2, tags3);
  }

  /** A successful save of a new story puts one story in front of the old
      store, with a fresh favourite flag, the given id and time, and the
      entered fields. */
  lemma SaveCreates(store: seq<Story>, editing: Option<Id>, titleIn: string, contentIn: string,
                    tags1: string, tags2: string, tags3: string, newId: Id, now: nat)
    requires !IsEditing(editing)
    requires Saved(store, editing, titleIn, contentIn, tags1, tags2, tags3, newId, now).Some?
    ensures var r := Saved(store, editing, titleIn, contentIn, tags1, tags2, tags3, newId, now).value;
            && |r| == |store| + 1 && r[1..] == store
            && r[0].id == newId && r[0].createdAt == now && !r[0].favorite
            && r[0].title == Trim(titleIn) && r[0].content == Trim(contentIn)
            && r[0].tags == ParseTags(tags1, tags2, tags3)
            && Entered(r[0])
  {
    var r := Saved(store, editing, titleIn, contentIn, tags1, tags2, tags3, newId, now).value;
    assert r[1..] == store;
    SavedFieldsEntered(r[0], titleIn, contentIn, tags1, tags2, tags3);
  }

  /** Putting a story with a fresh id in front keeps ids unique. */
  lemma CreateKeepsUnique(store: seq<Story>, x: Story)
    requires UniqueIds(store) && FreshId(store, x.id)
    ensures UniqueIds([x] + store)
  {
    var r := [x] + store;
    forall i, j | 0 <= i < j < |r| ensures r[i].id != r[j].id {
      assert r[j] == store[j - 1];
      if i > 0 { assert r[i] == store[i - 1]; }
    }
  }

  /** A successful save in edit mode keeps the length, the ids, the order,
      the favourite flags and the times; when the edited id is in the store
      its first story now holds the entered fields and nothing else moved. */
  lemma SaveEdits(store: seq<Story>, editing: Option<Id>, titleIn: string, contentIn: string,
                  tags1: string, tags2: string, tags3: string, newId: Id, now: nat)
    requires IsEditing(editing)
    requires Saved(store, editing, titleIn, contentIn, tags1, tags2, tags3, newId, now).Some?
    ensures var r := Saved(store, editing, titleIn, contentIn, tags1, tags2, tags3, newId, now).value;
            && Ids(r) == Ids(store)
            && (FindIndex(store, editing.value) == -1 ==> r == store)
            && (FindIndex(store, editing.value) >= 0 ==>
                  var i := FindIndex(store, editing.value);
                  && Entered(r[i])
                  && EditedAt(store, r, i, Trim(titleIn), Trim(contentIn), ParseTags(tags1, tags2, tags3)))
  {
    var r := Saved(store, editing, titleIn, contentIn, tags1, tags2, tags3, newId, now).value;
    var i := FindIndex(store, editing.value);
    assert r == Edited(store, editing.value, Trim(titleIn), Trim(contentIn), ParseTags(tags1, tags2, tags3));
    if i >= 0 {
      SavedFieldsEntered(r[i], titleIn, contentIn, tags1, tags2, tags3);
      SameIds(store, r, i);
    }
  }

  /** Flipping a favourite flag keeps the ids, so unique ids stay unique. */
  lemma ToggleKeepsUnique(store: seq<Story>, id: Id)
    requires UniqueIds(store)
    ensures UniqueIds(FavoriteToggled(store, id))
  {
    var r := FavoriteToggled(store, id);
    if FindIndex(store, id) >= 0 {
      SameIds(store, r, FindIndex(store, id));
    } else {
      assert Ids(r) == Ids(store);
    }
    SameIdsUnique(store, r);
  }

  /** Editing a story keeps the ids, so unique ids stay unique. */
  lemma EditKeepsUnique(store: seq<Story>, id: Id, title: string, content: string, tags: seq<string>)
    requires UniqueIds(store)
    ensures UniqueIds(Edited(store, id, title, content, tags))
  {
    var r := Edited(store, id, title, content, tags);
    if FindIndex(store, id) >= 0 {
      SameIds(store, r, FindIndex(store, id));
      SameIdsUnique(store, r);
    }
  }

  /** Changing the story at `i` without changing its id keeps the ids. */
  lemma SameIds(s: seq<Story>, r: seq<Story>, i: int)
    requires |r| == |s| && 0 <= i < |s| && r[i].id == s[i].id
    requires forall j :: 0 <= j < |s| && j != i ==> r[j] == s[j]
    ensures Ids(r) == Ids(s)
  {
    assert forall j :: 0 <= j < |s| ==> Ids(r)[j] == Ids(s)[j];
  }

  /** Stories with the same ids in the same order have unique ids together. */
  lemma SameIdsUnique(s: seq<Story>, t: seq<Story>)
    requires Ids(s) == Ids(t)
    requires UniqueIds(s)
    ensures UniqueIds(t)
  {
    assert forall k :: 0 <= k < |s| ==> s[k].id == Ids(s)[k] == Ids(t)[k] == t[k].id;
  }
}
