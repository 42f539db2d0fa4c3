/** The story records of the archive and the predicates that decide which
    of them a view shows. */
module Stories {
  import opened Sorting

  /** A story identifier (a UUID string for stories created in the app). */
  type Id = string

  datatype Option<T> = None | Some(value: T)

  /** One entry of the global `stories` array. `createdAt` is the creation
      time as milliseconds since the epoch, UTC. */
  datatype Story = Story(
    id: Id,
    title: string,
    content: string,
    tags: seq<string>,
    favorite: bool,
    createdAt: nat)

  /** The tag that moves a story into secret mode. */
  const SecretTag: string := "secret"

  /** The filter argument that selects the favourites. */
  const FavoritesSentinel: string := "#favorites"

  /** A tag name that can act as a tag filter: the argument of
      `renderStories` when it is truthy and not the favourites sentinel. */
  type TagName = t: string | t != "" && t != FavoritesSentinel witness "x"

  /** The value of `currentFilter` / `filterTag`: `null` or `""` for no
      filter, `"#favorites"`, or a tag. */
  datatype Filter = NoFilter | Favorites | Tag(name: TagName)

  /** How `renderStories` and `renderTimelineView` read their `filterTag`
      argument (`null` standing for `None`). */
  function FilterFromArg(arg: Option<string>): (f: Filter)
    ensures f == NoFilter <==> arg == None || arg == Some("")
    ensures f == Favorites <==> arg == Some(FavoritesSentinel)
    ensures f.Tag? ==> arg.Some? && arg.value == f.name
  {
    match arg
    case None => NoFilter
    case Some(t) =>
      if t == FavoritesSentinel then Favorites
      else if t == "" then NoFilter
      else Tag(t)
  }

  /** The sort key of the list and the timeline. */
  function CreatedAt(x: Story): int {
    x.createdAt
  }

  predicate HasTag(x: Story, t: string) {
    t in x.tags
  }

  /** The four early returns of the timeline's `forEach`: a story is shown
      when it is secret exactly in secret mode, carries the filter tag if
      there is one, and is a favourite under the favourites filter. */
  predicate Passes(x: Story, showSecret: bool, f: Filter) {
    && !(showSecret && !HasTag(x, SecretTag))
    && !(!showSecret && HasTag(x, SecretTag))
    && !(f.Tag? && !HasTag(x, f.name))
    && !(f == Favorites && !x.favorite)
  }

  /** The stories of `store` that a view shows, in store order. */
  function Admitted(store: seq<Story>, showSecret: bool, f: Filter): (r: seq<Story>)
    ensures |r| <= |store|
    ensures forall i :: 0 <= i < |r| ==> Passes(r[i], showSecret, f)
  {
    if store == [] then []
    else
      var x := store[|store| - 1];
      Admitted(store[..|store| - 1], showSecret, f) + (if Passes(x, showSecret, f) then [x] else [])
  }

  /** A story is admitted exactly when it is in the store and passes. */
  lemma {:induction false} AdmittedMembers(store: seq<Story>, showSecret: bool, f: Filter, x: Story)
    ensures x in Admitted(store, showSecret, f) <==> x in store && Passes(x, showSecret, f)
  {
    if store != [] {
      AdmittedMembers(store[..|store| - 1], showSecret, f, x);
      assert store == store[..|store| - 1] + [store[|store| - 1]];
    }
  }

  /** `findIndex(s => s.id === id)`: the first position holding that id, or
      -1 when there is none. */
  function FindIndex(s: seq<Story>, id: Id): (r: int)
    ensures -1 <= r < |s|
    ensures r == -1 <==> forall j :: 0 <= j < |s| ==> s[j].id != id
    ensures r >= 0 ==> s[r].id == id && forall j :: 0 <= j < r ==> s[j].id != id
  {
    if s == [] then -1
    else if s[0].id == id then 0
    else
      var k := FindIndex(s[1..], id);
      assert forall j :: 1 <= j < |s| ==> s[j] == s[1..][j - 1];
      if k == -1 then -1 else k + 1
  }

  /** The identifiers of a sequence of stories, in order. */
  function Ids(s: seq<Story>): (r: seq<Id>)
    ensures |r| == |s|
    ensures forall i :: 0 <= i < |s| ==> r[i] == s[i].id
  {
    seq(|s|, i requires 0 <= i < |s| => s[i].id)
  }

  /** `FindIndex` looks at identifiers only. */
  lemma FindIndexByIds(s: seq<Story>, t: seq<Story>, id: Id)
    requires Ids(s) == Ids(t)
    ensures FindIndex(s, id) == FindIndex(t, id)
  {
    assert forall k :: 0 <= k < |s| ==> s[k].id == Ids(s)[k] == Ids(t)[k] == t[k].id;
  }

  /** Identifiers are unique within the store. */
  predicate UniqueIds(s: seq<Story>) {
    forall i, j :: 0 <= i < j < |s| ==> s[i].id != s[j].id
  }

  /** No story of `s` carries `id`. */
  predicate FreshId(s: seq<Story>, id: Id) {
    forall j :: 0 <= j < |s| ==> s[j].id != id
  }

  /** With unique ids, a story occurs at most once. */
  lemma {:induction false} UniqueOnce(s: seq<Story>, x: Story)
    requires UniqueIds(s)
    ensures multiset(s)[x] <= 1
  {
    if s != [] {
      var init := s[..|s| - 1];
      assert s == init + [s[|s| - 1]];
      UniqueOnce(init, x);
      if s[|s| - 1] == x {
        assert x !in init by {
          forall k | 0 <= k < |init| ensures init[k] != x {
            assert s[k].id != s[|s| - 1].id;
          }
        }
      }
    }
  }

  /** A story at two positions occurs twice. */
  lemma TwoPositions(s: seq<Story>, i: int, j: int)
    requires 0 <= i < j < |s| && s[i] == s[j]
    ensures multiset(s)[s[i]] >= 2
  {
    var pre := s[..j];
    assert s == pre + [s[j]] + s[j + 1..];
    assert s[i] in pre;
  }

  /** Reordering stories with unique ids keeps them unique: the list's sort
      cannot introduce a repeated id. */
  lemma UniquePermuted(s: seq<Story>, r: seq<Story>)
    requires UniqueIds(s) && multiset(r) == multiset(s)
    ensures UniqueIds(r)
  {
    forall i, j | 0 <= i < j < |r| ensures r[i].id != r[j].id {
      if r[i] == r[j] {
        TwoPositions(r, i, j);
        UniqueOnce(s, r[i]);
      } else {
        assert r[i] in multiset(s) && r[j] in multiset(s);
        var p :| 0 <= p < |s| && s[p] == r[i];
        var q :| 0 <= q < |s| && s[q] == r[j];
        assert p != q;
      }
    }
  }

  /** The stories a view admits keep the store's unique ids. */
  lemma {:induction false} AdmittedUnique(store: seq<Story>, showSecret: bool, f: Filter)
    requires UniqueIds(store)
    ensures UniqueIds(Admitted(store, showSecret, f))
  {
    if store != [] {
      var init, x := store[..|store| - 1], store[|store| - 1];
      var a := Admitted(init, showSecret, f);
      AdmittedUnique(init, showSecret, f);
      if Passes(x, showSecret, f) {
        var r := a + [x];
        forall i, j | 0 <= i < j < |r| ensures r[i].id != r[j].id {
          if j == |a| {
            AdmittedMembers(init, showSecret, f, r[i]);
            var k :| 0 <= k < |init| && init[k] == r[i];
            assert store[k].id != store[|store| - 1].id;
          }
        }
      }
    }
  }
}
