/** The list view's query (`renderStories`): copy the store, keep the
    stories of the current secret mode, apply the favourites or tag filter,
    and sort stably by creation time. */
module Query {
  import opened Sorting
  import opened Stories

  /** `Array.prototype.filter` with a predicate: the stories satisfying
      `p`, in their order. */
  function Keep(s: seq<Story>, p: Story -> bool): (r: seq<Story>)
    ensures |r| <= |s|
    ensures forall i :: 0 <= i < |r| ==> p(r[i])
  {
    if s == [] then []
    else
      var x := s[|s| - 1];
      Keep(s[..|s| - 1], p) + (if p(x) then [x] else [])
  }

  lemma {:induction false} KeepAppend(a: seq<Story>, b: seq<Story>, p: Story -> bool)
    ensures Keep(a + b, p) == Keep(a, p) + Keep(b, p)
  {
    if b == [] {
      assert a + b == a;
    } else {
      var c := a + b;
      assert c[..|c| - 1] == a + b[..|b| - 1];
      KeepAppend(a, b[..|b| - 1], p);
    }
  }

  /** The stories kept and the stories dropped together are the stories
      filtered. */
  lemma {:induction false} KeepSplits(s: seq<Story>, p: Story -> bool, q: Story -> bool)
    requires forall x :: q(x) == !p(x)
    ensures multiset(Keep(s, p)) + multiset(Keep(s, q)) == multiset(s)
  {
    if s != [] {
      KeepSplits(s[..|s| - 1], p, q);
      assert s == s[..|s| - 1] + [s[|s| - 1]];
    }
  }

  /** main.js:98-102: in secret mode only the stories tagged "secret",
      otherwise only the others. */
  function BySecretMode(s: seq<Story>, showSecret: bool): (r: seq<Story>)
    ensures |r| <= |s|
    ensures forall i :: 0 <= i < |r| ==> HasTag(r[i], SecretTag) == showSecret
  {
    Keep(s, x => HasTag(x, SecretTag) == showSecret)
  }

  /** main.js:104-108: the favourites for the favourites sentinel, the stories
      carrying the tag for a tag, everything when there is no filter. */
  function ByFilter(s: seq<Story>, f: Filter): (r: seq<Story>)
    ensures |r| <= |s|
    ensures f == Favorites ==> forall i :: 0 <= i < |r| ==> r[i].favorite
    ensures f.Tag? ==> forall i :: 0 <= i < |r| ==> HasTag(r[i], f.name)
  {
    match f
    case NoFilter => s
    case Favorites => Keep(s, (x: Story) => x.favorite)
    case Tag(t) => Keep(s, x => HasTag(x, t))
  }

  /** The value `renderStories` stores in `visibleStories`. */
  function ListQuery(store: seq<Story>, showSecret: bool, f: Filter, order: SortOrder): (r: seq<Story>)
    ensures |r| <= |store|
  {
    SortBy(ByFilter(BySecretMode(store, showSecret), f), CreatedAt, order)
  }

  lemma ByFilterAppend(a: seq<Story>, b: seq<Story>, f: Filter)
    ensures ByFilter(a + b, f) == ByFilter(a, f) + ByFilter(b, f)
  {
    match f
    case NoFilter =>
    case Favorites => KeepAppend(a, b, (x: Story) => x.favorite);
    case Tag(t) => KeepAppend(a, b, x => HasTag(x, t));
  }

  /** The two filters of the list, applied one after the other, select
      exactly what the timeline's four early returns let through. */
  lemma {:induction false} SelectionIsAdmitted(s: seq<Story>, showSecret: bool, f: Filter)
    ensures ByFilter(BySecretMode(s, showSecret), f) == Admitted(s, showSecret, f)
  {
    if s != [] {
      var init, x := s[..|s| - 1], s[|s| - 1];
      SelectionIsAdmitted(init, showSecret, f);
      var kept := if HasTag(x, SecretTag) == showSecret then [x] else [];
      assert BySecretMode(s, showSecret) == BySecretMode(init, showSecret) + kept;
      ByFilterAppend(BySecretMode(init, showSecret), kept, f);
      if kept != [] {
        assert [x][..0] == [];
      }
    }
  }

  /** The list holds the stories of `Admitted`, each as often as there, sorted by
      creation time in the chosen order; stories created at the same
      time keep their store order. */
  lemma ListQuerySpec(store: seq<Story>, showSecret: bool, f: Filter, order: SortOrder)
    ensures var r := ListQuery(store, showSecret, f, order);
            && multiset(r) == multiset(Admitted(store, showSecret, f))
            && Sorted(r, CreatedAt, order)
            && forall k :: AtKey(r, CreatedAt, k) == AtKey(Admitted(store, showSecret, f), CreatedAt, k)
  {
    var sel := ByFilter(BySecretMode(store, showSecret), f);
    SelectionIsAdmitted(store, showSecret, f);
    SortBySorted(sel, CreatedAt, order);
    forall k ensures AtKey(SortBy(sel, CreatedAt, order), CreatedAt, k) == AtKey(sel, CreatedAt, k) {
      SortByStable(sel, CreatedAt, order, k);
    }
  }

  /** With unique ids in the store, the list has unique ids, so a detail
      page's `findIndex` finds the position it was opened from. */
  lemma ListQueryUnique(store: seq<Story>, showSecret: bool, f: Filter, order: SortOrder)
    requires UniqueIds(store)
    ensures UniqueIds(ListQuery(store, showSecret, f, order))
  {
    ListQuerySpec(store, showSecret, f, order);
    AdmittedUnique(store, showSecret, f);
    UniquePermuted(Admitted(store, showSecret, f), ListQuery(store, showSecret, f, order));
  }

  /** When no two listed stories share a creation time, the sort toggle
      reverses the list; with ties, the tied stories keep store order in
      both directions. */
  lemma ReverseOrder(store: seq<Story>, showSecret: bool, f: Filter)
    requires DistinctKeys(Admitted(store, showSecret, f), CreatedAt)
    ensures Reversed(ListQuery(store, showSecret, f, Desc)) == ListQuery(store, showSecret, f, Asc)
  {
    SelectionIsAdmitted(store, showSecret, f);
    SortByReversed(Admitted(store, showSecret, f), CreatedAt);
  }

  /** A story is listed exactly when it is in the store and passes the
      secret mode and the filter: in secret mode every listed story is
      tagged "secret", otherwise none is; under the favourites filter every
      listed story is a favourite, under a tag filter every one carries
      the tag. */
  lemma ListMembers(store: seq<Story>, showSecret: bool, f: Filter, order: SortOrder, x: Story)
    ensures x in ListQuery(store, showSecret, f, order) <==> x in store && Passes(x, showSecret, f)
    ensures x in ListQuery(store, showSecret, f, order) ==> HasTag(x, SecretTag) == showSecret
    ensures x in ListQuery(store, showSecret, f, order) && f == Favorites ==> x.favorite
    ensures x in ListQuery(store, showSecret, f, order) && f.Tag? ==> HasTag(x, f.name)
  {
    ListQuerySpec(store, showSecret, f, order);
    AdmittedMembers(store, showSecret, f, x);
    assert x in ListQuery(store, showSecret, f, order) <==> x in multiset(ListQuery(store, showSecret, f, order));
  }

  /** Unfiltered, the secret list and the normal list split the store:
      every story is in exactly one of them, as often as in the store. */
  lemma SecretPartition(store: seq<Story>, order: SortOrder)
    ensures multiset(ListQuery(store, true, NoFilter, order)) + multiset(ListQuery(store, false, NoFilter, order))
            == multiset(store)
  {
    KeepSplits(store, x => HasTag(x, SecretTag) == true, x => HasTag(x, SecretTag) == false);
  }

  /** Filtering by the tag "secret" in secret mode lists what no filter
      lists; outside secret mode it lists nothing. */
  lemma SecretTagFilter(store: seq<Story>, order: SortOrder)
    ensures ListQuery(store, true, Tag(SecretTag), order) == ListQuery(store, true, NoFilter, order)
    ensures ListQuery(store, false, Tag(SecretTag), order) == []
  {
    SelectionIsAdmitted(store, true, Tag(SecretTag));
    SelectionIsAdmitted(store, true, NoFilter);
    AdmittedSameWhen(store, true, Tag(SecretTag), NoFilter);
    SelectionIsAdmitted(store, false, Tag(SecretTag));
    AdmittedNone(store, false, Tag(SecretTag));
  }

  /** Two selections that agree on every story admit the same stories. */
  lemma {:induction false} AdmittedSameWhen(s: seq<Story>, showSecret: bool, f: Filter, g: Filter)
    requires forall x :: Passes(x, showSecret, f) == Passes(x, showSecret, g)
    ensures Admitted(s, showSecret, f) == Admitted(s, showSecret, g)
  {
    if s != [] {
      AdmittedSameWhen(s[..|s| - 1], showSecret, f, g);
    }
  }

  /** A selection nothing passes admits nothing. */
  lemma {:induction false} AdmittedNone(s: seq<Story>, showSecret: bool, f: Filter)
    requires forall x :: !Passes(x, showSecret, f)
    ensures Admitted(s, showSecret, f) == []
  {
    if s != [] {
      AdmittedNone(s[..|s| - 1], showSecret, f);
    }
  }
}
