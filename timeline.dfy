/** The timeline view (`renderTimelineView`): the admitted stories grouped
    by UTC calendar day, the days and the stories of each day ordered by
    time, and the cards pushed onto `visibleStories` in display order. */
module Timeline {
  import opened Sorting
  import opened Stories
  import opened Query

  /** Milliseconds in a UTC day (epoch time has no leap seconds). */
  const MsPerDay: nat := 86400000

  /** The day of `toISOString().slice(0, 10)`, as a day count since
      1970-01-01; the order of those strings is the order of day counts. */
  function DayOf(x: Story): int {
    x.createdAt / MsPerDay
  }

  /** The sort key of the day keys themselves. */
  function DayKey(d: int): int {
    d
  }

  /** One section of the timeline: a day and its stories, in display order. */
  datatype DayGroup = DayGroup(day: int, items: seq<Story>)

  /** The keys of `grouped` in insertion order: each day of `s` once, in
      the order of its first story. */
  function DaysSeen(s: seq<Story>): (r: seq<int>)
    ensures Distinct(r)
  {
    if s == [] then []
    else
      var ds := DaysSeen(s[..|s| - 1]);
      var d := DayOf(s[|s| - 1]);
      if d in ds then ds else ds + [d]
  }

  lemma {:induction false} DaysSeenMembers(s: seq<Story>, d: int)
    ensures d in DaysSeen(s) <==> AtKey(s, DayOf, d) != []
  {
    if s != [] {
      var init := s[..|s| - 1];
      DaysSeenMembers(init, d);
      assert s == init + [s[|s| - 1]];
      AtKeySnoc(init, s[|s| - 1], DayOf, d);
    }
  }

  /** The sections in display order: the days ordered by `order`, each
      with its stories ordered stably by time. */
  function Sections(store: seq<Story>, showSecret: bool, f: Filter, order: SortOrder): (r: seq<DayGroup>)
    ensures |r| == |DaysSeen(Admitted(store, showSecret, f))|
  {
    var sel := Admitted(store, showSecret, f);
    var ds := SortBy(DaysSeen(sel), DayKey, order);
    seq(|ds|, i requires 0 <= i < |ds| => DayGroup(ds[i], SortBy(AtKey(sel, DayOf, ds[i]), CreatedAt, order)))
  }

  /** The cards of the sections, first section first. */
  function Flatten(gs: seq<DayGroup>): (r: seq<Story>) {
    if gs == [] then [] else Flatten(gs[..|gs| - 1]) + gs[|gs| - 1].items
  }

  lemma {:induction false} FlattenMembers(gs: seq<DayGroup>, x: Story)
    ensures x in Flatten(gs) <==> exists i :: 0 <= i < |gs| && x in gs[i].items
  {
    if gs != [] {
      var init := gs[..|gs| - 1];
      FlattenMembers(init, x);
      if exists i :: 0 <= i < |init| && x in init[i].items {
        var i :| 0 <= i < |init| && x in init[i].items;
        assert gs[i] == init[i];
      }
      if exists i :: 0 <= i < |gs| && x in gs[i].items {
        var i :| 0 <= i < |gs| && x in gs[i].items;
        if i < |init| {
          assert init[i] == gs[i];
        }
      }
    }
  }

  /** Sections whose stories are sorted, and whose later sections hold no
      story that belongs before a story of an earlier one, flatten to a
      sorted sequence. */
  lemma {:induction false} FlattenSorted(gs: seq<DayGroup>, order: SortOrder)
    requires forall i :: 0 <= i < |gs| ==> Sorted(gs[i].items, CreatedAt, order)
    requires forall i, j, x, y :: 0 <= i < j < |gs| && x in gs[i].items && y in gs[j].items ==>
               !Before(y, x, CreatedAt, order)
    ensures Sorted(Flatten(gs), CreatedAt, order)
  {
    if gs != [] {
      var init, last := gs[..|gs| - 1], gs[|gs| - 1];
      FlattenSorted(init, order);
      var a := Flatten(init);
      forall p, q | 0 <= p < |a| && 0 <= q < |last.items| ensures !Before(last.items[q], a[p], CreatedAt, order) {
        FlattenMembers(init, a[p]);
        var i :| 0 <= i < |init| && a[p] in init[i].items;
        assert gs[i] == init[i];
        assert last.items[q] in gs[|gs| - 1].items;
      }
      SortedAppend(a, last.items, CreatedAt, order);
    }
  }

  /** When only section `i` holds stories created at time `k`, those are
      the stories created at `k` in the flattened sequence. */
  lemma {:induction false} FlattenAtKey(gs: seq<DayGroup>, i: int, k: int)
    requires forall j :: 0 <= j < |gs| && j != i ==> AtKey(gs[j].items, CreatedAt, k) == []
    ensures 0 <= i < |gs| ==> AtKey(Flatten(gs), CreatedAt, k) == AtKey(gs[i].items, CreatedAt, k)
    ensures !(0 <= i < |gs|) ==> AtKey(Flatten(gs), CreatedAt, k) == []
  {
    if gs != [] {
      var init, last := gs[..|gs| - 1], gs[|gs| - 1];
      FlattenAtKey(init, i, k);
      AtKeyAppend(Flatten(init), last.items, CreatedAt, k);
      if i < |init| {
        assert forall j :: 0 <= j < |init| ==> init[j] == gs[j];
      }
    }
  }

  /** `a < b` implies the day of `a` is at most the day of `b`. */
  lemma DayMonotone(a: nat, b: nat)
    requires a <= b
    ensures a / MsPerDay <= b / MsPerDay
  {
    assert a == MsPerDay * (a / MsPerDay) + a % MsPerDay;
    assert b == MsPerDay * (b / MsPerDay) + b % MsPerDay;
  }

  /** The stories of one day created at time `k` are all the stories
      created at `k` when `k` falls on that day, and none otherwise. */
  lemma {:induction false} AtKeyWithinDay(s: seq<Story>, d: int, k: int)
    ensures d == k / MsPerDay ==> AtKey(AtKey(s, DayOf, d), CreatedAt, k) == AtKey(s, CreatedAt, k)
    ensures d != k / MsPerDay ==> AtKey(AtKey(s, DayOf, d), CreatedAt, k) == []
  {
    if s != [] {
      var init, x := s[..|s| - 1], s[|s| - 1];
      assert s == init + [x];
      AtKeyWithinDay(init, d, k);
      AtKeySnoc(init, x, DayOf, d);
      AtKeySnoc(init, x, CreatedAt, k);
      if DayOf(x) == d {
        var inner := AtKey(init, DayOf, d);
        assert AtKey(s, DayOf, d) == inner + [x];
        AtKeySnoc(inner, x, CreatedAt, k);
        if CreatedAt(x) == k {
          assert DayOf(x) == k / MsPerDay;
        }
      } else {
        assert AtKey(s, DayOf, d) == AtKey(init, DayOf, d);
        if CreatedAt(x) == k {
          assert DayOf(x) == k / MsPerDay;
        }
      }
    }
  }

  /** Sorting distinct days leaves them strictly ordered, and keeps
      exactly the days there were. */
  lemma SortedDays(seen: seq<int>, order: SortOrder)
    requires Distinct(seen)
    ensures var ds := SortBy(seen, DayKey, order);
            && (forall i, j :: 0 <= i < j < |ds| ==> Before(ds[i], ds[j], DayKey, order))
            && (forall d :: d in ds <==> d in seen)
  {
    var ds := SortBy(seen, DayKey, order);
    SortBySorted(seen, DayKey, order);
    SortByDistinct(seen, DayKey, order);
    forall d ensures d in seen <==> d in ds {
      assert d in seen <==> d in multiset(seen);
      assert d in ds <==> d in multiset(ds);
    }
  }

  /** Section `i` holds the stories of its day, sorted by time, and at
      least one of them. */
  lemma SectionFacts(store: seq<Story>, showSecret: bool, f: Filter, order: SortOrder, i: int)
    requires 0 <= i < |Sections(store, showSecret, f, order)|
    ensures var g := Sections(store, showSecret, f, order)[i];
            && g.items != []
            && Sorted(g.items, CreatedAt, order)
            && forall x :: x in g.items ==> DayOf(x) == g.day
  {
    var sel := Admitted(store, showSecret, f);
    var ds := SortBy(DaysSeen(sel), DayKey, order);
    var g := Sections(store, showSecret, f, order)[i];
    var group := AtKey(sel, DayOf, ds[i]);
    assert g == DayGroup(ds[i], SortBy(group, CreatedAt, order));
    SortedDays(DaysSeen(sel), order);
    DaysSeenMembers(sel, ds[i]);
    SortBySorted(group, CreatedAt, order);
    forall x | x in g.items ensures DayOf(x) == g.day {
      assert x in multiset(g.items);
      AtKeyMembers(sel, DayOf, ds[i], x);
    }
  }

  /** Every admitted story's day has a section. */
  lemma SectionOfEveryDay(store: seq<Story>, showSecret: bool, f: Filter, order: SortOrder, x: Story)
    requires x in Admitted(store, showSecret, f)
    ensures var gs := Sections(store, showSecret, f, order);
            exists i :: 0 <= i < |gs| && gs[i].day == DayOf(x)
  {
    var sel := Admitted(store, showSecret, f);
    var ds := SortBy(DaysSeen(sel), DayKey, order);
    var gs := Sections(store, showSecret, f, order);
    SortedDays(DaysSeen(sel), order);
    AtKeyMembers(sel, DayOf, DayOf(x), x);
    DaysSeenMembers(sel, DayOf(x));
    var i :| 0 <= i < |ds| && ds[i] == DayOf(x);
    assert gs[i].day == DayOf(x);
  }

  /** Section `i` is the `i`-th sorted day with its stories. */
  lemma SectionAt(store: seq<Story>, showSecret: bool, f: Filter, order: SortOrder, i: int)
    requires 0 <= i < |SortBy(DaysSeen(Admitted(store, showSecret, f)), DayKey, order)|
    ensures var sel := Admitted(store, showSecret, f);
            var ds := SortBy(DaysSeen(sel), DayKey, order);
            var gs := Sections(store, showSecret, f, order);
            |gs| == |ds| && gs[i] == DayGroup(ds[i], SortBy(AtKey(sel, DayOf, ds[i]), CreatedAt, order))
  {
  }

  /** The days of the sections are strictly ordered as `order` says. */
  lemma SectionsDayOrder(store: seq<Story>, showSecret: bool, f: Filter, order: SortOrder)
    ensures var gs := Sections(store, showSecret, f, order);
            forall i, j :: 0 <= i < j < |gs| ==> Before(gs[i].day, gs[j].day, DayKey, order)
  {
    var seen := DaysSeen(Admitted(store, showSecret, f));
    var ds := SortBy(seen, DayKey, order);
    var gs := Sections(store, showSecret, f, order);
    SortedDays(seen, order);
    assert |gs| == |ds|;
    forall i, j | 0 <= i < j < |gs| ensures Before(gs[i].day, gs[j].day, DayKey, order) {
      SectionAt(store, showSecret, f, order, i);
      SectionAt(store, showSecret, f, order, j);
      assert Before(ds[i], ds[j], DayKey, order);
    }
  }

  /** The shape of the timeline: sections come in strictly increasing or
      decreasing day order as `order` says, none is empty, each holds only
      stories of its day sorted by time, and every admitted story's day
      has a section. */
  lemma TimelineShape(store: seq<Story>, showSecret: bool, f: Filter, order: SortOrder)
    ensures var gs := Sections(store, showSecret, f, order);
            && (forall i, j :: 0 <= i < j < |gs| ==> Before(gs[i].day, gs[j].day, DayKey, order))
            && (forall i :: 0 <= i < |gs| ==>
                  && gs[i].items != []
                  && Sorted(gs[i].items, CreatedAt, order)
                  && forall x :: x in gs[i].items ==> DayOf(x) == gs[i].day)
            && (forall x :: x in Admitted(store, showSecret, f) ==>
                  exists i :: 0 <= i < |gs| && gs[i].day == DayOf(x))
  {
    var gs := Sections(store, showSecret, f, order);
    SectionsDayOrder(store, showSecret, f, order);
    forall i | 0 <= i < |gs|
      ensures gs[i].items != [] && Sorted(gs[i].items, CreatedAt, order)
      ensures forall x :: x in gs[i].items ==> DayOf(x) == gs[i].day
    {
      SectionFacts(store, showSecret, f, order, i);
    }
    forall x | x in Admitted(store, showSecret, f) ensures exists i :: 0 <= i < |gs| && gs[i].day == DayOf(x) {
      SectionOfEveryDay(store, showSecret, f, order, x);
    }
  }

  /** Stories of a later section never belong before stories of an
      earlier one. */
  lemma SectionsOrdered(store: seq<Story>, showSecret: bool, f: Filter, order: SortOrder)
    ensures var gs := Sections(store, showSecret, f, order);
            forall i, j, x, y :: 0 <= i < j < |gs| && x in gs[i].items && y in gs[j].items ==>
              !Before(y, x, CreatedAt, order)
  {
    var gs := Sections(store, showSecret, f, order);
    TimelineShape(store, showSecret, f, order);
    forall i, j, x, y | 0 <= i < j < |gs| && x in gs[i].items && y in gs[j].items
      ensures !Before(y, x, CreatedAt, order)
    {
      assert Before(gs[i].day, gs[j].day, DayKey, order);
      assert DayOf(x) == gs[i].day && DayOf(y) == gs[j].day;
      if order == Desc {
        if y.createdAt > x.createdAt { DayMonotone(x.createdAt, y.createdAt); }
      } else {
        if y.createdAt < x.createdAt { DayMonotone(y.createdAt, x.createdAt); }
      }
    }
  }

  /** The stories created at time `k` in the timeline are those of the
      admitted stories created at `k`, in the same order. */
  lemma SectionsAtKey(store: seq<Story>, showSecret: bool, f: Filter, order: SortOrder, k: int)
    ensures AtKey(Flatten(Sections(store, showSecret, f, order)), CreatedAt, k)
            == AtKey(Admitted(store, showSecret, f), CreatedAt, k)
  {
    var sel := Admitted(store, showSecret, f);
    var seen := DaysSeen(sel);
    var ds := SortBy(seen, DayKey, order);
    var gs := Sections(store, showSecret, f, order);
    SortedDays(seen, order);
    forall j | 0 <= j < |gs|
      ensures AtKey(gs[j].items, CreatedAt, k) == AtKey(AtKey(sel, DayOf, ds[j]), CreatedAt, k)
    {
      assert gs[j].items == SortBy(AtKey(sel, DayOf, ds[j]), CreatedAt, order);
      SortByStable(AtKey(sel, DayOf, ds[j]), CreatedAt, order, k);
    }
    forall j | 0 <= j < |gs| ensures ds[j] != k / MsPerDay ==> AtKey(gs[j].items, CreatedAt, k) == [] {
      AtKeyWithinDay(sel, ds[j], k);
    }
    AtKeyWithinDay(sel, k / MsPerDay, k);
    if i :| 0 <= i < |ds| && ds[i] == k / MsPerDay {
      forall j | 0 <= j < |gs| && j != i ensures ds[j] != k / MsPerDay {
        if j < i { assert Before(ds[j], ds[i], DayKey, order); }
        else { assert Before(ds[i], ds[j], DayKey, order); }
      }
      FlattenAtKey(gs, i, k);
    } else {
      FlattenAtKey(gs, -1, k);
      DaysSeenMembers(sel, k / MsPerDay);
    }
  }

  /** The cards of the timeline, read top to bottom, are exactly the list
      view's stories in the list view's order: grouping by day changes the
      presentation, not the sequence. */
  lemma TimelineMatchesList(store: seq<Story>, showSecret: bool, f: Filter, order: SortOrder)
    ensures Flatten(Sections(store, showSecret, f, order)) == ListQuery(store, showSecret, f, order)
  {
    var sel := Admitted(store, showSecret, f);
    var gs := Sections(store, showSecret, f, order);
    var flat := Flatten(gs);
    TimelineShape(store, showSecret, f, order);
    SectionsOrdered(store, showSecret, f, order);
    FlattenSorted(gs, order);
    forall k ensures AtKey(flat, CreatedAt, k) == AtKey(sel, CreatedAt, k) {
      SectionsAtKey(store, showSecret, f, order, k);
    }
    SelectionIsAdmitted(store, showSecret, f);
    SortByCharacterized(sel, flat, CreatedAt, order);
  }

  /** One story through the grouping pass: appending it to its day's
      list, created when the day is new, keeps `grouped` and its keys in
      step with the selection so far. */
  lemma GroupStep(sel: seq<Story>, grouped: map<int, seq<Story>>, keys: seq<int>, story: Story)
    requires keys == DaysSeen(sel)
    requires forall d :: d in grouped <==> d in keys
    requires forall d :: d in grouped ==> grouped[d] == AtKey(sel, DayOf, d)
    ensures var d := DayOf(story);
            var g := if d in grouped then grouped else grouped[d := []];
            var g' := g[d := g[d] + [story]];
            && (if d in grouped then keys else keys + [d]) == DaysSeen(sel + [story])
            && (forall e :: e in g' <==> e in DaysSeen(sel + [story]))
            && (forall e :: e in g' ==> g'[e] == AtKey(sel + [story], DayOf, e))
  {
    var d := DayOf(story);
    var g := if d in grouped then grouped else grouped[d := []];
    var g' := g[d := g[d] + [story]];
    assert (sel + [story])[..|sel|] == sel;
    DaysSeenMembers(sel, d);
    assert g[d] == AtKey(sel, DayOf, d);
    forall e | e in g' ensures g'[e] == AtKey(sel + [story], DayOf, e) {
      AtKeySnoc(sel, story, DayOf, e);
      if e != d {
        assert g'[e] == grouped[e];
      }
    }
  }

  /** Lines 303-312: one pass over the store that skips the stories the
      four early returns reject and appends each other story to the list
      of its day, creating the list the first time the day is seen. */
  method GroupByDay(stories: seq<Story>, showSecret: bool, filter: Filter)
    returns (grouped: map<int, seq<Story>>, keys: seq<int>)
    ensures keys == DaysSeen(Admitted(stories, showSecret, filter))
    ensures forall d :: d in grouped <==> d in keys
    ensures forall d :: d in grouped ==> grouped[d] == AtKey(Admitted(stories, showSecret, filter), DayOf, d)
  {
    grouped := map[];
    keys := [];
    for i := 0 to |stories|
      invariant keys == DaysSeen(Admitted(stories[..i], showSecret, filter))
      invariant forall d :: d in grouped <==> d in keys
      invariant forall d :: d in grouped ==> grouped[d] == AtKey(Admitted(stories[..i], showSecret, filter), DayOf, d)
    {
      var story := stories[i];
      ghost var sel := Admitted(stories[..i], showSecret, filter);
      assert stories[..i + 1][..i] == stories[..i];
      assert Admitted(stories[..i + 1], showSecret, filter)
             == sel + (if Passes(story, showSecret, filter) then [story] else []);
      assert sel + [] == sel;
      if showSecret && !HasTag(story, SecretTag) { continue; }
      if !showSecret && HasTag(story, SecretTag) { continue; }
      if filter.Tag? && !HasTag(story, filter.name) { continue; }
      if filter == Favorites && !story.favorite { continue; }
      GroupStep(sel, grouped, keys, story);
      var dateKey := DayOf(story);
      if dateKey !in grouped {
        grouped := grouped[dateKey := []];
        keys := keys + [dateKey];
      }
      grouped := grouped[dateKey := grouped[dateKey] + [story]];
    }
    assert stories[..|stories|] == stories;
  }

  /** `grouped[date].forEach(... visibleStories.push(story))`. */
  method PushAll(visible: seq<Story>, items: seq<Story>) returns (r: seq<Story>)
    ensures r == visible + items
  {
    r := visible;
    for m := 0 to |items|
      invariant r == visible + items[..m]
    {
      r := r + [items[m]];
      assert items[..m + 1] == items[..m] + [items[m]];
    }
    assert items[..|items|] == items;
  }

  /** The sections are the days of `grouped` in sorted order, each with
      its list sorted by time. */
  lemma SectionsFromGroups(stories: seq<Story>, showSecret: bool, filter: Filter, order: SortOrder,
                           grouped: map<int, seq<Story>>, keys: seq<int>)
    requires keys == DaysSeen(Admitted(stories, showSecret, filter))
    requires forall d :: d in grouped <==> d in keys
    requires forall d :: d in grouped ==> grouped[d] == AtKey(Admitted(stories, showSecret, filter), DayOf, d)
    ensures var sortedDates := SortBy(keys, DayKey, order);
            var want := Sections(stories, showSecret, filter, order);
            && |want| == |sortedDates|
            && forall n :: 0 <= n < |sortedDates| ==>
                 && sortedDates[n] in grouped
                 && want[n] == DayGroup(sortedDates[n], SortBy(grouped[sortedDates[n]], CreatedAt, order))
  {
    var sortedDates := SortBy(keys, DayKey, order);
    forall n | 0 <= n < |sortedDates| ensures sortedDates[n] in grouped {
      var d := sortedDates[n];
      assert d in multiset(sortedDates);
      assert d in multiset(keys);
      assert d in keys;
    }
    var want := Sections(stories, showSecret, filter, order);
    assert |want| == |sortedDates|;
    forall n | 0 <= n < |sortedDates|
      ensures want[n] == DayGroup(sortedDates[n], SortBy(grouped[sortedDates[n]], CreatedAt, order))
    {
      assert grouped[sortedDates[n]] == AtKey(Admitted(stories, showSecret, filter), DayOf, sortedDates[n]);
    }
  }

  /** The cards of the first `n` sections. */
  function FlattenFirst(gs: seq<DayGroup>, n: nat): (r: seq<Story>)
    requires n <= |gs|
  {
    if n == 0 then [] else FlattenFirst(gs, n - 1) + gs[n - 1].items
  }

  lemma {:induction false} FlattenFirstAll(gs: seq<DayGroup>, n: nat)
    requires n <= |gs|
    ensures FlattenFirst(gs, n) == Flatten(gs[..n])
  {
    if n > 0 {
      FlattenFirstAll(gs, n - 1);
      assert gs[..n][..n - 1] == gs[..n - 1];
    }
  }

  /** The display loop of `renderTimelineView`: for each sorted day, sort
      that day's list by time and push its cards. When each day's sorted
      list is the matching section, the cards pushed are the sections'
      cards in order. */
  method PushSections(grouped: map<int, seq<Story>>, sortedDates: seq<int>, order: SortOrder,
                      ghost want: seq<DayGroup>)
    returns (visible: seq<Story>)
    requires |want| == |sortedDates|
    requires forall n :: 0 <= n < |sortedDates| ==>
               && sortedDates[n] in grouped
               && want[n] == DayGroup(sortedDates[n], SortBy(grouped[sortedDates[n]], CreatedAt, order))
    ensures visible == Flatten(want)
  {
    visible := [];
    for n := 0 to |sortedDates|
      invariant visible == FlattenFirst(want, n)
    {
      var date := sortedDates[n];
      var items := SortBy(grouped[date], CreatedAt, order);
      visible := PushAll(visible, items);
    }
    FlattenFirstAll(want, |want|);
    assert want[..|want|] == want;
  }

  /** The whole of `renderTimelineView` after the reset: group, order the
      days, order each day's stories, and push the cards one by one. The
      pushed sequence is the sections' cards in order, and it is the list
      view's sequence. */
  method RenderTimeline(stories: seq<Story>, showSecret: bool, filter: Filter, order: SortOrder)
    returns (visible: seq<Story>)
    ensures visible == Flatten(Sections(stories, showSecret, filter, order))
    ensures visible == ListQuery(stories, showSecret, filter, order)
  {
    var grouped, keys := GroupByDay(stories, showSecret, filter);
    var sortedDates := SortBy(keys, DayKey, order);
    SectionsFromGroups(stories, showSecret, filter, order, grouped, keys);
    visible := PushSections(grouped, sortedDates, order, Sections(stories, showSecret, filter, order));
    TimelineMatchesList(stories, showSecret, filter, order);
  }
}
