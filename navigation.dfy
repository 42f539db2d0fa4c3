/** The detail page (`showDetail`) and its previous/next buttons. The page
    looks the story up in `visibleStories` by id; the buttons open the
    neighbouring entries of `visibleStories`. */
module Navigation {
  import opened Text
  import opened Stories

  /** What `showDetail` renders and remembers: the story shown, its body
      with line breaks, the index found in `visibleStories` (-1 when it is
      not there), and which of the two navigation buttons exist. */
  datatype Detail = Detail(story: Story, body: string, index: int, hasPrev: bool, hasNext: bool)

  /** The `TypeError` a click raises when `visibleStories[index ± 1]` is
      `undefined` and `showDetail` reads its `id`. */
  datatype Error = UndefinedStory

  datatype Result<T> = Ok(value: T) | Err(error: Error)

  /** `showDetail` as written: "previous" when the index is positive,
      "next" when the index is below `stories.length - 1`, a bound on the
      whole store and not on the visible list. */
  function OpenDetailAsWritten(visible: seq<Story>, storeSize: nat, x: Story): (d: Detail)
    ensures d.index == FindIndex(visible, x.id)
    ensures d.hasPrev <==> d.index > 0
    ensures d.hasNext <==> d.index < storeSize - 1
  {
    var index := FindIndex(visible, x.id);
    Detail(x, ReplaceNewlines(x.content), index, index > 0, index < storeSize - 1)
  }

  /** `showDetail` with the guard the next button evidently intends: offer
      "next" only when the visible list has an entry after this one. */
  function OpenDetail(visible: seq<Story>, x: Story): (d: Detail)
    ensures d.index == FindIndex(visible, x.id)
    ensures d.hasPrev <==> d.index > 0
    ensures d.hasNext <==> d.index < |visible| - 1
  {
    var index := FindIndex(visible, x.id);
    Detail(x, ReplaceNewlines(x.content), index, index > 0, index < |visible| - 1)
  }

  /** The click on "previous": `visibleStories[index - 1]`. */
  function PrevTarget(visible: seq<Story>, index: int): (r: Result<Story>)
    ensures r.Ok? <==> 0 <= index - 1 < |visible|
    ensures r.Ok? ==> r.value == visible[index - 1]
  {
    if 0 <= index - 1 < |visible| then Ok(visible[index - 1]) else Err(UndefinedStory)
  }

  /** The click on "next": `visibleStories[index + 1]`. */
  function NextTarget(visible: seq<Story>, index: int): (r: Result<Story>)
    ensures r.Ok? <==> 0 <= index + 1 < |visible|
    ensures r.Ok? ==> r.value == visible[index + 1]
  {
    if 0 <= index + 1 < |visible| then Ok(visible[index + 1]) else Err(UndefinedStory)
  }

  /** Whenever "previous" is offered, its click opens a story. */
  lemma PrevAlwaysDefined(visible: seq<Story>, storeSize: nat, x: Story)
    ensures OpenDetailAsWritten(visible, storeSize, x).hasPrev ==>
              PrevTarget(visible, OpenDetailAsWritten(visible, storeSize, x).index).Ok?
    ensures OpenDetail(visible, x).hasPrev <==> PrevTarget(visible, OpenDetail(visible, x).index).Ok?
  {
  }

  /** As written, "next" is offered on the last visible story whenever the
      store holds more stories than the view: one visible story out of a
      store of two, and its "next" click reads `undefined`. */
  lemma NextOfferedPastView()
    ensures var a := Story("a", "A", "text", [], false, 0);
            var b := Story("b", "B", "text", [SecretTag], false, 1);
            var visible := [a];
            var d := OpenDetailAsWritten(visible, |[a, b]|, a);
            && visible == Admitted([a, b], false, NoFilter)
            && d.hasNext
            && NextTarget(visible, d.index) == Err(UndefinedStory)
  {
    var a := Story("a", "A", "text", [], false, 0);
    var b := Story("b", "B", "text", [SecretTag], false, 1);
    assert [a, b][..1] == [a];
    assert SecretTag in b.tags;
  }

  /** The as-written guard offers a "next" that fails exactly when the
      story is the last visible one and the view is shorter than the store. */
  lemma NextGapAsWritten(visible: seq<Story>, storeSize: nat, x: Story)
    requires |visible| <= storeSize
    ensures var d := OpenDetailAsWritten(visible, storeSize, x);
            d.hasNext && NextTarget(visible, d.index).Err? <==>
              d.index == |visible| - 1 && |visible| < storeSize
  {
  }

  /** With the corrected guard, "next" is offered exactly when its click
      opens a story, and it is offered only where the as-written guard
      offers it too. */
  lemma NextDefined(visible: seq<Story>, storeSize: nat, x: Story)
    requires |visible| <= storeSize
    ensures OpenDetail(visible, x).hasNext <==> NextTarget(visible, OpenDetail(visible, x).index).Ok?
    ensures OpenDetail(visible, x).hasNext ==> OpenDetailAsWritten(visible, storeSize, x).hasNext
  {
  }

  /** Opening a story that is in the view finds its position; stepping
      to a neighbour and opening it lands on that neighbour when ids are
      unique. */
  lemma StepLandsOnNeighbour(visible: seq<Story>, x: Story)
    requires UniqueIds(visible)
    requires x in visible
    ensures var d := OpenDetail(visible, x);
            && 0 <= d.index < |visible| && visible[d.index].id == x.id
            && (d.hasNext ==> OpenDetail(visible, NextTarget(visible, d.index).value).index == d.index + 1)
            && (d.hasPrev ==> OpenDetail(visible, PrevTarget(visible, d.index).value).index == d.index - 1)
  {
    var d := OpenDetail(visible, x);
    var i :| 0 <= i < |visible| && visible[i] == x;
    assert FindIndex(visible, x.id) != -1 by {
      assert visible[i].id == x.id;
    }
    if d.hasNext {
      UniqueFind(visible, d.index + 1);
    }
    if d.hasPrev {
      UniqueFind(visible, d.index - 1);
    }
  }

  /** In a sequence with unique ids, looking up the id at `k` finds `k`. */
  lemma UniqueFind(s: seq<Story>, k: int)
    requires UniqueIds(s)
    requires 0 <= k < |s|
    ensures FindIndex(s, s[k].id) == k
  {
  }
}
