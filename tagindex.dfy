/** The tag side panel (`renderTagList`): the distinct tags of the whole
    store, split into the "CP:" tags and the other tags, each sorted. */
module TagIndex {
  import opened Text
  import opened Sorting
  import opened Stories

  /** Some story of the store carries tag `t`. */
  predicate Tagged(store: seq<Story>, t: string) {
    exists i :: 0 <= i < |store| && t in store[i].tags
  }

  /** Adding the tags of one story to the set of tags seen so far, keeping
      the first-seen order of a JavaScript `Set`. */
  function AddTags(seen: seq<string>, tags: seq<string>): (r: seq<string>)
    ensures forall t :: t in r <==> t in seen || t in tags
    ensures Distinct(seen) ==> Distinct(r)
  {
    if tags == [] then seen
    else
      var acc := AddTags(seen, tags[..|tags| - 1]);
      var t := tags[|tags| - 1];
      assert tags == tags[..|tags| - 1] + [t];
      if t in acc then acc else acc + [t]
  }

  /** `allTags`: every tag of every story, each once. */
  function AllTags(store: seq<Story>): (r: seq<string>)
    ensures Distinct(r)
  {
    if store == [] then []
    else AddTags(AllTags(store[..|store| - 1]), store[|store| - 1].tags)
  }

  lemma {:induction false} AllTagsMembers(store: seq<Story>, t: string)
    ensures t in AllTags(store) <==> Tagged(store, t)
  {
    if store != [] {
      var init := store[..|store| - 1];
      AllTagsMembers(init, t);
      if Tagged(init, t) {
        var i :| 0 <= i < |init| && t in init[i].tags;
        assert store[i] == init[i];
      }
    }
  }

  /** `tag.startsWith("CP:")`. */
  predicate IsCp(t: string) {
    |t| >= 3 && t[..3] == "CP:"
  }

  /** The tags of `s` satisfying `p`, in their order. */
  function KeepTags(s: seq<string>, p: string -> bool): (r: seq<string>)
    ensures forall t :: t in r <==> t in s && p(t)
    ensures Distinct(s) ==> Distinct(r)
  {
    if s == [] then []
    else
      var t := s[|s| - 1];
      assert s == s[..|s| - 1] + [t];
      KeepTags(s[..|s| - 1], p) + (if p(t) then [t] else [])
  }

  /** The two button groups of the panel, each in code-unit order. */
  datatype Panel = Panel(cp: seq<string>, other: seq<string>)

  function TagPanel(store: seq<Story>): (r: Panel)
    ensures StrictlyAscending(r.cp) && StrictlyAscending(r.other)
    ensures forall t :: t in r.cp ==> IsCp(t)
    ensures forall t :: t in r.other ==> !IsCp(t) && t != SecretTag
  {
    var all := AllTags(store);
    SortStringsStrict(KeepTags(all, IsCp));
    SortStringsStrict(KeepTags(all, t => !IsCp(t) && t != SecretTag));
    Panel(SortStrings(KeepTags(all, IsCp)),
          SortStrings(KeepTags(all, t => !IsCp(t) && t != SecretTag)))
  }

  /** Each group is strictly ascending, so no tag appears twice; the CP
      group holds exactly the "CP:" tags of the store and the other group
      exactly its remaining tags except "secret". */
  lemma TagPanelSpec(store: seq<Story>)
    ensures StrictlyAscending(TagPanel(store).cp) && StrictlyAscending(TagPanel(store).other)
    ensures forall t :: t in TagPanel(store).cp <==> Tagged(store, t) && IsCp(t)
    ensures forall t :: t in TagPanel(store).other <==> Tagged(store, t) && !IsCp(t) && t != SecretTag
  {
    var all := AllTags(store);
    var cp := KeepTags(all, IsCp);
    var other := KeepTags(all, t => !IsCp(t) && t != SecretTag);
    SortStringsStrict(cp);
    SortStringsStrict(other);
    forall t ensures t in all <==> Tagged(store, t) {
      AllTagsMembers(store, t);
    }
  }

  /** The two groups are disjoint and together hold every tag of the
      store except "secret", whatever the secret mode or the filter. */
  lemma TagPanelPartition(store: seq<Story>)
    ensures forall t :: !(t in TagPanel(store).cp && t in TagPanel(store).other)
    ensures forall t :: t in TagPanel(store).cp || t in TagPanel(store).other <==> Tagged(store, t) && t != SecretTag
  {
    TagPanelSpec(store);
    assert SecretTag[..3] == "sec";
  }

  /** `tag.replace(/^CP:/, "")`: the name a CP button shows. */
  function CpName(t: string): (r: string)
    ensures IsCp(t) ==> "CP:" + r == t
    ensures !IsCp(t) ==> r == t
  {
    if IsCp(t) then
      assert t == t[..3] + t[3..];
      t[3..]
    else t
  }
}
