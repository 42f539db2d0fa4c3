/** String handling of the story archive: JavaScript's `trim`, the tag
    splitter `split(/[,\s]+/)` with its clean-up chain, `formatContent`, and
    the default string order of `Array.prototype.sort`. */
module Text {

  /** The characters of ECMAScript's WhiteSpace and LineTerminator
      productions: exactly what `String.prototype.trim` removes and what the
      regular-expression class `\s` matches. */
  predicate IsSpace(c: char) {
    || c == '\t' || c == '\n' || c == '\U{0B}' || c == '\U{0C}' || c == '\r'
    || c == ' ' || c == '\U{A0}' || c == '\U{1680}'
    || ('\U{2000}' <= c <= '\U{200A}')
    || c == '\U{2028}' || c == '\U{2029}' || c == '\U{202F}' || c == '\U{205F}'
    || c == '\U{3000}' || c == '\U{FEFF}'
  }

  predicate AllSpace(s: string) {
    forall i :: 0 <= i < |s| ==> IsSpace(s[i])
  }

  predicate NoSpace(s: string) {
    forall i :: 0 <= i < |s| ==> !IsSpace(s[i])
  }

  /** Removes leading white space. */
  function TrimStart(s: string): (r: string)
    ensures |r| <= |s| && r == s[|s| - |r|..]
    ensures AllSpace(s[..|s| - |r|])
    ensures r == [] || !IsSpace(r[0])
  {
    if s != [] && IsSpace(s[0]) then TrimStart(s[1..]) else s
  }

  /** Removes trailing white space. */
  function TrimEnd(s: string): (r: string)
    ensures |r| <= |s| && r == s[..|r|]
    ensures AllSpace(s[|r|..])
    ensures r == [] || !IsSpace(r[|r| - 1])
  {
    if s != [] && IsSpace(s[|s| - 1]) then TrimEnd(s[..|s| - 1]) else s
  }

  /** `TrimStart` empties exactly the all-space strings and keeps the
      strings without white space. */
  lemma TrimStartFacts(s: string)
    ensures TrimStart(s) == [] <==> AllSpace(s)
    ensures NoSpace(s) ==> TrimStart(s) == s
  {
    var r := TrimStart(s);
    var cut := |s| - |r|;
    if r == [] {
      assert s[..cut] == s;
    } else {
      assert r[0] == s[cut];
    }
    if cut > 0 {
      assert s[..cut][0] == s[0];
    }
  }

  /** `TrimEnd` empties exactly the all-space strings and keeps the
      strings without white space. */
  lemma TrimEndFacts(s: string)
    ensures TrimEnd(s) == [] <==> AllSpace(s)
    ensures NoSpace(s) ==> TrimEnd(s) == s
  {
    var r := TrimEnd(s);
    if r == [] {
      assert s[|r|..] == s;
    } else {
      assert r[|r| - 1] == s[|r| - 1];
    }
    if |r| < |s| {
      assert s[|r|..][|s| - |r| - 1] == s[|s| - 1];
    }
  }

  /** `String.prototype.trim`: the longest piece of `s` that neither starts
      nor ends with white space, once only white space is cut off. It is
      empty exactly for the all-space strings and leaves a string without
      white space as it is. */
  function Trim(s: string): (r: string)
    ensures |r| <= |s|
    ensures r == [] || (!IsSpace(r[0]) && !IsSpace(r[|r| - 1]))
    ensures r == [] <==> AllSpace(s)
    ensures NoSpace(s) ==> r == s
  {
    var t := TrimStart(s);
    TrimStartFacts(s);
    TrimEndFacts(t);
    assert t != [] ==> !IsSpace(t[0]);
    TrimEnd(t)
  }

  /** What `trim` keeps is one contiguous piece of its input, with only
      white space cut off on either side. */
  lemma TrimIsInnerPiece(s: string)
    ensures exists pre, post {:trigger AllSpace(pre), AllSpace(post)} :: s == pre + Trim(s) + post && AllSpace(pre) && AllSpace(post)
  {
    var t := TrimStart(s);
    TrimPiece(s, t, TrimEnd(t));
  }

  /** `trim` as the two cuts it makes: white space before `t`, then white
      space after `r`. */
  lemma TrimPiece(s: string, t: string, r: string)
    requires |t| <= |s| && t == s[|s| - |t|..] && AllSpace(s[..|s| - |t|])
    requires |r| <= |t| && r == t[..|r|] && AllSpace(t[|r|..])
    ensures exists pre, post {:trigger AllSpace(pre), AllSpace(post)} :: s == pre + r + post && AllSpace(pre) && AllSpace(post)
  {
    var pre, post := s[..|s| - |t|], t[|r|..];
    SplitAt(s, |s| - |t|);
    SplitAt(t, |r|);
    Reassociate(pre, r, post);
    assert s == pre + r + post && AllSpace(pre) && AllSpace(post);
  }

  lemma SplitAt<T>(s: seq<T>, k: int)
    requires 0 <= k <= |s|
    ensures s == s[..k] + s[k..]
  {
  }

  /** A separator of the tag fields: a comma or anything `\s` matches. */
  predicate IsSeparator(c: char) {
    c == ',' || IsSpace(c)
  }

  predicate NoSeparator(s: string) {
    forall i :: 0 <= i < |s| ==> !IsSeparator(s[i])
  }

  /** Skips a maximal run of separators at the front. */
  function DropSeparators(s: string): (r: string)
    ensures |r| <= |s| && r == s[|s| - |r|..]
    ensures s != [] && IsSeparator(s[0]) ==> |r| < |s|
    ensures r == [] || !IsSeparator(r[0])
    ensures forall i :: 0 <= i < |s| - |r| ==> IsSeparator(s[i])
  {
    if s != [] && IsSeparator(s[0]) then DropSeparators(s[1..]) else s
  }

  /** `s.split(/[,\s]+/)`: the pieces between maximal runs of separators.
      A run at the very start or end yields an empty first or last piece,
      and the empty string splits into one empty piece. */
  function SplitFields(s: string): (r: seq<string>)
    ensures |r| >= 1
    ensures forall i :: 0 <= i < |r| ==> NoSeparator(r[i])
    decreases |s|
  {
    if s == [] then [""]
    else if IsSeparator(s[0]) then [""] + SplitFields(DropSeparators(s))
    else
      var rest := SplitFields(s[1..]);
      [[s[0]] + rest[0]] + rest[1..]
  }

  /** `.map(t => t.trim())`. */
  function TrimAll(fields: seq<string>): (r: seq<string>)
    ensures |r| == |fields|
  {
    if fields == [] then [] else [Trim(fields[0])] + TrimAll(fields[1..])
  }

  /** `.filter(Boolean)` on strings: the non-empty ones, in their order. */
  function NonEmpty(ss: seq<string>): (r: seq<string>)
    ensures |r| <= |ss|
    ensures forall i :: 0 <= i < |r| ==> r[i] != ""
  {
    if ss == [] then []
    else (if ss[0] == "" then [] else [ss[0]]) + NonEmpty(ss[1..])
  }

  /** `.map(t => t.trim()).filter(Boolean)`. */
  function Clean(fields: seq<string>): (r: seq<string>)
    ensures |r| <= |fields|
    ensures forall i :: 0 <= i < |r| ==> r[i] != ""
  {
    NonEmpty(TrimAll(fields))
  }

  /** The tags one input field contributes. */
  function Tokens(s: string): seq<string> {
    Clean(SplitFields(s))
  }

  /** The tag list of the save handler: the three fields split, concatenated
      in order, trimmed and stripped of empty pieces. */
  function ParseTags(tags1: string, tags2: string, tags3: string): (r: seq<string>)
    ensures forall i :: 0 <= i < |r| ==> r[i] != "" && NoSeparator(r[i])
  {
    var f1, f2, f3 := SplitFields(tags1), SplitFields(tags2), SplitFields(tags3);
    SeparatorFreeAppend(f1, f2);
    SeparatorFreeAppend(f1 + f2, f3);
    CleanSeparatorFree(f1 + f2 + f3);
    Clean(f1 + f2 + f3)
  }

  /** All pieces joined with nothing between them. */
  function Concat(ss: seq<string>): string {
    if ss == [] then "" else ss[0] + Concat(ss[1..])
  }

  /** `s` with every separator character deleted. */
  function StripSeparators(s: string): (r: string)
    ensures NoSeparator(r)
  {
    if s == [] then ""
    else (if IsSeparator(s[0]) then "" else [s[0]]) + StripSeparators(s[1..])
  }

  lemma {:induction false} TrimAllAppend(a: seq<string>, b: seq<string>)
    ensures TrimAll(a + b) == TrimAll(a) + TrimAll(b)
  {
    if a == [] {
      assert a + b == b;
    } else {
      assert (a + b)[0] == a[0];
      assert (a + b)[1..] == a[1..] + b;
      TrimAllAppend(a[1..], b);
    }
  }

  /** Trimming pieces without white space changes none of them. */
  lemma {:induction false} TrimAllSpaceFree(fields: seq<string>)
    requires forall i :: 0 <= i < |fields| ==> NoSpace(fields[i])
    ensures TrimAll(fields) == fields
  {
    if fields != [] {
      var rest := fields[1..];
      forall i | 0 <= i < |rest| ensures NoSpace(rest[i]) {
        assert rest[i] == fields[i + 1];
      }
      TrimAllSpaceFree(rest);
      var t := Trim(fields[0]);
      assert t == fields[0] by {
        assert NoSpace(fields[0]);
      }
      assert TrimAll(fields) == [t] + TrimAll(rest);
      assert fields == [fields[0]] + rest;
    }
  }

  lemma {:induction false} NonEmptyAppend(a: seq<string>, b: seq<string>)
    ensures NonEmpty(a + b) == NonEmpty(a) + NonEmpty(b)
  {
    if a == [] {
      assert a + b == b;
    } else {
      assert (a + b)[0] == a[0];
      assert (a + b)[1..] == a[1..] + b;
      NonEmptyAppend(a[1..], b);
    }
  }

  lemma CleanAppend(a: seq<string>, b: seq<string>)
    ensures Clean(a + b) == Clean(a) + Clean(b)
  {
    TrimAllAppend(a, b);
    NonEmptyAppend(TrimAll(a), TrimAll(b));
  }

  lemma {:induction false} ConcatAppend(a: seq<string>, b: seq<string>)
    ensures Concat(a + b) == Concat(a) + Concat(b)
  {
    if a == [] {
      assert a + b == b;
    } else {
      assert (a + b)[1..] == a[1..] + b;
      ConcatAppend(a[1..], b);
    }
  }

  /** Dropping the empty pieces of separator-free pieces keeps the others
      unchanged, so the joined text is the same. */
  lemma {:induction false} NonEmptySeparatorFree(ss: seq<string>)
    requires forall i :: 0 <= i < |ss| ==> NoSeparator(ss[i])
    ensures forall i :: 0 <= i < |NonEmpty(ss)| ==> NoSeparator(NonEmpty(ss)[i])
    ensures Concat(NonEmpty(ss)) == Concat(ss)
  {
    if ss != [] {
      var f, rest := ss[0], ss[1..];
      NonEmptySeparatorFree(rest);
      assert Concat(ss) == f + Concat(rest);
      if f == "" {
        assert NonEmpty(ss) == NonEmpty(rest);
      } else {
        assert NonEmpty(ss) == [f] + NonEmpty(rest);
        assert ([f] + NonEmpty(rest))[1..] == NonEmpty(rest);
      }
    }
  }

  /** Cleaning pieces that hold no separator keeps exactly the non-empty
      pieces, unchanged. */
  lemma CleanSeparatorFree(fields: seq<string>)
    requires forall i :: 0 <= i < |fields| ==> NoSeparator(fields[i])
    ensures forall i :: 0 <= i < |Clean(fields)| ==> NoSeparator(Clean(fields)[i])
    ensures Concat(Clean(fields)) == Concat(fields)
  {
    assert forall i :: 0 <= i < |fields| ==> NoSpace(fields[i]);
    TrimAllSpaceFree(fields);
    NonEmptySeparatorFree(fields);
  }

  lemma {:induction false} StripDroppedRun(s: string)
    ensures StripSeparators(s) == StripSeparators(DropSeparators(s))
  {
    if s != [] && IsSeparator(s[0]) {
      StripDroppedRun(s[1..]);
    }
  }

  /** Splitting loses exactly the separators: the pieces, joined, are the
      input with its separators deleted. */
  lemma {:induction false} SplitFieldsConcat(s: string)
    ensures Concat(SplitFields(s)) == StripSeparators(s)
    decreases |s|
  {
    if s == [] {
    } else if IsSeparator(s[0]) {
      var d := DropSeparators(s);
      SplitFieldsConcat(d);
      StripDroppedRun(s);
      var x := SplitFields(d);
      assert SplitFields(s) == [""] + x;
      assert ([""] + x)[1..] == x;
    } else {
      var rest := SplitFields(s[1..]);
      SplitFieldsConcat(s[1..]);
      assert SplitFields(s) == [[s[0]] + rest[0]] + rest[1..];
      assert Concat(rest) == rest[0] + Concat(rest[1..]);
      assert ([[s[0]] + rest[0]] + rest[1..])[1..] == rest[1..];
      assert StripSeparators(s) == [s[0]] + StripSeparators(s[1..]);
    }
  }

  predicate AllSeparators(s: string) {
    forall i :: 0 <= i < |s| ==> IsSeparator(s[i])
  }

  /** Text without a separator is one piece: `split` does not cut it. */
  lemma {:induction false} SplitWord(w: string)
    requires NoSeparator(w)
    ensures SplitFields(w) == [w]
  {
    if w != [] {
      SplitWord(w[1..]);
      assert [w[0]] + w[1..] == w;
    }
  }

  /** A maximal run of separators is skipped whole. */
  lemma {:induction false} DropRun(sep: string, b: string)
    requires AllSeparators(sep)
    requires b == [] || !IsSeparator(b[0])
    ensures DropSeparators(sep + b) == b
  {
    if sep != [] {
      assert (sep + b)[1..] == sep[1..] + b;
      DropRun(sep[1..], b);
    }
  }

  /** A run that stops inside `a` stops at the same place in `a + t`. */
  lemma {:induction false} DropWithin(a: string, t: string)
    requires DropSeparators(a) != []
    ensures DropSeparators(a + t) == DropSeparators(a) + t
  {
    if IsSeparator(a[0]) {
      assert (a + t)[1..] == a[1..] + t;
      DropWithin(a[1..], t);
    }
  }

  /** Where `split` cuts: a non-empty maximal run of separators between `a`
      and `b` divides the pieces of `a + sep + b` into the pieces of `a`
      followed by the pieces of `b`. With `SplitWord` this determines
      `SplitFields` on every input. */
  lemma SplitCut(a: string, sep: string, b: string)
    requires a == [] || !IsSeparator(a[|a| - 1])
    requires sep != [] && AllSeparators(sep)
    requires b == [] || !IsSeparator(b[0])
    ensures SplitFields(a + sep + b) == SplitFields(a) + SplitFields(b)
  {
    assert a + sep + b == a + (sep + b);
    DropRun(sep, b);
    assert SplitFields(sep + b) == [""] + SplitFields(b);
    SplitBefore(a, sep + b, b);
  }

  /** `SplitCut` with the run and `b` as one tail `r` that starts with a
      separator and after a maximal run leaves `b`. */
  lemma {:induction false} SplitBefore(a: string, r: string, b: string)
    requires a == [] || !IsSeparator(a[|a| - 1])
    requires r != [] && IsSeparator(r[0]) && DropSeparators(r) == b
    ensures SplitFields(a + r) == SplitFields(a) + SplitFields(b)
    decreases |a|
  {
    if a == [] {
      assert a + r == r;
    } else if IsSeparator(a[0]) {
      var d := DropSeparators(a);
      assert d[|d| - 1] == a[|a| - 1];
      SplitBefore(d, r, b);
      DropWithin(a, r);
      RunStep(a, r, SplitFields(b));
    } else {
      var t := a[1..];
      assert t == [] || t[|t| - 1] == a[|a| - 1];
      SplitBefore(t, r, b);
      ConsTail(a, r);
      CharStep(a, r, SplitFields(t), SplitFields(b));
    }
  }

  lemma ConsTail(a: string, r: string)
    requires a != []
    ensures (a + r)[0] == a[0] && (a + r)[1..] == a[1..] + r
  {
  }

  /** The step of `SplitBefore` when `a` starts with a separator run. */
  lemma RunStep(a: string, r: string, sb: seq<string>)
    requires a != [] && IsSeparator(a[0])
    requires DropSeparators(a + r) == DropSeparators(a) + r
    requires SplitFields(DropSeparators(a) + r) == SplitFields(DropSeparators(a)) + sb
    ensures SplitFields(a + r) == SplitFields(a) + sb
  {
    ConsTail(a, r);
    var sd := SplitFields(DropSeparators(a));
    assert SplitFields(a + r) == [""] + SplitFields(DropSeparators(a + r));
    assert SplitFields(a) == [""] + sd;
    Reassociate([""], sd, sb);
  }

  /** The step of `SplitBefore` when `a` starts with a character of a piece. */
  lemma CharStep(a: string, r: string, ra: seq<string>, sb: seq<string>)
    requires a != [] && !IsSeparator(a[0])
    requires (a + r)[0] == a[0] && (a + r)[1..] == a[1..] + r
    requires ra == SplitFields(a[1..])
    requires SplitFields(a[1..] + r) == ra + sb
    ensures SplitFields(a + r) == SplitFields(a) + sb
  {
    var x := [a[0]] + ra[0];
    var rest := SplitFields((a + r)[1..]);
    assert rest == ra + sb;
    RestOfCons(ra, sb);
    assert SplitFields(a + r) == [[a[0]] + rest[0]] + rest[1..];
    assert SplitFields(a) == [x] + ra[1..];
    Reassociate([x], ra[1..], sb);
  }

  lemma RestOfCons(ra: seq<string>, sb: seq<string>)
    requires ra != []
    ensures (ra + sb)[0] == ra[0] && (ra + sb)[1..] == ra[1..] + sb
  {
  }

  lemma Reassociate<T>(p: seq<T>, q: seq<T>, r: seq<T>)
    ensures p + (q + r) == (p + q) + r
  {
  }

  /** The tokens of a field follow its cuts: a word is one token, and a
      separator run between two pieces adds nothing of its own. */
  lemma TokensCut(a: string, sep: string, b: string)
    requires a == [] || !IsSeparator(a[|a| - 1])
    requires sep != [] && AllSeparators(sep)
    requires b == [] || !IsSeparator(b[0])
    ensures Tokens(a + sep + b) == Tokens(a) + Tokens(b)
  {
    SplitCut(a, sep, b);
    CleanAppend(SplitFields(a), SplitFields(b));
  }

  /** A non-empty word without separators is exactly one tag. */
  lemma TokensWord(w: string)
    requires w != [] && NoSeparator(w)
    ensures Tokens(w) == [w]
  {
    SplitWord(w);
    assert NoSpace(w);
    TrimAllSpaceFree([w]);
  }

  /** Empty second and third fields add no tags. */
  lemma ParseTagsFirstOnly(x: string)
    ensures ParseTags(x, "", "") == Tokens(x)
  {
    assert SplitFields("") == [""];
    CleanEmptyFields(SplitFields(x));
  }

  /** Two empty pieces after `f` add nothing once cleaned. */
  lemma CleanEmptyFields(f: seq<string>)
    ensures Clean(f + [""] + [""]) == Clean(f)
  {
    var e := [""];
    CleanAppend(f + e, e);
    CleanAppend(f, e);
    CleanEmptyField();
    var c := Clean(f);
    assert Clean(f + e) == c + [];
    assert Clean(f + e + e) == c + [] + [];
  }

  lemma CleanEmptyField()
    ensures Clean([""]) == []
  {
    assert AllSpace("");
    assert TrimAll([""]) == [Trim("")] + TrimAll([]);
  }

  /** Two words with a run of separators between them are two tags, not
      one tag spelling both words. */
  lemma TwoWordsTwoTags(a: string, sep: string, b: string)
    requires a != [] && NoSeparator(a)
    requires sep != [] && AllSeparators(sep)
    requires b != [] && NoSeparator(b)
    ensures ParseTags(a + sep + b, "", "") == [a, b]
  {
    TokensCut(a, sep, b);
    TokensWord(a);
    TokensWord(b);
    ParseTagsFirstOnly(a + sep + b);
  }

  /** Every token of the tag fields is non-empty and holds no comma and no
      white space; the tokens come in left-to-right order, field 1 first,
      and together spell the three fields with their separators deleted. */
  lemma ParseTagsSpec(tags1: string, tags2: string, tags3: string)
    ensures ParseTags(tags1, tags2, tags3) == Tokens(tags1) + Tokens(tags2) + Tokens(tags3)
    ensures forall i :: 0 <= i < |ParseTags(tags1, tags2, tags3)| ==>
              ParseTags(tags1, tags2, tags3)[i] != "" && NoSeparator(ParseTags(tags1, tags2, tags3)[i])
    ensures Concat(ParseTags(tags1, tags2, tags3))
            == StripSeparators(tags1) + StripSeparators(tags2) + StripSeparators(tags3)
  {
    var f1, f2, f3 := SplitFields(tags1), SplitFields(tags2), SplitFields(tags3);
    var all := f1 + f2 + f3;
    CleanAppend(f1 + f2, f3);
    CleanAppend(f1, f2);
    SeparatorFreeAppend(f1, f2);
    SeparatorFreeAppend(f1 + f2, f3);
    CleanSeparatorFree(all);
    ConcatAppend(f1 + f2, f3);
    ConcatAppend(f1, f2);
    SplitFieldsConcat(tags1);
    SplitFieldsConcat(tags2);
    SplitFieldsConcat(tags3);
  }

  lemma SeparatorFreeAppend(a: seq<string>, b: seq<string>)
    requires forall i :: 0 <= i < |a| ==> NoSeparator(a[i])
    requires forall i :: 0 <= i < |b| ==> NoSeparator(b[i])
    ensures forall i :: 0 <= i < |a + b| ==> NoSeparator((a + b)[i])
  {
    forall i | 0 <= i < |a + b| ensures NoSeparator((a + b)[i]) {
      if i < |a| { assert (a + b)[i] == a[i]; } else { assert (a + b)[i] == b[i - |a|]; }
    }
  }

  /** The characters `.` does not match in a JavaScript regular expression. */
  predicate IsLineTerminator(c: char) {
    c == '\n' || c == '\r' || c == '\U{2028}' || c == '\U{2029}'
  }

  /** What the greedy `.+` of `/^CP:(.+)/` can match: the longest prefix
      holding no line terminator. */
  function FirstLine(s: string): (r: string)
    ensures |r| <= |s| && r == s[..|r|]
    ensures forall i :: 0 <= i < |r| ==> !IsLineTerminator(r[i])
    ensures |r| == |s| || IsLineTerminator(s[|r|])
  {
    if s == [] || IsLineTerminator(s[0]) then [] else [s[0]] + FirstLine(s[1..])
  }

  /** `.replace(/\n/g, "<br>")`: one character at a time, a line feed
      becomes `<br>` and anything else stays; with `ReplaceNewlinesAppend`
      this fixes the result for every text. */
  function ReplaceNewlines(s: string): (r: string)
    ensures '\n' !in r
    ensures '\n' !in s ==> r == s
    ensures |s| == 1 ==> r == if s[0] == '\n' then "<br>" else s
  {
    if s == [] then []
    else (if s[0] == '\n' then "<br>" else [s[0]]) + ReplaceNewlines(s[1..])
  }

  /** The rewrite works piece by piece: it can be applied to any split of
      the text and the results joined. */
  lemma {:induction false} ReplaceNewlinesAppend(a: string, b: string)
    ensures ReplaceNewlines(a + b) == ReplaceNewlines(a) + ReplaceNewlines(b)
  {
    if a == [] {
      assert a + b == b;
    } else {
      ConsTail(a, b);
      ReplaceNewlinesAppend(a[1..], b);
      var h := if a[0] == '\n' then "<br>" else [a[0]];
      assert ReplaceNewlines(a + b) == h + ReplaceNewlines(a[1..] + b);
      assert ReplaceNewlines(a) == h + ReplaceNewlines(a[1..]);
      Reassociate(h, ReplaceNewlines(a[1..]), ReplaceNewlines(b));
    }
  }

  /** True when `/^CP:(.+)/` matches: the marker followed by at least one
      character that is not a line terminator. */
  predicate HasCpMarker(content: string) {
    |content| > 3 && content[..3] == "CP:" && !IsLineTerminator(content[3])
  }

  /** `formatContent`: a `CP:` entry shows only the rest of its first line,
      in bold; any other content has its line breaks turned into `<br>`. */
  function FormatContent(content: string): (r: string)
    ensures '\n' !in r
    ensures HasCpMarker(content) ==>
              var line := FirstLine(content[3..]);
              && line != ""
              && content == "CP:" + line + content[3 + |line|..]
              && r == "<strong>" + line + "</strong>"
    ensures !HasCpMarker(content) ==> r == ReplaceNewlines(content)
    ensures !HasCpMarker(content) && '\n' !in content ==> r == content
  {
    if HasCpMarker(content) then
      var line := FirstLine(content[3..]);
      assert '\n' !in line by {
        forall i | 0 <= i < |line| ensures line[i] != '\n' { assert !IsLineTerminator(line[i]); }
      }
      "<strong>" + ReplaceNewlines(line) + "</strong>"
    else
      ReplaceNewlines(content)
  }

  /** The order `Array.prototype.sort` gives strings without a comparator:
      character by character, a proper prefix first. */
  predicate LexLess(a: string, b: string) {
    if a == [] then b != []
    else if b == [] then false
    else if a[0] != b[0] then a[0] < b[0]
    else LexLess(a[1..], b[1..])
  }

  lemma {:induction false} LexLessAsymmetric(a: string, b: string)
    requires LexLess(a, b)
    ensures !LexLess(b, a)
  {
    if a != [] && b != [] && a[0] == b[0] {
      LexLessAsymmetric(a[1..], b[1..]);
    }
  }

  lemma {:induction false} LexLessTotal(a: string, b: string)
    requires a != b
    ensures LexLess(a, b) || LexLess(b, a)
  {
    if a != [] && b != [] && a[0] == b[0] {
      assert a == [a[0]] + a[1..] && b == [b[0]] + b[1..];
      LexLessTotal(a[1..], b[1..]);
    }
  }

  /** Not-greater is transitive, the fact sorting needs. */
  lemma {:induction false} LexAtMostTransitive(a: string, b: string, c: string)
    requires !LexLess(b, a) && !LexLess(c, b)
    ensures !LexLess(c, a)
  {
    if a != [] && b != [] && c != [] && a[0] == b[0] == c[0] {
      LexAtMostTransitive(a[1..], b[1..], c[1..]);
    }
  }
}
