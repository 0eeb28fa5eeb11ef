/** The slug rewrite pipeline, and zero-padded display numbers. */
module Slug {
  import opened Text
  import Decimal

  /** `toLowerCase`, of which only its results matter here. */
  type CaseMap = string -> string

  predicate IsWordChar(c: char) {
    'A' <= c <= 'Z' || 'a' <= c <= 'z' || '0' <= c <= '9'
  }

  /** `[\w\s-]`. */
  predicate IsKept(c: char) {
    IsWordChar(c) || c == '_' || IsSpace(c) || c == '-'
  }

  /** `[\s_]`. */
  predicate IsGap(c: char) {
    IsSpace(c) || c == '_'
  }

  predicate IsHyphen(c: char) {
    c == '-'
  }

  /** Everything between words: gaps and hyphens. */
  predicate IsSeparator(c: char) {
    IsGap(c) || IsHyphen(c)
  }

  // ----- The pipeline -----

  /** `.replace(/[^...]/g, '')`. */
  function Filter(s: string, keep: char -> bool): string {
    if s == [] then [] else (if keep(s[0]) then [s[0]] else []) + Filter(s[1..], keep)
  }

  function SkipWhile(s: string, p: char -> bool): string {
    if s != [] && p(s[0]) then SkipWhile(s[1..], p) else s
  }

  lemma SkipShortens(s: string, p: char -> bool)
    ensures |SkipWhile(s, p)| <= |s|
  {
  }

  /** `.replace(/[...]+/g, '-')`: every maximal run becomes one hyphen. */
  function Collapse(s: string, p: char -> bool): string
    decreases |s|
  {
    if s == [] then []
    else if p(s[0]) then
      SkipShortens(s[1..], p);
      "-" + Collapse(SkipWhile(s[1..], p), p)
    else [s[0]] + Collapse(s[1..], p)
  }

  function DropTrailing(s: string, p: char -> bool): string {
    if s != [] && p(s[|s| - 1]) then DropTrailing(s[..|s| - 1], p) else s
  }

  /** `.replace(/^-+|-+$/g, '')`. */
  function StripHyphens(s: string): string {
    DropTrailing(SkipWhile(s, IsHyphen), IsHyphen)
  }

  function GenerateSlug(lower: CaseMap, input: string): string {
    StripHyphens(Collapse(Collapse(Filter(Trim(lower(input)), IsKept), IsGap), IsHyphen))
  }

  // ----- What a slug is -----

  function TakeWhile(s: string, p: char -> bool): string {
    if s != [] && p(s[0]) then [s[0]] + TakeWhile(s[1..], p) else []
  }

  lemma {:induction false} TakeThenSkip(s: string, p: char -> bool)
    ensures s == TakeWhile(s, p) + SkipWhile(s, p)
    ensures forall i :: 0 <= i < |TakeWhile(s, p)| ==> p(TakeWhile(s, p)[i])
    ensures SkipWhile(s, p) != [] ==> !p(SkipWhile(s, p)[0])
    ensures s != [] && p(s[0]) ==> TakeWhile(s, p) != [] && |SkipWhile(s, p)| < |s|
  {
    if s != [] && p(s[0]) {
      var rest := s[1..];
      TakeThenSkip(rest, p);
      var w := TakeWhile(rest, p);
      assert TakeWhile(s, p) == [s[0]] + w && SkipWhile(s, p) == SkipWhile(rest, p);
      assert s == [s[0]] + rest;
      assert [s[0]] + (w + SkipWhile(rest, p)) == [s[0]] + w + SkipWhile(rest, p);
    }
  }

  predicate IsWordPart(c: char) {
    !IsSeparator(c)
  }

  /** The maximal runs of characters that are no separators. */
  function Words(s: string): seq<string>
    decreases |s|
  {
    if s == [] then []
    else if IsSeparator(s[0]) then Words(s[1..])
    else
      TakeThenSkip(s, IsWordPart);
      [TakeWhile(s, IsWordPart)] + Words(SkipWhile(s, IsWordPart))
  }

  /** Words joined by single hyphens. */
  function Join(words: seq<string>): string {
    if words == [] then "" else if |words| == 1 then words[0] else words[0] + "-" + Join(words[1..])
  }

  predicate IsWord(w: string) {
    w != [] && forall i :: 0 <= i < |w| ==> IsWordPart(w[i])
  }

  predicate AllWords(words: seq<string>) {
    forall i :: 0 <= i < |words| ==> IsWord(words[i])
  }

  // ----- What Words computes -----

  predicate AllSeparators(s: string) {
    forall i :: 0 <= i < |s| ==> IsSeparator(s[i])
  }

  /** A gap before each word and one after the last, made of separators, and none empty between two words. */
  predicate Alternate(gaps: seq<string>, words: seq<string>) {
    && |gaps| == |words| + 1 && AllWords(words)
    && (forall i :: 0 <= i < |gaps| ==> AllSeparators(gaps[i]))
    && (forall i :: 0 < i < |words| ==> gaps[i] != [])
  }

  function Weave(gaps: seq<string>, words: seq<string>): string
    requires |gaps| == |words| + 1
  {
    if words == [] then gaps[0] else gaps[0] + words[0] + Weave(gaps[1..], words[1..])
  }

  /** Every text is its words with gaps around them: each word is maximal, and nothing but separators is left out. */
  lemma {:induction false} WordsSplit(s: string) returns (gaps: seq<string>)
    ensures Alternate(gaps, Words(s)) && Weave(gaps, Words(s)) == s
    decreases |s|
  {
    if s == [] {
      gaps := [""];
    } else if IsSeparator(s[0]) {
      var rest := WordsSplit(s[1..]);
      gaps := [[s[0]] + rest[0]] + rest[1..];
      WiderFirstGap(s[0], rest, Words(s));
      assert s == [s[0]] + s[1..];
    } else {
      var w, tail := TakeWhile(s, IsWordPart), SkipWhile(s, IsWordPart);
      TakeThenSkip(s, IsWordPart);
      var rest := WordsSplit(tail);
      gaps := [""] + rest;
      GapBeforeNext(rest, Words(tail), tail);
      AnotherWord(w, rest, Words(tail));
    }
  }

  lemma WiderFirstGap(c: char, gaps: seq<string>, words: seq<string>)
    requires Alternate(gaps, words) && IsSeparator(c)
    ensures var wider := [[c] + gaps[0]] + gaps[1..];
      Alternate(wider, words) && Weave(wider, words) == [c] + Weave(gaps, words)
  {
    var wider := [[c] + gaps[0]] + gaps[1..];
    assert wider[1..] == gaps[1..];
    assert words != [] ==> [c] + gaps[0] + words[0] + Weave(gaps[1..], words[1..]) == [c] + (gaps[0] + words[0] + Weave(gaps[1..], words[1..]));
  }

  /** A text that starts with no word has a gap before its first one. */
  lemma GapBeforeNext(gaps: seq<string>, words: seq<string>, s: string)
    requires Alternate(gaps, words) && Weave(gaps, words) == s && (s != [] ==> IsSeparator(s[0]))
    ensures words != [] ==> gaps[0] != []
  {
    if words != [] {
      assert IsWord(words[0]);
      var start := gaps[0] + words[0];
      assert s[0] == start[0];
      assert IsWordPart(start[|gaps[0]|]);
    }
  }

  lemma AnotherWord(w: string, gaps: seq<string>, words: seq<string>)
    requires IsWord(w) && Alternate(gaps, words) && (words != [] ==> gaps[0] != [])
    ensures Alternate([""] + gaps, [w] + words) && Weave([""] + gaps, [w] + words) == w + Weave(gaps, words)
  {
    var g, v := [""] + gaps, [w] + words;
    assert g[1..] == gaps && v[1..] == words;
    assert "" + w == w;
    forall i | 0 < i < |v| ensures g[i] != [] { assert g[i] == gaps[i - 1]; }
  }

  lemma {:induction false} SkipGap(gap: string, s: string)
    requires AllSeparators(gap)
    ensures Words(gap + s) == Words(s)
  {
    if gap == [] {
      assert gap + s == s;
    } else {
      assert (gap + s)[1..] == gap[1..] + s;
      SkipGap(gap[1..], s);
    }
  }

  lemma {:induction false} TakeWord(w: string, s: string)
    requires forall i :: 0 <= i < |w| ==> IsWordPart(w[i])
    requires s != [] ==> IsSeparator(s[0])
    ensures TakeWhile(w + s, IsWordPart) == w && SkipWhile(w + s, IsWordPart) == s
  {
    if w == [] {
      assert w + s == s;
    } else {
      assert (w + s)[1..] == w[1..] + s;
      TakeWord(w[1..], s);
    }
  }

  /** And there is only one way to split a text so: whatever alternates with gaps to give it are its words. */
  lemma {:induction false} OnlyWords(gaps: seq<string>, words: seq<string>)
    requires Alternate(gaps, words)
    ensures Words(Weave(gaps, words)) == words
    decreases |words|
  {
    if words == [] {
      SkipGap(gaps[0], "");
      assert gaps[0] + "" == gaps[0];
    } else {
      var rest := Weave(gaps[1..], words[1..]);
      FewerWords(gaps, words);
      OnlyWords(gaps[1..], words[1..]);
      assert gaps[0] + words[0] + rest == gaps[0] + (words[0] + rest);
      SkipGap(gaps[0], words[0] + rest);
      TakeWord(words[0], rest);
      assert words[0] + rest != [] && (words[0] + rest)[0] == words[0][0];
      assert Words(words[0] + rest) == [words[0]] + Words(rest);
    }
  }

  lemma FewerWords(gaps: seq<string>, words: seq<string>)
    requires Alternate(gaps, words) && words != []
    ensures Alternate(gaps[1..], words[1..])
    ensures IsWord(words[0]) && AllSeparators(gaps[0])
    ensures var rest := Weave(gaps[1..], words[1..]); rest != [] ==> IsSeparator(rest[0])
  {
    forall i | 0 < i < |words| - 1 ensures gaps[1..][i] != [] { assert gaps[1..][i] == gaps[i + 1]; }
    assert forall i :: 0 <= i < |gaps| - 1 ==> gaps[1..][i] == gaps[i + 1];
    assert AllSeparators(gaps[1]);
  }

  // ----- The pipeline joins the words -----

  /** Skipping the leading hyphens of a collapsed text skips all leading separators of the text. */
  lemma {:induction false} SkipCollapsed(s: string)
    ensures SkipWhile(Collapse(s, IsGap), IsHyphen) == Collapse(SkipWhile(s, IsSeparator), IsGap)
    decreases |s|
  {
    if s != [] {
      var c := Collapse(s, IsGap);
      if IsGap(s[0]) {
        SkipShortens(s[1..], IsGap);
        SkipCollapsed(SkipWhile(s[1..], IsGap));
        SkipGapsFirst(s[1..]);
        assert c[1..] == Collapse(SkipWhile(s[1..], IsGap), IsGap);
      } else if IsHyphen(s[0]) {
        SkipCollapsed(s[1..]);
        assert c[1..] == Collapse(s[1..], IsGap);
      }
    }
  }

  lemma {:induction false} SkipGapsFirst(s: string)
    ensures SkipWhile(SkipWhile(s, IsGap), IsSeparator) == SkipWhile(s, IsSeparator)
  {
    if s != [] && IsGap(s[0]) {
      SkipGapsFirst(s[1..]);
    }
  }

  /** The two collapsing passes are one pass over all separators. */
  lemma {:induction false} CollapseFuses(s: string)
    ensures Collapse(Collapse(s, IsGap), IsHyphen) == Collapse(s, IsSeparator)
    decreases |s|
  {
    if s != [] {
      var c := Collapse(s, IsGap);
      if IsGap(s[0]) {
        var rest := SkipWhile(s[1..], IsGap);
        assert c[1..] == Collapse(rest, IsGap);
        SkipCollapsed(rest);
        SkipGapsFirst(s[1..]);
        SkipShortens(s[1..], IsSeparator);
        CollapseFuses(SkipWhile(s[1..], IsSeparator));
      } else if IsHyphen(s[0]) {
        assert c[1..] == Collapse(s[1..], IsGap);
        SkipCollapsed(s[1..]);
        SkipShortens(s[1..], IsSeparator);
        CollapseFuses(SkipWhile(s[1..], IsSeparator));
      } else {
        assert c[1..] == Collapse(s[1..], IsGap);
        CollapseFuses(s[1..]);
      }
    }
  }

  lemma {:induction false} WordsSkip(s: string)
    ensures Words(SkipWhile(s, IsSeparator)) == Words(s)
  {
    if s != [] && IsSeparator(s[0]) {
      WordsSkip(s[1..]);
    }
  }

  lemma {:induction false} CollapseWord(w: string, rest: string)
    requires forall i :: 0 <= i < |w| ==> IsWordPart(w[i])
    ensures Collapse(w + rest, IsSeparator) == w + Collapse(rest, IsSeparator)
  {
    if w == [] {
      assert w + rest == rest;
    } else {
      assert (w + rest)[1..] == w[1..] + rest;
      CollapseWord(w[1..], rest);
      assert w == [w[0]] + w[1..];
    }
  }

  lemma {:induction false} DropTrailingAppend(a: string, b: string)
    requires DropTrailing(b, IsHyphen) != []
    ensures DropTrailing(a + b, IsHyphen) == a + DropTrailing(b, IsHyphen)
  {
    if b != [] && IsHyphen(b[|b| - 1]) {
      assert (a + b)[..|a + b| - 1] == a + b[..|b| - 1];
      DropTrailingAppend(a, b[..|b| - 1]);
    }
  }

  /** After the leading separators, the collapsed text without trailing hyphens is the joined words. */
  lemma {:induction false} StrippedIsJoined(s: string)
    requires s != [] ==> !IsSeparator(s[0])
    ensures DropTrailing(Collapse(s, IsSeparator), IsHyphen) == Join(Words(s))
    ensures s != [] ==> Join(Words(s)) != []
    decreases |s|
  {
    if s != [] {
      var w, rest := TakeWhile(s, IsWordPart), SkipWhile(s, IsWordPart);
      TakeThenSkip(s, IsWordPart);
      CollapseWord(w, rest);
      assert !IsHyphen(w[|w| - 1]);
      if rest == [] {
        assert w + Collapse(rest, IsSeparator) == w;
        assert Words(s) == [w];
      } else {
        var next := SkipWhile(rest[1..], IsSeparator);
        TakeThenSkip(rest[1..], IsSeparator);
        SkipShortens(rest[1..], IsSeparator);
        StrippedIsJoined(next);
        WordsSkip(rest[1..]);
        assert Words(s) == [w] + Words(next);
        StripAfterWord(w, next);
      }
    }
  }

  lemma EmptyText()
    ensures Words("") == [] && Collapse("", IsSeparator) == []
  {
  }

  lemma StripAfterWord(w: string, next: string)
    requires w != [] && !IsHyphen(w[|w| - 1])
    requires DropTrailing(Collapse(next, IsSeparator), IsHyphen) == Join(Words(next))
    requires next == [] || Join(Words(next)) != []
    ensures DropTrailing(w + ("-" + Collapse(next, IsSeparator)), IsHyphen) == Join([w] + Words(next))
  {
    hide Words, Collapse, DropTrailing, Join;
    assert next == [] ==> Words(next) == [] && Collapse(next, IsSeparator) == [] by { EmptyText(); }
    if next == [] {
      LastWord(w);
      assert w + ("-" + Collapse(next, IsSeparator)) == w + "-" && [w] + Words(next) == [w];
    } else {
      assert w + ("-" + Collapse(next, IsSeparator)) == (w + "-") + Collapse(next, IsSeparator);
      DropTrailingAppend(w + "-", Collapse(next, IsSeparator));
      assert Words(next) != [] by { JoinOfNone(); }
      JoinFirst(w, Words(next));
    }
  }

  lemma LastWord(w: string)
    requires w != [] && !IsHyphen(w[|w| - 1])
    ensures DropTrailing(w + "-", IsHyphen) == w == Join([w])
  {
    assert (w + "-")[..|w|] == w;
  }

  lemma JoinOfNone()
    ensures Join([]) == []
  {
  }

  lemma SkipCollapsedSeparators(s: string)
    ensures SkipWhile(Collapse(s, IsSeparator), IsHyphen) == Collapse(SkipWhile(s, IsSeparator), IsSeparator)
  {
    TakeThenSkip(s, IsSeparator);
    var rest := SkipWhile(s, IsSeparator);
    if s != [] && IsSeparator(s[0]) {
      assert Collapse(s, IsSeparator)[1..] == Collapse(rest, IsSeparator);
    }
    assert rest != [] ==> Collapse(rest, IsSeparator)[0] == rest[0];
    assert SkipWhile(Collapse(rest, IsSeparator), IsHyphen) == Collapse(rest, IsSeparator);
  }

  lemma PipelineJoins(kept: string)
    ensures StripHyphens(Collapse(Collapse(kept, IsGap), IsHyphen)) == Join(Words(kept))
  {
    CollapseFuses(kept);
    SkipCollapsedSeparators(kept);
    TakeThenSkip(kept, IsSeparator);
    StrippedIsJoined(SkipWhile(kept, IsSeparator));
    WordsSkip(kept);
  }

  lemma {:induction false} WordsIgnoreLastSeparator(s: string, c: char)
    requires IsSeparator(c)
    ensures Words(s + [c]) == Words(s)
    decreases |s|
  {
    var t := s + [c];
    if s == [] {
      assert t[1..] == [];
    } else if IsSeparator(s[0]) {
      assert t[1..] == s[1..] + [c];
      WordsIgnoreLastSeparator(s[1..], c);
    } else {
      TakeThenSkip(s, IsWordPart);
      TakeOfAppended(s, c);
      WordsIgnoreLastSeparator(SkipWhile(s, IsWordPart), c);
    }
  }

  lemma {:induction false} TakeOfAppended(s: string, c: char)
    requires IsSeparator(c)
    ensures TakeWhile(s + [c], IsWordPart) == TakeWhile(s, IsWordPart)
    ensures SkipWhile(s + [c], IsWordPart) == SkipWhile(s, IsWordPart) + [c]
  {
    if s != [] && IsWordPart(s[0]) {
      assert (s + [c])[1..] == s[1..] + [c];
      TakeOfAppended(s[1..], c);
    }
  }

  lemma FilterLast(s: string, c: char)
    ensures Filter(s + [c], IsKept) == Filter(s, IsKept) + if IsKept(c) then [c] else []
  {
    hide Filter, IsKept;
    FilterAppend(s, [c]);
    FilterOne(c);
  }

  lemma {:induction false} TrimStartKeepsWords(s: string)
    ensures Words(Filter(TrimStart(s), IsKept)) == Words(Filter(s, IsKept))
  {
    if s != [] && IsSpace(s[0]) {
      TrimStartKeepsWords(s[1..]);
      assert Filter(s, IsKept)[1..] == Filter(s[1..], IsKept);
    }
  }

  lemma {:induction false} TrimEndKeepsWords(s: string)
    ensures Words(Filter(TrimEnd(s), IsKept)) == Words(Filter(s, IsKept))
  {
    if s != [] && IsSpace(s[|s| - 1]) {
      var front, c := s[..|s| - 1], s[|s| - 1];
      assert s == front + [c];
      TrimEndKeepsWords(front);
      FilterLast(front, c);
      WordsIgnoreLastSeparator(Filter(front, IsKept), c);
    }
  }

  /** The passes compute: filter the lowercase text, split it into maximal words, join them by single hyphens. */
  lemma SlugJoinsWords(lower: CaseMap, input: string)
    ensures GenerateSlug(lower, input) == Join(Words(Filter(lower(input), IsKept)))
  {
    var text := lower(input);
    PipelineJoins(Filter(Trim(text), IsKept));
    TrimEndKeepsWords(TrimStart(text));
    TrimStartKeepsWords(text);
  }

  // ----- Slugs are the fixed points -----

  predicate IsSlugChar(c: char) {
    'a' <= c <= 'z' || '0' <= c <= '9' || c == '-'
  }

  /** Lowercase alphanumeric words with single hyphens between them, and none at either end. */
  predicate IsSlug(s: string) {
    && (forall i :: 0 <= i < |s| ==> IsSlugChar(s[i]))
    && (s != [] ==> !IsHyphen(s[0]) && !IsHyphen(s[|s| - 1]))
    && (forall i :: 0 < i < |s| ==> !(IsHyphen(s[i - 1]) && IsHyphen(s[i])))
  }

  /** What is asked of `toLowerCase`: no ASCII capitals in its results, and texts of slug characters unchanged. */
  ghost predicate LowerCases(lower: CaseMap) {
    && (forall s, i :: 0 <= i < |lower(s)| ==> !('A' <= lower(s)[i] <= 'Z'))
    && (forall s :: (forall i :: 0 <= i < |s| ==> IsSlugChar(s[i])) ==> lower(s) == s)
  }

  predicate IsSlugWord(w: string) {
    w != [] && forall i :: 0 <= i < |w| ==> IsSlugChar(w[i]) && !IsHyphen(w[i])
  }

  lemma {:induction false} FilteredChars(s: string)
    ensures forall i :: 0 <= i < |Filter(s, IsKept)| ==> IsKept(Filter(s, IsKept)[i]) && Filter(s, IsKept)[i] in s
  {
    if s != [] {
      FilteredChars(s[1..]);
    }
  }

  predicate Lowered(s: string) {
    forall i :: 0 <= i < |s| ==> IsKept(s[i]) && !('A' <= s[i] <= 'Z')
  }

  lemma {:induction false} WordsOfLowered(s: string)
    requires Lowered(s)
    ensures forall i :: 0 <= i < |Words(s)| ==> IsSlugWord(Words(s)[i])
    decreases |s|
  {
    if s != [] {
      if IsSeparator(s[0]) {
        WordsOfLowered(s[1..]);
      } else {
        var w, rest := TakeWhile(s, IsWordPart), SkipWhile(s, IsWordPart);
        TakeThenSkip(s, IsWordPart);
        assert forall i :: 0 <= i < |w| ==> w[i] == s[i];
        assert forall i :: 0 <= i < |rest| ==> rest[i] == s[|w| + i];
        WordsOfLowered(rest);
      }
    }
  }

  lemma {:induction false} JoinIsSlug(words: seq<string>)
    requires forall i :: 0 <= i < |words| ==> IsSlugWord(words[i])
    ensures IsSlug(Join(words))
    ensures words != [] ==> Join(words) != []
  {
    if |words| > 1 {
      JoinIsSlug(words[1..]);
      AppendWord(words[0], Join(words[1..]));
    }
  }

  lemma AppendWord(w: string, rest: string)
    requires IsSlugWord(w) && IsSlug(rest) && rest != []
    ensures IsSlug(w + "-" + rest)
  {
    var s := w + "-" + rest;
    assert forall i :: 0 <= i < |w| ==> s[i] == w[i];
    assert s[|w|] == '-';
    assert forall i :: 0 <= i < |rest| ==> s[|w| + 1 + i] == rest[i];
    forall i | 0 < i < |s| ensures !(IsHyphen(s[i - 1]) && IsHyphen(s[i])) {
      if i > |w| + 1 {
        assert s[i] == rest[i - |w| - 1] && s[i - 1] == rest[i - |w| - 2];
      }
    }
  }

  /** Every result is a slug: no capital, no foreign character, no leading, trailing or double hyphen. */
  lemma ResultIsSlug(lower: CaseMap, input: string)
    requires LowerCases(lower)
    ensures IsSlug(GenerateSlug(lower, input))
  {
    SlugJoinsWords(lower, input);
    FilteredChars(lower(input));
    assert Lowered(Filter(lower(input), IsKept));
    WordsOfLowered(Filter(lower(input), IsKept));
    JoinIsSlug(Words(Filter(lower(input), IsKept)));
  }

  lemma {:induction false} FilterKeepsSlug(s: string)
    requires forall i :: 0 <= i < |s| ==> IsSlugChar(s[i])
    ensures Filter(s, IsKept) == s
  {
    if s != [] {
      FilterKeepsSlug(s[1..]);
      assert s == [s[0]] + s[1..];
    }
  }

  /** A slug is the join of its own words. */
  lemma {:induction false} SlugIsItsWords(s: string)
    requires IsSlug(s)
    ensures Join(Words(s)) == s
    decreases |s|
  {
    if s != [] {
      var w, rest := TakeWhile(s, IsWordPart), SkipWhile(s, IsWordPart);
      TakeThenSkip(s, IsWordPart);
      SlugSeparator(s[0]);
      if rest == [] {
        assert Words(s) == [w];
      } else {
        assert rest == s[|w|..] && rest[0] == s[|w|];
        SlugSeparator(rest[0]);
        SlugTail(s, |w|);
        assert rest[1..] == s[|w| + 1..];
        SlugIsItsWords(rest[1..]);
        SlugSeparator(rest[1..][0]);
        assert Words(s) == [w] + Words(rest[1..]);
        assert s == w + "-" + rest[1..];
        JoinFirst(w, Words(rest[1..]));
      }
    }
  }

  lemma JoinFirst(w: string, words: seq<string>)
    requires words != []
    ensures Join([w] + words) == w + "-" + Join(words)
  {
    assert ([w] + words)[1..] == words;
  }

  lemma SlugSeparator(c: char)
    requires IsSlugChar(c)
    ensures IsSeparator(c) <==> IsHyphen(c)
  {
  }

  lemma SlugTail(s: string, k: nat)
    requires IsSlug(s) && k < |s| && IsHyphen(s[k])
    ensures k + 1 < |s| && IsSlug(s[k + 1..]) && s[k + 1..] != [] && !IsHyphen(s[k + 1])
  {
    var t := s[k + 1..];
    assert forall i :: 0 <= i < |t| ==> t[i] == s[k + 1 + i];
    forall i | 0 < i < |t| ensures !(IsHyphen(t[i - 1]) && IsHyphen(t[i])) {
      assert t[i - 1] == s[k + i] && t[i] == s[k + i + 1];
    }
  }

  /** The rewrite leaves exactly the slugs alone, so rewriting twice is rewriting once. */
  lemma FixedPointsAreSlugs(lower: CaseMap, input: string)
    requires LowerCases(lower)
    ensures GenerateSlug(lower, input) == input <==> IsSlug(input)
    ensures GenerateSlug(lower, GenerateSlug(lower, input)) == GenerateSlug(lower, input)
  {
    hide GenerateSlug, IsSlug;
    ResultIsSlug(lower, input);
    if IsSlug(input) { SlugIsFixed(lower, input); }
    SlugIsFixed(lower, GenerateSlug(lower, input));
  }

  lemma SlugIsFixed(lower: CaseMap, s: string)
    requires LowerCases(lower) && IsSlug(s)
    ensures GenerateSlug(lower, s) == s
  {
    SlugJoinsWords(lower, s);
    FilterKeepsSlug(s);
    SlugIsItsWords(s);
  }

  // ----- Character by character -----

  lemma {:induction false} FilterAppend(a: string, b: string)
    ensures Filter(a + b, IsKept) == Filter(a, IsKept) + Filter(b, IsKept)
  {
    hide IsKept, Filter;
    if a == [] {
      FilterNothing();
      assert a + b == b;
    } else {
      var first, rest := if IsKept(a[0]) then [a[0]] else [], Filter(a[1..], IsKept);
      assert (a + b)[1..] == a[1..] + b;
      FilterAppend(a[1..], b);
      FilterFirst(a);
      FilterFirst(a + b);
      assert first + (rest + Filter(b, IsKept)) == first + rest + Filter(b, IsKept);
    }
  }

  lemma FilterNothing()
    ensures Filter("", IsKept) == []
  {
  }

  lemma FilterFirst(s: string)
    requires s != []
    ensures Filter(s, IsKept) == (if IsKept(s[0]) then [s[0]] else []) + Filter(s[1..], IsKept)
  {
    hide IsKept;
  }

  lemma SlugWordIsWord(w: string)
    requires IsSlugWord(w)
    ensures IsWord(w) && Filter(w, IsKept) == w
  {
    FilterKeepsSlug(w);
  }

  /** What becomes of a character between two words, once in lowercase: it stays, parts them, or vanishes. */
  lemma BetweenWords(lower: CaseMap, input: string, a: string, c: char, b: string)
    requires lower(input) == a + [c] + b && IsSlugWord(a) && IsSlugWord(b)
    ensures GenerateSlug(lower, input)
         == if 'a' <= c <= 'z' || 'A' <= c <= 'Z' || '0' <= c <= '9' then a + [c] + b
            else if c == '_' || c == '-' || IsSpace(c) then a + "-" + b
            else a + b
  {
    hide GenerateSlug, Words, IsSpace, Filter;
    SlugJoinsWords(lower, input);
    SlugWordIsWord(a);
    SlugWordIsWord(b);
    FilterAppend(a + [c], b);
    FilterAppend(a, [c]);
    FilterOne(c);
    if c == '_' || c == '-' || IsSpace(c) {
      SpaceIsNoWordChar(c);
      TwoWords(a, c, b);
    } else {
      var w := a + Filter([c], IsKept) + b;
      OneWord(w);
    }
  }

  lemma FilterOne(c: char)
    ensures Filter([c], IsKept) == if IsKept(c) then [c] else []
  {
    hide IsSpace;
    assert [c][1..] == [];
  }

  lemma SpaceIsNoWordChar(c: char)
    requires IsSpace(c)  || c == '_' || c == '-'
    ensures !IsWordChar(c)
  {
  }

  lemma TwoWords(a: string, c: char, b: string)
    requires IsWord(a) && IsWord(b) && IsSeparator(c)
    ensures Join(Words(a + [c] + b)) == a + "-" + b
  {
    hide IsSpace, Words;
    var gaps, words := ["", [c], ""], [a, b];
    OnlyWords(gaps, words);
    assert gaps[1..] == [[c], ""] && words[1..] == [b] && gaps[1..][1..] == [""] && words[1..][1..] == [];
    assert Weave([""], []) == "" && Weave([[c], ""], [b]) == [c] + b + "";
    assert Weave(gaps, words) == "" + a + ([c] + b + "") == a + [c] + b;
    assert Join([b]) == b;
  }

  lemma OneWord(w: string)
    requires IsWord(w)
    ensures Join(Words(w)) == w
  {
    hide IsSpace, Words;
    var gaps, words := ["", ""], [w];
    OnlyWords(gaps, words);
    assert gaps[1..] == [""] && words[1..] == [];
    assert Weave(gaps, words) == "" + w + "" == w;
  }

  // ----- Display numbers -----

  /** generateDisplayNumber. */
  function DisplayNumber(prefix: string, number: nat): string {
    prefix + Decimal.PadZeros(Decimal.Print(number), 3)
  }

  /** After the prefix stand at least three digits, more only when the number needs them, and they read as the number. */
  lemma DisplayNumberReads(prefix: string, number: nat)
    ensures var digits := Decimal.PadZeros(Decimal.Print(number), 3);
      && DisplayNumber(prefix, number) == prefix + digits
      && Decimal.AllDigits(digits) && Decimal.Parse(digits) == number
      && |digits| == if number < 1000 then 3 else |Decimal.Print(number)|
  {
    Decimal.ParsePrint(number);
    Decimal.ParsePadZeros(Decimal.Print(number), 3);
    Decimal.PrintLengthThree(number);
  }

  /** Under one prefix, different tickets never share a display number, beyond three digits too. */
  lemma DisplayNumbersDiffer(prefix: string, m: nat, n: nat)
    requires DisplayNumber(prefix, m) == DisplayNumber(prefix, n)
    ensures m == n
  {
    var a, b := Decimal.PadZeros(Decimal.Print(m), 3), Decimal.PadZeros(Decimal.Print(n), 3);
    assert (prefix + a)[|prefix|..] == a && (prefix + b)[|prefix|..] == b;
    Decimal.ParsePrint(m);
    Decimal.ParsePrint(n);
    Decimal.ParsePadZeros(Decimal.Print(m), 3);
    Decimal.ParsePadZeros(Decimal.Print(n), 3);
  }
}
