/**
 Slugs and tags of post-service. Text is a sequence of code points; the Unicode decomposition is any
 table from characters to text, whose non-ASCII characters are dropped.
 */
module Slug {

  /** The compatibility decompositions of NFKD; characters without an entry decompose to themselves. */
  datatype AsciiFold = AsciiFold(decompositions: map<char, string>)

  // ---------------------------------------------------------------- characters

  predicate IsSlugChar(c: char) {
    'a' <= c <= 'z' || '0' <= c <= '9'
  }

  /** Characters that survive the first substitution. */
  predicate IsKept(c: char) {
    IsSlugChar(c) || c == '#' || c == '+'
  }

  /** The Turkish letters of the translation table. */
  function Turkish(c: char): char {
    if c == '\U{E7}' || c == '\U{C7}' then 'c'
    else if c == '\U{11F}' || c == '\U{11E}' then 'g'
    else if c == '\U{131}' || c == '\U{130}' || c == 'I' then 'i'
    else if c == '\U{F6}' || c == '\U{D6}' then 'o'
    else if c == '\U{15F}' || c == '\U{15E}' then 's'
    else if c == '\U{FC}' || c == '\U{DC}' then 'u'
    else c
  }

  function Lower(c: char): char {
    if 'A' <= c <= 'Z' then (c - 'A') + 'a' else c
  }

  function MapChars(f: char -> char, s: string): string {
    if s == [] then [] else [f(s[0])] + MapChars(f, s[1..])
  }

  function Flatten(f: char -> string, s: string): string {
    if s == [] then [] else f(s[0]) + Flatten(f, s[1..])
  }

  function AsciiOnly(s: string): string {
    if s == [] then [] else (if s[0] < 128 as char then [s[0]] else []) + AsciiOnly(s[1..])
  }

  /** Decomposition, then the ASCII filter; ASCII characters have no decomposition. */
  function Folded(fold: AsciiFold, c: char): string {
    if c < 128 as char then [c]
    else if c in fold.decompositions then AsciiOnly(fold.decompositions[c])
    else []
  }

  function FoldAll(fold: AsciiFold, s: string): string {
    if s == [] then [] else Folded(fold, s[0]) + FoldAll(fold, s[1..])
  }

  /** Lower-case ASCII text of the input. */
  function Normalized(fold: AsciiFold, s: string): string {
    MapChars(Lower, FoldAll(fold, MapChars(Turkish, s)))
  }

  // ---------------------------------------------------------------- the pipeline

  /** Each maximal run of other characters becomes one dash; `inRun` when the run was already written. */
  function DashRuns(s: string, inRun: bool): string {
    if s == [] then []
    else if IsKept(s[0]) then [s[0]] + DashRuns(s[1..], false)
    else (if inRun then [] else "-") + DashRuns(s[1..], true)
  }

  function Expand(c: char): string {
    if c == '#' then "sharp" else if c == '+' then "plus" else [c]
  }

  function CollapseDashes(s: string): string {
    if |s| < 2 then s
    else if s[0] == '-' && s[1] == '-' then CollapseDashes(s[1..])
    else [s[0]] + CollapseDashes(s[1..])
  }

  function StripLeft(s: string): string {
    if s != [] && s[0] == '-' then StripLeft(s[1..]) else s
  }

  function StripRight(s: string): string {
    if s != [] && s[|s| - 1] == '-' then StripRight(s[..|s| - 1]) else s
  }

  function Strip(s: string): string {
    StripRight(StripLeft(s))
  }

  /** The slug before it is cut to length. */
  function FullSlug(fold: AsciiFold, value: string): string {
    Strip(CollapseDashes(Flatten(Expand, DashRuns(Normalized(fold, value), false))))
  }

  function Slugify(fold: AsciiFold, value: string, maxLength: nat): string {
    var s := FullSlug(fold, value);
    Strip(if |s| <= maxLength then s else s[..maxLength])
  }

  // ---------------------------------------------------------------- canonical slugs

  ghost predicate NoDoubleDash(s: string) {
    forall i :: 0 <= i < |s| - 1 && s[i] == '-' ==> s[i + 1] != '-'
  }

  ghost predicate SlugChars(s: string) {
    forall i :: 0 <= i < |s| ==> IsSlugChar(s[i]) || s[i] == '-'
  }

  ghost predicate Dashless(s: string) {
    s != [] ==> s[0] != '-' && s[|s| - 1] != '-'
  }

  /** Only a-z, 0-9 and single inner dashes, within the limit. */
  ghost predicate Canonical(s: string, maxLength: nat) {
    SlugChars(s) && NoDoubleDash(s) && Dashless(s) && |s| <= maxLength
  }

  lemma {:induction false} StripLeftIsSuffix(s: string)
    ensures exists k :: 0 <= k <= |s| && StripLeft(s) == s[k..]
    ensures StripLeft(s) != [] ==> StripLeft(s)[0] != '-'
  {
    if s != [] && s[0] == '-' {
      StripLeftIsSuffix(s[1..]);
      var k :| 0 <= k <= |s[1..]| && StripLeft(s[1..]) == s[1..][k..];
      assert StripLeft(s) == s[k + 1..];
    } else {
      assert s == s[0..];
    }
  }

  lemma {:induction false} StripRightIsPrefix(s: string)
    ensures exists k :: 0 <= k <= |s| && StripRight(s) == s[..k]
    ensures StripRight(s) != [] ==> StripRight(s)[|StripRight(s)| - 1] != '-'
  {
    if s != [] && s[|s| - 1] == '-' {
      StripRightIsPrefix(s[..|s| - 1]);
      var k :| 0 <= k <= |s| - 1 && StripRight(s[..|s| - 1]) == s[..|s| - 1][..k];
      assert StripRight(s) == s[..k];
    } else {
      assert s == s[..|s|];
    }
  }

  lemma StripCanonical(s: string)
    requires SlugChars(s) && NoDoubleDash(s)
    ensures SlugChars(Strip(s)) && NoDoubleDash(Strip(s)) && Dashless(Strip(s)) && |Strip(s)| <= |s|
  {
    StripLeftIsSuffix(s);
    var k :| 0 <= k <= |s| && StripLeft(s) == s[k..];
    StripRightIsPrefix(s[k..]);
    var m :| 0 <= m <= |s[k..]| && Strip(s) == s[k..][..m];
  }

  lemma StripKeeps(s: string)
    requires Dashless(s)
    ensures Strip(s) == s
  {}

  lemma {:induction false} CollapseNoDouble(s: string)
    ensures NoDoubleDash(CollapseDashes(s))
    ensures s != [] ==> CollapseDashes(s) != [] && CollapseDashes(s)[0] == s[0]
    ensures SlugChars(s) ==> SlugChars(CollapseDashes(s))
    ensures NoDoubleDash(s) ==> CollapseDashes(s) == s
    decreases |s|
  {
    if |s| < 2 {
    } else {
      CollapseNoDouble(s[1..]);
    }
  }

  lemma {:induction false} DashRunsChars(s: string, inRun: bool)
    ensures forall i :: 0 <= i < |DashRuns(s, inRun)| ==> IsKept(DashRuns(s, inRun)[i]) || DashRuns(s, inRun)[i] == '-'
    decreases |s|
  {
    if s == [] {
    } else {
      DashRunsChars(s[1..], !IsKept(s[0]));
    }
  }

  lemma {:induction false} ExpandChars(s: string)
    requires forall i :: 0 <= i < |s| ==> IsKept(s[i]) || s[i] == '-'
    ensures SlugChars(Flatten(Expand, s))
    decreases |s|
  {
    if s == [] {
    } else {
      ExpandChars(s[1..]);
    }
  }

  lemma FullSlugCanonical(fold: AsciiFold, value: string)
    ensures Canonical(FullSlug(fold, value), |FullSlug(fold, value)|)
  {
    var runs := DashRuns(Normalized(fold, value), false);
    DashRunsChars(Normalized(fold, value), false);
    ExpandChars(runs);
    CollapseNoDouble(Flatten(Expand, runs));
    StripCanonical(CollapseDashes(Flatten(Expand, runs)));
  }

  /** Every output is canonical, also after the cut. */
  lemma SlugifyCanonical(fold: AsciiFold, value: string, maxLength: nat)
    ensures Canonical(Slugify(fold, value, maxLength), maxLength)
  {
    FullSlugCanonical(fold, value);
    var s := FullSlug(fold, value);
    StripCanonical(if |s| <= maxLength then s else s[..maxLength]);
  }

  lemma {:induction false} MapKeeps(f: char -> char, s: string)
    requires forall i :: 0 <= i < |s| ==> f(s[i]) == s[i]
    ensures MapChars(f, s) == s
    decreases |s|
  {
    if s == [] {
    } else {
      MapKeeps(f, s[1..]);
    }
  }

  lemma {:induction false} FoldKeepsAscii(fold: AsciiFold, s: string)
    requires forall i :: 0 <= i < |s| ==> s[i] < 128 as char
    ensures FoldAll(fold, s) == s
    decreases |s|
  {
    if s == [] {
    } else {
      FoldKeepsAscii(fold, s[1..]);
    }
  }

  lemma NormalizedSlug(fold: AsciiFold, s: string)
    requires SlugChars(s)
    ensures Normalized(fold, s) == s
  {
    MapKeeps(Turkish, s);
    FoldKeepsAscii(fold, s);
    MapKeeps(Lower, s);
  }

  lemma {:induction false} DashRunsSlug(s: string, inRun: bool)
    requires SlugChars(s) && NoDoubleDash(s) && (inRun && s != [] ==> s[0] != '-')
    ensures DashRuns(s, inRun) == s && Flatten(Expand, s) == s
    decreases |s|
  {
    if s == [] {
    } else {
      assert IsSlugChar(s[0]) || s[0] == '-';
      assert SlugChars(s[1..]) && NoDoubleDash(s[1..]) by {
        assert forall i :: 0 <= i < |s[1..]| ==> s[1..][i] == s[i + 1];
      }
      DashRunsSlug(s[1..], s[0] == '-');
    }
  }

  /** The fixed points of `slugify` are exactly the canonical slugs. */
  lemma SlugifyFixedIffCanonical(fold: AsciiFold, s: string, maxLength: nat)
    ensures Slugify(fold, s, maxLength) == s <==> Canonical(s, maxLength)
  {
    if Canonical(s, maxLength) {
      NormalizedSlug(fold, s);
      DashRunsSlug(s, false);
      CollapseNoDouble(s);
      StripKeeps(s);
    } else {
      SlugifyCanonical(fold, s, maxLength);
    }
  }

  /** Idempotent, with any two limits in non-decreasing order. */
  lemma SlugifyIdempotent(fold: AsciiFold, value: string, maxLength: nat, again: nat)
    requires maxLength <= again
    ensures Slugify(fold, Slugify(fold, value, maxLength), again) == Slugify(fold, value, maxLength)
  {
    SlugifyCanonical(fold, value, maxLength);
    SlugifyFixedIffCanonical(fold, Slugify(fold, value, maxLength), again);
  }

  // ---------------------------------------------------------------- slug as joined words

  /** The maximal runs of kept characters, expanded; `word` is the run being read. */
  function Words(s: string, word: string): seq<string> {
    if s == [] then (if word == [] then [] else [word])
    else if IsKept(s[0]) then Words(s[1..], word + Expand(s[0]))
    else (if word == [] then [] else [word]) + Words(s[1..], [])
  }

  function Join(words: seq<string>): string {
    if words == [] then []
    else if |words| == 1 then words[0]
    else words[0] + "-" + Join(words[1..])
  }

  function Dashed(s: string, inRun: bool): string {
    Flatten(Expand, DashRuns(s, inRun))
  }

  lemma DashedUnfold(s: string, inRun: bool)
    requires s != []
    ensures IsKept(s[0]) ==> Dashed(s, inRun) == Expand(s[0]) + Dashed(s[1..], false)
    ensures !IsKept(s[0]) ==> Dashed(s, inRun) == (if inRun then [] else "-") + Dashed(s[1..], true)
  {
    if IsKept(s[0]) {
      assert DashRuns(s, inRun)[1..] == DashRuns(s[1..], false);
    } else if inRun {
      assert DashRuns(s, inRun) == DashRuns(s[1..], true);
      assert Dashed(s, inRun) == Dashed(s[1..], true);
    } else {
      assert DashRuns(s, inRun)[1..] == DashRuns(s[1..], true);
    }
  }

  lemma {:induction false} DashedSingle(s: string, inRun: bool)
    ensures NoDoubleDash(Dashed(s, inRun))
    ensures inRun && Dashed(s, inRun) != [] ==> Dashed(s, inRun)[0] != '-'
    decreases |s|
  {
    if s == [] {
    } else {
      DashedUnfold(s, inRun);
      DashedSingle(s[1..], !IsKept(s[0]));
      assert IsKept(s[0]) ==> forall i :: 0 <= i < |Expand(s[0])| ==> Expand(s[0])[i] != '-';
    }
  }

  lemma {:induction false} StripRightConcat(a: string, b: string)
    requires StripRight(b) != []
    ensures StripRight(a + b) == a + StripRight(b)
    decreases |b|
  {
    assert (a + b)[|a + b| - 1] == b[|b| - 1];
    if b[|b| - 1] == '-' {
      assert (a + b)[..|a + b| - 1] == a + b[..|b| - 1];
      StripRightConcat(a, b[..|b| - 1]);
    }
  }

  lemma {:induction false} WordsNonempty(s: string, word: string)
    ensures forall i :: 0 <= i < |Words(s, word)| ==> Words(s, word)[i] != []
    ensures word != [] ==> Words(s, word) != []
    decreases |s|
  {
    if s == [] {
    } else {
      if IsKept(s[0]) {
        WordsNonempty(s[1..], word + Expand(s[0]));
      } else {
        WordsNonempty(s[1..], []);
      }
    }
  }

  /** A text whose first character is no dash strips to nothing only when it is empty. */
  lemma {:induction false} StripRightEmpty(s: string)
    requires s != [] && s[0] != '-'
    ensures StripRight(s) != []
    decreases |s|
  {
    if s[|s| - 1] == '-' {
      StripRightEmpty(s[..|s| - 1]);
    }
  }

  lemma StripRightDash(word: string, rest: string)
    requires word != [] && word[|word| - 1] != '-' && (rest != [] ==> rest[0] != '-')
    ensures rest == [] ==> StripRight(word + "-" + rest) == word
    ensures rest != [] ==> StripRight(rest) != [] && StripRight(word + "-" + rest) == word + "-" + StripRight(rest)
  {
    if rest == [] {
      var s := word + "-" + rest;
      assert s[..|s| - 1] == word;
    } else {
      StripRightEmpty(rest);
      StripRightConcat(word + "-", rest);
    }
  }

  lemma {:induction false} StrippedIsJoined(s: string, word: string)
    requires word != [] && word[|word| - 1] != '-'
    ensures StripRight(word + Dashed(s, false)) == Join(Words(s, word))
    decreases |s|, 1
  {
    if s == [] {
      assert word + Dashed(s, false) == word;
    } else {
      DashedUnfold(s, false);
      if IsKept(s[0]) {
        assert word + Dashed(s, false) == (word + Expand(s[0])) + Dashed(s[1..], false);
        StrippedIsJoined(s[1..], word + Expand(s[0]));
      } else {
        var rest := Dashed(s[1..], true);
        var words := Words(s[1..], []);
        assert word + Dashed(s, false) == word + "-" + rest;
        RunIsJoined(s[1..]);
        DashedSingle(s[1..], true);
        StripRightDash(word, rest);
        WordsNonempty(s[1..], []);
        assert Words(s, word) == [word] + words;
        assert ([word] + words)[1..] == words;
      }
    }
  }

  lemma SkippedChar(s: string)
    requires s != [] && !IsKept(s[0])
    ensures Words(s, []) == Words(s[1..], [])
  {
    var none: seq<string> := [];
    assert none + Words(s[1..], []) == Words(s[1..], []);
  }

  lemma {:induction false} RunIsJoined(s: string)
    ensures StripRight(Dashed(s, true)) == Join(Words(s, []))
    decreases |s|, 0
  {
    if s == [] {
    } else {
      DashedUnfold(s, true);
      if IsKept(s[0]) {
        assert [] + Expand(s[0]) == Expand(s[0]);
        StrippedIsJoined(s[1..], Expand(s[0]));
      } else {
        assert [] + Dashed(s[1..], true) == Dashed(s[1..], true);
        RunIsJoined(s[1..]);
        SkippedChar(s);
      }
    }
  }

  lemma StrippedDashed(s: string)
    ensures Strip(Dashed(s, false)) == Join(Words(s, []))
  {
    if s != [] {
      DashedUnfold(s, false);
      if IsKept(s[0]) {
        assert [] + Expand(s[0]) == Expand(s[0]);
        StrippedIsJoined(s[1..], Expand(s[0]));
      } else {
        var rest := Dashed(s[1..], true);
        DashedSingle(s[1..], true);
        assert ("-" + rest)[1..] == rest;
        assert StripLeft(rest) == rest;
        RunIsJoined(s[1..]);
        SkippedChar(s);
      }
    }
  }

  /** The uncut slug is the input's words, expanded and joined by single dashes. */
  lemma FullSlugIsJoinedWords(fold: AsciiFold, value: string)
    ensures FullSlug(fold, value) == Join(Words(Normalized(fold, value), []))
  {
    var s := Normalized(fold, value);
    DashedSingle(s, false);
    CollapseNoDouble(Dashed(s, false));
    StrippedDashed(s);
  }

  lemma {:induction false} WordsEmptyIff(s: string, word: string)
    ensures Words(s, word) == [] <==> word == [] && forall i :: 0 <= i < |s| ==> !IsKept(s[i])
    decreases |s|
  {
    if s == [] {
    } else {
      if IsKept(s[0]) {
        WordsEmptyIff(s[1..], word + Expand(s[0]));
      } else {
        WordsEmptyIff(s[1..], []);
        assert forall i :: 1 <= i < |s| ==> s[i] == s[1..][i - 1];
      }
    }
  }

  /** A slug comes out empty exactly when the text holds no letter, digit, `#` or `+` after folding. */
  lemma SlugifyEmptyIff(fold: AsciiFold, value: string, maxLength: nat)
    requires 0 < maxLength
    ensures Slugify(fold, value, maxLength) == []
            <==> forall i :: 0 <= i < |Normalized(fold, value)| ==> !IsKept(Normalized(fold, value)[i])
  {
    var s := FullSlug(fold, value);
    var words := Words(Normalized(fold, value), []);
    FullSlugIsJoinedWords(fold, value);
    WordsEmptyIff(Normalized(fold, value), []);
    WordsNonempty(Normalized(fold, value), []);
    FullSlugCanonical(fold, value);
    hide FullSlug, Normalized, Words, NoDoubleDash, SlugChars;
    assert s == [] <==> words == [] by {
      assert words != [] ==> |Join(words)| >= |words[0]|;
    }
    if s != [] {
      StripRightEmpty(if |s| <= maxLength then s else s[..maxLength]);
    }
  }

  // ---------------------------------------------------------------- tags

  const MAX_TAGS := 10
  const MAX_TAG_LENGTH := 30

  function TagSlugs(fold: AsciiFold, tags: seq<string>): seq<string> {
    seq(|tags|, i requires 0 <= i < |tags| => Slugify(fold, tags[i], MAX_TAG_LENGTH))
  }

  /** The non-empty texts at their first position. */
  function FirstOccurrences(slugs: seq<string>): seq<string> {
    if slugs == [] then []
    else
      var front, last := slugs[..|slugs| - 1], slugs[|slugs| - 1];
      FirstOccurrences(front) + (if last != [] && last !in front then [last] else [])
  }

  function NormalizedTags(fold: AsciiFold, tags: seq<string>): seq<string> {
    var all := FirstOccurrences(TagSlugs(fold, tags));
    if |all| <= MAX_TAGS then all else all[..MAX_TAGS]
  }

  ghost predicate Distinct(s: seq<string>) {
    forall i, j :: 0 <= i < j < |s| ==> s[i] != s[j]
  }

  lemma {:induction false} FirstOccurrencesMembers(slugs: seq<string>, t: string)
    ensures t in FirstOccurrences(slugs) <==> t in slugs && t != []
    ensures Distinct(FirstOccurrences(slugs))
    decreases |slugs|
  {
    if slugs == [] {
    } else {
      var front, last := slugs[..|slugs| - 1], slugs[|slugs| - 1];
      FirstOccurrencesMembers(front, t);
      FirstOccurrencesMembers(front, last);
      assert slugs == front + [last];
    }
  }

  lemma {:induction false} FirstOccurrencesFixed(slugs: seq<string>)
    requires Distinct(slugs) && [] !in slugs
    ensures FirstOccurrences(slugs) == slugs
    decreases |slugs|
  {
    if slugs == [] {
    } else {
      var front, last := slugs[..|slugs| - 1], slugs[|slugs| - 1];
      assert slugs == front + [last];
      FirstOccurrencesFixed(front);
      assert last in slugs;
    }
  }

  /** Position of the first occurrence. */
  function Position(s: seq<string>, t: string): nat
    requires t in s
    ensures Position(s, t) < |s| && s[Position(s, t)] == t && t !in s[..Position(s, t)]
  {
    if s[0] == t then 0 else
      assert s == [s[0]] + s[1..];
      var p := Position(s[1..], t);
      assert s[..p + 1] == [s[0]] + s[1..][..p];
      p + 1
  }

  lemma {:induction false} FirstOccurrencesOrder(slugs: seq<string>, i: nat, j: nat)
    requires i < j < |FirstOccurrences(slugs)|
    ensures FirstOccurrences(slugs)[i] in slugs && FirstOccurrences(slugs)[j] in slugs
    ensures Position(slugs, FirstOccurrences(slugs)[i]) < Position(slugs, FirstOccurrences(slugs)[j])
    decreases |slugs|
  {
    var r := FirstOccurrences(slugs);
    var front, last := slugs[..|slugs| - 1], slugs[|slugs| - 1];
    assert slugs == front + [last];
    FirstOccurrencesMembers(slugs, r[i]);
    FirstOccurrencesMembers(slugs, r[j]);
    var before := FirstOccurrences(front);
    FirstOccurrencesMembers(front, r[i]);
    PositionInFront(front, last, r[i]);
    if j < |before| {
      FirstOccurrencesMembers(front, r[j]);
      PositionInFront(front, last, r[j]);
      FirstOccurrencesOrder(front, i, j);
    }
  }

  lemma PositionInFront(front: seq<string>, last: string, t: string)
    requires t in front
    ensures Position(front + [last], t) == Position(front, t)
  {
    var p, q := Position(front, t), Position(front + [last], t);
    var all := front + [last];
    assert forall k :: 0 <= k < p ==> front[k] in front[..p];
    assert forall k :: 0 <= k < q ==> all[k] in all[..q];
    assert all[p] == t && (q < |front| ==> all[q] == front[q]);
  }

  /** At most ten distinct, non-empty, canonical tags, each the slug of an input tag; nothing is dropped
      below ten. */
  lemma NormalizedTagsProperties(fold: AsciiFold, tags: seq<string>)
    ensures var r := NormalizedTags(fold, tags);
            && |r| <= MAX_TAGS && Distinct(r)
            && (forall i :: 0 <= i < |r| ==>
                  r[i] != [] && Canonical(r[i], MAX_TAG_LENGTH) && r[i] in TagSlugs(fold, tags))
    ensures var r := NormalizedTags(fold, tags);
            |r| < MAX_TAGS ==> forall t :: t in TagSlugs(fold, tags) ==> t == [] || t in r
  {
    TagMembers(fold, tags);
    var all := FirstOccurrences(TagSlugs(fold, tags));
    assert forall i :: 0 <= i < |all| ==> all[i] in all;
  }

  lemma TagMember(fold: AsciiFold, tags: seq<string>, t: string)
    ensures t in FirstOccurrences(TagSlugs(fold, tags)) ==> t != [] && Canonical(t, MAX_TAG_LENGTH)
  {
    var slugs := TagSlugs(fold, tags);
    FirstOccurrencesMembers(slugs, t);
    if t in slugs {
      var k :| 0 <= k < |tags| && slugs[k] == t;
      SlugifyCanonical(fold, tags[k], MAX_TAG_LENGTH);
    }
  }

  lemma TagMembers(fold: AsciiFold, tags: seq<string>)
    ensures Distinct(FirstOccurrences(TagSlugs(fold, tags)))
    ensures forall t :: t in FirstOccurrences(TagSlugs(fold, tags)) ==> t != [] && Canonical(t, MAX_TAG_LENGTH)
    ensures forall t :: t in TagSlugs(fold, tags) ==> t == [] || t in FirstOccurrences(TagSlugs(fold, tags))
    ensures forall t :: t in FirstOccurrences(TagSlugs(fold, tags)) ==> t in TagSlugs(fold, tags)
  {
    FirstOccurrencesMembers(TagSlugs(fold, tags), []);
    forall t | t in FirstOccurrences(TagSlugs(fold, tags)) ensures t in TagSlugs(fold, tags) {
      FirstOccurrencesMembers(TagSlugs(fold, tags), t);
    }
    forall t ensures t in FirstOccurrences(TagSlugs(fold, tags)) ==> t != [] && Canonical(t, MAX_TAG_LENGTH) {
      TagMember(fold, tags, t);
    }
    forall t | t in TagSlugs(fold, tags) ensures t == [] || t in FirstOccurrences(TagSlugs(fold, tags)) {
      FirstOccurrencesMembers(TagSlugs(fold, tags), t);
    }
  }

  /** Normalising tags that are already normalised changes nothing. */
  lemma NormalizedTagsIdempotent(fold: AsciiFold, tags: seq<string>)
    ensures NormalizedTags(fold, NormalizedTags(fold, tags)) == NormalizedTags(fold, tags)
  {
    NormalizedTagsProperties(fold, tags);
    var r := NormalizedTags(fold, tags);
    forall i | 0 <= i < |r| ensures TagSlugs(fold, r)[i] == r[i] {
      SlugifyFixedIffCanonical(fold, r[i], MAX_TAG_LENGTH);
    }
    assert TagSlugs(fold, r) == r;
    FirstOccurrencesFixed(r);
  }

  lemma FirstOccurrencesStep(slugs: seq<string>, i: nat)
    requires i < |slugs|
    ensures var seen := FirstOccurrences(slugs[..i]);
            FirstOccurrences(slugs[..i + 1]) == seen + (if slugs[i] != [] && slugs[i] !in seen then [slugs[i]] else [])
  {
    assert slugs[..i + 1][..i] == slugs[..i];
    FirstOccurrencesMembers(slugs[..i], slugs[i]);
  }

  /** The loop over the tags. */
  method NormalizeTags(fold: AsciiFold, tags: seq<string>) returns (r: seq<string>)
    ensures r == NormalizedTags(fold, tags)
  {
    var seen: seq<string> := [];
    var slugs := TagSlugs(fold, tags);
    for i := 0 to |tags|
      invariant seen == FirstOccurrences(slugs[..i])
    {
      hide *;
      var norm := Slugify(fold, tags[i], MAX_TAG_LENGTH);
      FirstOccurrencesStep(slugs, i);
      if norm != [] && norm !in seen {
        seen := seen + [norm];
      }
    }
    assert slugs[..|tags|] == slugs;
    r := if |seen| <= MAX_TAGS then seen else seen[..MAX_TAGS];
  }
}
