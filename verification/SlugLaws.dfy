/**
 Slugs and tags described by the text alone: which characters make the words of a slug, how case, accents
 and the length limit act, and which tags are kept.
 */
module SlugLaws {
  import opened Wrappers
  import opened Slug

  // ---------------------------------------------------------------- words by name

  /** What a character adds to a word; None separates words. */
  function Spelled(c: char): Option<string> {
    if 'a' <= c <= 'z' || '0' <= c <= '9' then Some([c])
    else if 'A' <= c <= 'Z' then Some([(c - 'A') + 'a'])
    else if c == '#' then Some("sharp")
    else if c == '+' then Some("plus")
    else if c == '\U{E7}' || c == '\U{C7}' then Some("c")
    else if c == '\U{11F}' || c == '\U{11E}' then Some("g")
    else if c == '\U{131}' || c == '\U{130}' then Some("i")
    else if c == '\U{F6}' || c == '\U{D6}' then Some("o")
    else if c == '\U{15F}' || c == '\U{15E}' then Some("s")
    else if c == '\U{FC}' || c == '\U{DC}' then Some("u")
    else None
  }

  /** The Turkish letters; every other character outside ASCII separates words or decomposes. */
  predicate IsTurkishLetter(c: char) {
    128 as char <= c && Spelled(c).Some?
  }

  /** The words of a text; `word` is the one being read. */
  function SpelledWords(s: string, word: string): seq<string> {
    if s == [] then (if word == [] then [] else [word])
    else match Spelled(s[0])
      case Some(letters) => SpelledWords(s[1..], word + letters)
      case None => (if word == [] then [] else [word]) + SpelledWords(s[1..], [])
  }

  lemma SpelledChar(c: char)
    requires c < 128 as char || IsTurkishLetter(c)
    ensures Turkish(c) < 128 as char
    ensures Spelled(c) == if IsKept(Lower(Turkish(c))) then Some(Expand(Lower(Turkish(c)))) else None
  {}

  lemma NormalizedStep(fold: AsciiFold, s: string)
    requires s != [] && Turkish(s[0]) < 128 as char
    ensures Normalized(fold, s) == [Lower(Turkish(s[0]))] + Normalized(fold, s[1..])
  {
    var t := MapChars(Turkish, s);
    assert FoldAll(fold, t) == [t[0]] + FoldAll(fold, t[1..]);
    assert FoldAll(fold, t)[1..] == FoldAll(fold, MapChars(Turkish, s[1..]));
  }

  lemma {:induction false} WordsAreSpelled(fold: AsciiFold, s: string, word: string)
    requires forall i :: 0 <= i < |s| ==> s[i] < 128 as char || IsTurkishLetter(s[i])
    ensures Words(Normalized(fold, s), word) == SpelledWords(s, word)
    decreases |s|
  {
    if s == [] {
    } else {
      SpelledChar(s[0]);
      NormalizedStep(fold, s);
      hide Normalized, Turkish, Lower, Spelled, Expand, IsKept;
      assert Normalized(fold, s)[1..] == Normalized(fold, s[1..]);
      match Spelled(s[0])
      case Some(letters) => WordsAreSpelled(fold, s[1..], word + letters);
      case None => WordsAreSpelled(fold, s[1..], []);
    }
  }

  /** The slug of a text of ASCII characters and Turkish letters: its words, in lower case and without Turkish
      marks, with `#` and `+` spelled out, joined by single dashes. */
  lemma SlugIsSpelledWords(fold: AsciiFold, s: string)
    requires forall i :: 0 <= i < |s| ==> s[i] < 128 as char || IsTurkishLetter(s[i])
    ensures FullSlug(fold, s) == Join(SpelledWords(s, []))
  {
    FullSlugIsJoinedWords(fold, s);
    WordsAreSpelled(fold, s, []);
  }

  // ---------------------------------------------------------------- case

  function Capital(c: char): char {
    if 'a' <= c <= 'z' then (c - 'a') + 'A' else c
  }

  /** Small letters a-z in capitals. */
  function Raised(s: string): string {
    if s == [] then [] else [Capital(s[0])] + Raised(s[1..])
  }

  lemma CapitalChar(fold: AsciiFold, c: char)
    ensures Normalized(fold, [Capital(c)]) == Normalized(fold, [c])
  {
    if 'a' <= c <= 'z' {
      assert Lower(Turkish(Capital(c))) == Lower(Turkish(c));
      NormalizedStep(fold, [c]);
      NormalizedStep(fold, [Capital(c)]);
    }
  }

  lemma {:induction false} NormalizedRaised(fold: AsciiFold, s: string)
    ensures Normalized(fold, Raised(s)) == Normalized(fold, s)
    decreases |s|
  {
    hide Normalized, Capital;
    if s == [] {
    } else {
      assert s == [s[0]] + s[1..];
      CapitalChar(fold, s[0]);
      NormalizedRaised(fold, s[1..]);
      NormalizedConcat(fold, [Capital(s[0])], Raised(s[1..]));
      NormalizedConcat(fold, [s[0]], s[1..]);
    }
  }

  /** The case of a-z never matters. */
  lemma CaseIsIgnored(fold: AsciiFold, s: string, maxLength: nat)
    ensures Slugify(fold, Raised(s), maxLength) == Slugify(fold, s, maxLength)
  {
    NormalizedRaised(fold, s);
  }

  // ---------------------------------------------------------------- other characters

  lemma {:induction false} MapConcat(f: char -> char, a: string, b: string)
    ensures MapChars(f, a + b) == MapChars(f, a) + MapChars(f, b)
    decreases |a|
  {
    if a == [] {
      assert a + b == b;
    } else {
      assert (a + b)[1..] == a[1..] + b;
      MapConcat(f, a[1..], b);
    }
  }

  lemma {:induction false} FoldConcat(fold: AsciiFold, a: string, b: string)
    ensures FoldAll(fold, a + b) == FoldAll(fold, a) + FoldAll(fold, b)
    decreases |a|
  {
    if a == [] {
      assert a + b == b;
    } else {
      assert (a + b)[1..] == a[1..] + b;
      FoldConcat(fold, a[1..], b);
    }
  }

  lemma NormalizedConcat(fold: AsciiFold, a: string, b: string)
    ensures Normalized(fold, a + b) == Normalized(fold, a) + Normalized(fold, b)
  {
    MapConcat(Turkish, a, b);
    FoldConcat(fold, MapChars(Turkish, a), MapChars(Turkish, b));
    MapConcat(Lower, FoldAll(fold, MapChars(Turkish, a)), FoldAll(fold, MapChars(Turkish, b)));
  }

  ghost predicate Ascii(s: string) {
    forall i :: 0 <= i < |s| ==> s[i] < 128 as char
  }

  ghost predicate NoAscii(s: string) {
    forall i :: 0 <= i < |s| ==> 128 as char <= s[i]
  }

  lemma {:induction false} AsciiOnlyConcat(a: string, b: string)
    ensures AsciiOnly(a + b) == AsciiOnly(a) + AsciiOnly(b)
    decreases |a|
  {
    if a == [] {
      assert a + b == b;
    } else {
      assert (a + b)[1..] == a[1..] + b;
      AsciiOnlyConcat(a[1..], b);
    }
  }

  lemma {:induction false} AsciiOnlyKeeps(a: string)
    ensures Ascii(a) ==> AsciiOnly(a) == a
    ensures NoAscii(a) ==> AsciiOnly(a) == []
    decreases |a|
  {
    if a == [] {
    } else {
      AsciiOnlyKeeps(a[1..]);
    }
  }

  lemma AsciiPart(s: string, marks: string, t: string)
    requires Ascii(s) && NoAscii(marks) && Ascii(t)
    ensures AsciiOnly(s + marks + t) == s + t
  {
    AsciiOnlyConcat(s + marks, t);
    AsciiOnlyConcat(s, marks);
    AsciiOnlyKeeps(s);
    AsciiOnlyKeeps(marks);
    AsciiOnlyKeeps(t);
    hide AsciiOnly, Ascii, NoAscii;
    assert s + [] == s;
  }

  lemma {:induction false} NormalizedAscii(fold: AsciiFold, s: string)
    requires Ascii(s)
    ensures Normalized(fold, s) == MapChars(Lower, s)
    decreases |s|
  {
    if s == [] {
    } else {
      NormalizedStep(fold, s);
      NormalizedAscii(fold, s[1..]);
    }
  }

  lemma NormalizedOther(fold: AsciiFold, c: char, text: string)
    requires 128 as char <= c && !IsTurkishLetter(c) && Folded(fold, c) == text && Ascii(text)
    ensures Normalized(fold, [c]) == Normalized(fold, text)
  {
    NormalizedAscii(fold, text);
    assert MapChars(Turkish, [c]) == [c] by {
      assert Turkish(c) == c;
    }
    assert FoldAll(fold, [c]) == text;
  }

  /** A slug reads a character that decomposes into ASCII text around other marks as that text. */
  lemma MarksAreDropped(fold: AsciiFold, a: string, c: char, b: string, s: string, marks: string, t: string)
    requires 128 as char <= c && !IsTurkishLetter(c) && c in fold.decompositions
    requires fold.decompositions[c] == s + marks + t && Ascii(s) && NoAscii(marks) && Ascii(t)
    ensures FullSlug(fold, a + [c] + b) == FullSlug(fold, a + (s + t) + b)
  {
    AsciiPart(s, marks, t);
    hide FullSlug, Normalized, AsciiOnly, NoAscii;
    NormalizedOther(fold, c, s + t);
    SameInContext(fold, a, [c], s + t, b);
  }

  /** A slug does not see any other character without a decomposition, not even as a separator. */
  lemma UnknownVanishes(fold: AsciiFold, a: string, c: char, b: string)
    requires 128 as char <= c && !IsTurkishLetter(c) && c !in fold.decompositions
    ensures FullSlug(fold, a + [c] + b) == FullSlug(fold, a + b)
  {
    hide FullSlug, Normalized;
    NormalizedOther(fold, c, []);
    SameInContext(fold, a, [c], [], b);
    assert a + [] + b == a + b;
  }

  lemma SameInContext(fold: AsciiFold, a: string, one: string, two: string, b: string)
    requires Normalized(fold, one) == Normalized(fold, two)
    ensures FullSlug(fold, a + one + b) == FullSlug(fold, a + two + b)
  {
    NormalizedConcat(fold, a + one, b);
    NormalizedConcat(fold, a, one);
    NormalizedConcat(fold, a + two, b);
    NormalizedConcat(fold, a, two);
  }

  // ---------------------------------------------------------------- the limit

  /** A slug within the limit is not cut; a longer one is cut at the limit, without a dash at the cut. */
  lemma SlugIsCut(fold: AsciiFold, s: string, maxLength: nat)
    ensures var full := FullSlug(fold, s);
            Slugify(fold, s, maxLength)
            == if |full| <= maxLength then full
               else if 0 < maxLength && full[maxLength - 1] == '-' then full[..maxLength - 1]
               else full[..maxLength]
  {
    var full := FullSlug(fold, s);
    FullSlugCanonical(fold, s);
    hide FullSlug;
    if |full| <= maxLength {
      StripKeeps(full);
    } else if 0 < maxLength && full[maxLength - 1] == '-' {
      var cut := full[..maxLength];
      assert StripLeft(cut) == cut;
      assert cut[..|cut| - 1] == full[..maxLength - 1];
      assert full[maxLength - 2] != '-';
      assert StripRight(full[..maxLength - 1]) == full[..maxLength - 1];
    } else {
      StripKeeps(full[..maxLength]);
    }
  }

  lemma ShortSlug(fold: AsciiFold, s: string, maxLength: nat)
    requires forall i :: 0 <= i < |s| ==> s[i] < 128 as char || IsTurkishLetter(s[i])
    requires |Join(SpelledWords(s, []))| <= maxLength
    ensures Slugify(fold, s, maxLength) == Join(SpelledWords(s, []))
  {
    hide *;
    SlugIsSpelledWords(fold, s);
    SlugIsCut(fold, s, maxLength);
  }

  // ---------------------------------------------------------------- tags

  /** Tags are the first ten different non-empty slugs: a tag that is missing came after ten others. */
  lemma TagsAreTheFirstTen(fold: AsciiFold, tags: seq<string>, i: nat)
    requires i < |tags|
    ensures var r, slug := NormalizedTags(fold, tags), Slugify(fold, tags[i], 30);
            slug != [] && slug !in r ==>
              && |r| == 10
              && forall k :: 0 <= k < |r| ==> exists j :: 0 <= j < i && Slugify(fold, tags[j], 30) == r[k]
  {
    var slugs := TagSlugs(fold, tags);
    var all, r := FirstOccurrences(slugs), NormalizedTags(fold, tags);
    var slug := slugs[i];
    FirstOccurrencesMembers(slugs, slug);
    if slug != [] && slug !in r {
      var p: nat :| p < |all| && all[p] == slug;
      forall k: nat | k < |r| ensures exists j :: 0 <= j < i && Slugify(fold, tags[j], 30) == r[k] {
        assert k < p;
        FirstOccurrencesOrder(slugs, k, p);
        var j := Position(slugs, r[k]);
        assert slugs[j] == Slugify(fold, tags[j], 30) && j < i by {
          assert slug !in slugs[..Position(slugs, slug)];
          assert Position(slugs, slug) <= i;
        }
      }
    }
  }

  // ---------------------------------------------------------------- three titles

  function SpellAll(s: string): string {
    if s == [] then [] else (match Spelled(s[0]) case Some(t) => t case None => []) + SpellAll(s[1..])
  }

  ghost predicate AllSpelled(w: string) {
    w != [] && forall i :: 0 <= i < |w| ==> Spelled(w[i]).Some?
  }

  lemma {:induction false} ReadThrough(w: string, rest: string, word: string)
    requires forall i :: 0 <= i < |w| ==> Spelled(w[i]).Some?
    ensures SpelledWords(w + rest, word) == SpelledWords(rest, word + SpellAll(w))
    ensures w != [] ==> SpellAll(w) != []
    decreases |w|
  {
    if w == [] {
      assert w + rest == rest && word + SpellAll(w) == word;
    } else {
      var t := Spelled(w[0]).value;
      assert (w + rest)[1..] == w[1..] + rest;
      ReadThrough(w[1..], rest, word + t);
      assert word + t + SpellAll(w[1..]) == word + SpellAll(w);
    }
  }

  /** The first word of a text, and the only one. */
  lemma FirstWord(w: string, separator: char, rest: string)
    requires AllSpelled(w) && Spelled(separator).None?
    ensures SpelledWords(w + [separator] + rest, []) == [SpellAll(w)] + SpelledWords(rest, [])
    ensures SpelledWords(w, []) == [SpellAll(w)]
  {
    hide Spelled;
    ReadThrough(w, [separator] + rest, []);
    ReadThrough(w, [], []);
    assert w + ([separator] + rest) == w + [separator] + rest && w + [] == w;
    assert ([separator] + rest)[1..] == rest;
    assert [] + SpellAll(w) == SpellAll(w);
  }

  /** A word, checked letter by letter. */
  lemma {:induction false} Letters(w: string, t: string)
    requires |w| == |t| && forall i :: 0 <= i < |w| ==> Spelled(w[i]) == Some([t[i]])
    ensures SpellAll(w) == t && (w != [] ==> AllSpelled(w))
    decreases |w|
  {
    if w == [] {
    } else {
      hide Spelled;
      Letters(w[1..], t[1..]);
      assert t == [t[0]] + t[1..];
    }
  }

  lemma Sharp()
    ensures SpellAll("C#") == "csharp" && AllSpelled("C#")
  {}

  lemma PlusPlus()
    ensures SpellAll("C++") == "cplusplus" && AllSpelled("C++")
  {}

  lemma HelloWorld()
    ensures SpelledWords("Hello World", []) == ["hello", "world"]
  {
    hide SpelledWords, SpellAll, AllSpelled;
    Letters("Hello", "hello");
    Letters("World", "world");
    hide Spelled;
    FirstWord("Hello", ' ', "World");
    FirstWord("World", ' ', "");
    assert "Hello" + [' '] + "World" == "Hello World";
  }

  lemma SharpAndPlus()
    ensures SpelledWords("C# ve C++", []) == ["csharp", "ve", "cplusplus"]
  {
    hide SpelledWords, SpellAll, AllSpelled;
    Sharp();
    PlusPlus();
    Letters("ve", "ve");
    hide Spelled;
    FirstWord("C#", ' ', "ve C++");
    FirstWord("ve", ' ', "C++");
    FirstWord("C++", ' ', "");
    assert "C#" + [' '] + "ve C++" == "C# ve C++" && "ve" + [' '] + "C++" == "ve C++";
  }

  const TURKISH_TITLE := "\U{C7}al\U{131}\U{15F}an \U{15E}eyler: \U{11E}\U{FC}zel \U{130}\U{15F}"

  lemma TurkishEnd()
    ensures SpelledWords("\U{11E}\U{FC}zel \U{130}\U{15F}", []) == ["guzel", "is"]
  {
    hide SpelledWords, SpellAll, AllSpelled;
    Letters("\U{11E}\U{FC}zel", "guzel");
    Letters("\U{130}\U{15F}", "is");
    hide Spelled;
    FirstWord("\U{11E}\U{FC}zel", ' ', "\U{130}\U{15F}");
    FirstWord("\U{130}\U{15F}", ' ', "");
    assert "\U{11E}\U{FC}zel" + [' '] + "\U{130}\U{15F}" == "\U{11E}\U{FC}zel \U{130}\U{15F}";
  }

  lemma TurkishWords()
    ensures SpelledWords(TURKISH_TITLE, []) == ["calisan", "seyler", "guzel", "is"]
  {
    hide SpelledWords, SpellAll, AllSpelled;
    var first, second, end := "\U{C7}al\U{131}\U{15F}an", "\U{15E}eyler", "\U{11E}\U{FC}zel \U{130}\U{15F}";
    Letters(first, "calisan");
    Letters(second, "seyler");
    TurkishEnd();
    FirstWord(second, ':', " " + end);
    Separator(' ', end);
    FirstWord(first, ' ', second + [':'] + (" " + end));
    assert first + [' '] + (second + [':'] + (" " + end)) == TURKISH_TITLE;
  }

  lemma Separator(c: char, rest: string)
    requires Spelled(c).None?
    ensures SpelledWords([c] + rest, []) == SpelledWords(rest, [])
  {
    assert ([c] + rest)[1..] == rest;
    var none: seq<string> := [];
    assert none + SpelledWords(rest, []) == SpelledWords(rest, []);
  }

  lemma Joined(a: string, b: string, c: string, d: string)
    ensures Join([a, b]) == a + "-" + b
    ensures Join([a, b, c]) == a + "-" + (b + "-" + c)
    ensures Join([a, b, c, d]) == a + "-" + (b + "-" + (c + "-" + d))
  {
    assert [a, b][1..] == [b] && [a, b, c][1..] == [b, c] && [a, b, c, d][1..] == [b, c, d];
    assert [b, c][1..] == [c] && [b, c, d][1..] == [c, d] && [c, d][1..] == [d];
    assert Join([c, d]) == c + "-" + d && Join([b, c]) == b + "-" + c;
    assert Join([b, c, d]) == b + "-" + Join([c, d]);
  }

  lemma JoinedExamples()
    ensures Join(["hello", "world"]) == "hello-world"
    ensures Join(["csharp", "ve", "cplusplus"]) == "csharp-ve-cplusplus"
    ensures Join(["calisan", "seyler", "guzel", "is"]) == "calisan-seyler-guzel-is"
  {
    hide Join;
    Joined("hello", "world", "", "");
    Joined("csharp", "ve", "cplusplus", "");
    Joined("calisan", "seyler", "guzel", "is");
    assert "hello" + "-" + "world" == "hello-world";
    assert "csharp" + "-" + ("ve" + "-" + "cplusplus") == "csharp-ve-cplusplus";
    assert "calisan" + "-" + ("seyler" + "-" + ("guzel" + "-" + "is")) == "calisan-seyler-guzel-is";
  }

  /** A title in plain letters and the two titles of the repository's unit tests. */
  lemma SlugExamples(fold: AsciiFold)
    ensures Slugify(fold, "Hello World", 180) == "hello-world"
    ensures Slugify(fold, "C# ve C++", 180) == "csharp-ve-cplusplus"
    ensures Slugify(fold, TURKISH_TITLE, 180) == "calisan-seyler-guzel-is"
  {
    hide Slugify, FullSlug, SpelledWords, Join;
    HelloWorld();
    SharpAndPlus();
    TurkishWords();
    JoinedExamples();
    ShortSlug(fold, "Hello World", 180);
    ShortSlug(fold, "C# ve C++", 180);
    ShortSlug(fold, TURKISH_TITLE, 180);
  }
}
