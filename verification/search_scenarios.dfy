/** The matcher of lib/fuzzySearch.js on accented text: with
    `fuzzyDiacritics` both sides are folded before the comparison, so an
    accented letter matches its base letter; without it the comparison is on
    the characters as written. */
module SearchScenarios {
  import opened Text
  import opened Options
  import opened Values
  import opened FuzzySearch

  /** Folding leaves a string alone when it leaves each of its characters
      alone. */
  lemma {:induction false} FoldFixed(s: string)
    requires forall i | 0 <= i < |s| :: FoldChar(s[i]) == [s[i]]
    ensures FoldDiacritics(s) == s
  {
    if s != [] {
      FoldFixed(s[1..]);
      assert [s[0]] + s[1..] == s;
    }
  }

  /** A needle longer than the haystack never occurs in it. */
  lemma {:induction false} ContainsTooShort(hay: string, needle: string)
    requires |hay| < |needle|
    ensures !Contains(hay, needle)
    decreases |hay|
  {
    if |hay| > 0 {
      ContainsTooShort(hay[1..], needle);
    }
  }

  /** Between strings of equal length, containment is equality. */
  lemma ContainsSameLength(hay: string, needle: string)
    requires |hay| == |needle|
    ensures Contains(hay, needle) <==> hay == needle
  {
    if |hay| > 0 {
      ContainsTooShort(hay[1..], needle);
    }
  }

  /** With folding on, a text holding an accented letter matches the search
      string that has the base letter in its place. */
  lemma DiacriticFoldMatches(sm: Settings, u: string, c: char, b: char, w: string)
    requires sm.fuzzyDiacritics
    requires forall i | 0 <= i < |u| :: FoldChar(u[i]) == [u[i]]
    requires forall i | 0 <= i < |w| :: FoldChar(w[i]) == [w[i]]
    requires FoldChar(c) == [b] && FoldChar(b) == [b]
    ensures TextMatches(u + [b] + w, sm, u + [c] + w)
  {
    FoldFixed(u);
    FoldFixed(w);
    assert FoldDiacritics([c]) == FoldChar(c) + FoldDiacritics([]) == [b] by {
      assert [c][1..] == [];
    }
    assert FoldDiacritics([b]) == FoldChar(b) + FoldDiacritics([]) == [b] by {
      assert [b][1..] == [];
    }
    FoldAppend(u, [c]);
    FoldAppend(u + [c], w);
    FoldAppend(u, [b]);
    FoldAppend(u + [b], w);
    var x := u + [b] + w;
    assert Normalize(u + [c] + w, sm) == x && Normalize(x, sm) == x;
    assert Contains(x, x);
    ExactMatchIgnoringCase(x, x);
    TextMatchesIff(x, sm, u + [c] + w);
  }

  /** With folding off, the same text does not match: case folding alone
      never maps a Latin-1 letter to an ASCII one. */
  lemma DiacriticStrictWithoutFolding(sm: Settings, u: string, c: char, b: char, w: string)
    requires !sm.fuzzyDiacritics
    requires '\U{C0}' <= c && 'a' <= b <= 'z'
    ensures !TextMatches(u + [b] + w, sm, u + [c] + w)
  {
    var text := u + [c] + w;
    var search := u + [b] + w;
    TextMatchesIff(search, sm, text);
    ContainsSameLength(Lower(text), Lower(search));
    assert Lower(text)[|u|] != Lower(search)[|u|];
  }

  /** `påvirker` and `pavirker`: a match with `fuzzyDiacritics`, none
      without. */
  lemma DiacriticExample(sm: Settings)
    ensures TextMatches("pavirker", sm.(fuzzyDiacritics := true), "p\U{E5}virker")
    ensures !TextMatches("pavirker", sm.(fuzzyDiacritics := false), "p\U{E5}virker")
  {
    var u, w := "p", "virker";
    assert u + ['a'] + w == "pavirker";
    assert u + ['\U{E5}'] + w == "p\U{E5}virker";
    DiacriticFoldMatches(sm.(fuzzyDiacritics := true), u, '\U{E5}', 'a', w);
    DiacriticStrictWithoutFolding(sm.(fuzzyDiacritics := false), u, '\U{E5}', 'a', w);
  }

  /** The single-title record `{k: t}` under the shallow mode without
      folding: it matches exactly when `t` contains the search string,
      ignoring case. */
  lemma OneTitle(sm: Settings, str: string, k: string, t: string)
    requires sm.fields.None? && !sm.deep && !sm.fuzzyDiacritics
    requires !StartsWithUnderscore(k)
    ensures Evaluate(str, sm, [Prop(k, Str(t))]) <==> ContainsIgnoringCase(t, str)
  {
    ShallowMode(str, sm, [Prop(k, Str(t))]);
  }

  /** A string contains, ignoring case, every string it has as an infix. */
  lemma InfixMatches(a: string, n: string, b: string)
    ensures ContainsIgnoringCase(a + n + b, n)
  {
    assert OccursAt(a + n + b, n, |a|) by {
      assert (a + n + b)[|a|..|a| + |n|] == n;
    }
    OccursAtContains(a + n + b, n, |a|);
    ExactMatchIgnoringCase(a + n + b, n);
  }

  /** `{title: 'hello world'}` matches `world`. */
  lemma HelloWorldMatches(sm: Settings)
    requires sm.fields.None? && !sm.deep && !sm.fuzzyDiacritics
    ensures Evaluate("world", sm, [Prop("title", Str("hello world"))])
  {
    var a, n, b := "hello ", "world", [];
    InfixMatches(a, n, b);
    assert a + n + b == "hello world";
    OneTitle(sm, n, "title", a + n + b);
  }

  /** `{title: 'world around'}` matches `world`. */
  lemma WorldAroundMatches(sm: Settings)
    requires sm.fields.None? && !sm.deep && !sm.fuzzyDiacritics
    ensures Evaluate("world", sm, [Prop("title", Str("world around"))])
  {
    var a, n, b := [], "world", " around";
    InfixMatches(a, n, b);
    assert a + n + b == "world around";
    OneTitle(sm, n, "title", a + n + b);
  }

  /** `{title: 'cats'}` does not match `world`: the search string is longer
      than the title. */
  lemma CatsDoesNotMatch(sm: Settings)
    requires sm.fields.None? && !sm.deep && !sm.fuzzyDiacritics
    ensures !Evaluate("world", sm, [Prop("title", Str("cats"))])
  {
    OneTitle(sm, "world", "title", "cats");
    ContainsTooShort(Lower("cats"), Lower("world"));
  }
}
