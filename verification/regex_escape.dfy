/** Escaping user input into a regular expression (`escape-string-regexp`)
    and the meaning of the patterns this produces. The regular expression
    engine itself is not modelled: only patterns that denote a plain literal
    get a meaning here, and those are exactly the escaped ones. */
module RegexEscape {
  import opened Wrappers
  import opened Text

  /** The characters `escape-string-regexp` prefixes with a backslash. */
  predicate IsMeta(c: char) {
    c in "|\\{}()[]^$+*?."
  }

  function EscapeChar(c: char): string {
    if IsMeta(c) then ['\\', c] else [c]
  }

  /** `escapeStringRegexp(s)`: a backslash before every metacharacter. It
      never shortens its input and leaves a string without metacharacters
      as it is; `UnescapeEscape` shows it is undone exactly by reading the
      result as a literal. */
  function Escape(s: string): (r: string)
    ensures |r| >= |s|
    ensures (forall i | 0 <= i < |s| :: !IsMeta(s[i])) ==> r == s
  {
    if s == [] then [] else EscapeChar(s[0]) + Escape(s[1..])
  }

  /** The literal string a pattern matches when the pattern consists only of
      ordinary characters and backslash-escaped metacharacters; `None` for
      any pattern with regular expression syntax in it. */
  function Unescape(p: string): Option<string>
    decreases |p|
  {
    if p == [] then Some([])
    else if p[0] == '\\' then
      if |p| >= 2 && IsMeta(p[1]) then
        var rest :- Unescape(p[2..]);
        Some([p[1]] + rest)
      else None
    else if IsMeta(p[0]) then None
    else
      var rest :- Unescape(p[1..]);
      Some([p[0]] + rest)
  }

  /** An escaped string denotes exactly the string itself: every
      metacharacter of the input is neutralised. */
  lemma {:induction false} UnescapeEscape(s: string)
    ensures Unescape(Escape(s)) == Some(s)
  {
    if s != [] {
      UnescapeEscape(s[1..]);
      var p := Escape(s);
      var rest := Escape(s[1..]);
      if IsMeta(s[0]) {
        assert p == ['\\', s[0]] + rest;
        assert p[2..] == rest;
      } else {
        assert p == [s[0]] + rest;
        assert p[1..] == rest;
      }
      assert [s[0]] + s[1..] == s;
    }
  }

  /** A pattern that denotes a literal is the escaping of that literal: the
      escaped form is the only literal spelling of a string. */
  lemma {:induction false} EscapeUnescape(p: string, s: string)
    requires Unescape(p) == Some(s)
    ensures Escape(s) == p
    decreases |p|
  {
    if p != [] {
      if p[0] == '\\' {
        var rest := Unescape(p[2..]).value;
        assert s == [p[1]] + rest;
        EscapeUnescape(p[2..], rest);
        assert s[1..] == rest;
        assert p == ['\\', p[1]] + p[2..];
      } else {
        var rest := Unescape(p[1..]).value;
        assert s == [p[0]] + rest;
        EscapeUnescape(p[1..], rest);
        assert s[1..] == rest;
        assert p == [p[0]] + p[1..];
      }
    }
  }

  /** `text.match(new RegExp(source, ignoreCase ? 'i' : ''))` succeeds, for
      a source that denotes a literal; `None` where the regular expression
      engine would be needed. */
  function LiteralTest(source: string, ignoreCase: bool, text: string): Option<bool> {
    match Unescape(source)
    case Some(lit) => Some(if ignoreCase then ContainsIgnoringCase(text, lit) else Contains(text, lit))
    case None => None
  }

  /** A pattern built by escaping matches exactly the literal occurrences of
      the escaped string. */
  lemma EscapedPatternIsLiteral(s: string, ignoreCase: bool, text: string)
    ensures LiteralTest(Escape(s), ignoreCase, text)
         == Some(if ignoreCase then ContainsIgnoringCase(text, s) else Contains(text, s))
  {
    UnescapeEscape(s);
  }
}
