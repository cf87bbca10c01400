/**
 Escaping of untrusted text in rendered pages: three replacements in order, then a pass of
 backslashes.  The passes fuse into one map on characters, which can be undone.
 */
module Escaping {
  /** Puts `f(c)` for every character. */
  function Map(f: char -> string, s: string): string {
    if s == "" then "" else f(s[0]) + Map(f, s[1..])
  }

  function Amp(c: char): string {
    if c == '&' then "&amp;" else [c]
  }

  function Less(c: char): string {
    if c == '<' then "&lt;" else [c]
  }

  function Greater(c: char): string {
    if c == '>' then "&gt;" else [c]
  }

  /** The characters significant in markup. */
  predicate Unsafe(c: char) {
    || c == '\\' || c == '`' || c == '*' || c == '_' || c == '{' || c == '}' || c == '[' || c == ']' || c == '('
    || c == ')' || c == '#' || c == '+' || c == '-' || c == '!' || c == '<' || c == '>' || c == '|'
  }

  function Backslash(c: char): string {
    if Unsafe(c) then ['\\', c] else [c]
  }

  /** The four passes. */
  function Sanitize(s: string): string {
    Map(Backslash, Map(Greater, Map(Less, Map(Amp, s))))
  }

  /** What becomes of one character. */
  function Escaped(c: char): string {
    if c == '&' then "&amp;"
    else if c == '<' then "&lt;"
    else if c == '>' then "&gt;"
    else if Unsafe(c) then ['\\', c]
    else [c]
  }

  lemma {:induction false} MapConcat(f: char -> string, s: string, t: string)
    ensures Map(f, s + t) == Map(f, s) + Map(f, t)
  {
    if s == "" {
      assert s + t == t;
    } else {
      assert (s + t)[0] == s[0] && (s + t)[1..] == s[1..] + t;
      MapConcat(f, s[1..], t);
      assert f(s[0]) + (Map(f, s[1..]) + Map(f, t)) == (f(s[0]) + Map(f, s[1..])) + Map(f, t);
    }
  }

  /** Two passes are one, if they are one on every character. */
  lemma {:induction false} Fuse(f: char -> string, g: char -> string, h: char -> string, s: string)
    requires forall c :: Map(g, f(c)) == h(c)
    ensures Map(g, Map(f, s)) == Map(h, s)
  {
    if s != "" {
      MapConcat(g, f(s[0]), Map(f, s[1..]));
      Fuse(f, g, h, s[1..]);
    }
  }

  function AmpLess(c: char): string {
    if c == '&' then "&amp;" else if c == '<' then "&lt;" else [c]
  }

  function Entities(c: char): string {
    if c == '&' then "&amp;" else if c == '<' then "&lt;" else if c == '>' then "&gt;" else [c]
  }

  lemma MapOne(f: char -> string, c: char)
    ensures Map(f, [c]) == f(c)
  {
    assert [c][1..] == "";
    assert f(c) + "" == f(c);
  }

  /** A pass leaves a text alone whose characters it leaves alone. */
  lemma {:induction false} Untouched(f: char -> string, s: string)
    requires forall c :: c in s ==> f(c) == [c]
    ensures Map(f, s) == s
  {
    if s != "" {
      Untouched(f, s[1..]);
      assert [s[0]] + s[1..] == s;
    }
  }

  lemma FuseEach(c: char)
    ensures Map(Less, Amp(c)) == AmpLess(c)
    ensures Map(Greater, AmpLess(c)) == Entities(c)
    ensures Map(Backslash, Entities(c)) == Escaped(c)
  {
    hide Map;
    if c == '&' {
      Untouched(Less, Amp(c));
    } else {
      MapOne(Less, c);
    }
    if c == '&' || c == '<' {
      Untouched(Greater, AmpLess(c));
    } else {
      MapOne(Greater, c);
    }
    if c == '&' || c == '<' || c == '>' {
      Untouched(Backslash, Entities(c));
    } else {
      MapOne(Backslash, c);
    }
  }

  /** The four passes are one map. */
  lemma SanitizeIsOnePass(s: string)
    ensures Sanitize(s) == Map(Escaped, s)
  {
    forall c
      ensures Map(Less, Amp(c)) == AmpLess(c)
      ensures Map(Greater, AmpLess(c)) == Entities(c)
      ensures Map(Backslash, Entities(c)) == Escaped(c)
    {
      FuseEach(c);
    }
    Fuse(Amp, Less, AmpLess, s);
    Fuse(AmpLess, Greater, Entities, s);
    Fuse(Entities, Backslash, Escaped, s);
  }

  /** Escaping a text is escaping its parts. */
  lemma SanitizeConcat(s: string, t: string)
    ensures Sanitize(s + t) == Sanitize(s) + Sanitize(t)
  {
    SanitizeIsOnePass(s);
    SanitizeIsOnePass(t);
    SanitizeIsOnePass(s + t);
    MapConcat(Escaped, s, t);
  }

  // -------------------------------------------------- the order of the passes

  /** The four passes with the ampersand replaced after the brackets. */
  function LateAmp(s: string): string {
    Map(Backslash, Map(Amp, Map(Greater, Map(Less, s))))
  }

  function LessGreater(c: char): string {
    if c == '<' then "&lt;" else if c == '>' then "&gt;" else [c]
  }

  /** What becomes of one character then: the entity of a bracket is escaped once more. */
  function EscapedTwice(c: char): string {
    if c == '&' then "&amp;"
    else if c == '<' then "&amp;lt;"
    else if c == '>' then "&amp;gt;"
    else if Unsafe(c) then ['\\', c]
    else [c]
  }

  lemma AmpOfEntity(rest: string)
    requires '&' !in rest
    ensures Map(Amp, "&" + rest) == "&amp;" + rest
  {
    MapConcat(Amp, "&", rest);
    hide Map;
    MapOne(Amp, '&');
    Untouched(Amp, rest);
  }

  function LateEntities(c: char): string {
    if c == '<' then "&amp;lt;" else if c == '>' then "&amp;gt;" else Amp(c)
  }

  lemma AmpAfterBrackets(c: char)
    ensures Map(Amp, LessGreater(c)) == LateEntities(c)
  {
    hide Map;
    if c == '<' || c == '>' {
      AmpOfEntity(if c == '<' then "lt;" else "gt;");
      assert "&" + "lt;" == "&lt;" && "&" + "gt;" == "&gt;";
      assert "&amp;" + "lt;" == "&amp;lt;" && "&amp;" + "gt;" == "&amp;gt;";
    } else {
      MapOne(Amp, c);
    }
  }

  lemma FuseLate(c: char)
    ensures Map(Greater, Less(c)) == LessGreater(c)
    ensures Map(Amp, LessGreater(c)) == LateEntities(c)
    ensures Map(Backslash, LateEntities(c)) == EscapedTwice(c)
  {
    hide Map;
    if c == '<' {
      Untouched(Greater, Less(c));
    } else {
      MapOne(Greater, c);
    }
    AmpAfterBrackets(c);
    if c == '&' || c == '<' || c == '>' {
      Untouched(Backslash, LateEntities(c));
    } else {
      MapOne(Backslash, c);
    }
  }

  lemma LateIsOnePass(s: string)
    ensures LateAmp(s) == Map(EscapedTwice, s)
  {
    forall c
      ensures Map(Greater, Less(c)) == LessGreater(c)
      ensures Map(Amp, LessGreater(c)) == LateEntities(c)
      ensures Map(Backslash, LateEntities(c)) == EscapedTwice(c)
    {
      FuseLate(c);
    }
    Fuse(Less, Greater, LessGreater, s);
    Fuse(LessGreater, Amp, LateEntities, s);
    Fuse(LateEntities, Backslash, EscapedTwice, s);
  }

  /** The second escape of a bracket makes the text longer, and nothing makes it shorter. */
  lemma {:induction false} EscapedTwiceIsLonger(s: string)
    ensures |Map(EscapedTwice, s)| >= |Map(Escaped, s)|
    ensures '<' in s || '>' in s <==> |Map(EscapedTwice, s)| > |Map(Escaped, s)|
    ensures '<' !in s && '>' !in s ==> Map(EscapedTwice, s) == Map(Escaped, s)
  {
    if s != "" {
      EscapedTwiceIsLonger(s[1..]);
      assert s == [s[0]] + s[1..];
    }
  }

  /** The ampersand must come first: replaced last it would spoil exactly the texts that hold
      an angle bracket. */
  lemma AmpersandMustComeFirst(s: string)
    ensures LateAmp(s) == Sanitize(s) <==> '<' !in s && '>' !in s
  {
    LateIsOnePass(s);
    SanitizeIsOnePass(s);
    EscapedTwiceIsLonger(s);
  }

  // ------------------------------------------------------------------- meaning

  /** Reads an escaped text back. */
  function Unescape(s: string): string
    decreases |s|
  {
    if s == "" then ""
    else if s[0] == '\\' && |s| > 1 then [s[1]] + Unescape(s[2..])
    else if |s| >= 5 && s[..5] == "&amp;" then "&" + Unescape(s[5..])
    else if |s| >= 4 && s[..4] == "&lt;" then "<" + Unescape(s[4..])
    else if |s| >= 4 && s[..4] == "&gt;" then ">" + Unescape(s[4..])
    else [s[0]] + Unescape(s[1..])
  }

  lemma UnescapeEntity(s: string, rest: string)
    ensures s == "&amp;" + rest ==> Unescape(s) == "&" + Unescape(rest)
    ensures s == "&lt;" + rest ==> Unescape(s) == "<" + Unescape(rest)
    ensures s == "&gt;" + rest ==> Unescape(s) == ">" + Unescape(rest)
  {
    if s == "&amp;" + rest {
      assert s[..5] == "&amp;" && s[5..] == rest;
    } else if s == "&lt;" + rest {
      assert s[..4] == "&lt;" && s[4..] == rest && s[1] == 'l';
    } else if s == "&gt;" + rest {
      assert s[..4] == "&gt;" && s[4..] == rest && s[1] == 'g';
    }
  }

  lemma UnescapeBackslash(c: char, rest: string)
    ensures Unescape(['\\', c] + rest) == [c] + Unescape(rest)
  {
    var s := ['\\', c] + rest;
    assert s[0] == '\\' && s[1] == c && s[2..] == rest;
  }

  lemma UnescapePlain(c: char, rest: string)
    requires c != '\\' && c != '&'
    ensures Unescape([c] + rest) == [c] + Unescape(rest)
  {
    var s := [c] + rest;
    assert s[0] == c && s[1..] == rest;
    assert |s| >= 5 ==> s[..5][0] == c;
    assert |s| >= 4 ==> s[..4][0] == c;
  }

  lemma UnescapeFirst(c: char, rest: string)
    ensures Unescape(Escaped(c) + rest) == [c] + Unescape(rest)
  {
    hide Unescape;
    if c == '&' || c == '<' || c == '>' {
      UnescapeEntity(Escaped(c) + rest, rest);
      hide Unsafe;
      assert "&" == ['&'] && "<" == ['<'] && ">" == ['>'];
    } else if Unsafe(c) {
      hide Unsafe;
      UnescapeBackslash(c, rest);
    } else {
      UnescapePlain(c, rest);
    }
  }

  lemma {:induction false} UnescapeMap(s: string)
    ensures Unescape(Map(Escaped, s)) == s
  {
    if s != "" {
      UnescapeFirst(s[0], Map(Escaped, s[1..]));
      UnescapeMap(s[1..]);
      assert [s[0]] + s[1..] == s;
    }
  }

  /** Nothing is lost: every text can be read back, so no two texts escape alike. */
  lemma SanitizeRoundTrip(s: string)
    ensures Unescape(Sanitize(s)) == s
  {
    SanitizeIsOnePass(s);
    UnescapeMap(s);
  }

  /** Position `i` is escaped: an odd number of backslashes stands right before it. */
  predicate IsEscaped(s: string, i: nat)
    requires i <= |s|
  {
    i > 0 && s[i - 1] == '\\' && !IsEscaped(s, i - 1)
  }

  /** Not significant, or escaped, or the backslash of an escape. */
  predicate Harmless(s: string, i: nat)
    requires i < |s|
  {
    Unsafe(s[i]) ==> IsEscaped(s, i) || (s[i] == '\\' && i + 1 < |s| && Unsafe(s[i + 1]))
  }

  /** No angle bracket at all, and a significant character only behind a backslash that is
      not itself escaped; an escape never hangs over the end. */
  ghost predicate Inert(s: string) {
    && (forall i :: 0 <= i < |s| ==> s[i] != '<' && s[i] != '>')
    && (forall i :: 0 <= i < |s| ==> Harmless(s, i))
    && !IsEscaped(s, |s|)
  }

  lemma {:induction false} EscapedPrefix(s: string, t: string, i: nat)
    requires i <= |s|
    ensures IsEscaped(s + t, i) == IsEscaped(s, i)
  {
    if i > 0 {
      EscapedPrefix(s, t, i - 1);
    }
  }

  lemma {:induction false} EscapedSuffix(s: string, t: string, i: nat)
    requires i <= |t| && !IsEscaped(s, |s|)
    ensures IsEscaped(s + t, |s| + i) == IsEscaped(t, i)
  {
    if i == 0 {
      EscapedPrefix(s, t, |s|);
    } else {
      EscapedSuffix(s, t, i - 1);
    }
  }

  lemma InertConcat(s: string, t: string)
    requires Inert(s) && Inert(t)
    ensures Inert(s + t)
  {
    var u := s + t;
    forall i | 0 <= i < |u|
      ensures Harmless(u, i)
    {
      if i < |s| {
        assert Harmless(s, i) && u[i] == s[i];
        EscapedPrefix(s, t, i);
      } else {
        var j := i - |s|;
        assert Harmless(t, j) && u[i] == t[j];
        assert j + 1 < |t| ==> u[i + 1] == t[j + 1];
        EscapedSuffix(s, t, j);
      }
    }
    EscapedSuffix(s, t, |t|);
  }

  lemma EntitiesAreSafe(c: char)
    requires !Unsafe(c) || c == '<' || c == '>'
    ensures forall i :: 0 <= i < |Escaped(c)| ==> !Unsafe(Escaped(c)[i])
  {
    var e := Escaped(c);
    if c == '&' {
      assert e[0] == '&' && e[1] == 'a' && e[2] == 'm' && e[3] == 'p' && e[4] == ';';
    } else if c == '<' {
      assert e[0] == '&' && e[1] == 'l' && e[2] == 't' && e[3] == ';';
    } else if c == '>' {
      assert e[0] == '&' && e[1] == 'g' && e[2] == 't' && e[3] == ';';
    }
  }

  lemma EscapedIsInert(c: char)
    ensures Inert(Escaped(c))
  {
    var e := Escaped(c);
    if Unsafe(c) && c != '<' && c != '>' {
      assert e == ['\\', c];
      assert !IsEscaped(e, 0) && IsEscaped(e, 1) && !IsEscaped(e, 2);
    } else {
      EntitiesAreSafe(c);
    }
  }

  lemma {:induction false} MapIsInert(s: string)
    ensures Inert(Map(Escaped, s))
  {
    if s != "" {
      EscapedIsInert(s[0]);
      MapIsInert(s[1..]);
      InertConcat(Escaped(s[0]), Map(Escaped, s[1..]));
    }
  }

  /** Escaped text holds no markup. */
  lemma SanitizeIsInert(s: string)
    ensures Inert(Sanitize(s))
  {
    SanitizeIsOnePass(s);
    MapIsInert(s);
  }
}
