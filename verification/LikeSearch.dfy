/**
 The search filter of the file and tag listings: a user's text is escaped, wrapped in '%' and
 handed to SQLite's LIKE with '\' as the escape character.
 */
module LikeSearch {
  import opened Text

  // ---- SQLite's LIKE ... ESCAPE '\' ----

  /** LIKE folds case for the 26 ASCII letters only. */
  function Fold(c: char): char {
    if 'a' <= c <= 'z' then c - 'a' + 'A' else c
  }

  predicate Like(pattern: string, text: string)
    decreases |pattern| + |text|
  {
    if pattern == "" then text == ""
    else if pattern[0] == '%' then
      Like(pattern[1..], text) || (text != "" && Like(pattern, text[1..]))
    else if pattern[0] == '_' then
      text != "" && Like(pattern[1..], text[1..])
    else if pattern[0] == '\\' then
      |pattern| > 1 && text != "" && Fold(pattern[1]) == Fold(text[0]) && Like(pattern[2..], text[1..])
    else
      text != "" && Fold(pattern[0]) == Fold(text[0]) && Like(pattern[1..], text[1..])
  }

  // ---- escapeLikePattern ----

  function EscapeLikePattern(s: string): string {
    ReplaceAll(ReplaceAll(ReplaceAll(s, '\\', "\\\\"), '%', "\\%"), '_', "\\_")
  }

  /** What the three replacements are meant to add up to: one backslash before each special character. */
  function EscapeEach(s: string): string {
    if s == "" then ""
    else (if s[0] == '\\' || s[0] == '%' || s[0] == '_' then ['\\', s[0]] else [s[0]]) + EscapeEach(s[1..])
  }

  lemma {:induction false} EscapeIsPerCharacter(s: string)
    ensures EscapeLikePattern(s) == EscapeEach(s)
  {
    if s != "" {
      var one := [s[0]];
      assert s == one + s[1..];
      ReplaceAllConcat(one, s[1..], '\\', "\\\\");
      var a, b := ReplaceAll(one, '\\', "\\\\"), ReplaceAll(s[1..], '\\', "\\\\");
      ReplaceAllConcat(a, b, '%', "\\%");
      ReplaceAllConcat(ReplaceAll(a, '%', "\\%"), ReplaceAll(b, '%', "\\%"), '_', "\\_");
      EscapeIsPerCharacter(s[1..]);
      EscapeOne(s[0]);
    }
  }

  lemma EscapeOne(c: char)
    ensures EscapeLikePattern([c]) == EscapeEach([c])
  {
    ReplaceAllOne(c, '\\', "\\\\");
    if c == '\\' {
      ReplaceAllPair('\\', '\\', '%', "\\%");
      ReplaceAllPair('\\', '\\', '_', "\\_");
    } else {
      ReplaceAllOne(c, '%', "\\%");
      ReplaceAllOne(c, '_', "\\_");
      ReplaceAllPair('\\', '%', '_', "\\_");
    }
    assert [c][1..] == "";
  }

  /** The same replacements with the backslash handled last. */
  function EscapeBackslashLast(s: string): string {
    ReplaceAll(ReplaceAll(ReplaceAll(s, '%', "\\%"), '_', "\\_"), '\\', "\\\\")
  }

  /** Handling the backslash last agrees with the real order only on texts that need no wildcard escaped. */
  lemma {:induction false} BackslashMustGoFirst(s: string)
    ensures EscapeBackslashLast(s) == EscapeLikePattern(s) <==> '%' !in s && '_' !in s
  {
    EscapeIsPerCharacter(s);
    BackslashLastIsLonger(s);
  }

  lemma {:induction false} BackslashLastIsLonger(s: string)
    ensures |EscapeBackslashLast(s)| >= |EscapeEach(s)|
    ensures '%' in s || '_' in s ==> |EscapeBackslashLast(s)| > |EscapeEach(s)|
    ensures '%' !in s && '_' !in s ==> EscapeBackslashLast(s) == EscapeEach(s)
  {
    if s != "" {
      var one := [s[0]];
      assert s == one + s[1..];
      ReplaceAllConcat(one, s[1..], '%', "\\%");
      var a, b := ReplaceAll(one, '%', "\\%"), ReplaceAll(s[1..], '%', "\\%");
      ReplaceAllConcat(a, b, '_', "\\_");
      ReplaceAllConcat(ReplaceAll(a, '_', "\\_"), ReplaceAll(b, '_', "\\_"), '\\', "\\\\");
      assert EscapeBackslashLast(s) == EscapeBackslashLast(one) + EscapeBackslashLast(s[1..]);
      BackslashLastIsLonger(s[1..]);
      BackslashLastOne(s[0]);
    }
  }

  lemma BackslashLastOne(c: char)
    ensures EscapeBackslashLast([c]) ==
            if c == '%' then "\\\\%" else if c == '_' then "\\\\_" else if c == '\\' then "\\\\" else [c]
  {
    ReplaceAllOne(c, '%', "\\%");
    ReplaceAllOne(c, '_', "\\_");
    ReplaceAllOne(c, '\\', "\\\\");
    ReplaceAllPair('\\', '%', '_', "\\_");
    ReplaceAllPair('\\', '%', '\\', "\\\\");
    ReplaceAllPair('\\', '_', '\\', "\\\\");
  }

  // ---- The search is a substring search ----

  /** The same character, or the same ASCII letter in the other case. */
  predicate SameLetter(c: char, d: char) {
    || c == d
    || ('A' <= c <= 'Z' && d as int == c as int + 32)
    || ('A' <= d <= 'Z' && c as int == d as int + 32)
  }

  lemma FoldIsSameLetter(c: char, d: char)
    ensures Fold(c) == Fold(d) <==> SameLetter(c, d)
  {
  }

  predicate EqualFolded(s: string, t: string) {
    |s| == |t| && forall i :: 0 <= i < |s| ==> SameLetter(s[i], t[i])
  }

  predicate OccursAt(s: string, text: string, k: nat) {
    k + |s| <= |text| && EqualFolded(s, text[k..k + |s|])
  }

  /** Text contains s, up to the case of ASCII letters. */
  ghost predicate ContainsFolded(s: string, text: string) {
    exists k: nat :: OccursAt(s, text, k)
  }

  lemma {:induction false} PercentMatchesAll(text: string)
    ensures Like("%", text)
  {
    if text != "" {
      PercentMatchesAll(text[1..]);
    }
  }

  lemma {:induction false} EscapedIsLiteral(s: string, text: string)
    ensures Like(EscapeEach(s) + "%", text) <==> OccursAt(s, text, 0)
  {
    var pattern := EscapeEach(s) + "%";
    if s == "" {
      assert pattern == "%";
      PercentMatchesAll(text);
    } else {
      var rest := EscapeEach(s[1..]) + "%";
      if s[0] == '\\' || s[0] == '%' || s[0] == '_' {
        assert pattern[0] == '\\' && pattern[1] == s[0] && pattern[2..] == rest;
      } else {
        assert pattern[0] == s[0] && pattern[1..] == rest;
      }
      if text != "" {
        EscapedIsLiteral(s[1..], text[1..]);
        FoldIsSameLetter(s[0], text[0]);
        OccursAtTail(s, text);
      }
    }
  }

  lemma OccursAtTail(s: string, text: string)
    requires s != "" && text != ""
    ensures OccursAt(s, text, 0) <==> SameLetter(s[0], text[0]) && OccursAt(s[1..], text[1..], 0)
  {
    if SameLetter(s[0], text[0]) && OccursAt(s[1..], text[1..], 0) {
      forall i | 0 <= i < |s| ensures SameLetter(s[i], text[0..|s|][i]) {
        if i > 0 {
          assert SameLetter(s[1..][i - 1], text[1..][0..|s| - 1][i - 1]);
        }
      }
    }
    if OccursAt(s, text, 0) {
      forall i | 0 <= i < |s| - 1 ensures SameLetter(s[1..][i], text[1..][0..|s| - 1][i]) {
        assert SameLetter(s[i + 1], text[0..|s|][i + 1]);
      }
    }
  }

  lemma {:induction false} LeadingPercentSkips(pattern: string, text: string)
    ensures Like("%" + pattern, text) <==> exists k: nat :: k <= |text| && Like(pattern, text[k..])
  {
    assert ("%" + pattern)[1..] == pattern;
    assert text[0..] == text;
    if text != "" {
      LeadingPercentSkips(pattern, text[1..]);
      if Like("%" + pattern, text[1..]) {
        var k: nat :| k <= |text[1..]| && Like(pattern, text[1..][k..]);
        assert text[1..][k..] == text[k + 1..];
      }
      if k: nat :| k <= |text| && Like(pattern, text[k..]) {
        if k > 0 {
          assert text[1..][k - 1..] == text[k..];
        }
      }
    }
  }

  /** Without the escape, a search for an underscore would find every text but the empty one. */
  lemma UnescapedFindsMore(text: string)
    ensures Like("%_%", text) <==> text != ""
  {
    assert "%_%" == "%" + "_%" && "_%"[1..] == "%";
    LeadingPercentSkips("_%", text);
    if text != "" {
      PercentMatchesAll(text[1..]);
      assert text[0..] == text;
    }
  }

  /** Searching for s finds exactly the texts that contain s, whatever wildcard or escape characters s holds. */
  lemma {:induction false} SearchFindsExactlySubstrings(s: string, text: string)
    ensures Like("%" + EscapeLikePattern(s) + "%", text) <==> ContainsFolded(s, text)
  {
    EscapeIsPerCharacter(s);
    var pattern := EscapeEach(s) + "%";
    assert "%" + EscapeLikePattern(s) + "%" == "%" + pattern;
    LeadingPercentSkips(pattern, text);
    forall k: nat | k <= |text| ensures Like(pattern, text[k..]) <==> OccursAt(s, text, k) {
      EscapedIsLiteral(s, text[k..]);
      if k + |s| <= |text| {
        assert text[k..][0..|s|] == text[k..k + |s|];
      }
    }
  }
}
