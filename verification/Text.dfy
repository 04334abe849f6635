/** The few string operations the server takes from its standard library. */
module Text {

  /** White space as the trimming of tags sees it: ASCII, NEL, NBSP and the Unicode space separators. */
  predicate IsSpace(c: char) {
    var n := c as int;
    || 9 <= n <= 13 || n == 0x20 || n == 0x85 || n == 0xA0 || n == 0x1680
    || 0x2000 <= n <= 0x200A || n == 0x2028 || n == 0x2029 || n == 0x202F || n == 0x205F || n == 0x3000
  }

  function TrimLeft(s: string): string {
    if s != "" && IsSpace(s[0]) then TrimLeft(s[1..]) else s
  }

  function TrimRight(s: string): string {
    if s != "" && IsSpace(s[|s| - 1]) then TrimRight(s[..|s| - 1]) else s
  }

  function TrimSpace(s: string): string {
    TrimRight(TrimLeft(s))
  }

  predicate IsWhite(s: string) {
    forall i :: 0 <= i < |s| ==> IsSpace(s[i])
  }

  /** Neither begins nor ends with white space, and is not empty. */
  predicate IsSolid(s: string) {
    s != "" && !IsSpace(s[0]) && !IsSpace(s[|s| - 1])
  }

  lemma {:induction false} TrimLeftDrops(l: string, s: string)
    requires IsWhite(l)
    ensures TrimLeft(l + s) == TrimLeft(s)
  {
    if l == "" {
      assert l + s == s;
    } else {
      assert (l + s)[1..] == l[1..] + s;
      TrimLeftDrops(l[1..], s);
    }
  }

  lemma {:induction false} TrimRightDrops(s: string, r: string)
    requires IsWhite(r)
    ensures TrimRight(s + r) == TrimRight(s)
  {
    if r == "" {
      assert s + r == s;
    } else {
      assert (s + r)[..|s + r| - 1] == s + r[..|r| - 1];
      TrimRightDrops(s, r[..|r| - 1]);
    }
  }

  /** Trimming takes off all the white space around a text, and nothing else. */
  lemma TrimmingIs(l: string, v: string, r: string)
    requires IsWhite(l) && IsWhite(r) && (v == "" || IsSolid(v))
    ensures TrimSpace(l + v + r) == v
  {
    assert l + v + r == l + (v + r);
    TrimLeftDrops(l, v + r);
    if v == "" {
      assert v + r == r == r + "";
      TrimLeftDrops(r, "");
    } else {
      assert (v + r)[0] == v[0];
      TrimRightDrops(v, r);
    }
  }

  /** Every text is one of those. */
  lemma {:induction false} EveryTextTrims(s: string) returns (l: string, v: string, r: string)
    ensures s == l + v + r && IsWhite(l) && IsWhite(r) && (v == "" || IsSolid(v))
  {
    if s == "" {
      l, v, r := "", "", "";
    } else if IsSpace(s[0]) {
      l, v, r := EveryTextTrims(s[1..]);
      l := [s[0]] + l;
    } else if IsSpace(s[|s| - 1]) {
      l, v, r := EveryTextTrims(s[..|s| - 1]);
      assert s == s[..|s| - 1] + [s[|s| - 1]];
      r := r + [s[|s| - 1]];
    } else {
      l, v, r := "", s, "";
    }
  }

  /** The position of the last c in s, or -1. */
  function LastIndex(s: string, c: char): (i: int)
    ensures -1 <= i < |s|
    ensures i >= 0 ==> s[i] == c
    ensures forall k :: i < k < |s| ==> s[k] != c
  {
    if s == "" then -1
    else if s[|s| - 1] == c then |s| - 1
    else LastIndex(s[..|s| - 1], c)
  }

  /** The segments of s between occurrences of sep; never empty. */
  function Split(s: string, sep: char): (segments: seq<string>)
    ensures |segments| >= 1
  {
    if s == "" then [""]
    else
      var rest := Split(s[1..], sep);
      if s[0] == sep then [""] + rest else [[s[0]] + rest[0]] + rest[1..]
  }

  /** The segments with sep between them. */
  function Join(segments: seq<string>, sep: char): string
    requires segments != []
  {
    if |segments| == 1 then segments[0] else segments[0] + [sep] + Join(segments[1..], sep)
  }

  /** Splitting cuts a text at every sep and nowhere else. */
  lemma {:induction false} SplitIsJoined(s: string, sep: char)
    ensures Join(Split(s, sep), sep) == s
    ensures forall segment :: segment in Split(s, sep) ==> sep !in segment
  {
    if s != "" {
      SplitIsJoined(s[1..], sep);
      var rest := Split(s[1..], sep);
      if s[0] == sep {
        assert ([""] + rest)[1..] == rest;
      } else {
        var head := [s[0]] + rest[0];
        assert ([head] + rest[1..])[1..] == rest[1..];
        assert s == [s[0]] + s[1..];
      }
    }
  }

  lemma {:induction false} JoinedIsSplit(segments: seq<string>, sep: char)
    requires segments != [] && forall segment :: segment in segments ==> sep !in segment
    ensures Split(Join(segments, sep), sep) == segments
  {
    var head := segments[0];
    if |segments| == 1 {
      assert head + "" == head;
      SplitAfter(head, "", sep);
    } else {
      JoinedIsSplit(segments[1..], sep);
      var tail := Join(segments[1..], sep);
      assert head + [sep] + tail == head + ([sep] + tail);
      assert ([sep] + tail)[1..] == tail;
      assert Split([sep] + tail, sep) == [""] + segments[1..];
      SplitAfter(head, [sep] + tail, sep);
      assert head + "" == head;
    }
  }

  /** Text without sep in front only lengthens the first segment. */
  lemma {:induction false} SplitAfter(head: string, tail: string, sep: char)
    requires sep !in head
    ensures Split(head + tail, sep) == [head + Split(tail, sep)[0]] + Split(tail, sep)[1..]
  {
    if head == "" {
      assert head + tail == tail;
      assert head + Split(tail, sep)[0] == Split(tail, sep)[0];
    } else {
      assert (head + tail)[1..] == head[1..] + tail;
      SplitAfter(head[1..], tail, sep);
      var first := Split(tail, sep)[0];
      assert [head[0]] + (head[1..] + first) == head + first;
    }
  }

  /** Replaces every occurrence of a one-character string. */
  function ReplaceAll(s: string, from: char, to: string): string {
    if s == "" then "" else (if s[0] == from then to else [s[0]]) + ReplaceAll(s[1..], from, to)
  }

  lemma ReplaceAllConcat(a: string, b: string, from: char, to: string)
    ensures ReplaceAll(a + b, from, to) == ReplaceAll(a, from, to) + ReplaceAll(b, from, to)
  {
    if a == "" {
      assert a + b == b;
    } else {
      assert (a + b)[1..] == a[1..] + b;
      ReplaceAllConcat(a[1..], b, from, to);
    }
  }

  lemma ReplaceAllOne(c: char, from: char, to: string)
    ensures ReplaceAll([c], from, to) == if c == from then to else [c]
  {
    assert [c][1..] == "";
  }

  lemma ReplaceAllPair(c: char, d: char, from: char, to: string)
    ensures ReplaceAll([c, d], from, to) == (if c == from then to else [c]) + (if d == from then to else [d])
  {
    assert [c, d] == [c] + [d];
    ReplaceAllConcat([c], [d], from, to);
    ReplaceAllOne(c, from, to);
    ReplaceAllOne(d, from, to);
  }
}
