/** Tags as clients write them: "name:suffix" labels, parsed and rendered. */
module TagSyntax {
  import opened Wrappers
  import opened Text

  const DEFAULT_SUFFIX := "latest"
  const MAX_TAG_LENGTH := 255

  datatype Tag = Tag(name: string, suffix: string) {
    function ToString(): string {
      name + ":" + suffix
    }
  }

  datatype TagError =
    | EmptyTag
    | InvalidName(name: string)
    | InvalidSuffix(suffix: string)
    | TooLong(value: string)

  predicate IsTagChar(c: char, allowSlash: bool) {
    || 'a' <= c <= 'z' || 'A' <= c <= 'Z' || '0' <= c <= '9'
    || c == '_' || c == '-' || c == '.'
    || (c == '/' && allowSlash)
  }

  predicate IsTagChars(value: string, allowSlash: bool) {
    forall i :: 0 <= i < |value| ==> IsTagChar(value[i], allowSlash)
  }

  predicate IsValidTagName(name: string) {
    && name != "" && name[0] != '/' && name[|name| - 1] != '/'
    && (forall segment :: segment in Split(name, '/') ==> segment != "" && segment != "." && segment != "..")
    && IsTagChars(name, true)
  }

  predicate IsValidTagSuffix(suffix: string) {
    suffix != "" && IsTagChars(suffix, false)
  }

  /** The labels the tag table can hold. */
  predicate ValidTag(tag: Tag) {
    IsValidTagName(tag.name) && IsValidTagSuffix(tag.suffix) && |tag.ToString()| <= MAX_TAG_LENGTH
  }

  function ParseTag(raw: string): Result<Tag, TagError> {
    var value := TrimSpace(raw);
    if value == "" then Failure(EmptyTag)
    else
      var idx := LastIndex(value, ':');
      var name := if idx >= 0 then value[..idx] else value;
      var suffix := if idx >= 0 then value[idx + 1..] else DEFAULT_SUFFIX;
      if !IsValidTagName(name) then Failure(InvalidName(name))
      else if !IsValidTagSuffix(suffix) then Failure(InvalidSuffix(suffix))
      else if |name| + |suffix| + 1 > MAX_TAG_LENGTH then Failure(TooLong(value))
      else Success(Tag(name, suffix))
  }

  /** A segment of a name: tag characters, not a step up or in place. */
  predicate IsNameSegment(segment: string) {
    segment != "" && segment != "." && segment != ".." && IsTagChars(segment, false)
  }

  /** A valid name is a path: one or more clean segments with slashes between them. */
  lemma ValidNamesArePaths(name: string)
    ensures IsValidTagName(name) <==>
            exists segments :: segments != [] && (forall segment :: segment in segments ==> IsNameSegment(segment))
                               && Join(segments, '/') == name
  {
    var split := Split(name, '/');
    SplitIsJoined(name, '/');
    if IsValidTagName(name) {
      CharsOfSegments(split);
    }
    if segments :| segments != [] && (forall segment :: segment in segments ==> IsNameSegment(segment)) && Join(segments, '/') == name {
      forall segment | segment in segments ensures '/' !in segment {
        assert forall i :: 0 <= i < |segment| ==> IsTagChar(segment[i], false);
      }
      JoinedIsSplit(segments, '/');
      CharsOfSegments(segments);
      JoinedEnds(segments);
    }
  }

  lemma {:induction false} CharsOfSegments(segments: seq<string>)
    requires segments != [] && forall segment :: segment in segments ==> '/' !in segment
    ensures IsTagChars(Join(segments, '/'), true) <==> forall segment :: segment in segments ==> IsTagChars(segment, false)
  {
    var joined := Join(segments, '/');
    SegmentChars(segments[0]);
    if |segments| > 1 {
      var tail := Join(segments[1..], '/');
      CharsOfSegments(segments[1..]);
      CharsOfConcat(segments[0], ['/'] + tail);
      CharsOfConcat(['/'], tail);
      assert joined == segments[0] + (['/'] + tail);
      assert segments == [segments[0]] + segments[1..];
    }
  }

  lemma SegmentChars(segment: string)
    requires '/' !in segment
    ensures IsTagChars(segment, true) <==> IsTagChars(segment, false)
  {
    assert forall i :: 0 <= i < |segment| ==> segment[i] != '/';
  }

  lemma CharsOfConcat(a: string, b: string)
    ensures IsTagChars(a + b, true) <==> IsTagChars(a, true) && IsTagChars(b, true)
  {
    if IsTagChars(a + b, true) {
      assert forall i :: 0 <= i < |a| ==> a[i] == (a + b)[i];
      assert forall i :: 0 <= i < |b| ==> b[i] == (a + b)[|a| + i];
    }
  }

  lemma {:induction false} JoinedEnds(segments: seq<string>)
    requires segments != [] && forall segment :: segment in segments ==> IsNameSegment(segment)
    ensures var joined := Join(segments, '/'); joined != "" && joined[0] != '/' && joined[|joined| - 1] != '/'
  {
    assert segments[0] in segments && segments[0] != "";
    assert IsTagChar(segments[0][0], false) && IsTagChar(segments[0][|segments[0]| - 1], false);
    if |segments| > 1 {
      assert forall segment :: segment in segments[1..] ==> segment in segments;
      JoinedEnds(segments[1..]);
      assert Join(segments, '/')[0] == segments[0][0];
    }
  }

  // ---- What a label says, and what is wrong with one ----

  /** A label is what stands between the white space around it; nothing but white space is no label. */
  lemma ParseIgnoresWhiteSpace(l: string, body: string, r: string)
    requires IsWhite(l) && IsWhite(r) && (body == "" || IsSolid(body))
    ensures ParseTag(l + body + r) == ParseTag(body)
    ensures ParseTag(l + body + r) == Failure(EmptyTag) <==> body == ""
  {
    TrimmingIs(l, body, r);
    assert "" + body + "" == body;
    TrimmingIs("", body, "");
  }

  /** The name reaches to the last colon; what is wrong with a label is its name, else its suffix, else its length. */
  lemma ParseSplitsAtLastColon(name: string, suffix: string)
    requires IsSolid(name + ":" + suffix) && ':' !in suffix
    ensures ParseTag(name + ":" + suffix) ==
            if !IsValidTagName(name) then Failure(InvalidName(name))
            else if !IsValidTagSuffix(suffix) then Failure(InvalidSuffix(suffix))
            else if |name| + |suffix| + 1 > MAX_TAG_LENGTH then Failure(TooLong(name + ":" + suffix))
            else Success(Tag(name, suffix))
  {
    hide IsValidTagName, IsValidTagSuffix, TrimSpace, LastIndex, IsSolid;
    var value := name + ":" + suffix;
    assert "" + value + "" == value;
    TrimmingIs("", value, "");
    assert forall k :: |name| < k < |value| ==> value[k] == suffix[k - |name| - 1];
    LastIndexIs(value, ':', |name|);
    assert value[..|name|] == name && value[|name| + 1..] == suffix;
  }

  /** Without a colon the suffix is the default one. */
  lemma ParseDefaultsTheSuffix(name: string)
    requires IsSolid(name) && ':' !in name
    ensures ParseTag(name) ==
            if !IsValidTagName(name) then Failure(InvalidName(name))
            else if |name| + |DEFAULT_SUFFIX| + 1 > MAX_TAG_LENGTH then Failure(TooLong(name))
            else Success(Tag(name, DEFAULT_SUFFIX))
  {
    assert "" + name + "" == name;
    TrimmingIs("", name, "");
    assert IsValidTagSuffix(DEFAULT_SUFFIX);
  }

  /** However much white space surrounds it, the rendering of a valid tag parses to the tag. */
  lemma ParseFindsTheTag(l: string, tag: Tag, r: string)
    requires IsWhite(l) && IsWhite(r) && ValidTag(tag)
    ensures ParseTag(l + tag.ToString() + r) == Success(tag)
  {
    var value := tag.ToString();
    assert value[0] == tag.name[0] && IsTagChar(tag.name[0], true);
    assert value[|value| - 1] == tag.suffix[|tag.suffix| - 1] && IsTagChar(tag.suffix[|tag.suffix| - 1], false);
    ParseIgnoresWhiteSpace(l, value, r);
    ParseUndoesToString(tag);
  }

  // ---- Rendering and parsing undo each other ----

  lemma TrimKeepsSolidText(s: string)
    requires s != "" && !IsSpace(s[0]) && !IsSpace(s[|s| - 1])
    ensures TrimSpace(s) == s
  {
  }

  lemma LastIndexIs(s: string, c: char, i: nat)
    requires i < |s| && s[i] == c
    requires forall k :: i < k < |s| ==> s[k] != c
    ensures LastIndex(s, c) == i
  {
  }

  /** Every valid tag is what its own rendering parses to. */
  lemma ParseUndoesToString(tag: Tag)
    requires ValidTag(tag)
    ensures ParseTag(tag.ToString()) == Success(tag)
  {
    var value := tag.ToString();
    var n := |tag.name|;
    assert value[0] == tag.name[0] && IsTagChar(tag.name[0], true);
    assert value[|value| - 1] == tag.suffix[|tag.suffix| - 1] && IsTagChar(tag.suffix[|tag.suffix| - 1], false);
    TrimKeepsSolidText(value);
    forall k | n < k < |value| ensures value[k] != ':' {
      assert value[k] == tag.suffix[k - n - 1] && IsTagChar(tag.suffix[k - n - 1], false);
    }
    LastIndexIs(value, ':', n);
    assert value[..n] == tag.name && value[n + 1..] == tag.suffix;
  }

  /** The parser produces the valid tags and nothing else. */
  lemma ParseProducesExactlyValidTags(tag: Tag)
    ensures ValidTag(tag) <==> exists raw :: ParseTag(raw) == Success(tag)
  {
    if ValidTag(tag) {
      ParseUndoesToString(tag);
    }
  }

  /** Two valid tags that render alike are the same tag. */
  lemma ToStringIsInjective(a: Tag, b: Tag)
    requires ValidTag(a) && ValidTag(b)
    ensures a.ToString() == b.ToString() <==> a == b
  {
    ParseUndoesToString(a);
    ParseUndoesToString(b);
  }

  /** A label without a colon is the name with the default suffix, and a second colon never parses. */
  lemma ColonCountDecides(raw: string)
    requires ParseTag(raw).Success?
    ensures var tag := ParseTag(raw).value;
            var value := TrimSpace(raw);
            && (':' !in value ==> tag == Tag(value, DEFAULT_SUFFIX))
            && (':' in value ==> tag.ToString() == value && ':' !in tag.name && ':' !in tag.suffix)
  {
    var tag := ParseTag(raw).value;
    var value := TrimSpace(raw);
    var idx := LastIndex(value, ':');
    if idx >= 0 {
      assert value == value[..idx] + ":" + value[idx + 1..];
      assert forall i :: 0 <= i < |tag.name| ==> IsTagChar(tag.name[i], true);
      assert forall i :: 0 <= i < |tag.suffix| ==> IsTagChar(tag.suffix[i], false);
    }
  }

  // ---- parseTagList ----

  /** ts without the elements that already occurred. */
  function Dedup(ts: seq<Tag>): seq<Tag> {
    if ts == [] then []
    else
      var front := ts[..|ts| - 1];
      if ts[|ts| - 1] in front then Dedup(front) else Dedup(front) + [ts[|ts| - 1]]
  }

  predicate Distinct<T(==)>(ts: seq<T>) {
    forall i, j :: 0 <= i < j < |ts| ==> ts[i] != ts[j]
  }

  /** k is where x first occurs in ts. */
  predicate FirstAt<T(==)>(ts: seq<T>, x: T, k: nat) {
    k < |ts| && ts[k] == x && x !in ts[..k]
  }

  lemma {:induction false} DedupKeepsFirstOccurrences(ts: seq<Tag>)
    ensures Distinct(Dedup(ts))
    ensures forall t :: t in Dedup(ts) <==> t in ts
    ensures forall i, j, p: nat, q: nat :: 0 <= i < j < |Dedup(ts)| && FirstAt(ts, Dedup(ts)[i], p) && FirstAt(ts, Dedup(ts)[j], q)
                                 ==> p < q
  {
    if ts != [] {
      var n := |ts| - 1;
      var front := ts[..n];
      DedupKeepsFirstOccurrences(front);
      assert ts == front + [ts[n]];
      forall i, j, p: nat, q: nat | 0 <= i < j < |Dedup(ts)| && FirstAt(ts, Dedup(ts)[i], p) && FirstAt(ts, Dedup(ts)[j], q)
        ensures p < q
      {
        assert p < n ==> front[..p] == ts[..p];
        assert q < n ==> front[..q] == ts[..q];
        if p == n {
          assert false;
        }
        if p < n && q < n {
          assert FirstAt(front, Dedup(ts)[i], p) && FirstAt(front, Dedup(ts)[j], q);
          assert Dedup(ts)[j] in front;
          assert j < |Dedup(front)|;
        }
      }
    }
  }

  lemma DedupSnoc(ts: seq<Tag>, tag: Tag)
    ensures Dedup(ts + [tag]) == if tag in ts then Dedup(ts) else Dedup(ts) + [tag]
  {
    assert (ts + [tag])[..|ts|] == ts;
  }

  /** ts is what the raw labels parse to, one by one. */
  predicate ParsedAs(raw: seq<string>, ts: seq<Tag>) {
    |ts| == |raw| && forall i :: 0 <= i < |raw| ==> ParseTag(raw[i]) == Success(ts[i])
  }

  /** The labels all parse, and ts are their tags without repetitions. */
  ghost predicate ParsesTo(raw: seq<string>, ts: seq<Tag>) {
    exists parsed :: ParsedAs(raw, parsed) && ts == Dedup(parsed)
  }

  /** k is the first label that does not parse. */
  predicate FirstFailure(raw: seq<string>, k: nat) {
    k < |raw| && ParseTag(raw[k]).Failure? && forall i :: 0 <= i < k ==> ParseTag(raw[i]).Success?
  }

  /** error is what is wrong with the first label that does not parse. */
  ghost predicate FirstError(raw: seq<string>, error: TagError) {
    exists k: nat :: FirstFailure(raw, k) && ParseTag(raw[k]) == Failure(error)
  }

  /** A list of labels asks for one list of tags, or for none when a label does not parse. */
  lemma ParsesToOne(raw: seq<string>)
    ensures forall a, b | ParsesTo(raw, a) && ParsesTo(raw, b) :: a == b
    ensures (exists k: nat :: FirstFailure(raw, k)) ==> forall a :: !ParsesTo(raw, a)
    ensures ParsesTo(raw, []) ==> raw == []
  {
    hide ParseTag, Dedup;
    forall x, y | ParsedAs(raw, x) && ParsedAs(raw, y) ensures x == y {
      assert forall i | 0 <= i < |x| :: x[i] == ParseTag(raw[i]).value == y[i];
    }
    if ParsesTo(raw, []) {
      var parsed :| ParsedAs(raw, parsed) && [] == Dedup(parsed);
      DedupKeepsFirstOccurrences(parsed);
      assert parsed != [] ==> parsed[0] in Dedup(parsed);
    }
  }

  /** De-duplicating by rendered form is de-duplicating by tag. */
  lemma SeenByRendering(raw: seq<string>, parsed: seq<Tag>, tag: Tag)
    requires ParsedAs(raw, parsed) && ValidTag(tag)
    ensures tag.ToString() in (set t | t in parsed :: t.ToString()) <==> tag in parsed
  {
    forall t | t in parsed ensures t.ToString() == tag.ToString() <==> t == tag {
      var i :| 0 <= i < |parsed| && parsed[i] == t;
      assert ParseTag(raw[i]) == Success(t);
      ToStringIsInjective(t, tag);
    }
  }

  /**
   Parses and de-duplicates a request's tags, keeping the caller's order. An empty request is an
   empty list; the first label that does not parse fails the whole list.
   */
  method ParseTagList(raw: seq<string>) returns (r: Result<seq<Tag>, TagError>)
    ensures r.Success? ==> ParsesTo(raw, r.value)
    ensures r.Success? ==> Distinct(r.value) && forall t :: t in r.value ==> ValidTag(t)
    ensures r.Failure? ==> FirstError(raw, r.error)
  {
    hide ParseTag, ValidTag, Distinct, FirstFailure;
    var tags: seq<Tag> := [];
    var seen: set<string> := {};
    ghost var parsed: seq<Tag> := [];
    for i := 0 to |raw|
      invariant ParsedAs(raw[..i], parsed)
      invariant tags == Dedup(parsed)
      invariant seen == set t | t in parsed :: t.ToString()
    {
      var item := ParseTag(raw[i]);
      if item.Failure? {
        ParsedPrefixFails(raw, parsed, i);
        return Failure(item.error);
      }
      var key := item.value.ToString();
      ParsedAsSnoc(raw, i, parsed, item.value);
      SeenByRendering(raw[..i], parsed, item.value);
      DedupSnoc(parsed, item.value);
      if key !in seen {
        tags := tags + [item.value];
      }
      seen := seen + {key};
      parsed := parsed + [item.value];
    }
    assert raw[..|raw|] == raw;
    DedupOfParsed(raw, parsed);
    r := Success(tags);
  }

  lemma ParsedAsSnoc(raw: seq<string>, i: nat, parsed: seq<Tag>, tag: Tag)
    requires i < |raw| && ParsedAs(raw[..i], parsed) && ParseTag(raw[i]) == Success(tag)
    ensures ParsedAs(raw[..i + 1], parsed + [tag])
    ensures ValidTag(tag)
  {
  }

  lemma ParsedPrefixFails(raw: seq<string>, parsed: seq<Tag>, i: nat)
    requires i < |raw| && ParsedAs(raw[..i], parsed) && ParseTag(raw[i]).Failure?
    ensures FirstFailure(raw, i)
  {
    forall k | 0 <= k < i ensures ParseTag(raw[k]).Success? {
      assert raw[..i][k] == raw[k];
    }
  }

  lemma ParsedIsValid(raw: string)
    ensures ParseTag(raw).Success? ==> ValidTag(ParseTag(raw).value)
  {
  }

  lemma DedupOfParsed(raw: seq<string>, parsed: seq<Tag>)
    requires ParsedAs(raw, parsed)
    ensures Distinct(Dedup(parsed)) && forall t :: t in Dedup(parsed) ==> ValidTag(t)
  {
    hide ValidTag, ParseTag;
    DedupKeepsFirstOccurrences(parsed);
    forall t | t in parsed ensures ValidTag(t) {
      var i :| 0 <= i < |parsed| && parsed[i] == t;
      ParsedIsValid(raw[i]);
    }
  }
}
