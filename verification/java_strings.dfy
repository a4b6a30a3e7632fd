/** The parts of `java.lang.String` (and of `java.util.regex` as used by
    `String.split` and `String.replaceAll`) that the services rely on,
    stated over `seq<char>`. */
module JavaStrings {
  import opened Wrappers

  // ---------------------------------------------------------------------
  // Character classes
  // ---------------------------------------------------------------------

  /** `Character.isWhitespace`: the Unicode space, line and paragraph
      separators except the non-breaking ones (U+00A0, U+2007, U+202F),
      plus the ASCII controls TAB, LF, VT, FF, CR and FS, GS, RS, US. */
  predicate IsJavaWhitespace(c: char) {
    || c == ' ' || c == '\t' || c == '\n' || c == '\U{000B}' || c == '\U{000C}' || c == '\r'
    || ('\U{001C}' <= c <= '\U{001F}')
    || c == '\U{1680}'
    || ('\U{2000}' <= c <= '\U{2006}') || ('\U{2008}' <= c <= '\U{200A}')
    || c == '\U{2028}' || c == '\U{2029}' || c == '\U{205F}' || c == '\U{3000}'
  }

  /** The regular-expression class `\s` without UNICODE_CHARACTER_CLASS:
      `[ \t\n\x0B\f\r]`. Narrower than `IsJavaWhitespace`. */
  predicate IsRegexSpace(c: char) {
    c == ' ' || c == '\t' || c == '\n' || c == '\U{000B}' || c == '\U{000C}' || c == '\r'
  }

  lemma RegexSpaceIsJavaWhitespace(c: char)
    ensures IsRegexSpace(c) ==> IsJavaWhitespace(c)
  {
  }

  /** `String.isBlank`: empty, or only `Character.isWhitespace` code points. */
  predicate IsBlank(s: string) {
    forall i :: 0 <= i < |s| ==> IsJavaWhitespace(s[i])
  }

  // ---------------------------------------------------------------------
  // Case-insensitive comparison
  // ---------------------------------------------------------------------

  function ToUpperAscii(c: char): char {
    if 'a' <= c <= 'z' then (c as int - 32) as char else c
  }

  function ToLowerAscii(c: char): char {
    if 'A' <= c <= 'Z' then (c as int + 32) as char else c
  }

  /** The per-character test of `String.equalsIgnoreCase`, with the case
      mappings restricted to ASCII letters. */
  predicate CharEqualsIgnoreCase(a: char, b: char) {
    a == b || ToUpperAscii(a) == ToUpperAscii(b) || ToLowerAscii(ToUpperAscii(a)) == ToLowerAscii(ToUpperAscii(b))
  }

  /** `String.equalsIgnoreCase`: same length, and every position matches
      up to case. */
  predicate EqualsIgnoreCase(a: string, b: string) {
    |a| == |b| && forall i :: 0 <= i < |a| ==> CharEqualsIgnoreCase(a[i], b[i])
  }

  /** Two characters are equal ignoring case exactly when their lower-case
      ASCII forms are equal. */
  lemma CharEqualsIgnoreCaseIsLowerEquality(a: char, b: char)
    ensures CharEqualsIgnoreCase(a, b) <==> ToLowerAscii(a) == ToLowerAscii(b)
  {
  }

  /** Concatenation regroups freely. */
  lemma AppendAssoc(a: string, b: string, c: string)
    ensures a + b + c == a + (b + c)
  {
  }

  // ---------------------------------------------------------------------
  // String.replace(CharSequence, CharSequence)
  // ---------------------------------------------------------------------

  /** True when `target` occurs in `s` at position `i`. */
  predicate OccursAt(target: string, s: string, i: int) {
    0 <= i && i + |target| <= |s| && s[i..i + |target|] == target
  }

  /** `s.replace(target, replacement)` for a non-empty `target`: a single
      left-to-right pass replacing non-overlapping occurrences. Text that a
      replacement brings together is not scanned again. */
  function Replace(s: string, target: string, replacement: string): string
    requires |target| > 0
    decreases |s|
  {
    if s == [] then []
    else if target <= s then replacement + Replace(s[|target|..], target, replacement)
    else [s[0]] + Replace(s[1..], target, replacement)
  }

  /** A string in which `target` never occurs is left unchanged. */
  lemma {:induction false} ReplaceWithoutOccurrence(s: string, target: string, replacement: string)
    requires |target| > 0
    requires forall i :: 0 <= i < |s| ==> !OccursAt(target, s, i)
    ensures Replace(s, target, replacement) == s
    decreases |s|
  {
    if s != [] {
      assert !OccursAt(target, s, 0);
      assert !(target <= s);
      forall i | 0 <= i < |s[1..]|
        ensures !OccursAt(target, s[1..], i)
      {
        assert !OccursAt(target, s, i + 1);
      }
      ReplaceWithoutOccurrence(s[1..], target, replacement);
    }
  }

  /** A head in which no occurrence of the target begins is copied in front
      of whatever the pass makes of the tail. An occurrence may still begin
      in the tail, or straddle nothing: it cannot start inside the head. */
  lemma {:induction false} ReplaceCopiesHead(head: string, tail: string, target: string, replacement: string)
    requires |target| > 0
    requires forall i :: 0 <= i < |head| ==> !OccursAt(target, head + tail, i)
    ensures Replace(head + tail, target, replacement) == head + Replace(tail, target, replacement)
    decreases |head|
  {
    if head != [] {
      var s := head + tail;
      assert !OccursAt(target, s, 0);
      assert !(target <= s);
      assert s[1..] == head[1..] + tail;
      forall i | 0 <= i < |head[1..]|
        ensures !OccursAt(target, head[1..] + tail, i)
      {
        assert !OccursAt(target, s, i + 1);
      }
      ReplaceCopiesHead(head[1..], tail, target, replacement);
      assert [head[0]] + head[1..] == head;
    } else {
      assert head + tail == tail;
    }
  }

  /** A leading occurrence is replaced and the rest is processed on its own. */
  lemma ReplaceLeadingOccurrence(target: string, s: string, replacement: string)
    requires |target| > 0
    ensures Replace(target + s, target, replacement) == replacement + Replace(s, target, replacement)
  {
    assert (target + s)[|target|..] == s;
  }

  // ---------------------------------------------------------------------
  // lastIndexOf and substring
  // ---------------------------------------------------------------------

  /** `s.lastIndexOf(c)` with `-1` rendered as `None`. */
  function LastIndexOf(s: string, c: char): (r: Option<nat>)
    ensures r.Some? ==> r.value < |s| && s[r.value] == c
    ensures r.Some? ==> forall j :: r.value < j < |s| ==> s[j] != c
    ensures r.None? <==> c !in s
  {
    if s == [] then None
    else if s[|s| - 1] == c then Some(|s| - 1)
    else
      var r := LastIndexOf(s[..|s| - 1], c);
      assert forall j :: 0 <= j < |s| - 1 ==> s[..|s| - 1][j] == s[j];
      r
  }

  /** The `int` Java returns from `lastIndexOf`. */
  function JavaLastIndexOf(s: string, c: char): (r: int)
    ensures -1 <= r < |s|
    ensures r == -1 <==> c !in s
    ensures r >= 0 ==> s[r] == c && forall j :: r < j < |s| ==> s[j] != c
  {
    match LastIndexOf(s, c)
    case Some(k) => k
    case None => -1
  }

  /** `s.substring(begin, end)`; `None` is the
      `StringIndexOutOfBoundsException` Java throws for bad bounds. */
  function Substring(s: string, begin: int, end: int): (r: Option<string>)
    ensures r.Some? <==> 0 <= begin <= end <= |s|
    ensures r.Some? ==> |r.value| == end - begin && r.value == s[begin..end]
  {
    if 0 <= begin <= end <= |s| then Some(s[begin..end]) else None
  }

  // ---------------------------------------------------------------------
  // String.split("[/\\\\]")
  // ---------------------------------------------------------------------

  /** The characters matched by the regular expression `[/\\]`. */
  predicate IsPathSeparator(c: char) {
    c == '/' || c == '\\'
  }

  predicate HasNoSeparator(s: string) {
    forall i :: 0 <= i < |s| ==> !IsPathSeparator(s[i])
  }

  function SeparatorCount(s: string): nat {
    if s == [] then 0 else (if IsPathSeparator(s[0]) then 1 else 0) + SeparatorCount(s[1..])
  }

  /** Every piece between separators, empty ones included. */
  function RawSplit(s: string): (r: seq<string>)
    ensures |r| == SeparatorCount(s) + 1
    ensures forall k :: 0 <= k < |r| ==> HasNoSeparator(r[k])
  {
    if s == [] then [[]]
    else if IsPathSeparator(s[0]) then [[]] + RawSplit(s[1..])
    else
      var rest := RawSplit(s[1..]);
      [[s[0]] + rest[0]] + rest[1..]
  }

  /** The segments joined back with `/`. */
  function JoinWithSlash(segments: seq<string>): string
    requires |segments| > 0
  {
    if |segments| == 1 then segments[0] else segments[0] + "/" + JoinWithSlash(segments[1..])
  }

  /** `s` with every backslash turned into a slash. */
  function SlashesOnly(s: string): (r: string)
    ensures |r| == |s|
  {
    if s == [] then [] else [if s[0] == '\\' then '/' else s[0]] + SlashesOnly(s[1..])
  }

  /** Splitting loses nothing but the choice of separator. */
  lemma {:induction false} RawSplitJoins(s: string)
    ensures JoinWithSlash(RawSplit(s)) == SlashesOnly(s)
  {
    if s == [] {
    } else if IsPathSeparator(s[0]) {
      RawSplitJoins(s[1..]);
      assert RawSplit(s) == [[]] + RawSplit(s[1..]);
    } else {
      RawSplitJoins(s[1..]);
      var rest := RawSplit(s[1..]);
      var r := RawSplit(s);
      assert r == [[s[0]] + rest[0]] + rest[1..];
      if |rest| == 1 {
        assert JoinWithSlash(r) == [s[0]] + rest[0];
      } else {
        assert r[1..] == rest[1..];
        assert JoinWithSlash(r) == [s[0]] + rest[0] + "/" + JoinWithSlash(rest[1..]);
        assert JoinWithSlash(rest) == rest[0] + "/" + JoinWithSlash(rest[1..]);
      }
    }
  }

  /** A separator-free piece is one segment. */
  lemma {:induction false} RawSplitWithoutSeparator(a: string)
    requires HasNoSeparator(a)
    ensures RawSplit(a) == [a]
  {
    if a != [] {
      RawSplitWithoutSeparator(a[1..]);
      assert [a[0]] + a[1..] == a;
    }
  }

  /** A separator-free piece followed by a separator is the first segment. */
  lemma {:induction false} RawSplitFirstSegment(a: string, sep: char, rest: string)
    requires HasNoSeparator(a) && IsPathSeparator(sep)
    ensures RawSplit(a + [sep] + rest) == [a] + RawSplit(rest)
  {
    if a == [] {
      assert a + [sep] + rest == [sep] + rest;
      assert ([sep] + rest)[1..] == rest;
    } else {
      var s := a + [sep] + rest;
      assert s[0] == a[0] && s[1..] == a[1..] + [sep] + rest;
      RawSplitFirstSegment(a[1..], sep, rest);
      assert [a[0]] + a[1..] == a;
    }
  }

  /** Removes the empty strings at the end, as `split` does with limit 0. */
  function DropTrailingEmpty(ss: seq<string>): (r: seq<string>)
    ensures r <= ss
    ensures r == [] || r[|r| - 1] != []
    ensures forall k :: |r| <= k < |ss| ==> ss[k] == []
  {
    if ss == [] then []
    else if ss[|ss| - 1] == [] then DropTrailingEmpty(ss[..|ss| - 1])
    else ss
  }

  /** `s.split("[/\\\\]")`: with no separator in `s` the result is `[s]`
      itself (so `""` gives `[""]`); otherwise every piece, the leading empty
      one kept, and the trailing empty ones dropped. */
  function SplitPath(s: string): (r: seq<string>)
    ensures HasNoSeparator(s) ==> r == [s]
    ensures !HasNoSeparator(s) ==> r <= RawSplit(s) && (r == [] || r[|r| - 1] != [])
    ensures !HasNoSeparator(s) ==> forall k :: |r| <= k < |RawSplit(s)| ==> RawSplit(s)[k] == []
    ensures forall k :: 0 <= k < |r| ==> HasNoSeparator(r[k])
  {
    if HasNoSeparator(s) then [s] else DropTrailingEmpty(RawSplit(s))
  }

  /** A path `/a/b/c` of separator-free non-empty `c` splits into
      `["", a, b, c]`. */
  lemma SplitThreeSegmentPath(a: string, b: string, c: string)
    requires HasNoSeparator(a) && HasNoSeparator(b) && HasNoSeparator(c) && c != []
    ensures SplitPath("/" + a + "/" + b + "/" + c) == ["", a, b, c]
  {
    var s := "/" + a + "/" + b + "/" + c;
    assert s == [] + ['/'] + (a + ['/'] + (b + ['/'] + c));
    RawSplitFirstSegment([], '/', a + ['/'] + (b + ['/'] + c));
    RawSplitFirstSegment(a, '/', b + ['/'] + c);
    RawSplitFirstSegment(b, '/', c);
    RawSplitWithoutSeparator(c);
    assert RawSplit(s) == ["", a, b, c];
    assert !HasNoSeparator(s) by { assert s[0] == '/'; }
  }

  /** A path `/a` of separator-free non-empty `a` splits into `["", a]`. */
  lemma SplitOneSegmentPath(a: string)
    requires HasNoSeparator(a) && a != []
    ensures SplitPath("/" + a) == ["", a]
  {
    var s := "/" + a;
    assert s == [] + ['/'] + a;
    RawSplitFirstSegment([], '/', a);
    RawSplitWithoutSeparator(a);
    assert !HasNoSeparator(s) by { assert s[0] == '/'; }
  }
}
