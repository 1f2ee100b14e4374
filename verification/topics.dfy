/**
 * The trending-topics route (app/api/trending-topics/route.ts): it takes the section of the
 * newest scraped text that follows `Trending Keywords and Scores:`, reads one topic from
 * each line of the form `1. keyword - Score: 97`, and answers the first 32 of them. The
 * lines are the ones `get_trending_keywords` (scripts/topics.py) returns, and
 * `WrittenRoundTrip` shows that the route reads back exactly the keywords of that text.
 * scripts/trending_scraper.py puts the text in the day's file between the creators and the
 * hashtags and songs; `DailyFileTopics` shows what the route reads from that whole file.
 */
module Topics {
  import opened Wrappers
  import opened Text

  /** The heading that opens the keyword section. */
  const Marker := "Trending Keywords and Scores:"

  /** The error message when the section is missing or empty. */
  const NoSection := "No trending keywords section found"

  /** The most topics the route answers (`slice(0, 32)`). */
  const MaxTopics := 32

  /** JavaScript LineTerminator: the characters `.` in a pattern does not match. */
  predicate IsLineBreak(c: char) {
    c == '\n' || c == '\r' || c == '\U{2028}' || c == '\U{2029}'
  }

  // ---------------------------------------------------------------- split('\n')

  /** JavaScript `s.split('\n')`: the pieces between newlines, empty ones included. */
  function SplitLines(s: string): (r: seq<string>)
    ensures |r| > 0
    decreases |s|
  {
    if s == [] then [""]
    else
      var rest := SplitLines(s[1..]);
      if s[0] == '\n' then [""] + rest else [[s[0]] + rest[0]] + rest[1..]
  }

  /** The pieces joined back with newlines (`lines.join('\n')`). */
  function JoinLines(lines: seq<string>): (s: string)
    requires |lines| > 0
    decreases |lines|
  {
    if |lines| == 1 then lines[0] else lines[0] + "\n" + JoinLines(lines[1..])
  }

  /** No piece of a split holds a newline. */
  lemma {:induction false} SplitLinesHaveNoNewline(s: string)
    ensures forall a :: 0 <= a < |SplitLines(s)| ==> '\n' !in SplitLines(s)[a]
    decreases |s|
  {
    if s != [] {
      SplitLinesHaveNoNewline(s[1..]);
    }
  }

  /** Joining the pieces of a split gives the text back. */
  lemma {:induction false} JoinSplit(s: string)
    ensures JoinLines(SplitLines(s)) == s
    decreases |s|
  {
    if s != [] {
      var rest := SplitLines(s[1..]);
      JoinSplit(s[1..]);
      if s[0] == '\n' {
        assert ([""] + rest)[1..] == rest;
      } else if |rest| == 1 {
        assert s == [s[0]] + s[1..];
      } else {
        var r := [[s[0]] + rest[0]] + rest[1..];
        assert r[1..] == rest[1..];
        assert s == [s[0]] + s[1..];
      }
    }
  }

  /** Text without a newline splits into itself. */
  lemma {:induction false} SplitOneLine(a: string)
    requires '\n' !in a
    ensures SplitLines(a) == [a]
    decreases |a|
  {
    if a != [] {
      SplitOneLine(a[1..]);
      assert a == [a[0]] + a[1..];
    }
  }

  /** A line followed by a newline splits off as the first piece. */
  lemma {:induction false} SplitFirstLine(a: string, b: string)
    requires '\n' !in a
    ensures SplitLines(a + "\n" + b) == [a] + SplitLines(b)
    decreases |a|
  {
    var s := a + "\n" + b;
    if a == [] {
      assert s[1..] == b;
    } else {
      assert s[1..] == a[1..] + "\n" + b;
      SplitFirstLine(a[1..], b);
      assert [a[0]] + a[1..] == a;
    }
  }

  /** A leading newline splits off an empty first piece. */
  lemma SplitLeadingNewline(b: string)
    ensures SplitLines("\n" + b) == [""] + SplitLines(b)
  {
    assert ("\n" + b)[1..] == b;
  }

  /** Splitting lines joined with newlines gives the lines back. */
  lemma {:induction false} SplitJoin(lines: seq<string>)
    requires |lines| > 0 && forall a :: 0 <= a < |lines| ==> '\n' !in lines[a]
    ensures SplitLines(JoinLines(lines)) == lines
    decreases |lines|
  {
    if |lines| == 1 {
      SplitOneLine(lines[0]);
    } else {
      SplitJoin(lines[1..]);
      SplitFirstLine(lines[0], JoinLines(lines[1..]));
      assert [lines[0]] + lines[1..] == lines;
    }
  }

  // ------------------------------------------- line.match(/\d+\.\s*(.*?)\s*-\s*Score:/)

  /** `s[a..b]` is all ASCII digits. */
  predicate DigitsIn(s: string, a: nat, b: nat)
    requires a <= b <= |s|
  {
    forall k :: a <= k < b ==> IsDigit(s[k])
  }

  /** `s[a..b]` is all JavaScript whitespace. */
  predicate SpacesIn(s: string, a: nat, b: nat)
    requires a <= b <= |s|
  {
    forall k :: a <= k < b ==> IsSpace(JavaScript, s[k])
  }

  /** `s[a..b]` holds no line terminator. */
  predicate NoBreakIn(s: string, a: nat, b: nat)
    requires a <= b <= |s|
  {
    forall k :: a <= k < b ==> !IsLineBreak(s[k])
  }

  /** `\s*-\s*Score:` matches at `t`: spaces up to `u`, a `-` at `u`, spaces up to `w`, then `Score:`. */
  ghost predicate TailShape(s: string, t: nat) {
    exists u: nat, w: nat :: t <= u < w <= |s| && SpacesIn(s, t, u) && s[u] == '-'
                             && SpacesIn(s, u + 1, w) && StartsAt(s, w, "Score:")
  }

  /**
   * The pattern matches at `i` with the capture `s[q..t]`: the digits `s[i..j]`, the `.` at
   * `j`, spaces up to `q`, a capture without line terminators, then the tail at `t`.
   */
  ghost predicate Decomposes(s: string, i: nat, j: nat, q: nat, t: nat) {
    && i < j < q <= t <= |s|
    && DigitsIn(s, i, j) && s[j] == '.' && SpacesIn(s, j + 1, q)
    && NoBreakIn(s, q, t) && TailShape(s, t)
  }

  /** Some match of the pattern starts at `i`. */
  ghost predicate MatchesAt(s: string, i: nat) {
    exists j: nat, q: nat, t: nat :: Decomposes(s, i, j, q, t)
  }

  /** The end of the run of ASCII digits that starts at `i`. */
  function DigitsEnd(s: string, i: nat): (j: nat)
    requires i <= |s|
    ensures i <= j <= |s| && DigitsIn(s, i, j) && (j == |s| || !IsDigit(s[j]))
    decreases |s| - i
  {
    if i == |s| || !IsDigit(s[i]) then i else DigitsEnd(s, i + 1)
  }

  /** The tail `\s*-\s*Score:` matches at `t`; its `\s*` are greedy and neither `-` nor `S` is a space. */
  predicate ScoreTailAt(s: string, t: nat)
    requires t <= |s|
  {
    var u := SkipSpaces(JavaScript, s, t);
    u < |s| && s[u] == '-' && StartsAt(s, SkipSpaces(JavaScript, s, u + 1), "Score:")
  }

  /** The lazy `(.*?)` from `t` on: the first place where the tail matches, before any line terminator. */
  function LazyEnd(s: string, t: nat): (r: Option<nat>)
    requires t <= |s|
    ensures r.Some? ==> t <= r.value <= |s|
    ensures r.Some? ==> forall k :: t <= k < r.value ==> !IsLineBreak(s[k])
    decreases |s| - t
  {
    if ScoreTailAt(s, t) then Some(t)
    else if t == |s| || IsLineBreak(s[t]) then None
    else LazyEnd(s, t + 1)
  }

  /** The capture of a match that starts at `i`, if one does; like `.`, it never spans a line break. */
  function CaptureAt(s: string, i: nat): (r: Option<string>)
    requires i <= |s|
    ensures r.Some? ==> OnOneLine(r.value)
  {
    var j := DigitsEnd(s, i);
    if j == i || j == |s| || s[j] != '.' then None
    else
      var q := SkipSpaces(JavaScript, s, j + 1);
      match LazyEnd(s, q)
      case None => None
      case Some(t) => Some(s[q..t])
  }

  /** A match that starts at or after `i` captures `w`. */
  ghost predicate CapturedFrom(s: string, i: nat, w: string) {
    exists k: nat :: i <= k <= |s| && CaptureAt(s, k) == Some(w)
  }

  /** No line break in `w`. */
  predicate OnOneLine(w: string) {
    forall k :: 0 <= k < |w| ==> !IsLineBreak(w[k])
  }

  /**
   * `line.match(...)[1]` for the leftmost match at or after `i`, or `None` (`null`). A capture
   * is the one of a match that starts at or after `i`, and it lies on one line.
   */
  function FirstCapture(s: string, i: nat): (r: Option<string>)
    requires i <= |s|
    ensures r.Some? ==> OnOneLine(r.value) && CapturedFrom(s, i, r.value)
    decreases |s| - i
  {
    if CaptureAt(s, i).Some? then CaptureAt(s, i)
    else if i == |s| then None
    else FirstCapture(s, i + 1)
  }

  /** The greedy reading of the tail is the declarative one. */
  lemma TailShapeIff(s: string, t: nat)
    requires t <= |s|
    ensures ScoreTailAt(s, t) <==> TailShape(s, t)
  {
    if ScoreTailAt(s, t) {
      ScoreTailShaped(s, t);
    }
    if TailShape(s, t) {
      ShapedScoreTail(s, t);
    }
  }

  /** The greedy reading of a matching tail gives the places the declarative one asks for. */
  lemma ScoreTailShaped(s: string, t: nat)
    requires t <= |s| && ScoreTailAt(s, t)
    ensures TailShape(s, t)
  {
    var u := SkipSpaces(JavaScript, s, t);
    var w := SkipSpaces(JavaScript, s, u + 1);
    SkipSpacesSkipsSpace(JavaScript, s, t);
    SkipSpacesSkipsSpace(JavaScript, s, u + 1);
    assert SpacesIn(s, t, u);
    assert SpacesIn(s, u + 1, w);
    TailShapeFrom(s, t, u, w);
  }

  /** Spaces to a `-` at `u`, spaces to `w` and `Score:` there make a tail at `t`. */
  lemma TailShapeFrom(s: string, t: nat, u: nat, w: nat)
    requires t <= u < w <= |s| && SpacesIn(s, t, u) && s[u] == '-'
    requires SpacesIn(s, u + 1, w) && StartsAt(s, w, "Score:")
    ensures TailShape(s, t)
  {
  }

  /** Any places the declarative tail finds are the ones the greedy reading reaches. */
  lemma ShapedScoreTail(s: string, t: nat)
    requires t <= |s| && TailShape(s, t)
    ensures ScoreTailAt(s, t)
  {
    var u: nat, w: nat :| t <= u < w <= |s| && SpacesIn(s, t, u) && s[u] == '-'
                          && SpacesIn(s, u + 1, w) && StartsAt(s, w, "Score:");
    SkipSpacesTo(s, t, u);
    assert s[w] == "Score:"[0];
    SkipSpacesTo(s, u + 1, w);
  }

  /** Skipping spaces from `a` over whitespace up to a non-space at `b` stops at `b`. */
  lemma {:induction false} SkipSpacesTo(s: string, a: nat, b: nat)
    requires a <= b < |s| && SpacesIn(s, a, b) && !IsSpace(JavaScript, s[b])
    ensures SkipSpaces(JavaScript, s, a) == b
    decreases b - a
  {
    if a < b {
      SkipSpacesTo(s, a + 1, b);
    }
  }

  /** Skipping spaces from `a` stops no later than a non-space at `b >= a`. */
  lemma {:induction false} SkipSpacesBefore(s: string, a: nat, b: nat)
    requires a <= b < |s| && !IsSpace(JavaScript, s[b])
    ensures SkipSpaces(JavaScript, s, a) <= b
    decreases b - a
  {
    if a < b && IsSpace(JavaScript, s[a]) {
      SkipSpacesBefore(s, a + 1, b);
    }
  }

  /** The digit run that ends at a `.` is the one `DigitsEnd` finds. */
  lemma {:induction false} DigitsEndAt(s: string, i: nat, j: nat)
    requires i <= j < |s| && DigitsIn(s, i, j) && !IsDigit(s[j])
    ensures DigitsEnd(s, i) == j
    decreases j - i
  {
    if i < j {
      DigitsEndAt(s, i + 1, j);
    }
  }

  /** The lazy capture ends at the first tail from `t` on, and holds no line terminator. */
  lemma {:induction false} LazyEndFirst(s: string, t: nat)
    requires t <= |s| && LazyEnd(s, t).Some?
    ensures ScoreTailAt(s, LazyEnd(s, t).value) && NoBreakIn(s, t, LazyEnd(s, t).value)
    ensures forall k :: t <= k < LazyEnd(s, t).value ==> !ScoreTailAt(s, k)
    decreases |s| - t
  {
    if !ScoreTailAt(s, t) {
      LazyEndFirst(s, t + 1);
    }
  }

  /** A tail at `e`, reachable from `t` without a line terminator, is found by the lazy capture. */
  lemma {:induction false} LazyEndReaches(s: string, t: nat, e: nat)
    requires t <= e <= |s| && NoBreakIn(s, t, e) && ScoreTailAt(s, e)
    ensures LazyEnd(s, t).Some? && LazyEnd(s, t).value <= e
    decreases e - t
  {
    if t < e && !ScoreTailAt(s, t) {
      LazyEndReaches(s, t + 1, e);
    }
  }

  /**
   * What `CaptureAt` returns is the capture the pattern gives at `i`: the `\s*` before the
   * group takes every space, and the lazy group ends at the first tail after it.
   */
  lemma CaptureSound(s: string, i: nat)
    requires i <= |s| && CaptureAt(s, i).Some?
    ensures exists j: nat, q: nat, t: nat ::
              && Decomposes(s, i, j, q, t) && CaptureAt(s, i).value == s[q..t]
              && (q == |s| || !IsSpace(JavaScript, s[q]))
              && forall k :: q <= k < t ==> !TailShape(s, k)
  {
    var j := DigitsEnd(s, i);
    var q := SkipSpaces(JavaScript, s, j + 1);
    SkipSpacesSkipsSpace(JavaScript, s, j + 1);
    var t := LazyEnd(s, q).value;
    LazyEndFirst(s, q);
    TailShapeIff(s, t);
    forall k | q <= k < t
      ensures !TailShape(s, k)
    {
      TailShapeIff(s, k);
    }
    assert Decomposes(s, i, j, q, t);
  }

  /** Wherever the pattern can match, `CaptureAt` finds a capture. */
  lemma CaptureComplete(s: string, i: nat)
    requires i <= |s| && MatchesAt(s, i)
    ensures CaptureAt(s, i).Some?
  {
    var j: nat, q: nat, t: nat :| Decomposes(s, i, j, q, t);
    TailShapeIff(s, t);
    CaptureFromParts(s, i, j, q, t);
  }

  /** The capture search succeeds at `i` given the parts of a match there. */
  lemma CaptureFromParts(s: string, i: nat, j: nat, q: nat, t: nat)
    requires i < j < q <= t <= |s| && DigitsIn(s, i, j) && s[j] == '.' && SpacesIn(s, j + 1, q)
    requires NoBreakIn(s, q, t) && ScoreTailAt(s, t)
    ensures CaptureAt(s, i).Some?
  {
    DigitsEndAt(s, i, j);
    LazyFromParts(s, j + 1, q, t);
    CaptureWhenLazy(s, i, j);
  }

  /** The search succeeds at `i` when the digits end at a `.` and the lazy group then ends. */
  lemma CaptureWhenLazy(s: string, i: nat, j: nat)
    requires i < j < |s| && DigitsEnd(s, i) == j && s[j] == '.'
    requires LazyEnd(s, SkipSpaces(JavaScript, s, j + 1)).Some?
    ensures CaptureAt(s, i).Some?
  {
  }

  /** After spaces from `a` to `q` and a stretch without line terminators, a tail at `t` ends the group. */
  lemma LazyFromParts(s: string, a: nat, q: nat, t: nat)
    requires a <= q <= t <= |s| && SpacesIn(s, a, q) && NoBreakIn(s, q, t) && ScoreTailAt(s, t)
    ensures LazyEnd(s, SkipSpaces(JavaScript, s, a)).Some?
  {
    var q' := SkipSpaces(JavaScript, s, a);
    SkipSpacesSkipsSpace(JavaScript, s, a);
    assert q <= q';
    if q' <= t {
      LazyEndReaches(s, q', t);
    } else {
      TailAtSpaceRun(s, t, q');
      LazyEndReaches(s, q', q');
    }
  }

  /** A tail that starts inside a run of spaces ending at `q` also starts at `q`. */
  lemma TailAtSpaceRun(s: string, t: nat, q: nat)
    requires t <= q <= |s| && SpacesIn(s, t, q) && (q == |s| || !IsSpace(JavaScript, s[q]))
    requires ScoreTailAt(s, t)
    ensures ScoreTailAt(s, q)
  {
    SkipSpacesSkipsSpace(JavaScript, s, t);
    SkipSpacesBefore(s, t, SkipSpaces(JavaScript, s, t));
    if q < |s| {
      SkipSpacesTo(s, t, q);
    }
  }

  /** `CaptureAt` finds a capture exactly where the pattern matches. */
  lemma CaptureIffMatch(s: string, i: nat)
    requires i <= |s|
    ensures CaptureAt(s, i).Some? <==> MatchesAt(s, i)
  {
    if CaptureAt(s, i).Some? {
      CaptureMatches(s, i);
    } else {
      NoCaptureNoMatch(s, i);
    }
  }

  /** Where `CaptureAt` finds nothing the pattern does not match. */
  lemma NoCaptureNoMatch(s: string, i: nat)
    requires i <= |s| && CaptureAt(s, i).None?
    ensures !MatchesAt(s, i)
  {
    if MatchesAt(s, i) {
      CaptureComplete(s, i);
    }
  }

  /** Where `CaptureAt` finds a capture the pattern matches. */
  lemma CaptureMatches(s: string, i: nat)
    requires i <= |s| && CaptureAt(s, i).Some?
    ensures MatchesAt(s, i)
  {
    CaptureSound(s, i);
  }

  /** `line.match` is `null` exactly when the pattern matches nowhere from `i` on. */
  lemma {:induction false} FirstCaptureNone(s: string, i: nat)
    requires i <= |s|
    ensures FirstCapture(s, i).None? <==> forall k :: i <= k <= |s| ==> !MatchesAt(s, k)
    decreases |s| - i
  {
    if CaptureAt(s, i).None? {
      NoCaptureNoMatch(s, i);
      if i < |s| {
        FirstCaptureNone(s, i + 1);
        assert FirstCapture(s, i) == FirstCapture(s, i + 1);
        NoMatchStep(s, i);
      }
    } else {
      CaptureMatches(s, i);
    }
  }

  /** No match from `i` on is no match at `i` and none from `i + 1` on. */
  lemma NoMatchStep(s: string, i: nat)
    requires i < |s|
    ensures (forall k :: i <= k <= |s| ==> !MatchesAt(s, k)) <==> !MatchesAt(s, i) && forall k :: i + 1 <= k <= |s| ==> !MatchesAt(s, k)
  {
  }

  /** A capture `line.match` returns comes from the leftmost place where the pattern matches. */
  lemma {:induction false} FirstCaptureLeftmost(s: string, i: nat)
    requires i <= |s| && FirstCapture(s, i).Some?
    ensures exists k: nat :: i <= k <= |s| && FirstCapture(s, i) == CaptureAt(s, k) && NoCaptureIn(s, i, k)
    decreases |s| - i
  {
    if CaptureAt(s, i).None? {
      FirstCaptureLeftmost(s, i + 1);
      var k: nat :| i + 1 <= k <= |s| && FirstCapture(s, i + 1) == CaptureAt(s, k) && NoCaptureIn(s, i + 1, k);
      assert NoCaptureIn(s, i, k);
    } else {
      assert NoCaptureIn(s, i, i);
    }
  }

  /** No match of the pattern starts in `i..k`. */
  predicate NoCaptureIn(s: string, i: nat, k: nat)
    requires k <= |s|
  {
    forall m :: i <= m < k ==> CaptureAt(s, m).None?
  }

  // ---------------------------------------------------------------- the pipeline

  /** `line.trim() && line.includes('.')`: the lines the route looks at. */
  predicate Considered(line: string) {
    Strip(JavaScript, line) != "" && '.' in line
  }

  /**
   * The topic of one line: the trimmed capture, kept only when the line is considered,
   * the pattern matches and the trimmed capture is not empty (`filter(Boolean)`).
   */
  function TopicOf(line: string): (r: Option<string>)
    ensures r.Some? ==> r.value != "" && Strip(JavaScript, r.value) == r.value
  {
    if !Considered(line) then None
    else
      match FirstCapture(line, 0)
      case None => None
      case Some(g) =>
        StripIdempotent(JavaScript, g);
        if Strip(JavaScript, g) == "" then None else Some(Strip(JavaScript, g))
  }

  /** The topic of a line as a sequence of none or one. */
  function TopicSeq(line: string): (r: seq<string>)
    ensures |r| <= 1
  {
    match TopicOf(line)
    case None => []
    case Some(t) => [t]
  }

  /** The topics of a sequence of lines, in line order. */
  function Collect(lines: seq<string>): (r: seq<string>)
    ensures |r| <= |lines|
    decreases |lines|
  {
    if lines == [] then [] else TopicSeq(lines[0]) + Collect(lines[1..])
  }

  /** Every topic is trimmed and not empty. */
  predicate AllTrimmed(ts: seq<string>) {
    forall a :: 0 <= a < |ts| ==> ts[a] != "" && Strip(JavaScript, ts[a]) == ts[a]
  }

  /** Every collected topic is trimmed and not empty. */
  lemma {:induction false} CollectTrimmed(lines: seq<string>)
    ensures AllTrimmed(Collect(lines))
    decreases |lines|
  {
    if lines != [] {
      CollectTrimmed(lines[1..]);
      TopicSeqTrimmed(lines[0]);
      TrimmedAppend(TopicSeq(lines[0]), Collect(lines[1..]));
    }
  }

  lemma TopicSeqTrimmed(line: string)
    ensures AllTrimmed(TopicSeq(line))
  {
  }

  lemma TrimmedAppend(h: seq<string>, t: seq<string>)
    requires AllTrimmed(h) && AllTrimmed(t)
    ensures AllTrimmed(h + t)
  {
    forall a | 0 <= a < |h + t|
      ensures (h + t)[a] != "" && Strip(JavaScript, (h + t)[a]) == (h + t)[a]
    {
      if a >= |h| {
        assert (h + t)[a] == t[a - |h|];
      }
    }
  }

  /** At most `n` leading elements (`slice(0, n)`). */
  function Take(s: seq<string>, n: nat): (r: seq<string>)
    ensures |r| == if |s| <= n then |s| else n
    ensures r == s[..|r|]
  {
    if |s| <= n then s else s[..n]
  }

  /** The topics of a keyword section. */
  function SectionTopics(section: string): (r: seq<string>)
    ensures |r| <= MaxTopics
  {
    Take(Collect(SplitLines(section)), MaxTopics)
  }

  /** Every topic the route answers is trimmed and not empty (`trim()` and `filter(Boolean)`). */
  lemma TopicsTrimmed(content: string)
    ensures var r := TrendingTopics(content);
            r.Ok? ==> forall a :: 0 <= a < |r.value| ==> r.value[a] != "" && Strip(JavaScript, r.value[a]) == r.value[a]
  {
    if TrendingTopics(content).Ok? {
      var section := SecondPiece(content, Marker).value;
      CollectTrimmed(SplitLines(section));
    }
  }

  /**
   * The route's answer for the text of the newest scraped file: an error when the
   * heading is missing or nothing follows it, otherwise the topics of its section.
   */
  function TrendingTopics(content: string): (r: Result<seq<string>>)
    ensures r.Err? ==> r.message == NoSection
    ensures r.Err? <==> !Contains(content, Marker) || IsSecondPiece(content, Marker, "")
    ensures r.Ok? ==> |r.value| <= MaxTopics
  {
    match SecondPiece(content, Marker)
    case None => Err(NoSection)
    case Some(section) =>
      if section == "" then Err(NoSection)
      else
        SecondPieceFalsy(content, section);
        Ok(SectionTopics(section))
  }

  /** A non-empty section is not also the empty piece. */
  lemma SecondPieceFalsy(content: string, section: string)
    requires IsSecondPiece(content, Marker, section) && section != ""
    ensures !IsSecondPiece(content, Marker, "")
  {
    if IsSecondPiece(content, Marker, "") {
      SecondPieceUnique(content, Marker, section, "");
    }
  }

  /** Collecting is line by line: the topics of two runs of lines are concatenated. */
  lemma {:induction false} CollectAppend(a: seq<string>, b: seq<string>)
    ensures Collect(a + b) == Collect(a) + Collect(b)
    decreases |a|
  {
    if a != [] {
      assert (a + b)[0] == a[0] && (a + b)[1..] == a[1..] + b;
      CollectAppend(a[1..], b);
      var h := TopicSeq(a[0]);
      assert h + (Collect(a[1..]) + Collect(b)) == (h + Collect(a[1..])) + Collect(b);
    } else {
      assert a + b == b;
    }
  }

  /** One line gives its topic, or nothing. */
  lemma CollectOne(line: string)
    ensures Collect([line]) == TopicSeq(line)
  {
    assert [line][1..] == [];
  }

  /**
   * A line is dropped exactly when it is blank, has no `.`, the pattern does not match
   * anywhere in it, or the trimmed capture is empty.
   */
  lemma LineDropped(line: string)
    ensures TopicOf(line).None? <==>
              || Strip(JavaScript, line) == "" || '.' !in line
              || (forall k :: 0 <= k <= |line| ==> !MatchesAt(line, k))
              || (FirstCapture(line, 0).Some? && Strip(JavaScript, FirstCapture(line, 0).value) == "")
  {
    FirstCaptureNone(line, 0);
  }

  /** The filter before the pattern drops nothing the pattern would accept. */
  lemma MatchIsConsidered(line: string, k: nat)
    requires k <= |line| && MatchesAt(line, k)
    ensures Considered(line)
  {
    var j: nat, q: nat, t: nat :| Decomposes(line, k, j, q, t);
    assert IsDigit(line[k]);
    DigitNotSpace(JavaScript, line[k]);
    StripRemovesOnlySpace(JavaScript, line);
    assert multiset(line)[line[k]] > 0;
  }

  /** The section between the first and the second heading is the only text read. */
  lemma SectionBetweenMarkers(content: string, p: nat, e: nat)
    requires FirstOccurrence(content, Marker, p)
    requires p + |Marker| <= e <= |content| && NoOccurrence(content, Marker, p + |Marker|, e)
    requires e == |content| || StartsAt(content, e, Marker)
    ensures TrendingTopics(content)
            == if e == p + |Marker| then Err(NoSection) else Ok(SectionTopics(content[p + |Marker|..e]))
  {
    var q := p + |Marker|;
    var section := content[q..e];
    assert StartsAt(content, q, section);
    assert PieceAt(content, Marker, p, section);
    assert Contains(content, Marker);
    SecondPieceUnique(content, Marker, section, SecondPiece(content, Marker).value);
  }

  // ------------------------------------------------- what scripts/topics.py writes

  /** One scraped keyword with its score, both as text. */
  datatype Entry = Entry(keyword: string, score: string)

  /** What separates a keyword from its score. */
  const ScoreSep := " - Score: "

  /** The line scripts/topics.py writes for the `idx`-th keyword. */
  function EntryLine(idx: nat, e: Entry): (line: string)
    ensures '.' in line
  {
    var d := NatToString(idx);
    var line := d + ". " + e.keyword + ScoreSep + e.score;
    assert line[|d|] == '.';
    line
  }

  /** Every line written for `items`, numbered from `idx`, each ended by a newline. */
  function Listing(items: seq<Entry>, idx: nat): string
    decreases |items|
  {
    if items == [] then "" else EntryLine(idx, items[0]) + "\n" + Listing(items[1..], idx + 1)
  }

  /** What `get_trending_keywords` returns when the page lists no keyword. */
  const NoneFound := "No trending keywords found."

  /** The heading, then the listing numbered from 1. */
  function Written(items: seq<Entry>): string {
    Marker + "\n" + Listing(items, 1)
  }

  /**
   * `get_trending_keywords` when fetching and parsing the page succeed: the text it returns
   * holds the heading exactly when keywords were found.
   */
  function WriteKeywords(items: seq<Entry>): (r: string)
    ensures Contains(r, Marker) <==> items != []
  {
    if items == [] then
      assert forall k :: 0 <= k <= |NoneFound| ==> !StartsAt(NoneFound, k, Marker);
      NoneFound
    else
      assert StartsAt(Written(items), 0, Marker);
      Written(items)
  }

  /** The keywords of `items`, in order. */
  function Keywords(items: seq<Entry>): (r: seq<string>)
    ensures |r| == |items|
    decreases |items|
  {
    if items == [] then [] else [items[0].keyword] + Keywords(items[1..])
  }

  /**
   * A keyword the route reads back unchanged: not empty, not padded with whitespace, on
   * one line, and without `Score:` in it.
   */
  predicate Readable(kw: string) {
    && kw != [] && !IsSpace(JavaScript, kw[0]) && !IsSpace(JavaScript, kw[|kw| - 1])
    && (forall k :: 0 <= k < |kw| ==> !IsLineBreak(kw[k]))
    && !Contains(kw, "Score:")
  }

  /** An entry the route reads back: a readable keyword, and a score without a newline. */
  predicate Writable(e: Entry) {
    Readable(e.keyword) && '\n' !in e.score
  }

  /** Neither the keyword nor the score of `e` holds the heading `h`. */
  predicate Unheaded(e: Entry, h: string) {
    !Contains(e.keyword, h) && !Contains(e.score, h)
  }

  /**
   * What the argument that a heading occurs nowhere in a listing needs of it: it starts
   * with `T`, ends with `:`, and holds neither `-` nor a newline.
   */
  predicate HeadingShape(h: string) {
    && |h| > 0 && h[0] == 'T' && h[|h| - 1] == ':'
    && forall j :: 0 <= j < |h| ==> h[j] != '-' && h[j] != '\n'
  }

  /** The route's heading has that shape. */
  lemma MarkerShape()
    ensures HeadingShape(Marker)
  {
  }

  /**
   * `s` is laid out as a written line: the digits `s[..n]`, `. `, the keyword, then
   * ` - Score: ` at `t`, and the score after it.
   */
  predicate LaidOut(s: string, n: nat, kw: string) {
    var t := n + 2 + |kw|;
    && 0 < n && t + 10 <= |s| && DigitsIn(s, 0, n) && s[n] == '.' && s[n + 1] == ' '
    && s[n + 2..t] == kw && StartsAt(s, t, ScoreSep)
  }

  /** The characters of the separator at `t`. */
  lemma SeparatorChars(s: string, t: nat)
    requires StartsAt(s, t, ScoreSep)
    ensures s[t] == ' ' && s[t + 1] == '-' && s[t + 2] == ' ' && s[t + 9] == ' '
    ensures StartsAt(s, t + 3, "Score:")
    ensures forall k :: t <= k < t + 10 ==> s[k] != 'T' && s[k] != '\n'
  {
    SeparatorShape();
    CopyChars(s, t, ScoreSep);
    assert s[t + 3..t + 9] == s[t..t + 10][3..9];
  }

  /** The separator, character by character. */
  lemma SeparatorShape()
    ensures |ScoreSep| == 10 && ScoreSep[0] == ' ' && ScoreSep[1] == '-' && ScoreSep[2] == ' '
    ensures ScoreSep[9] == ' ' && ScoreSep[3..9] == "Score:"
    ensures forall j :: 0 <= j < 10 ==> ScoreSep[j] != 'T' && ScoreSep[j] != '\n'
  {
  }

  /** The characters of an occurrence of `w` at `t`. */
  lemma CopyChars(s: string, t: nat, w: string)
    requires StartsAt(s, t, w)
    ensures forall k :: t <= k < t + |w| ==> s[k] == w[k - t]
  {
    forall k | t <= k < t + |w|
      ensures s[k] == w[k - t]
    {
      assert s[k] == s[t..t + |w|][k - t];
    }
  }

  /** A written line is laid out around its keyword, and ends with the score. */
  lemma EntryLaidOut(idx: nat, e: Entry)
    ensures var n := |NatToString(idx)|;
            && LaidOut(EntryLine(idx, e), n, e.keyword)
            && EntryLine(idx, e)[n + 12 + |e.keyword|..] == e.score
  {
    LaidOutLine(NatToString(idx), e.keyword, e.score);
  }

  /** A numeral, `. `, a keyword, the separator and a score are laid out as a written line. */
  lemma LaidOutLine(d: string, kw: string, score: string)
    requires |d| > 0 && AllDigits(d)
    ensures var line := d + ". " + kw + ScoreSep + score;
            LaidOut(line, |d|, kw) && line[|d| + 12 + |kw|..] == score
  {
    var line := d + ". " + kw + ScoreSep + score;
    var n := |d|;
    PartsOf(d, ". ", kw, ScoreSep, score);
    forall k | 0 <= k < n
      ensures IsDigit(line[k])
    {
      assert line[k] == line[..n][k] == d[k];
    }
    assert line[n] == line[n..n + 2][0];
    assert line[n + 1] == line[n..n + 2][1];
  }

  /** Where each of five parts sits in their concatenation. */
  lemma PartsOf(p0: string, p1: string, p2: string, p3: string, p4: string)
    ensures var s := p0 + p1 + p2 + p3 + p4;
            var a := |p0| + |p1|;
            var b := a + |p2|;
            var c := b + |p3|;
            && s[..|p0|] == p0 && s[|p0|..a] == p1 && s[a..b] == p2 && s[b..c] == p3 && s[c..] == p4
  {
  }

  /** Inside the keyword no tail can start: that would need `Score:` in the keyword. */
  lemma NoTailInKeyword(s: string, kw: string, o: nat, k: nat)
    requires Readable(kw) && o <= k < o + |kw| && o + |kw| + 2 <= |s|
    requires s[o..o + |kw|] == kw && s[o + |kw|] == ' ' && s[o + |kw| + 1] == '-'
    ensures !ScoreTailAt(s, k)
  {
    var t := o + |kw|;
    assert s[t - 1] == kw[|kw| - 1];
    TailPositions(s, k, t);
    var u := SkipSpaces(JavaScript, s, k);
    NoScoreNearKeyword(s, o, kw, SkipSpaces(JavaScript, s, u + 1));
  }

  /**
   * From inside text that ends with a non-space at `t - 1`, followed by ` -`, the tail's
   * `-` is looked for before `t`, and `Score:` before `t` or right after that `-`.
   */
  lemma TailPositions(s: string, k: nat, t: nat)
    requires k < t && t + 2 <= |s| && !IsSpace(JavaScript, s[t - 1]) && s[t] == ' ' && s[t + 1] == '-'
    ensures SkipSpaces(JavaScript, s, k) < t
    ensures var w := SkipSpaces(JavaScript, s, SkipSpaces(JavaScript, s, k) + 1);
            k < w && (w < t || w == t + 1)
  {
    SkipSpacesBefore(s, k, t - 1);
    var u := SkipSpaces(JavaScript, s, k);
    if u + 1 <= t - 1 {
      SkipSpacesBefore(s, u + 1, t - 1);
    } else {
      SkipSpacesTo(s, t, t + 1);
    }
  }

  /** `Score:` starts neither inside the keyword nor across its end, nor at the separator's `-`. */
  lemma NoScoreNearKeyword(s: string, o: nat, kw: string, w: nat)
    requires o + |kw| + 2 <= |s| && s[o..o + |kw|] == kw && !Contains(kw, "Score:")
    requires s[o + |kw|] == ' ' && s[o + |kw| + 1] == '-'
    requires o <= w && (w < o + |kw| || w == o + |kw| + 1)
    ensures !StartsAt(s, w, "Score:")
  {
    var t := o + |kw|;
    ScoreChars();
    if w + 6 <= t {
      SliceOccurrence(s, o, kw, w, "Score:");
      assert !StartsAt(kw, w - o, "Score:");
    } else if w < t {
      assert s[t] != "Score:"[t - w];
    } else {
      assert s[w] != "Score:"[0];
    }
  }

  /** `Score:` begins with `S` and holds no space. */
  lemma ScoreChars()
    ensures "Score:"[0] == 'S' && forall j :: 0 <= j < 6 ==> "Score:"[j] != ' '
  {
  }

  /** Inside a copy of `w` at `o`, an occurrence of `m` is one in `w`. */
  lemma SliceOccurrence(s: string, o: nat, w: string, k: nat, m: string)
    requires o + |w| <= |s| && s[o..o + |w|] == w && o <= k && k + |m| <= o + |w|
    ensures StartsAt(s, k, m) <==> StartsAt(w, k - o, m)
  {
    var a := s[k..k + |m|];
    var b := w[k - o..k - o + |m|];
    forall x | 0 <= x < |m|
      ensures a[x] == b[x]
    {
      assert b[x] == w[k - o + x] == s[o..o + |w|][k - o + x] == s[k + x];
    }
    assert a == b;
  }

  /** The tail matches right after the keyword. */
  lemma TailAfterKeyword(s: string, n: nat, kw: string)
    requires LaidOut(s, n, kw)
    ensures ScoreTailAt(s, n + 2 + |kw|)
  {
    var t := n + 2 + |kw|;
    SeparatorChars(s, t);
    SkipSpacesTo(s, t, t + 1);
    assert s[t + 3] == "Score:"[0];
    SkipSpacesTo(s, t + 2, t + 3);
    assert StartsAt(s, t + 3, "Score:");
  }

  /** A laid-out line with a readable keyword captures the keyword. */
  lemma LaidOutCapture(s: string, n: nat, kw: string)
    requires LaidOut(s, n, kw) && Readable(kw)
    ensures CaptureAt(s, 0) == Some(kw)
  {
    var o := n + 2;
    DigitsEndAt(s, 0, n);
    assert s[o] == kw[0];
    SkipSpacesTo(s, n + 1, o);
    KeywordIsLazy(s, n, kw);
    CaptureAtParts(s, 0, n, o, o + |kw|);
  }

  /** The capture at `i` from the positions the search computes. */
  lemma CaptureAtParts(s: string, i: nat, j: nat, q: nat, t: nat)
    requires i < j < |s| && DigitsEnd(s, i) == j && s[j] == '.'
    requires SkipSpaces(JavaScript, s, j + 1) == q && LazyEnd(s, q) == Some(t)
    ensures CaptureAt(s, i) == Some(s[q..t])
  {
  }

  /** In a laid-out line the lazy capture after `. ` ends where the keyword ends. */
  lemma KeywordIsLazy(s: string, n: nat, kw: string)
    requires LaidOut(s, n, kw) && Readable(kw)
    ensures LazyEnd(s, n + 2) == Some(n + 2 + |kw|)
  {
    var o := n + 2;
    var t := o + |kw|;
    TailAfterKeyword(s, n, kw);
    SeparatorChars(s, t);
    forall k | o <= k < t
      ensures !ScoreTailAt(s, k) && !IsLineBreak(s[k])
    {
      NoTailInKeyword(s, kw, o, k);
      assert s[k] == kw[k - o];
    }
    LazyEndAt(s, o, t);
  }

  /** A laid-out line passes the filter before the pattern. */
  lemma LaidOutConsidered(s: string, n: nat, kw: string)
    requires LaidOut(s, n, kw)
    ensures Considered(s)
  {
    assert IsDigit(s[0]);
    DigitNotSpace(JavaScript, s[0]);
    StripFront(JavaScript, s, 1);
  }

  /** A written line gives back its keyword. */
  lemma EntryRoundTrip(idx: nat, e: Entry)
    requires Readable(e.keyword)
    ensures TopicOf(EntryLine(idx, e)) == Some(e.keyword)
  {
    var line := EntryLine(idx, e);
    var n := |NatToString(idx)|;
    EntryLaidOut(idx, e);
    LaidOutConsidered(line, n, e.keyword);
    LaidOutCapture(line, n, e.keyword);
    assert FirstCapture(line, 0) == Some(e.keyword);
    StripKeeps(JavaScript, e.keyword);
  }

  /** The lazy capture from `t` ends at `e` when the first tail is there. */
  lemma {:induction false} LazyEndAt(s: string, t: nat, e: nat)
    requires t <= e <= |s| && ScoreTailAt(s, e)
    requires forall k :: t <= k < e ==> !ScoreTailAt(s, k) && !IsLineBreak(s[k])
    ensures LazyEnd(s, t) == Some(e)
    decreases e - t
  {
    if t < e {
      LazyEndAt(s, t + 1, e);
    }
  }

  /** The written lines, numbered from `idx`. */
  function EntryLines(items: seq<Entry>, idx: nat): (r: seq<string>)
    ensures |r| == |items|
    decreases |items|
  {
    if items == [] then [] else [EntryLine(idx, items[0])] + EntryLines(items[1..], idx + 1)
  }

  /** The listing splits into its lines and a final empty piece. */
  lemma {:induction false} ListingSplits(items: seq<Entry>, idx: nat)
    requires forall a :: 0 <= a < |items| ==> Writable(items[a])
    ensures SplitLines(Listing(items, idx)) == EntryLines(items, idx) + [""]
    decreases |items|
  {
    if items != [] {
      NoNewlineInLine(idx, items[0]);
      SplitFirstLine(EntryLine(idx, items[0]), Listing(items[1..], idx + 1));
      ListingSplits(items[1..], idx + 1);
    }
  }

  /** A written line holds no newline. */
  lemma NoNewlineInLine(idx: nat, e: Entry)
    requires Writable(e)
    ensures '\n' !in EntryLine(idx, e)
  {
    EntryLaidOut(idx, e);
    LaidOutOneLine(EntryLine(idx, e), |NatToString(idx)|, e.keyword);
  }

  /** A laid-out line whose keyword and score hold no newline holds none. */
  lemma LaidOutOneLine(s: string, n: nat, kw: string)
    requires LaidOut(s, n, kw) && '\n' !in kw && '\n' !in s[n + 12 + |kw|..]
    ensures '\n' !in s
  {
    var t := n + 2 + |kw|;
    SeparatorChars(s, t);
    forall k | 0 <= k < |s|
      ensures s[k] != '\n'
    {
      if k < n {
        assert IsDigit(s[k]);
      } else if n + 2 <= k < t {
        assert s[k] == s[n + 2..t][k - n - 2];
      } else if t + 10 <= k {
        assert s[k] == s[t + 10..][k - t - 10];
      }
    }
  }

  /** The written lines, then the empty piece after the last newline, give back the keywords. */
  lemma {:induction false} CollectEntries(items: seq<Entry>, idx: nat)
    requires KeywordsReadable(items)
    ensures Collect(EntryLines(items, idx) + [""]) == Keywords(items)
    decreases |items|
  {
    if items == [] {
      CollectBlank();
    } else {
      assert Readable(items[0].keyword);
      assert KeywordsReadable(items[1..]) by {
        forall a | 0 <= a < |items| - 1
          ensures Readable(items[1..][a].keyword)
        {
          assert items[1..][a] == items[a + 1];
        }
      }
      CollectEntries(items[1..], idx + 1);
      CollectEntryStep(items, idx);
    }
  }

  /** Every keyword of `items` is readable. */
  predicate KeywordsReadable(items: seq<Entry>) {
    forall a :: 0 <= a < |items| ==> Readable(items[a].keyword)
  }

  /** The first written line gives its keyword, then the rest of the lines follow. */
  lemma CollectEntryStep(items: seq<Entry>, idx: nat)
    requires items != [] && Readable(items[0].keyword)
    ensures Collect(EntryLines(items, idx) + [""])
            == [items[0].keyword] + Collect(EntryLines(items[1..], idx + 1) + [""])
  {
    var line := EntryLine(idx, items[0]);
    var rest := EntryLines(items[1..], idx + 1) + [""];
    assert EntryLines(items, idx) + [""] == [line] + rest;
    EntryRoundTrip(idx, items[0]);
    CollectOne(line);
    CollectAppend([line], rest);
  }

  /** An empty line gives nothing. */
  lemma CollectBlank()
    ensures Collect([""]) == []
  {
    assert Strip(JavaScript, "") == "";
    CollectOne("");
  }

  /** Entries the route reads back and that do not repeat its heading. */
  predicate Publishable(items: seq<Entry>) {
    Headless(items, Marker)
  }

  /** Entries the route reads back and that do not hold the heading `h`. */
  predicate Headless(items: seq<Entry>, h: string) {
    forall a :: 0 <= a < |items| ==> Writable(items[a]) && Unheaded(items[a], h)
  }

  /** A heading of that shape does not occur in a laid-out line whose keyword and score do not hold it. */
  lemma NoHeadingInLine(s: string, n: nat, kw: string, k: nat, h: string)
    requires LaidOut(s, n, kw) && HeadingShape(h)
    requires !Contains(kw, h) && !Contains(s[n + 12 + |kw|..], h)
    ensures !StartsAt(s, k, h)
  {
    var o := n + 2;
    var t := o + |kw|;
    SeparatorChars(s, t);
    if k + |h| <= |s| {
      if k < n {
        assert IsDigit(s[k]) && s[k] != h[0];
      } else if k < o {
        assert s[k] != h[0];
      } else if k + |h| <= t {
        SliceOccurrence(s, o, kw, k, h);
        assert !StartsAt(kw, k - o, h);
      } else if k < t && k + |h| == t + 1 {
        assert s[t] != h[|h| - 1];
      } else if k < t {
        assert s[t + 1] != h[t + 1 - k];
      } else if t + 10 <= k {
        var sc := s[t + 10..];
        assert s[t + 10..t + 10 + |sc|] == sc;
        SliceOccurrence(s, t + 10, sc, k, h);
        assert !StartsAt(sc, k - t - 10, h);
      } else {
        assert s[k] != h[0];
      }
    }
  }

  /** A heading of that shape occurs nowhere in a listing of entries that do not hold it. */
  lemma {:induction false} NoHeadingInListing(items: seq<Entry>, idx: nat, k: nat, h: string)
    requires HeadingShape(h) && Headless(items, h)
    ensures !StartsAt(Listing(items, idx), k, h)
    decreases |items|
  {
    if items != [] {
      var line := EntryLine(idx, items[0]);
      var rest := Listing(items[1..], idx + 1);
      var s := line + "\n" + rest;
      HeadlessSplits(items, h);
      if k <= |line| {
        NoHeadingInEntry(idx, items[0], k, h);
        JoinedPrefix(line, rest, k, h);
      } else if k <= |s| {
        JoinedSuffix(line, rest, k, h);
        NoHeadingInListing(items[1..], idx + 1, k - |line| - 1, h);
      }
    }
  }

  /** A heading without newline that does not start at `k` in the first line does not start there after joining. */
  lemma JoinedPrefix(line: string, rest: string, k: nat, h: string)
    requires k <= |line| && HeadingShape(h) && !StartsAt(line, k, h)
    ensures !StartsAt(line + "\n" + rest, k, h)
  {
    var s := line + "\n" + rest;
    if k + |h| <= |line| {
      assert s[..|line|] == line;
      SliceOccurrence(s, 0, line, k, h);
    } else if k + |h| <= |s| {
      assert s[|line|] == '\n' == s[k..k + |h|][|line| - k];
    }
  }

  /** After the first line's newline, occurrences in a joined text are those in the rest. */
  lemma JoinedSuffix(line: string, rest: string, k: nat, h: string)
    requires |line| < k <= |line| + 1 + |rest|
    ensures StartsAt(line + "\n" + rest, k, h) <==> StartsAt(rest, k - |line| - 1, h)
  {
    var s := line + "\n" + rest;
    assert s[|line| + 1..] == rest;
    StartsAtSuffix(s, |line| + 1, k - |line| - 1, h);
  }

  /** The first entry and the rest of a headless listing are headless. */
  lemma HeadlessSplits(items: seq<Entry>, h: string)
    requires items != [] && Headless(items, h)
    ensures Writable(items[0]) && Unheaded(items[0], h) && Headless(items[1..], h)
  {
    forall a | 0 <= a < |items| - 1
      ensures Writable(items[1..][a]) && Unheaded(items[1..][a], h)
    {
      assert items[1..][a] == items[a + 1];
    }
  }

  /** A heading of that shape does not occur in the line of an entry that does not hold it. */
  lemma NoHeadingInEntry(idx: nat, e: Entry, k: nat, h: string)
    requires HeadingShape(h) && Writable(e) && Unheaded(e, h)
    ensures !StartsAt(EntryLine(idx, e), k, h)
  {
    EntryLaidOut(idx, e);
    NoHeadingInLine(EntryLine(idx, e), |NatToString(idx)|, e.keyword, k, h);
  }

  /** A heading put on its own line before text that does not hold it occurs only there. */
  lemma HeadingFirst(h: string, body: string)
    requires HeadingShape(h) && forall k :: 0 <= k <= |body| ==> !StartsAt(body, k, h)
    ensures var s := h + "\n" + body;
            && FirstOccurrence(s, h, 0) && NoOccurrence(s, h, |h|, |s|) && s[|h|..] == "\n" + body
  {
    var s := h + "\n" + body;
    assert s[..|h|] == h;
    forall k | |h| <= k < |s|
      ensures !StartsAt(s, k, h)
    {
      if k == |h| {
        assert s[k] == '\n' != h[0];
      } else {
        assert s[|h| + 1..] == body;
        StartsAtSuffix(s, |h| + 1, k - |h| - 1, h);
      }
    }
  }

  /** Under its heading, a body that does not repeat it is the whole section. */
  lemma HeadedSection(body: string)
    requires forall k :: 0 <= k <= |body| ==> !StartsAt(body, k, Marker)
    ensures TrendingTopics(Marker + "\n" + body) == Ok(SectionTopics("\n" + body))
  {
    MarkerShape();
    HeadingFirst(Marker, body);
    var s := Marker + "\n" + body;
    SectionBetweenMarkers(s, 0, |s|);
  }

  /** The whole text after the heading is the section when the listing does not repeat it. */
  lemma WrittenSection(items: seq<Entry>)
    requires Publishable(items)
    ensures TrendingTopics(Written(items)) == Ok(SectionTopics("\n" + Listing(items, 1)))
  {
    var body := Listing(items, 1);
    MarkerShape();
    forall k | 0 <= k <= |body|
      ensures !StartsAt(body, k, Marker)
    {
      NoHeadingInListing(items, 1, k, Marker);
    }
    HeadedSection(body);
  }

  /** The section the scraper writes gives back its first 32 keywords. */
  lemma ListingTopics(items: seq<Entry>)
    requires forall a :: 0 <= a < |items| ==> Writable(items[a])
    ensures SectionTopics("\n" + Listing(items, 1)) == Take(Keywords(items), MaxTopics)
  {
    var body := Listing(items, 1);
    var entries := EntryLines(items, 1) + [""];
    SplitLeadingNewline(body);
    ListingSplits(items, 1);
    assert SplitLines("\n" + body) == [""] + entries;
    CollectBlank();
    CollectAppend([""], entries);
    CollectEntries(items, 1);
    assert Collect(SplitLines("\n" + body)) == Keywords(items);
  }

  /** The route reads back the first 32 keywords of the text `get_trending_keywords` returns, in order. */
  lemma WrittenRoundTrip(items: seq<Entry>)
    requires items != []
    requires Publishable(items)
    ensures TrendingTopics(WriteKeywords(items)) == Ok(Take(Keywords(items), MaxTopics))
  {
    WrittenWhenFound(items);
    WrittenTopics(items);
  }

  /** Under the heading, the listing gives back its first 32 keywords. */
  lemma WrittenTopics(items: seq<Entry>)
    requires Publishable(items)
    ensures TrendingTopics(Written(items)) == Ok(Take(Keywords(items), MaxTopics))
  {
    WrittenSection(items);
    ListingTopics(items);
  }

  /** With a keyword found the heading and the listing are written. */
  lemma WrittenWhenFound(items: seq<Entry>)
    requires items != []
    ensures WriteKeywords(items) == Written(items)
  {
  }

  /** With no keyword found the returned text has no keyword section. */
  lemma NothingWritten()
    ensures TrendingTopics(WriteKeywords([])) == Err(NoSection)
  {
    assert |NoneFound| < |Marker|;
    forall k | 0 <= k <= |NoneFound|
      ensures !StartsAt(NoneFound, k, Marker)
    {
    }
  }

  // ------------------------------------------ the file scripts/trending_scraper.py writes

  /**
   * The day's file as `write_to_file` lays it out: the creators text and a blank line, the
   * keyword text and a newline, the hashtags text and a newline, then the songs text.
   */
  function DailyFile(creators: string, keywords: string, hashtags: string, songs: string): string {
    creators + "\n\n" + keywords + "\n" + hashtags + "\n" + songs
  }

  /**
   * In the day's file the route's section runs from the keyword heading to the end, so the
   * hashtag and song lines are read too: the route answers the first 32 of the keywords
   * followed by whatever topics those lines give.
   */
  lemma DailyFileTopics(creators: string, items: seq<Entry>, hashtags: string, songs: string)
    requires items != [] && Publishable(items)
    requires !Contains(creators, Marker) && !Contains(hashtags + "\n" + songs, Marker)
    ensures TrendingTopics(DailyFile(creators, WriteKeywords(items), hashtags, songs))
            == Ok(Take(Keywords(items) + Collect(SplitLines(hashtags + "\n" + songs)), MaxTopics))
  {
    var tail := hashtags + "\n" + songs;
    WrittenWhenFound(items);
    DailySection(creators, items, tail, DailyFile(creators, WriteKeywords(items), hashtags, songs));
    SectionThenTail(items, tail);
  }

  /** The day's file's section is everything after the heading. */
  lemma DailySection(creators: string, items: seq<Entry>, tail: string, content: string)
    requires Publishable(items)
    requires !Contains(creators, Marker) && !Contains(tail, Marker)
    requires content == creators + "\n\n" + Written(items) + "\n" + tail
    ensures TrendingTopics(content) == Ok(SectionTopics("\n" + Listing(items, 1) + "\n" + tail))
  {
    var p := |creators| + 2;
    var section := "\n" + Listing(items, 1) + "\n" + tail;
    DailyHeading(creators, items, tail, content);
    assert content[p + |Marker|..|content|] == section;
    SectionBetweenMarkers(content, p, |content|);
  }

  /** In the day's file the heading first occurs after the creators and the blank line, and only there. */
  lemma DailyHeading(creators: string, items: seq<Entry>, tail: string, content: string)
    requires Publishable(items)
    requires !Contains(creators, Marker) && !Contains(tail, Marker)
    requires content == creators + "\n\n" + Written(items) + "\n" + tail
    ensures var p := |creators| + 2;
            && p + |Marker| < |content| && FirstOccurrence(content, Marker, p)
            && NoOccurrence(content, Marker, p + |Marker|, |content|)
            && content[p + |Marker|..] == "\n" + Listing(items, 1) + "\n" + tail
  {
    var s := Marker + "\n" + Listing(items, 1) + "\n" + tail;
    assert content == creators + "\n" + ("\n" + s);
    WrittenHeading(items, tail, s);
    HeadingAfterCreators(creators, s, Marker);
    assert content[|creators| + 2..] == s;
  }

  /** Above a headless listing and a tail without it, the heading occurs only at the start. */
  lemma WrittenHeading(items: seq<Entry>, tail: string, s: string)
    requires Publishable(items) && !Contains(tail, Marker)
    requires s == Marker + "\n" + Listing(items, 1) + "\n" + tail
    ensures HeadingShape(Marker) && FirstOccurrence(s, Marker, 0) && NoOccurrence(s, Marker, |Marker|, |s|)
    ensures s[|Marker|..] == "\n" + Listing(items, 1) + "\n" + tail
  {
    var body := Listing(items, 1) + "\n" + tail;
    assert s == Marker + "\n" + body;
    MarkerShape();
    NoHeadingAfterListing(items, tail, body);
    HeadingFirst(Marker, body);
  }

  /** The section's lines give the keywords, then the topics of the tail's lines. */
  lemma SectionThenTail(items: seq<Entry>, tail: string)
    requires Publishable(items)
    ensures Collect(SplitLines("\n" + Listing(items, 1) + "\n" + tail))
            == Keywords(items) + Collect(SplitLines(tail))
  {
    SectionLines(items, tail);
    assert KeywordsReadable(items);
    CollectSection(items, SplitLines(tail));
  }

  /** The section's lines: an empty one, the written lines, an empty one, the tail's lines. */
  lemma SectionLines(items: seq<Entry>, tail: string)
    requires forall a :: 0 <= a < |items| ==> Writable(items[a])
    ensures SplitLines("\n" + Listing(items, 1) + "\n" + tail)
            == ([""] + (EntryLines(items, 1) + [""])) + SplitLines(tail)
  {
    var written := EntryLines(items, 1);
    var after := SplitLines(tail);
    NewlineAround(Listing(items, 1), tail);
    ListingThen(items, 1, "\n" + tail);
    SplitLeadingNewline(tail);
    assert [""] + (written + ([""] + after)) == ([""] + (written + [""])) + after;
  }

  /** Text between a leading newline and a newline splits as an empty piece, then the rest. */
  lemma NewlineAround(a: string, b: string)
    ensures SplitLines("\n" + a + "\n" + b) == [""] + SplitLines(a + ("\n" + b))
  {
    assert "\n" + a + "\n" + b == "\n" + (a + ("\n" + b));
    SplitLeadingNewline(a + ("\n" + b));
  }

  /** The keywords come back from the written lines between two empty ones, then the rest's topics. */
  lemma CollectSection(items: seq<Entry>, rest: seq<string>)
    requires KeywordsReadable(items)
    ensures Collect(([""] + (EntryLines(items, 1) + [""])) + rest) == Keywords(items) + Collect(rest)
  {
    var entries := EntryLines(items, 1) + [""];
    CollectAppend([""] + entries, rest);
    CollectAppend([""], entries);
    CollectBlank();
    CollectEntries(items, 1);
    assert Collect([""] + entries) == Keywords(items);
  }

  /**
   * When no hashtag or song line holds `Score:`, the route answers the first 32 keywords
   * of the day's file, in order.
   */
  lemma DailyFileRoundTrip(creators: string, items: seq<Entry>, hashtags: string, songs: string)
    requires items != [] && Publishable(items)
    requires !Contains(creators, Marker) && !Contains(hashtags + "\n" + songs, Marker)
    requires Scoreless(SplitLines(hashtags + "\n" + songs))
    ensures TrendingTopics(DailyFile(creators, WriteKeywords(items), hashtags, songs))
            == Ok(Take(Keywords(items), MaxTopics))
  {
    DailyFileTopics(creators, items, hashtags, songs);
    ScorelessGivesNothing(SplitLines(hashtags + "\n" + songs));
    assert Keywords(items) + [] == Keywords(items);
  }

  /** No line holds `Score:`. */
  predicate Scoreless(lines: seq<string>) {
    forall a :: 0 <= a < |lines| ==> !Contains(lines[a], "Score:")
  }

  /** Lines without `Score:` give no topic. */
  lemma {:induction false} ScorelessGivesNothing(lines: seq<string>)
    requires Scoreless(lines)
    ensures Collect(lines) == []
    decreases |lines|
  {
    if lines != [] {
      NoScoreNoTopic(lines[0]);
      assert Scoreless(lines[1..]) by {
        forall a | 0 <= a < |lines| - 1
          ensures !Contains(lines[1..][a], "Score:")
        {
          assert lines[1..][a] == lines[a + 1];
        }
      }
      ScorelessGivesNothing(lines[1..]);
    }
  }

  /** A line without `Score:` gives no topic: every match of the pattern ends in `Score:`. */
  lemma NoScoreNoTopic(line: string)
    requires !Contains(line, "Score:")
    ensures TopicOf(line).None?
  {
    forall k | 0 <= k <= |line|
      ensures !MatchesAt(line, k)
    {
      MatchHasScore(line, k);
    }
    LineDropped(line);
  }

  /** A match holds `Score:`. */
  lemma MatchHasScore(s: string, k: nat)
    ensures MatchesAt(s, k) ==> Contains(s, "Score:")
  {
    if MatchesAt(s, k) {
      var j: nat, q: nat, t: nat :| Decomposes(s, k, j, q, t);
      var u: nat, w: nat :| t <= u < w <= |s| && SpacesIn(s, t, u) && s[u] == '-'
                            && SpacesIn(s, u + 1, w) && StartsAt(s, w, "Score:");
      assert StartsAt(s, w, "Score:");
    }
  }

  /** The listing's lines come first when text follows it. */
  lemma {:induction false} ListingThen(items: seq<Entry>, idx: nat, x: string)
    requires forall a :: 0 <= a < |items| ==> Writable(items[a])
    ensures SplitLines(Listing(items, idx) + x) == EntryLines(items, idx) + SplitLines(x)
    decreases |items|
  {
    if items == [] {
      assert Listing(items, idx) + x == x;
    } else {
      assert forall a :: 0 <= a < |items| - 1 ==> items[1..][a] == items[a + 1];
      ListingStep(items, idx, x);
      ListingThen(items[1..], idx + 1, x);
    }
  }

  /** The first written line splits off the listing and what follows it. */
  lemma ListingStep(items: seq<Entry>, idx: nat, x: string)
    requires items != [] && Writable(items[0])
    ensures SplitLines(Listing(items, idx) + x)
            == [EntryLine(idx, items[0])] + SplitLines(Listing(items[1..], idx + 1) + x)
  {
    var line := EntryLine(idx, items[0]);
    var rest := Listing(items[1..], idx + 1);
    assert Listing(items, idx) + x == line + "\n" + (rest + x);
    NoNewlineInLine(idx, items[0]);
    SplitFirstLine(line, rest + x);
  }

  /** The heading occurs neither in a headless listing nor in a tail without it that follows on its own line. */
  lemma NoHeadingAfterListing(items: seq<Entry>, tail: string, body: string)
    requires Publishable(items) && !Contains(tail, Marker)
    requires body == Listing(items, 1) + "\n" + tail
    ensures forall k :: 0 <= k <= |body| ==> !StartsAt(body, k, Marker)
  {
    var listing := Listing(items, 1);
    MarkerShape();
    forall k | 0 <= k <= |body|
      ensures !StartsAt(body, k, Marker)
    {
      if k <= |listing| {
        NoHeadingInListing(items, 1, k, Marker);
        JoinedPrefix(listing, tail, k, Marker);
      } else {
        JoinedSuffix(listing, tail, k, Marker);
        assert !StartsAt(tail, k - |listing| - 1, Marker);
      }
    }
  }

  /**
   * A heading that opens `s` and does not occur again in it, put after text without it and
   * a blank line, first occurs there and not again.
   */
  lemma HeadingAfterCreators(c: string, s: string, h: string)
    requires HeadingShape(h) && !Contains(c, h)
    requires FirstOccurrence(s, h, 0) && NoOccurrence(s, h, |h|, |s|)
    ensures var t := c + "\n" + ("\n" + s);
            FirstOccurrence(t, h, |c| + 2) && NoOccurrence(t, h, |c| + 2 + |h|, |t|)
  {
    var t := c + "\n" + ("\n" + s);
    var p := |c| + 2;
    assert t[p..] == s;
    forall k | 0 <= k < p
      ensures !StartsAt(t, k, h)
    {
      if k <= |c| {
        assert !StartsAt(c, k, h);
        JoinedPrefix(c, "\n" + s, k, h);
      } else if k + |h| <= |t| {
        assert t[k..k + |h|][0] == t[k] == '\n' != h[0];
      }
    }
    forall k | p <= k <= |t|
      ensures StartsAt(t, k, h) <==> StartsAt(s, k - p, h)
    {
      StartsAtSuffix(t, p, k - p, h);
    }
  }
}
