/**
 * A greedy pattern language for the regular expressions of scripts/parse.py that need no
 * backtracking: every field pattern, the music and GIF links and the `#tag(count)` token.
 *
 * Matching rule. A pattern is a sequence of parts; a part is a single token or a capture
 * group of tokens. A literal matches its text ignoring ASCII case (every such pattern in
 * the parser is compiled with IGNORECASE). A repetition takes the longest run of class
 * characters its upper bound allows and fails when that run is shorter than its lower
 * bound. Nothing is ever given back: in every pattern of the parser a repetition that has
 * a choice is followed by a token whose first character lies outside its class, so a
 * backtracking engine cannot succeed with a shorter run either, and the greedy match is
 * the match Python's `re` finds at that position. `Search` tries start positions from left
 * to right, like `re.search`; `FindAll` continues after each match, like `re.findall`.
 */
module Patterns {
  import opened Wrappers
  import opened Text

  /** The character sets the parser's patterns use. */
  datatype CharClass =
    | Digit          // \d
    | DigitOrComma   // [\d,]
    | DigitOrDot     // [\d\.]
    | Space          // \s
    | Word           // [A-Za-z0-9_]
    | AllBut(c: char)   // [^c]
    | OneOf(cs: string) // any character of cs, ignoring ASCII case

  /** `c` is one of `cs` up to ASCII case. */
  predicate FoldedIn(c: char, cs: string) {
    exists x :: x in cs && Lower(x) == Lower(c)
  }

  predicate InClass(c: char, k: CharClass) {
    match k
    case Digit => IsDigit(c)
    case DigitOrComma => IsDigit(c) || c == ','
    case DigitOrDot => IsDigit(c) || c == '.'
    case Space => IsSpace(Python, c)
    case Word => IsAsciiLetter(c) || IsDigit(c) || c == '_'
    case AllBut(x) => c != x
    case OneOf(cs) => FoldedIn(c, cs)
  }

  /** The upper bound of a repetition. */
  datatype Bound = AtMost(n: nat) | Unbounded {
    predicate Allows(count: nat) {
      AtMost? ==> count <= n
    }
  }

  datatype Token =
    | Lit(text: string)                        // the text, ignoring ASCII case
    | Rep(k: CharClass, min: nat, max: Bound)  // greedy k{min,max}

  datatype Part = Plain(t: Token) | Group(ts: seq<Token>)

  type Pattern = seq<Part>

  /** The greedy run of class characters starting at `i`, as long as `max` allows. */
  function Run(s: string, i: nat, k: CharClass, max: Bound): (n: nat)
    requires i <= |s|
    ensures i + n <= |s| && max.Allows(n)
    ensures forall j :: i <= j < i + n ==> InClass(s[j], k)
    ensures i + n == |s| || !InClass(s[i + n], k) || max == AtMost(n)
    decreases |s| - i
  {
    if i == |s| || !InClass(s[i], k) || max == AtMost(0) then 0
    else 1 + Run(s, i + 1, k, if max.AtMost? then AtMost(max.n - 1) else Unbounded)
  }

  /** Where a token that starts at `i` ends, if it matches there. */
  function MatchToken(s: string, i: nat, t: Token): (r: Option<nat>)
    requires i <= |s|
    ensures r.Some? ==> i <= r.value <= |s|
  {
    match t
    case Lit(w) => if FoldedAt(s, i, w) then Some(i + |w|) else None
    case Rep(k, min, max) =>
      var n := Run(s, i, k, max);
      if n >= min then Some(i + n) else None
  }

  /** Where a sequence of tokens that starts at `i` ends, if it matches there. */
  function MatchTokens(s: string, i: nat, ts: seq<Token>): (r: Option<nat>)
    requires i <= |s|
    ensures r.Some? ==> i <= r.value <= |s|
    decreases |ts|
  {
    if |ts| == 0 then Some(i)
    else
      match MatchToken(s, i, ts[0])
      case None => None
      case Some(j) => MatchTokens(s, j, ts[1..])
  }

  /** The end of a match and the text of its capture groups, in order. */
  datatype Hit = Hit(end: nat, groups: seq<string>)

  /** The token sequences of the capture groups of `p`, in order. */
  function Groups(p: Pattern): seq<seq<Token>> {
    if |p| == 0 then []
    else (if p[0].Group? then [p[0].ts] else []) + Groups(p[1..])
  }

  /** The match of `p` that starts at `i`, if there is one. */
  function MatchParts(s: string, i: nat, p: Pattern): (r: Option<Hit>)
    requires i <= |s|
    ensures r.Some? ==> i <= r.value.end <= |s| && |r.value.groups| == |Groups(p)|
    decreases |p|
  {
    if |p| == 0 then Some(Hit(i, []))
    else
      match p[0]
      case Plain(t) =>
        (match MatchToken(s, i, t)
         case None => None
         case Some(j) => MatchParts(s, j, p[1..]))
      case Group(ts) =>
        (match MatchTokens(s, i, ts)
         case None => None
         case Some(j) =>
           match MatchParts(s, j, p[1..])
           case None => None
           case Some(h) => Some(Hit(h.end, [s[i..j]] + h.groups)))
  }

  /**
   * `w` is spelled by `ts`: it splits into consecutive pieces, a piece equal to each
   * literal up to ASCII case and a run of class characters of allowed length for each
   * repetition. This is the language of the tokens, independent of how `MatchTokens`
   * scans.
   */
  ghost predicate Spells(w: string, ts: seq<Token>)
    decreases |ts|
  {
    if |ts| == 0 then w == []
    else
      match ts[0]
      case Lit(x) => |x| <= |w| && FoldEq(w[..|x|], x) && Spells(w[|x|..], ts[1..])
      case Rep(k, min, max) =>
        exists n :: min <= n <= |w| && max.Allows(n) && AllIn(w[..n], k) && Spells(w[n..], ts[1..])
  }

  /** Every character of `w` is in class `k`. */
  predicate AllIn(w: string, k: CharClass) {
    forall j :: 0 <= j < |w| ==> InClass(w[j], k)
  }

  /** One repetition step of `Spells`: a run of allowed length followed by the rest. */
  lemma SpellsRep(w: string, k: CharClass, min: nat, max: Bound, rest: seq<Token>, n: nat)
    requires min <= n <= |w| && max.Allows(n) && AllIn(w[..n], k) && Spells(w[n..], rest)
    ensures Spells(w, [Rep(k, min, max)] + rest)
  {
    var ts := [Rep(k, min, max)] + rest;
    assert ts[0] == Rep(k, min, max) && ts[1..] == rest;
  }

  /** One literal step of `Spells`. */
  lemma SpellsLit(w: string, x: string, rest: seq<Token>)
    requires |x| <= |w| && FoldEq(w[..|x|], x) && Spells(w[|x|..], rest)
    ensures Spells(w, [Lit(x)] + rest)
  {
    var ts := [Lit(x)] + rest;
    assert ts[0] == Lit(x) && ts[1..] == rest;
  }

  /** Reading a literal off the front of a spelled string. */
  lemma SpellsHeadLit(w: string, ts: seq<Token>)
    requires |ts| > 0 && ts[0].Lit? && Spells(w, ts)
    ensures FoldedAt(w, 0, ts[0].text) && Spells(w[|ts[0].text|..], ts[1..])
  {
    assert w[..|ts[0].text|] == w[0..|ts[0].text|];
  }

  /** Reading a repetition off the front of a spelled string: its run has length `n`. */
  lemma SpellsHeadRep(w: string, ts: seq<Token>) returns (n: nat)
    requires |ts| > 0 && ts[0].Rep? && Spells(w, ts)
    ensures ts[0].min <= n <= |w| && ts[0].max.Allows(n)
    ensures forall j :: 0 <= j < n ==> InClass(w[j], ts[0].k)
    ensures Spells(w[n..], ts[1..])
  {
    n :| ts[0].min <= n <= |w| && ts[0].max.Allows(n) && AllIn(w[..n], ts[0].k) && Spells(w[n..], ts[1..]);
    assert forall j :: 0 <= j < n ==> w[..n][j] == w[j];
  }

  /** Whatever the first token of a spelling consumes, the rest is spelled by the remaining tokens. */
  lemma SpellsTail(w: string, ts: seq<Token>) returns (cut: nat)
    requires |ts| > 0 && Spells(w, ts)
    ensures cut <= |w| && Spells(w[cut..], ts[1..])
  {
    if ts[0].Lit? {
      SpellsHeadLit(w, ts);
      cut := |ts[0].text|;
    } else {
      cut := SpellsHeadRep(w, ts);
    }
  }

  /** A spelled string ends with the text of a closing literal, up to ASCII case. */
  lemma {:induction false} SpellsEndLit(w: string, ts: seq<Token>)
    requires |ts| > 0 && ts[|ts| - 1].Lit? && Spells(w, ts)
    ensures |ts[|ts| - 1].text| <= |w| && FoldedAt(w, |w| - |ts[|ts| - 1].text|, ts[|ts| - 1].text)
    decreases |ts|
  {
    var x := ts[|ts| - 1].text;
    if |ts| == 1 {
      SpellsHeadLit(w, ts);
      assert w[|x|..] == [];
      assert w[|w| - |x|..|w|] == w[0..|x|];
    } else {
      var cut := SpellsTail(w, ts);
      var v := w[cut..];
      assert ts[1..][|ts[1..]| - 1] == ts[|ts| - 1];
      SpellsEndLit(v, ts[1..]);
      assert v[|v| - |x|..|v|] == w[|w| - |x|..|w|];
    }
  }

  /** A literal matched at `i`, followed by a spelled rest, spells the whole. */
  lemma StepLit(s: string, i: nat, e: nat, x: string, rest: seq<Token>)
    requires i + |x| <= e <= |s| && FoldedAt(s, i, x) && Spells(s[i + |x|..e], rest)
    ensures Spells(s[i..e], [Lit(x)] + rest)
  {
    var w := s[i..e];
    assert w[|x|..] == s[i + |x|..e];
    assert w[..|x|] == s[i..i + |x|];
    SpellsLit(w, x, rest);
  }

  /** A run of class characters from `i` to `j`, followed by a spelled rest, spells the whole. */
  lemma StepRep(s: string, i: nat, j: nat, e: nat, k: CharClass, min: nat, max: Bound, rest: seq<Token>)
    requires i <= j <= e <= |s| && min <= j - i && max.Allows(j - i)
    requires forall q :: i <= q < j ==> InClass(s[q], k)
    requires Spells(s[j..e], rest)
    ensures Spells(s[i..e], [Rep(k, min, max)] + rest)
  {
    var w := s[i..e];
    assert w[j - i..] == s[j..e];
    assert w[..j - i] == s[i..j];
    assert AllIn(w[..j - i], k);
    SpellsRep(w, k, min, max, rest, j - i);
  }

  /** What `MatchTokens` consumes is spelled by the tokens. */
  lemma {:induction false} MatchTokensSpells(s: string, i: nat, ts: seq<Token>)
    requires i <= |s| && MatchTokens(s, i, ts).Some?
    ensures Spells(s[i..MatchTokens(s, i, ts).value], ts)
    decreases |ts|
  {
    if |ts| > 0 {
      var e := MatchTokens(s, i, ts).value;
      var j := MatchToken(s, i, ts[0]).value;
      assert MatchTokens(s, j, ts[1..]) == Some(e);
      MatchTokensSpells(s, j, ts[1..]);
      assert ts == [ts[0]] + ts[1..];
      match ts[0]
      case Lit(x) =>
        StepLit(s, i, e, x, ts[1..]);
      case Rep(k, min, max) =>
        StepRep(s, i, j, e, k, min, max, ts[1..]);
    }
  }

  /** Each capture group of a match is spelled by that group's tokens. */
  lemma {:induction false} MatchPartsSpells(s: string, i: nat, p: Pattern)
    requires i <= |s| && MatchParts(s, i, p).Some?
    ensures forall g :: 0 <= g < |Groups(p)| ==> Spells(MatchParts(s, i, p).value.groups[g], Groups(p)[g])
    decreases |p|
  {
    if |p| > 0 {
      match p[0]
      case Plain(t) =>
        var j := MatchToken(s, i, t).value;
        MatchPartsSpells(s, j, p[1..]);
      case Group(ts) =>
        var j := MatchTokens(s, i, ts).value;
        MatchTokensSpells(s, i, ts);
        MatchPartsSpells(s, j, p[1..]);
        assert Groups(p) == [ts] + Groups(p[1..]);
    }
  }

  /** The fewest characters any match of the tokens consumes. */
  function TokensWidth(ts: seq<Token>): nat {
    if |ts| == 0 then 0
    else (match ts[0] case Lit(w) => |w| case Rep(_, min, _) => min) + TokensWidth(ts[1..])
  }

  /** The fewest characters any match of the pattern consumes. */
  function Width(p: Pattern): nat {
    if |p| == 0 then 0
    else (match p[0] case Plain(t) => TokensWidth([t]) case Group(ts) => TokensWidth(ts)) + Width(p[1..])
  }

  lemma {:induction false} MatchTokensWidth(s: string, i: nat, ts: seq<Token>)
    requires i <= |s| && MatchTokens(s, i, ts).Some?
    ensures MatchTokens(s, i, ts).value >= i + TokensWidth(ts)
    decreases |ts|
  {
    if |ts| > 0 {
      MatchTokensWidth(s, MatchToken(s, i, ts[0]).value, ts[1..]);
    }
  }

  /** A match is at least as long as the pattern's width. */
  lemma {:induction false} MatchPartsWidth(s: string, i: nat, p: Pattern)
    requires i <= |s| && MatchParts(s, i, p).Some?
    ensures MatchParts(s, i, p).value.end >= i + Width(p)
    decreases |p|
  {
    if |p| > 0 {
      match p[0]
      case Plain(t) =>
        var j := MatchToken(s, i, t).value;
        assert MatchTokens(s, i, [t]) == MatchTokens(s, j, []);
        MatchTokensWidth(s, i, [t]);
        MatchPartsWidth(s, j, p[1..]);
      case Group(ts) =>
        MatchTokensWidth(s, i, ts);
        MatchPartsWidth(s, MatchTokens(s, i, ts).value, p[1..]);
    }
  }

  /** A match: where it starts and ends and what its groups captured. */
  datatype Match = Match(start: nat, end: nat, groups: seq<string>)

  /** `m` is the match of `p` that starts at `m.start`. */
  predicate IsMatchOf(s: string, p: Pattern, m: Match) {
    m.start <= |s| && MatchParts(s, m.start, p) == Some(Hit(m.end, m.groups))
  }

  /** `p` matches at no position `k` with `lo <= k < hi`. */
  predicate NoMatchIn(s: string, p: Pattern, lo: nat, hi: nat) {
    forall k :: lo <= k < hi && k <= |s| ==> MatchParts(s, k, p).None?
  }

  /** `m` is the leftmost match of `p` at or after `from`. */
  predicate Leftmost(s: string, p: Pattern, from: nat, m: Match) {
    IsMatchOf(s, p, m) && from <= m.start && NoMatchIn(s, p, from, m.start)
  }

  /** `re.search` from `from`: the match at the leftmost position where `p` matches. */
  function Search(s: string, p: Pattern, from: nat): (r: Option<Match>)
    requires from <= |s|
    ensures r.Some? ==> Leftmost(s, p, from, r.value) && |r.value.groups| == |Groups(p)|
    ensures r.None? ==> NoMatchIn(s, p, from, |s| + 1)
    decreases |s| - from
  {
    var here := MatchParts(s, from, p);
    if here.Some? then Some(Match(from, here.value.end, here.value.groups))
    else if from == |s| then None
    else
      var r := Search(s, p, from + 1);
      assert r.Some? ==> NoMatchIn(s, p, from, r.value.start);
      r
  }

  /**
   * `re.findall` from `from`: the leftmost match, then the leftmost match from where it
   * ended, and so on. Only for patterns that cannot match the empty string.
   */
  function FindAll(s: string, p: Pattern, from: nat): (r: seq<Match>)
    requires from <= |s| && Width(p) > 0
    ensures forall a :: 0 <= a < |r| ==> from <= r[a].start < r[a].end
    ensures forall a :: 0 <= a < |r| ==> |r[a].groups| == |Groups(p)|
    ensures forall a, b :: 0 <= a < b < |r| ==> r[a].end <= r[b].start
    ensures r == [] <==> NoMatchIn(s, p, from, |s| + 1)
    ensures r != [] ==> Leftmost(s, p, from, r[0])
    decreases |s| - from
  {
    match Search(s, p, from)
    case None => []
    case Some(m) =>
      MatchPartsWidth(s, m.start, p);
      var rest := FindAll(s, p, m.end);
      ConsMatches(m, rest, from, |Groups(p)|);
      assert MatchParts(s, m.start, p).Some?;
      [m] + rest
  }

  /** A match in front of later, ordered matches keeps the list ordered. */
  lemma ConsMatches(m: Match, rest: seq<Match>, from: nat, n: nat)
    requires from <= m.start < m.end && |m.groups| == n
    requires forall a :: 0 <= a < |rest| ==> m.end <= rest[a].start < rest[a].end && |rest[a].groups| == n
    requires forall a, b :: 0 <= a < b < |rest| ==> rest[a].end <= rest[b].start
    ensures var r := [m] + rest;
            && (forall a :: 0 <= a < |r| ==> from <= r[a].start < r[a].end && |r[a].groups| == n)
            && (forall a, b :: 0 <= a < b < |r| ==> r[a].end <= r[b].start)
  {
    var r := [m] + rest;
    assert forall a :: 1 <= a < |r| ==> r[a] == rest[a - 1];
  }

  /** Every element `FindAll` returns is a match of the pattern where it starts. */
  lemma {:induction false} FindAllMatches(s: string, p: Pattern, from: nat)
    requires from <= |s| && Width(p) > 0
    ensures forall a :: 0 <= a < |FindAll(s, p, from)| ==> IsMatchOf(s, p, FindAll(s, p, from)[a])
    decreases |s| - from
  {
    var r := FindAll(s, p, from);
    if r != [] {
      var m := Search(s, p, from).value;
      FindAllMatches(s, p, m.end);
      assert r == [m] + FindAll(s, p, m.end);
    }
  }

  /** Each match of `r` after the first is the leftmost one from where the match before it ended. */
  predicate Chained(s: string, p: Pattern, r: seq<Match>) {
    forall a :: 0 < a < |r| ==> Leftmost(s, p, r[a - 1].end, r[a])
  }

  /**
   * `findall` skips no match: each element is the leftmost match from where the one
   * before it ended, and no match starts at or after the end of the last one.
   */
  lemma {:induction false} FindAllLeftmost(s: string, p: Pattern, from: nat)
    requires from <= |s| && Width(p) > 0
    ensures var r := FindAll(s, p, from);
            && Chained(s, p, r)
            && (r != [] ==> NoMatchIn(s, p, r[|r| - 1].end, |s| + 1))
    decreases |s| - from
  {
    var r := FindAll(s, p, from);
    if r != [] {
      var m := Search(s, p, from).value;
      MatchPartsWidth(s, m.start, p);
      var rest := FindAll(s, p, m.end);
      FindAllLeftmost(s, p, m.end);
      assert r == [m] + rest;
      ConsChained(s, p, m, rest);
      if rest != [] {
        assert r[|r| - 1] == rest[|rest| - 1];
      }
    }
  }

  /** A match in front of a chain whose head is the leftmost match after it is still a chain. */
  lemma ConsChained(s: string, p: Pattern, m: Match, rest: seq<Match>)
    requires Chained(s, p, rest) && (rest != [] ==> Leftmost(s, p, m.end, rest[0]))
    ensures Chained(s, p, [m] + rest)
  {
    var r := [m] + rest;
    forall a | 0 < a < |r|
      ensures Leftmost(s, p, r[a - 1].end, r[a])
    {
      assert r[a] == rest[a - 1];
      if a > 1 {
        assert r[a - 1] == rest[a - 2];
      }
    }
  }
}
