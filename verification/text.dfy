/**
 * Character classes and string primitives shared by the Python report parser and the
 * TypeScript routes: whitespace as each language defines it, ASCII case folding,
 * substring search, stripping, deletion of a character and decimal digits.
 */
module Text {
  import opened Wrappers

  /** Whose definition of whitespace applies. */
  datatype Dialect = Python | JavaScript

  /**
   * Whitespace. For Python this is `str.isspace()`, which is also what `str.strip()`,
   * `int()`, `float()` and `\s` in a `str` pattern use. For JavaScript it is WhiteSpace
   * plus LineTerminator, which is what `String.prototype.trim` and `\s` use.
   */
  predicate IsSpace(d: Dialect, c: char) {
    || ('\t' <= c <= '\r')
    || c == ' '
    || c == '\U{A0}'
    || c == '\U{1680}'
    || ('\U{2000}' <= c <= '\U{200A}')
    || c == '\U{2028}'
    || c == '\U{2029}'
    || c == '\U{202F}'
    || c == '\U{205F}'
    || c == '\U{3000}'
    || (d == Python && (('\U{1C}' <= c <= '\U{1F}') || c == '\U{85}'))
    || (d == JavaScript && c == '\U{FEFF}')
  }

  /** Every character of `w` is whitespace. */
  predicate AllSpace(d: Dialect, w: string) {
    forall k :: 0 <= k < |w| ==> IsSpace(d, w[k])
  }

  /** ASCII decimal digit (`\d` for the patterns in this model). */
  predicate IsDigit(c: char) {
    '0' <= c <= '9'
  }

  predicate IsAsciiLetter(c: char) {
    ('A' <= c <= 'Z') || ('a' <= c <= 'z')
  }

  /** Every character of `w` is a decimal digit. */
  predicate AllDigits(w: string) {
    forall k :: 0 <= k < |w| ==> IsDigit(w[k])
  }

  /** A digit is whitespace in neither language. */
  lemma DigitNotSpace(d: Dialect, c: char)
    requires IsDigit(c)
    ensures !IsSpace(d, c)
  {
  }

  /** ASCII lower-casing: the case folding used for IGNORECASE in this model. */
  function Lower(c: char): (r: char)
    ensures IsAsciiLetter(c) ==> 'a' <= r <= 'z'
    ensures !('A' <= c <= 'Z') ==> r == c
  {
    if 'A' <= c <= 'Z' then (c as int + 32) as char else c
  }

  /**
   * Two characters fold together exactly when they are equal or are the two cases of one
   * ASCII letter, which is what IGNORECASE compares in this model.
   */
  lemma FoldsTogether(c: char, x: char)
    ensures Lower(c) == Lower(x) <==>
              || c == x
              || (IsAsciiLetter(c) && IsAsciiLetter(x) && (c as int - x as int == 32 || x as int - c as int == 32))
  {
  }

  /** A character that is not a letter folds together with itself only. */
  lemma FoldsOnlyWithItself(c: char, x: char)
    requires !IsAsciiLetter(x) && Lower(c) == Lower(x)
    ensures c == x
  {
  }

  /** Whatever folds to a lower-case letter is a letter, hence not whitespace. */
  lemma LowerOfLetter(c: char, x: char)
    requires 'a' <= x <= 'z' && Lower(c) == x
    ensures IsAsciiLetter(c) && !IsSpace(Python, c) && !IsSpace(JavaScript, c)
  {
  }

  /** `a` and `b` are equal up to ASCII case. */
  predicate FoldEq(a: string, b: string) {
    |a| == |b| && forall k :: 0 <= k < |a| ==> Lower(a[k]) == Lower(b[k])
  }

  /** `w` occurs in `s` at index `i`. */
  predicate StartsAt(s: string, i: nat, w: string) {
    i + |w| <= |s| && s[i..i + |w|] == w
  }

  /** `w` occurs in `s` at index `i`, ignoring ASCII case. */
  predicate FoldedAt(s: string, i: nat, w: string) {
    i + |w| <= |s| && FoldEq(s[i..i + |w|], w)
  }

  /** An occurrence in a suffix is an occurrence in the whole string, shifted. */
  lemma StartsAtSuffix(s: string, a: nat, k: nat, w: string)
    requires a <= |s|
    ensures StartsAt(s[a..], k, w) <==> StartsAt(s, a + k, w)
  {
    if a + k + |w| <= |s| {
      assert s[a..][k..k + |w|] == s[a + k..a + k + |w|];
    }
  }

  /** The first index at or after `from` where `w` occurs in `s`. */
  function Find(s: string, w: string, from: nat): (r: Option<nat>)
    requires from <= |s|
    ensures r.Some? ==> from <= r.value <= |s| && StartsAt(s, r.value, w)
    ensures r.Some? ==> forall k :: from <= k < r.value ==> !StartsAt(s, k, w)
    ensures r.None? ==> forall k :: from <= k <= |s| ==> !StartsAt(s, k, w)
    decreases |s| - from
  {
    if StartsAt(s, from, w) then Some(from)
    else if from == |s| then None
    else Find(s, w, from + 1)
  }

  /** `w` occurs somewhere in `s` (JavaScript `includes`, Python `in`). */
  predicate Contains(s: string, w: string) {
    exists k :: 0 <= k <= |s| && StartsAt(s, k, w)
  }

  lemma FindDecidesContains(s: string, w: string)
    ensures Find(s, w, 0).Some? <==> Contains(s, w)
  {
    if Find(s, w, 0).Some? {
      assert StartsAt(s, Find(s, w, 0).value, w);
    }
  }

  /** The first index at or after `i` that is not whitespace (or `|s|`). */
  function SkipSpaces(d: Dialect, s: string, i: nat): (j: nat)
    requires i <= |s|
    ensures i <= j <= |s|
    ensures j == |s| || !IsSpace(d, s[j])
    decreases |s| - i
  {
    if i == |s| || !IsSpace(d, s[i]) then i else SkipSpaces(d, s, i + 1)
  }

  /** Everything `SkipSpaces` skips is whitespace. */
  lemma {:induction false} SkipSpacesSkipsSpace(d: Dialect, s: string, i: nat)
    requires i <= |s|
    ensures forall k :: i <= k < SkipSpaces(d, s, i) ==> IsSpace(d, s[k])
    decreases |s| - i
  {
    if i < |s| && IsSpace(d, s[i]) {
      SkipSpacesSkipsSpace(d, s, i + 1);
    }
  }

  /** The smallest `b` in `lo..hi` such that `s[b..hi]` is all whitespace. */
  function BackOverSpaces(d: Dialect, s: string, lo: nat, hi: nat): (b: nat)
    requires lo <= hi <= |s|
    ensures lo <= b <= hi
    ensures forall k :: b <= k < hi ==> IsSpace(d, s[k])
    ensures b == lo || !IsSpace(d, s[b - 1])
    decreases hi - lo
  {
    if hi == lo || !IsSpace(d, s[hi - 1]) then hi else BackOverSpaces(d, s, lo, hi - 1)
  }

  /**
   * `s` without leading and trailing whitespace (Python `str.strip()`,
   * JavaScript `String.prototype.trim`).
   */
  function Strip(d: Dialect, s: string): (r: string)
    ensures |r| <= |s|
    ensures r == [] || (!IsSpace(d, r[0]) && !IsSpace(d, r[|r| - 1]))
  {
    var a := SkipSpaces(d, s, 0);
    s[a..BackOverSpaces(d, s, a, |s|)]
  }

  /**
   * Stripping removes whitespace only: `s` is whitespace, then the result, then
   * whitespace, so every other character keeps its number of occurrences.
   */
  lemma StripRemovesOnlySpace(d: Dialect, s: string)
    ensures exists a :: 0 <= a && a + |Strip(d, s)| <= |s| && s[a..a + |Strip(d, s)|] == Strip(d, s)
                         && AllSpace(d, s[..a]) && AllSpace(d, s[a + |Strip(d, s)|..])
    ensures forall c :: !IsSpace(d, c) ==> multiset(Strip(d, s))[c] == multiset(s)[c]
  {
    var a := SkipSpaces(d, s, 0);
    var b := BackOverSpaces(d, s, a, |s|);
    StripParts(d, s);
    assert s[a..a + |Strip(d, s)|] == Strip(d, s);
    forall c | !IsSpace(d, c) ensures multiset(Strip(d, s))[c] == multiset(s)[c] {
      CountBetweenSpaces(d, s, a, b, c);
    }
  }

  /** The whitespace stripping removes from either end. */
  lemma StripParts(d: Dialect, s: string)
    ensures var a := SkipSpaces(d, s, 0);
            var b := BackOverSpaces(d, s, a, |s|);
            Strip(d, s) == s[a..b] && AllSpace(d, s[..a]) && AllSpace(d, s[b..])
  {
    var a := SkipSpaces(d, s, 0);
    var b := BackOverSpaces(d, s, a, |s|);
    SkipSpacesSkipsSpace(d, s, 0);
    assert AllSpace(d, s[..a]) by {
      forall k | 0 <= k < a ensures IsSpace(d, s[..a][k]) { assert s[..a][k] == s[k]; }
    }
    assert AllSpace(d, s[b..]) by {
      forall k | 0 <= k < |s| - b ensures IsSpace(d, s[b..][k]) { assert s[b..][k] == s[b + k]; }
    }
  }

  /** A character that is not whitespace occurs in `s[a..b]` as often as in `s` when only whitespace is around. */
  lemma CountBetweenSpaces(d: Dialect, s: string, a: nat, b: nat, c: char)
    requires a <= b <= |s| && AllSpace(d, s[..a]) && AllSpace(d, s[b..]) && !IsSpace(d, c)
    ensures multiset(s[a..b])[c] == multiset(s)[c]
  {
    assert s == s[..a] + s[a..b] + s[b..];
    assert multiset(s) == multiset(s[..a]) + multiset(s[a..b]) + multiset(s[b..]);
    NotAmongSpaces(d, s[..a], c);
    NotAmongSpaces(d, s[b..], c);
  }

  lemma NotAmongSpaces(d: Dialect, w: string, c: char)
    requires AllSpace(d, w) && !IsSpace(d, c)
    ensures multiset(w)[c] == 0
  {
  }

  /** Stripping a string that neither begins nor ends with whitespace changes nothing. */
  lemma StripKeeps(d: Dialect, s: string)
    requires s == [] || (!IsSpace(d, s[0]) && !IsSpace(d, s[|s| - 1]))
    ensures Strip(d, s) == s
  {
  }

  /**
   * Stripping text that begins with a non-blank character keeps a prefix of it, reaching at
   * least to any later non-blank character `s[n - 1]`.
   */
  lemma StripFront(d: Dialect, s: string, n: nat)
    requires 0 < n <= |s| && !IsSpace(d, s[0]) && !IsSpace(d, s[n - 1])
    ensures n <= |Strip(d, s)| && Strip(d, s) == s[..|Strip(d, s)|]
  {
  }

  /** Stripping never introduces a character that is not whitespace. */
  lemma StripAbsent(d: Dialect, s: string, c: char)
    requires !IsSpace(d, c) && c !in s
    ensures c !in Strip(d, s)
  {
    StripRemovesOnlySpace(d, s);
    assert multiset(Strip(d, s))[c] == multiset(s)[c] == 0;
  }

  lemma StripIdempotent(d: Dialect, s: string)
    ensures Strip(d, Strip(d, s)) == Strip(d, s)
  {
    StripKeeps(d, Strip(d, s));
  }

  /** `s` with every occurrence of `c` deleted (Python `s.replace(c, '')`). */
  function Remove(s: string, c: char): (r: string)
    ensures c !in r
    ensures |r| <= |s|
    ensures forall x :: x in r <==> x in s && x != c
    ensures forall x :: x != c ==> multiset(r)[x] == multiset(s)[x]
  {
    if |s| == 0 then []
    else
      assert s == [s[0]] + s[1..];
      if s[0] == c then Remove(s[1..], c) else [s[0]] + Remove(s[1..], c)
  }

  /** Deleting distributes over concatenation, so the kept characters stay in their order. */
  lemma {:induction false} RemoveAppend(a: string, b: string, c: char)
    ensures Remove(a + b, c) == Remove(a, c) + Remove(b, c)
  {
    if |a| > 0 {
      assert (a + b)[1..] == a[1..] + b;
      assert (a + b)[0] == a[0];
      RemoveAppend(a[1..], b, c);
    } else {
      assert a + b == b;
    }
  }

  /** Deleting `c` from one character keeps it exactly when it is not `c`. */
  lemma RemoveOne(x: char, c: char)
    ensures Remove([x], c) == if x == c then [] else [x]
  {
    assert [x][1..] == [];
  }

  /** Deleting a character that does not occur changes nothing. */
  lemma {:induction false} RemoveAbsent(s: string, c: char)
    requires c !in s
    ensures Remove(s, c) == s
  {
    if |s| > 0 {
      RemoveAbsent(s[1..], c);
    }
  }

  /** The value of one decimal digit. */
  function DigitValue(c: char): nat
    requires IsDigit(c)
  {
    c as int - '0' as int
  }

  /** The character of a digit value below ten. */
  function DigitChar(n: nat): (c: char)
    requires n < 10
    ensures IsDigit(c) && DigitValue(c) == n
  {
    ('0' as int + n) as char
  }

  /** The value of a string of decimal digits, most significant first. */
  function DigitsValue(w: string): nat
    requires AllDigits(w)
  {
    if |w| == 0 then 0 else 10 * DigitsValue(w[..|w| - 1]) + DigitValue(w[|w| - 1])
  }

  /** Decimal rendering of a natural number, as Python's `str` and JavaScript template literals print it. */
  function NatToString(n: nat): (r: string)
    ensures |r| > 0 && AllDigits(r)
    ensures r[0] == '0' ==> n == 0 && r == "0"
  {
    if n < 10 then [DigitChar(n)]
    else
      var r := NatToString(n / 10) + [DigitChar(n % 10)];
      assert r[0] == NatToString(n / 10)[0];
      r
  }

  /** Decimal rendering of an integer, with a leading `-` when negative. */
  function IntToString(i: int): (r: string)
    ensures |r| > 0
    ensures i >= 0 ==> r == NatToString(i)
    ensures i < 0 ==> r == "-" + NatToString(-i)
  {
    if i < 0 then "-" + NatToString(-i) else NatToString(i)
  }

  /** Reading back a rendered natural number gives the number. */
  lemma {:induction false} NatToStringValue(n: nat)
    ensures DigitsValue(NatToString(n)) == n
  {
    if n >= 10 {
      var w := NatToString(n);
      assert w[..|w| - 1] == NatToString(n / 10);
      NatToStringValue(n / 10);
    }
  }

  /**
   * The piece before the first occurrence of `sep`, or all of `s` when `sep` does not
   * occur (JavaScript `s.split(sep)[0]`).
   */
  function FirstPiece(s: string, sep: string): (r: string)
    requires |sep| > 0
    ensures |r| <= |s| && r == s[..|r|]
    ensures |r| == |s| || StartsAt(s, |r|, sep)
    ensures forall k :: 0 <= k < |r| ==> !StartsAt(s, k, sep)
  {
    match Find(s, sep, 0)
    case None => s
    case Some(p) => s[..p]
  }

  /** `sep` does not start anywhere in `lo..hi` of `s`. */
  predicate NoOccurrence(s: string, sep: string, lo: nat, hi: nat) {
    forall k :: lo <= k < hi ==> !StartsAt(s, k, sep)
  }

  /** `p` is where `sep` first occurs in `s`. */
  predicate FirstOccurrence(s: string, sep: string, p: nat) {
    StartsAt(s, p, sep) && NoOccurrence(s, sep, 0, p)
  }

  /**
   * `w` is JavaScript's `s.split(sep)[1]`: the text after the first occurrence of `sep`,
   * up to the next occurrence that starts after it, or to the end of `s`.
   */
  ghost predicate IsSecondPiece(s: string, sep: string, w: string) {
    exists p: nat :: PieceAt(s, sep, p, w)
  }

  /** `w` is the piece after the first occurrence of `sep`, which is at `p`. */
  predicate PieceAt(s: string, sep: string, p: nat, w: string) {
    FirstOccurrence(s, sep, p) && PieceFrom(s, sep, p + |sep|, w)
  }

  /** `w` starts at `q`, holds no `sep`, and is followed by the end of `s` or by `sep`. */
  predicate PieceFrom(s: string, sep: string, q: nat, w: string) {
    && StartsAt(s, q, w) && NoOccurrence(s, sep, q, q + |w|)
    && (q + |w| == |s| || StartsAt(s, q + |w|, sep))
  }

  /** The piece that follows an occurrence `p` of `sep` is JavaScript's `split(sep)[1]`. */
  lemma PieceAfterFirst(s: string, sep: string, p: nat)
    requires |sep| > 0 && p + |sep| <= |s| && FirstOccurrence(s, sep, p)
    ensures IsSecondPiece(s, sep, FirstPiece(s[p + |sep|..], sep))
  {
    FirstPieceInSuffix(s, p + |sep|, sep);
    assert PieceAt(s, sep, p, FirstPiece(s[p + |sep|..], sep));
  }

  /** The first piece of a suffix, seen in the whole string, is a piece from where the suffix starts. */
  lemma FirstPieceInSuffix(s: string, rest: nat, sep: string)
    requires |sep| > 0 && rest <= |s|
    ensures PieceFrom(s, sep, rest, FirstPiece(s[rest..], sep))
  {
    var t := s[rest..];
    var w := FirstPiece(t, sep);
    assert s[rest..rest + |w|] == t[..|w|] == w;
    forall k | rest <= k < rest + |w|
      ensures !StartsAt(s, k, sep)
    {
      StartsAtSuffix(s, rest, k - rest, sep);
    }
    if rest + |w| < |s| {
      StartsAtSuffix(s, rest, |w|, sep);
    }
  }

  /** `split(sep)[1]` is one string: two pieces that both qualify are the same. */
  lemma SecondPieceUnique(s: string, sep: string, v: string, w: string)
    requires |sep| > 0 && IsSecondPiece(s, sep, v) && IsSecondPiece(s, sep, w)
    ensures v == w
  {
    var p: nat :| PieceAt(s, sep, p, v);
    var p2: nat :| PieceAt(s, sep, p2, w);
    PieceAtUnique(s, sep, p, p2, v, w);
  }

  /** The piece after the first occurrence is one string, wherever it is found. */
  lemma PieceAtUnique(s: string, sep: string, p: nat, p2: nat, v: string, w: string)
    requires PieceAt(s, sep, p, v) && PieceAt(s, sep, p2, w)
    ensures v == w
  {
    FirstOccurrenceUnique(s, sep, p, p2);
    var q := p + |sep|;
    PieceNotShorter(s, sep, q, |v|, |w|);
    PieceNotShorter(s, sep, q, |w|, |v|);
    assert v == s[q..q + |v|] == w;
  }

  /** `sep` occurs first at one place only. */
  lemma FirstOccurrenceUnique(s: string, sep: string, p: nat, p2: nat)
    requires FirstOccurrence(s, sep, p) && FirstOccurrence(s, sep, p2)
    ensures p == p2
  {
  }

  /** A piece that ends at `sep` or at the end of `s` is no shorter than a stretch free of `sep`. */
  lemma PieceNotShorter(s: string, sep: string, q: nat, a: nat, b: nat)
    requires q + a <= |s| && q + b <= |s| && NoOccurrence(s, sep, q, q + b)
    requires q + a == |s| || StartsAt(s, q + a, sep)
    ensures b <= a
  {
  }

  /** JavaScript `s.split(sep)[1]`, which is `undefined` (here `None`) when `sep` does not occur. */
  function SecondPiece(s: string, sep: string): (r: Option<string>)
    requires |sep| > 0
    ensures r.None? <==> !Contains(s, sep)
    ensures r.Some? ==> IsSecondPiece(s, sep, r.value)
  {
    FindDecidesContains(s, sep);
    match Find(s, sep, 0)
    case None => None
    case Some(p) =>
      PieceAfterFirst(s, sep, p);
      Some(FirstPiece(s[p + |sep|..], sep))
  }
}
