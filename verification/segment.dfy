/**
 * The block segmenter of `extract_all_videos` (scripts/parse.py). Its pattern
 * `(!\[.*?\]\(.*?\)\s*Views\s*[\s\S]*?(?=(?:\n!\[|## |### |$)))` is compiled with IGNORECASE
 * and applied with `findall`. At a start position it matches exactly when:
 *  - `![` begins there;
 *  - the alt text ends at the first `](` on the same line (`.` does not cross a newline;
 *    a later `](` on the line could only offer a subset of the closing brackets below);
 *  - the link ends at the first `)` after that `](`, on the same line, that is followed by
 *    optional whitespace and `views` in any case (the lazy `.*?` tries each `)` in turn);
 *  - the greedy `\s*` after `views` takes all the whitespace there, newlines included, and
 *    the block body then runs lazily to the first boundary: a `\n![`, a `## `, a `### `,
 *    the end of the text, or the position just before a final newline (`$`).
 * `findall` takes the leftmost such match, then continues from where it ended.
 */
module Segment {
  import opened Wrappers
  import opened Text

  /**
   * One block as the segmenter finds it: `![` at `start`, `](` at `altEnd`, `)` at
   * `close`, `views` at `views`, the body from `body` and the block's end at `end`.
   */
  datatype Block = Block(start: nat, altEnd: nat, close: nat, views: nat, body: nat, end: nat)

  /** `![` at `i`. */
  predicate ImageAt(s: string, i: nat) {
    i + 2 <= |s| && s[i] == '!' && s[i + 1] == '['
  }

  /** `](` at `i`. */
  predicate AltCloseAt(s: string, i: nat) {
    i + 2 <= |s| && s[i] == ']' && s[i + 1] == '('
  }

  /** `views` at `v`, in any mix of upper and lower case. */
  predicate ViewsAt(s: string, v: nat) {
    && v + 5 <= |s| && Lower(s[v]) == 'v' && Lower(s[v + 1]) == 'i' && Lower(s[v + 2]) == 'e'
    && Lower(s[v + 3]) == 'w' && Lower(s[v + 4]) == 's'
  }

  /** No newline in `s[lo..hi]`. */
  predicate OnOneLine(s: string, lo: nat, hi: nat)
    requires lo <= hi <= |s|
  {
    forall k :: lo <= k < hi ==> s[k] != '\n'
  }

  /** `a` is the first `](` at or after `i`, and no newline lies between. */
  predicate FirstAltEnd(s: string, i: nat, a: nat) {
    && i <= a <= |s| && AltCloseAt(s, a) && OnOneLine(s, i, a)
    && forall k :: i <= k < a ==> !AltCloseAt(s, k)
  }

  /** The first `](` at or after `i` on the same line. */
  function AltEnd(s: string, i: nat): (r: Option<nat>)
    requires i <= |s|
    ensures r.Some? ==> i <= r.value <= |s| && AltCloseAt(s, r.value)
    decreases |s| - i
  {
    if AltCloseAt(s, i) then Some(i)
    else if i == |s| || s[i] == '\n' then None
    else AltEnd(s, i + 1)
  }

  /** Stepping over a character that is neither a newline nor the start of `](`. */
  lemma {:induction false} FirstAltEndStep(s: string, i: nat, a: nat)
    requires i < |s| && s[i] != '\n' && !AltCloseAt(s, i)
    ensures FirstAltEnd(s, i, a) <==> FirstAltEnd(s, i + 1, a)
  {
    if FirstAltEnd(s, i + 1, a) {
      assert forall k :: i <= k < a ==> !AltCloseAt(s, k) by {
        forall k | i <= k < a ensures !AltCloseAt(s, k) {
          if k > i { assert i + 1 <= k < a; }
        }
      }
    }
  }

  /** The scanner finds exactly the first `](` of the line. */
  lemma {:induction false} AltEndExact(s: string, i: nat, a: nat)
    requires i <= |s|
    ensures AltEnd(s, i) == Some(a) <==> FirstAltEnd(s, i, a)
    decreases |s| - i
  {
    if AltCloseAt(s, i) {
    } else if i == |s| || s[i] == '\n' {
      assert !FirstAltEnd(s, i, a) by {
        if i < a <= |s| { assert !OnOneLine(s, i, a); }
      }
    } else {
      AltEndExact(s, i + 1, a);
      FirstAltEndStep(s, i, a);
    }
  }

  /** A `)` at `j` followed by optional whitespace and `views` in any case. */
  predicate ViewsAfter(s: string, j: nat) {
    j < |s| && s[j] == ')' && ViewsAt(s, SkipSpaces(Python, s, j + 1))
  }

  /** `c` is the first `)` at or after `k` followed by `views`, and no newline lies between. */
  predicate FirstClose(s: string, k: nat, c: nat) {
    && k <= c <= |s| && ViewsAfter(s, c) && OnOneLine(s, k, c)
    && forall j :: k <= j < c ==> !ViewsAfter(s, j)
  }

  /** The first `)` at or after `k` on the same line that is followed by `views`. */
  function CloseParen(s: string, k: nat): (r: Option<nat>)
    requires k <= |s|
    ensures r.Some? ==> k <= r.value && ViewsAfter(s, r.value)
    decreases |s| - k
  {
    if ViewsAfter(s, k) then Some(k)
    else if k == |s| || s[k] == '\n' then None
    else CloseParen(s, k + 1)
  }

  /** Stepping over a character that is neither a newline nor a qualifying `)`. */
  lemma {:induction false} FirstCloseStep(s: string, k: nat, c: nat)
    requires k < |s| && s[k] != '\n' && !ViewsAfter(s, k)
    ensures FirstClose(s, k, c) <==> FirstClose(s, k + 1, c)
  {
    if FirstClose(s, k + 1, c) {
      assert forall j :: k <= j < c ==> !ViewsAfter(s, j) by {
        forall j | k <= j < c ensures !ViewsAfter(s, j) {
          if j > k { assert k + 1 <= j < c; }
        }
      }
    }
  }

  /** The scanner finds exactly the first qualifying `)` of the line. */
  lemma {:induction false} CloseParenExact(s: string, k: nat, c: nat)
    requires k <= |s|
    ensures CloseParen(s, k) == Some(c) <==> FirstClose(s, k, c)
    decreases |s| - k
  {
    if ViewsAfter(s, k) {
    } else if k == |s| || s[k] == '\n' {
      assert !FirstClose(s, k, c) by {
        if k < c <= |s| { assert !OnOneLine(s, k, c); }
      }
    } else {
      CloseParenExact(s, k + 1, c);
      FirstCloseStep(s, k, c);
    }
  }

  /** Where the lookahead `(?=\n!\[|## |### |$)` succeeds. */
  predicate Boundary(s: string, e: nat) {
    || e == |s|
    || (e + 1 == |s| && s[e] == '\n')
    || (e < |s| && s[e] == '\n' && ImageAt(s, e + 1))
    || (e + 3 <= |s| && s[e] == '#' && s[e + 1] == '#' && s[e + 2] == ' ')
    || (e + 4 <= |s| && s[e] == '#' && s[e + 1] == '#' && s[e + 2] == '#' && s[e + 3] == ' ')
  }

  /** `e` is the first boundary at or after `p`. */
  predicate FirstBoundary(s: string, p: nat, e: nat) {
    p <= e <= |s| && Boundary(s, e) && forall k :: p <= k < e ==> !Boundary(s, k)
  }

  /** The first boundary at or after `p`; the end of the text always is one. */
  function NextBoundary(s: string, p: nat): (e: nat)
    requires p <= |s|
    ensures p <= e <= |s| && Boundary(s, e)
    decreases |s| - p
  {
    if Boundary(s, p) then p else NextBoundary(s, p + 1)
  }

  /** `NextBoundary` finds exactly the first boundary. */
  lemma {:induction false} NextBoundaryExact(s: string, p: nat, e: nat)
    requires p <= |s|
    ensures NextBoundary(s, p) == e <==> FirstBoundary(s, p, e)
    decreases |s| - p
  {
    if Boundary(s, p) {
    } else {
      NextBoundaryExact(s, p + 1, e);
      if FirstBoundary(s, p + 1, e) {
        assert forall k :: p <= k < e ==> !Boundary(s, k) by {
          forall k | p <= k < e ensures !Boundary(s, k) {
            if k > p { assert p + 1 <= k < e; }
          }
        }
      }
    }
  }

  /** `w` is all whitespace from `lo` and then either ends or meets a non-blank character. */
  predicate SpaceRun(s: string, lo: nat, hi: nat) {
    lo <= hi <= |s| && AllSpace(Python, s[lo..hi]) && (hi == |s| || !IsSpace(Python, s[hi]))
  }

  /** `SkipSpaces` ends exactly the maximal whitespace run. */
  lemma {:induction false} SkipSpacesExact(s: string, lo: nat, hi: nat)
    requires lo <= |s|
    ensures SkipSpaces(Python, s, lo) == hi <==> SpaceRun(s, lo, hi)
  {
    var j := SkipSpaces(Python, s, lo);
    SkipSpacesSkipsSpace(Python, s, lo);
    assert AllSpace(Python, s[lo..j]) by {
      forall k | 0 <= k < j - lo ensures IsSpace(Python, s[lo..j][k]) {
        assert s[lo..j][k] == s[lo + k];
      }
    }

  }

  /**
   * The block that opens with `![` at `i`, whose alt text ends at `a` and whose link
   * closes at `c`: the whitespace runs after `)` and after `views`, then the first boundary.
   */
  function Assemble(s: string, i: nat, a: nat, c: nat): (b: Block)
    requires i < a < c && ViewsAfter(s, c)
    ensures b.start == i && b.altEnd == a && b.close == c
    ensures c < b.views && b.views + 5 <= b.body <= b.end <= |s|
  {
    var v := SkipSpaces(Python, s, c + 1);
    var p := SkipSpaces(Python, s, v + 5);
    Block(i, a, c, v, p, NextBoundary(s, p))
  }

  /** The positions `Assemble` computes are the maximal whitespace runs and the first boundary. */
  lemma {:induction false} AssembleSpec(s: string, i: nat, a: nat, c: nat)
    requires i < a < c && ViewsAfter(s, c)
    ensures var b := Assemble(s, i, a, c);
            && SpaceRun(s, c + 1, b.views) && ViewsAt(s, b.views)
            && SpaceRun(s, b.views + 5, b.body) && FirstBoundary(s, b.body, b.end)
  {
    var b := Assemble(s, i, a, c);
    SkipSpacesExact(s, c + 1, b.views);
    SkipSpacesExact(s, b.views + 5, b.body);
    NextBoundaryExact(s, b.body, b.end);
  }

  /** A maximal whitespace run from `lo` ends in one place only. */
  lemma {:induction false} SpaceRunUnique(s: string, lo: nat, h1: nat, h2: nat)
    requires SpaceRun(s, lo, h1) && SpaceRun(s, lo, h2)
    ensures h1 == h2
  {
    SkipSpacesExact(s, lo, h1);
    SkipSpacesExact(s, lo, h2);
  }

  /** The first boundary at or after `p` is unique. */
  lemma {:induction false} FirstBoundaryUnique(s: string, p: nat, e1: nat, e2: nat)
    requires FirstBoundary(s, p, e1) && FirstBoundary(s, p, e2)
    ensures e1 == e2
  {
    NextBoundaryExact(s, p, e1);
    NextBoundaryExact(s, p, e2);
  }

  /** The block the segmenter matches at `i`, if any. */
  function BlockAt(s: string, i: nat): (r: Option<Block>)
    requires i <= |s|
    ensures r.Some? ==> r.value.start == i && i < r.value.body <= r.value.end <= |s|
  {
    if !ImageAt(s, i) then None
    else
      var a := AltEnd(s, i + 2);
      if a.None? then None
      else
        var c := CloseParen(s, a.value + 2);
        if c.None? then None
        else Some(Assemble(s, i, a.value, c.value))
  }

  /** The part of a block up to and including `views`. */
  predicate IsBlockHead(s: string, b: Block) {
    && b.start + 2 <= |s| && ImageAt(s, b.start)
    && FirstAltEnd(s, b.start + 2, b.altEnd)
    && FirstClose(s, b.altEnd + 2, b.close)
    && SpaceRun(s, b.close + 1, b.views) && ViewsAt(s, b.views)
  }

  /** The body of a block: after the whitespace that follows `views`, up to the first boundary. */
  predicate IsBlockBody(s: string, b: Block) {
    && SpaceRun(s, b.views + 5, b.body) && FirstBoundary(s, b.body, b.end)
  }

  /**
   * What makes `b` a block of `s`, stated without scanning: `![` opens it, each delimiter
   * is the first that can serve, only whitespace separates `)` from `views`, the body
   * starts after the whitespace that follows, and the block ends at the first boundary.
   */
  predicate IsBlock(s: string, b: Block) {
    IsBlockHead(s, b) && IsBlockBody(s, b)
  }

  /** `views` in any case begins with a letter, so it ends a whitespace run. */
  lemma ViewsNotSpace(s: string, v: nat)
    requires ViewsAt(s, v)
    ensures v < |s| && !IsSpace(Python, s[v])
  {
    LowerOfLetter(s[v], 'v');
  }

  /** The block assembled from the first delimiters after `![` satisfies the description. */
  lemma {:induction false} AssembledIsBlock(s: string, i: nat, a: nat, c: nat)
    requires i + 2 <= |s| && ImageAt(s, i)
    requires FirstAltEnd(s, i + 2, a) && FirstClose(s, a + 2, c)
    ensures i < a < c && IsBlock(s, Assemble(s, i, a, c))
  {
    AssembleSpec(s, i, a, c);
  }

  /** Every block the scanner finds satisfies the declarative description. */
  lemma {:induction false} BlockAtSound(s: string, i: nat)
    requires i <= |s| && BlockAt(s, i).Some?
    ensures IsBlock(s, BlockAt(s, i).value)
  {
    assert ImageAt(s, i) && AltEnd(s, i + 2).Some?;
    var a := AltEnd(s, i + 2).value;
    assert CloseParen(s, a + 2).Some?;
    var c := CloseParen(s, a + 2).value;
    assert i < a < c && ViewsAfter(s, c);
    assert BlockAt(s, i).value == Assemble(s, i, a, c);
    AltEndExact(s, i + 2, a);
    CloseParenExact(s, a + 2, c);
    AssembledIsBlock(s, i, a, c);
  }

  /** The delimiters of a block are the ones the scanners find. */
  lemma {:induction false} DelimitersFound(s: string, i: nat, a: nat, c: nat)
    requires i + 2 <= |s| && FirstAltEnd(s, i + 2, a) && FirstClose(s, a + 2, c)
    ensures AltEnd(s, i + 2) == Some(a)
    ensures CloseParen(s, a + 2) == Some(c)
  {
    AltEndExact(s, i + 2, a);
    CloseParenExact(s, a + 2, c);
  }

  lemma {:induction false} ScanAssembles(s: string, i: nat, a: nat, c: nat)
    requires i + 2 <= |s| && ImageAt(s, i)
    requires AltEnd(s, i + 2) == Some(a)
    requires CloseParen(s, a + 2) == Some(c)
    ensures i < a < c && ViewsAfter(s, c)
    ensures BlockAt(s, i) == Some(Assemble(s, i, a, c))
  {
    ScanOrdered(s, i, a, c);
    ScanBuilds(s, i, a, c);
  }

  /** The delimiters the scanners find come in order, and a `views` follows the `)`. */
  lemma {:induction false} ScanOrdered(s: string, i: nat, a: nat, c: nat)
    requires i + 2 <= |s| && ImageAt(s, i)
    requires AltEnd(s, i + 2) == Some(a)
    requires CloseParen(s, a + 2) == Some(c)
    ensures i < a < c && ViewsAfter(s, c)
  {
  }

  lemma {:induction false} ScanBuilds(s: string, i: nat, a: nat, c: nat)
    requires i + 2 <= |s| && ImageAt(s, i)
    requires AltEnd(s, i + 2) == Some(a)
    requires CloseParen(s, a + 2) == Some(c)
    requires i < a < c && ViewsAfter(s, c)
    ensures BlockAt(s, i) == Some(Assemble(s, i, a, c))
  {
  }

  /** Given its delimiters, a block's remaining positions are determined. */
  lemma {:induction false} AssembleExact(s: string, b: Block)
    requires IsBlock(s, b)
    requires b.start < b.altEnd < b.close && ViewsAfter(s, b.close)
    ensures Assemble(s, b.start, b.altEnd, b.close) == b
  {
    var m := Assemble(s, b.start, b.altEnd, b.close);
    AssembleSpec(s, b.start, b.altEnd, b.close);
    SpaceRunUnique(s, b.close + 1, b.views, m.views);
    SpaceRunUnique(s, b.views + 5, b.body, m.body);
    FirstBoundaryUnique(s, b.body, b.end, m.end);
  }

  /** A block described declaratively is the one the scanner finds at its start. */
  lemma {:induction false} BlockAtComplete(s: string, b: Block)
    requires IsBlock(s, b)
    ensures BlockAt(s, b.start) == Some(b)
  {
    DelimitersFound(s, b.start, b.altEnd, b.close);
    ScanAssembles(s, b.start, b.altEnd, b.close);
    AssembleExact(s, b);
  }


  /** `re.search` for a block: the leftmost block at or after `from`. */
  function FirstBlock(s: string, from: nat): (r: Option<Block>)
    requires from <= |s|
    ensures r.Some? ==> from <= r.value.start < r.value.end <= |s|
    decreases |s| - from
  {
    if BlockAt(s, from).Some? then BlockAt(s, from)
    else if from == |s| then None
    else FirstBlock(s, from + 1)
  }

  /** The block `FirstBlock` picks is the one the scanner finds at its start. */
  lemma {:induction false} FirstBlockFound(s: string, from: nat)
    requires from <= |s| && FirstBlock(s, from).Some?
    ensures BlockAt(s, FirstBlock(s, from).value.start) == FirstBlock(s, from)
    decreases |s| - from
  {
    if BlockAt(s, from).None? {
      FirstBlockFound(s, from + 1);
    }
  }

  /** No block starts between `from` and the block `FirstBlock` picks (or anywhere, if none). */
  lemma {:induction false} FirstBlockLeftmost(s: string, from: nat, k: nat)
    requires from <= k <= |s|
    requires FirstBlock(s, from).Some? ==> k < FirstBlock(s, from).value.start
    ensures BlockAt(s, k).None?
    decreases |s| - from
  {
    if k > from {
      FirstBlockLeftmost(s, from + 1, k);
    }
  }

  /**
   * `findall` of the segmenter from `from`: blocks in document order, each starting where
   * the previous one ended or later.
   */
  function Blocks(s: string, from: nat): (r: seq<Block>)
    requires from <= |s|
    ensures forall a :: 0 <= a < |r| ==> from <= r[a].start < r[a].end <= |s|
    ensures forall a, c :: 0 <= a < c < |r| ==> r[a].end <= r[c].start
    decreases |s| - from
  {
    match FirstBlock(s, from)
    case None => []
    case Some(b) =>
      var rest := Blocks(s, b.end);
      [b] + rest
  }

  /** No position where a block could start is skipped: each lies inside a found block. */
  lemma {:induction false} BlocksCover(s: string, from: nat, k: nat)
    requires from <= k <= |s| && BlockAt(s, k).Some?
    ensures exists a :: 0 <= a < |Blocks(s, from)| && Blocks(s, from)[a].start <= k < Blocks(s, from)[a].end
    decreases |s| - from
  {
    var r := Blocks(s, from);
    var first := FirstBlock(s, from);
    if first.None? || k < first.value.start {
      FirstBlockLeftmost(s, from, k);
      assert false;
    } else {
      var b := first.value;
      var rest := Blocks(s, b.end);
      assert r == [b] + rest;
      if k < b.end {
        assert r[0].start <= k < r[0].end;
      } else {
        BlocksCover(s, b.end, k);
        var a :| 0 <= a < |rest| && rest[a].start <= k < rest[a].end;
        assert r[a + 1] == rest[a];
      }
    }
  }

  /** Every found block is the one the scanner finds at its start. */
  lemma {:induction false} BlocksFound(s: string, from: nat)
    requires from <= |s|
    ensures forall a :: 0 <= a < |Blocks(s, from)| ==> BlockAt(s, Blocks(s, from)[a].start) == Some(Blocks(s, from)[a])
    decreases |s| - from
  {
    var r := Blocks(s, from);
    if r != [] {
      var b := FirstBlock(s, from).value;
      FirstBlockFound(s, from);
      BlocksFound(s, b.end);
      assert r[1..] == Blocks(s, b.end);
    }
  }

  /** Every found block satisfies the declarative description. */
  lemma {:induction false} BlocksAreBlocks(s: string, from: nat)
    requires from <= |s|
    ensures forall a :: 0 <= a < |Blocks(s, from)| ==> IsBlock(s, Blocks(s, from)[a])
  {
    BlocksFound(s, from);
    forall a | 0 <= a < |Blocks(s, from)| ensures IsBlock(s, Blocks(s, from)[a]) {
      BlockAtSound(s, Blocks(s, from)[a].start);
    }
  }
}
