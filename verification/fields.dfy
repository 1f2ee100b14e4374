/**
 * The field extractors of scripts/parse.py: `extract_field` with the patterns the parser
 * passes to it, `extract_music_info` and `extract_gif_link`. Every pattern is compiled with
 * IGNORECASE, so each literal below matches regardless of ASCII case.
 */
module Fields {
  import opened Wrappers
  import opened Text
  import opened Patterns
  import opened Numbers

  /** `\s+` and `\s*` */
  const Spaces1: Token := Rep(Space, 1, Unbounded)
  const Spaces0: Token := Rep(Space, 0, Unbounded)

  /** `\d[\d,]*`: a digit, then digits and commas. */
  const CountTokens: seq<Token> := [Rep(Digit, 1, AtMost(1)), Rep(DigitOrComma, 0, Unbounded)]

  /** `\d+` */
  const DigitTokens: seq<Token> := [Rep(Digit, 1, Unbounded)]

  /** `[\d\.]+%`: digits and points, then a percent sign. */
  const RateTokens: seq<Token> := [Rep(DigitOrDot, 1, Unbounded), Lit("%")]

  /** `<name>\s+(\d[\d,]*)`, e.g. `Views\s+(\d[\d,]*)`. */
  function CountPattern(name: string): (p: Pattern)
    ensures Groups(p) == [CountTokens]
  {
    var p := [Plain(Lit(name)), Plain(Spaces1), Group(CountTokens)];
    assert Groups(p[1..][1..]) == [CountTokens] + Groups(p[1..][1..][1..]);
    p
  }

  /** `<name>\s+(\d+)`, e.g. `Saves\s+(\d+)`. */
  function DigitsPattern(name: string): (p: Pattern)
    ensures Groups(p) == [DigitTokens]
  {
    var p := [Plain(Lit(name)), Plain(Spaces1), Group(DigitTokens)];
    assert Groups(p[1..][1..]) == [DigitTokens] + Groups(p[1..][1..][1..]);
    p
  }

  /** `<name>\s*([\d\.]+%)`, e.g. `Engagement Rate\s*([\d\.]+%)`. */
  function RatePattern(name: string): (p: Pattern)
    ensures Groups(p) == [RateTokens]
  {
    var p := [Plain(Lit(name)), Plain(Spaces0), Group(RateTokens)];
    assert Groups(p[1..][1..]) == [RateTokens] + Groups(p[1..][1..][1..]);
    p
  }

  /**
   * `<word>\s*rate\s*([\d\.]+%)`: the account-level rates such as `[Ll]ikes\s*[Rr]ate\s*...`,
   * whose bracketed first letters add nothing under IGNORECASE.
   */
  function WordRatePattern(word: string): (p: Pattern)
    ensures Groups(p) == [RateTokens]
  {
    var p := [Plain(Lit(word)), Plain(Spaces0), Plain(Lit("rate")), Plain(Spaces0), Group(RateTokens)];
    assert Groups(p[1..][1..][1..][1..]) == [RateTokens] + Groups(p[1..][1..][1..][1..][1..]);
    assert Groups(p[1..][1..]) == Groups(p[1..][1..][1..][1..]);
    p
  }

  /** `\d{1,2}/\d{1,2}/\d{4}, \d{1,2}:\d{2} (?:AM|PM)`; `[AP]M` spells the alternation. */
  const DateTokens: seq<Token> :=
    [ Rep(Digit, 1, AtMost(2)), Lit("/"), Rep(Digit, 1, AtMost(2)), Lit("/"), Rep(Digit, 4, AtMost(4)),
      Lit(", "), Rep(Digit, 1, AtMost(2)), Lit(":"), Rep(Digit, 2, AtMost(2)), Lit(" "),
      Rep(OneOf("AP"), 1, AtMost(1)), Lit("M") ]

  /** The posting date, captured whole. */
  const DatePattern: Pattern := [Group(DateTokens)]

  /** Where a music link must point. */
  const MusicPrefix := "https://www.tiktok.com/music"

  /** `\[([^\]]+)\]\((https://www\.tiktok\.com/music[^\)]+)\)` */
  const MusicPattern: Pattern :=
    [ Plain(Lit("[")), Group([Rep(AllBut(']'), 1, Unbounded)]), Plain(Lit("](")),
      Group([Lit(MusicPrefix), Rep(AllBut(')'), 1, Unbounded)]), Plain(Lit(")")) ]

  /** `!\[([^\]]*)\]\((https?://[^\)]+)\)` */
  const GifPattern: Pattern :=
    [ Plain(Lit("![")), Group([Rep(AllBut(']'), 0, Unbounded)]), Plain(Lit("](")),
      Group([Lit("http"), Rep(OneOf("s"), 0, AtMost(1)), Lit("://"), Rep(AllBut(')'), 1, Unbounded)]),
      Plain(Lit(")")) ]

  /**
   * `extract_field`: the first capture group of the leftmost match in the whole text,
   * stripped, or `default` when the pattern matches nowhere.
   */
  function ExtractField(p: Pattern, text: string, default: string): (r: string)
    requires |Groups(p)| >= 1
    ensures NoMatchIn(text, p, 0, |text| + 1) ==> r == default
  {
    match Search(text, p, 0)
    case None => default
    case Some(m) => Strip(Python, m.groups[0])
  }

  /**
   * A field is the default exactly when the pattern matches nowhere; otherwise it is the
   * stripped first group of the leftmost match.
   */
  lemma ExtractFieldLeftmost(p: Pattern, text: string, default: string)
    requires |Groups(p)| >= 1
    ensures !NoMatchIn(text, p, 0, |text| + 1) ==>
              exists m :: Leftmost(text, p, 0, m) && |m.groups| >= 1
                          && ExtractField(p, text, default) == Strip(Python, m.groups[0])
  {
    var s := Search(text, p, 0);
    if s.Some? {
      assert Leftmost(text, p, 0, s.value);
    }
  }

  /**
   * The capture behind a field: either the default with no match anywhere, or the stripped
   * first group `g` of a match, which the group's tokens spell.
   */
  lemma FieldCapture(p: Pattern, text: string, default: string) returns (g: string)
    requires |Groups(p)| >= 1
    ensures || (NoMatchIn(text, p, 0, |text| + 1) && ExtractField(p, text, default) == default)
            || (ExtractField(p, text, default) == Strip(Python, g) && Spells(g, Groups(p)[0]))
  {
    var s := Search(text, p, 0);
    if s.Some? {
      MatchPartsSpells(text, s.value.start, p);
      g := s.value.groups[0];
    } else {
      g := default;
    }
  }

  /** What `\d[\d,]*` spells: a digit, then digits and commas. */
  lemma CountSpelling(w: string)
    requires Spells(w, CountTokens)
    ensures |w| > 0 && IsDigit(w[0]) && DigitsAndCommas(w)
  {
    var n := SpellsHeadRep(w, CountTokens);
    var m := SpellsHeadRep(w[n..], CountTokens[1..]);
    assert CountTokens[1..][1..] == [];
    assert w[n..][m..] == [];
    assert forall j :: n <= j < |w| ==> w[j] == w[n..][j - n];
  }

  /** What `\d+` spells. */
  lemma DigitsSpelling(w: string)
    requires Spells(w, DigitTokens)
    ensures |w| > 0 && AllDigits(w)
  {
    var n := SpellsHeadRep(w, DigitTokens);
    assert DigitTokens[1..] == [];
  }

  /** What `[\d\.]+%` spells: digits and points, then `%`. */
  lemma RateSpelling(w: string, ts: seq<Token>)
    requires |ts| == 2 && ts[0] == Rep(DigitOrDot, 1, Unbounded) && ts[1] == Lit("%")
    requires Spells(w, ts)
    ensures |w| >= 2 && w[|w| - 1] == '%'
    ensures forall j :: 0 <= j < |w| - 1 ==> IsDigit(w[j]) || w[j] == '.'
  {
    var n := SpellsHeadRep(w, ts);
    var v := w[n..];
    SpellsHeadLit(v, ts[1..]);
    assert ts[1..][1..] == [];
    assert v[1..] == [];
    assert FoldEq(v[..1], "%");
    assert v[..1][0] == v[0] == w[n];
    FoldsOnlyWithItself(w[n], '%');
  }

  /** A field whose group is `\d[\d,]*` is `"0"` or a digit followed by digits and commas. */
  lemma CountShape(p: Pattern, text: string)
    requires Groups(p) == [CountTokens]
    ensures var r := ExtractField(p, text, "0");
            |r| > 0 && IsDigit(r[0]) && DigitsAndCommas(r)
  {
    var g := FieldCapture(p, text, "0");
    var r := ExtractField(p, text, "0");
    if r != "0" {
      assert r == Strip(Python, g) && Spells(g, CountTokens);
      CountSpelling(g);
      DigitNotSpace(Python, g[0]);
      DigitOrCommaNotSpace(g[|g| - 1]);
      StripKeeps(Python, g);
      assert r == g;
    }
  }

  /** `parse_int` reads a count capture as its digits with the commas deleted. */
  lemma CountReads(r: string)
    requires |r| > 0 && IsDigit(r[0]) && DigitsAndCommas(r)
    ensures AllDigits(Remove(r, ','))
    ensures ParseInt(r) == DigitsValue(Remove(r, ','))
  {
    ParseIntDigitsAndCommas(r);
  }

  /**
   * A count field (`Views`, `Total Followers`, ...) is `"0"` or a digit followed by digits
   * and commas, and `parse_int` reads it as the digits with the commas deleted.
   */
  lemma CountField(p: Pattern, text: string)
    requires Groups(p) == [CountTokens]
    ensures var r := ExtractField(p, text, "0");
            && |r| > 0 && IsDigit(r[0]) && DigitsAndCommas(r) && AllDigits(Remove(r, ','))
            && ParseInt(r) == DigitsValue(Remove(r, ','))
  {
    CountShape(p, text);
    CountReads(ExtractField(p, text, "0"));
  }

  /** A `\d+` field (`Hashtags`, `Mentions`, `Saves`) is `"0"` or a non-empty run of digits. */
  lemma DigitsField(name: string, text: string)
    ensures var r := ExtractField(DigitsPattern(name), text, "0");
            |r| > 0 && AllDigits(r) && ParseInt(r) == DigitsValue(r)
  {
    var g := FieldCapture(DigitsPattern(name), text, "0");
    var r := ExtractField(DigitsPattern(name), text, "0");
    if r != "0" {
      assert r == Strip(Python, g) && Spells(g, DigitTokens);
      DigitsSpelling(g);
      DigitNotSpace(Python, g[0]);
      DigitNotSpace(Python, g[|g| - 1]);
      StripKeeps(Python, g);
    }
    assert forall j :: 0 <= j < |r| ==> r[j] != ',';
    RemoveAbsent(r, ',');
    ParseIntDigitsAndCommas(r);
  }

  /** The shape of a rate capture: digits and points, then `%`; the default `"0%"` has it too. */
  predicate IsRateText(r: string) {
    && |r| >= 2 && r[|r| - 1] == '%'
    && (forall j :: 0 <= j < |r| - 1 ==> IsDigit(r[j]) || r[j] == '.')
  }

  /** A rate pattern's field has the rate shape. */
  lemma RateShape(p: Pattern, text: string)
    requires Groups(p) == [RateTokens]
    ensures IsRateText(ExtractField(p, text, "0%"))
  {
    var g := FieldCapture(p, text, "0%");
    var r := ExtractField(p, text, "0%");
    if r != "0%" {
      assert r == Strip(Python, g) && Spells(g, RateTokens);
      RateSpelling(g, RateTokens);
      DigitOrPointNotSpace(g[0]);
      assert !IsSpace(Python, '%');
      StripKeeps(Python, g);
      assert r == g;
    }
  }

  /** `parse_float` never reads a rate-shaped text as a negative number. */
  lemma RateNotNegative(r: string)
    requires IsRateText(r)
    ensures ParseFloat(r) >= 0.0
  {
    var w := r[..|r| - 1];
    assert r == w + ['%'];
    assert '%' !in w;
    RemoveTrailing(w, '%');
    assert ',' !in w;
    RemoveAbsent(w, ',');
    DigitOrPointNotSpace(w[0]);
    DigitOrPointNotSpace(w[|w| - 1]);
    StripKeeps(Python, w);
    assert FloatLiteral(w) == UnsignedDecimal(w);
    UnsignedNotNegative(w);
  }

  lemma DigitOrCommaNotSpace(c: char)
    requires IsDigit(c) || c == ','
    ensures !IsSpace(Python, c)
  {
    if IsDigit(c) { DigitNotSpace(Python, c); }
  }

  lemma DigitOrPointNotSpace(c: char)
    requires IsDigit(c) || c == '.'
    ensures !IsSpace(Python, c)
  {
    if IsDigit(c) { DigitNotSpace(Python, c); }
  }

  /** An unsigned decimal is never negative. */
  lemma UnsignedNotNegative(u: string)
    ensures UnsignedDecimal(u).Some? ==> UnsignedDecimal(u).value >= 0.0
  {
    match Find(u, ".", 0)
    case None =>
    case Some(q) => PointedNotNegative(u[..q], u[q + 1..]);
  }

  lemma PointedNotNegative(whole: string, frac: string)
    ensures PointedDecimal(whole, frac).Some? ==> PointedDecimal(whole, frac).value >= 0.0
  {
    if PointedDecimal(whole, frac).Some? && frac != [] {
      FractionNotNegative(frac);
    }
  }

  lemma FractionNotNegative(frac: string)
    requires IsDigitPart(frac)
    ensures FractionValue(frac) >= 0.0
  {
    DigitPartDigits(frac);
    var a := PartValue(frac) as real;
    var b := Pow10(|Remove(frac, '_')|) as real;
    assert a >= 0.0 && b >= 1.0;
    assert FractionValue(frac) == a / b;
  }

  /** The engagement-rate field of a video: rate-shaped, and never read as negative. */
  lemma RateField(name: string, text: string)
    ensures IsRateText(ExtractField(RatePattern(name), text, "0%"))
    ensures ParseFloat(ExtractField(RatePattern(name), text, "0%")) >= 0.0
  {
    RateShape(RatePattern(name), text);
    RateNotNegative(ExtractField(RatePattern(name), text, "0%"));
  }

  /** An account-level rate (`Likes rate`, ...): rate-shaped. */
  lemma WordRateField(word: string, text: string)
    ensures IsRateText(ExtractField(WordRatePattern(word), text, "0%"))
  {
    RateShape(WordRatePattern(word), text);
  }

  /** The posting date is empty or a whole `M/D/YYYY, H:MM AM` stamp as the pattern spells it. */
  lemma DateField(text: string)
    ensures var r := ExtractField(DatePattern, text, "");
            r == "" || Spells(r, DateTokens)
  {
    DateShape(DatePattern, DateTokens, text);
  }

  /** A field captured by tokens that open with a digit and close with a literal `M`. */
  lemma DateShape(p: Pattern, ts: seq<Token>, text: string)
    requires Groups(p) == [ts]
    requires |ts| > 0 && ts[0].Rep? && ts[0].k == Digit && ts[0].min >= 1 && ts[|ts| - 1] == Lit("M")
    ensures var r := ExtractField(p, text, "");
            r == "" || Spells(r, ts)
  {
    var g := FieldCapture(p, text, "");
    var r := ExtractField(p, text, "");
    if r != "" {
      assert r == Strip(Python, g) && Spells(g, ts);
      var n := SpellsHeadRep(g, ts);
      SpellsEndLit(g, ts);
      assert FoldEq(g[|g| - 1..], "M");
      assert g[|g| - 1..][0] == g[|g| - 1];
      DigitNotSpace(Python, g[0]);
      assert !IsSpace(Python, g[|g| - 1]);
      StripKeeps(Python, g);
      assert r == g;
    }
  }


  /** A case-folded copy of `x` holds a non-letter `c` only where `x` does. */
  lemma FoldedAbsent(g: string, x: string, c: char)
    requires FoldedAt(g, 0, x) && !IsAsciiLetter(c) && c !in x
    ensures c !in g[..|x|]
  {
    forall j | 0 <= j < |x| ensures g[j] != c {
      if g[j] == c {
        assert Lower(g[..|x|][j]) == Lower(x[j]);
        FoldsOnlyWithItself(x[j], c);
      }
    }
  }

  /**
   * A link capture `<prefix>[^\)]+` that begins with a non-blank character keeps, once
   * stripped, its prefix (ignoring case), and holds no `)`.
   */
  lemma StrippedLink(g: string, prefix: string, n: nat)
    requires 0 < n <= |prefix| <= |g| && FoldedAt(g, 0, prefix) && ')' !in g
    requires !IsSpace(Python, g[0]) && !IsSpace(Python, g[n - 1])
    ensures var l := Strip(Python, g); FoldedAt(l, 0, prefix[..n]) && ')' !in l
  {
    var l := Strip(Python, g);
    StripFront(Python, g, n);
    StripAbsent(Python, g, ')');
    assert l[..n] == g[..n];
    assert forall j :: 0 <= j < n ==> l[..n][j] == g[..|prefix|][j] && prefix[..n][j] == prefix[j];
  }

  /** A letter is never whitespace. */
  lemma LetterNotSpace(c: char)
    requires IsAsciiLetter(c)
    ensures !IsSpace(Python, c)
  {
  }

  /**
   * What a link group `<prefix>[^\)]+` spells: the prefix up to case, then characters other
   * than `)`; with a prefix that opens and closes with a letter, neither end is whitespace.
   */
  lemma LinkSpelling(g: string, ts: seq<Token>, x: string)
    requires |ts| == 2 && ts[0] == Lit(x) && ts[1] == Rep(AllBut(')'), 1, Unbounded)
    requires 0 < |x| && ')' !in x && 'a' <= x[0] <= 'z' && 'a' <= x[|x| - 1] <= 'z'
    requires Spells(g, ts)
    ensures FoldedAt(g, 0, x) && ')' !in g
    ensures !IsSpace(Python, g[0]) && !IsSpace(Python, g[|x| - 1])
  {
    SpellsHeadLit(g, ts);
    var rest := g[|x|..];
    var n := SpellsHeadRep(rest, ts[1..]);
    assert ts[1..][1..] == [];
    assert rest[n..] == [];
    FoldedAbsent(g, x, ')');
    assert g == g[..|x|] + rest;
    assert Lower(g[0]) == x[0] && Lower(g[|x| - 1]) == x[|x| - 1] by {
      assert g[..|x|][0] == g[0];
      assert g[..|x|][|x| - 1] == g[|x| - 1];
    }
    LowerOfLetter(g[0], x[0]);
    LowerOfLetter(g[|x| - 1], x[|x| - 1]);
  }

  /** What a `[^\]]` run spells: text without `]`. */
  lemma TitleSpelling(g: string, min: nat)
    requires Spells(g, [Rep(AllBut(']'), min, Unbounded)])
    ensures ']' !in g
  {
    var ts := [Rep(AllBut(']'), min, Unbounded)];
    var n := SpellsHeadRep(g, ts);
    assert ts[1..] == [];
    assert g[n..] == [];
  }

  lemma GroupsOfMusic()
    ensures Groups(MusicPattern) == [[Rep(AllBut(']'), 1, Unbounded)], [Lit(MusicPrefix), Rep(AllBut(')'), 1, Unbounded)]]
  {
    var p := MusicPattern;
    assert Groups(p[1..][1..][1..]) == [p[3].ts] + Groups(p[1..][1..][1..][1..]);
    assert Groups(p[1..]) == [p[1].ts] + Groups(p[1..][1..]);
  }

  /** The music prefix opens and closes with a lower-case letter and holds no `)`. */
  lemma MusicPrefixShape()
    ensures 0 < |MusicPrefix| && ')' !in MusicPrefix
    ensures MusicPrefix[0] == 'h' && MusicPrefix[|MusicPrefix| - 1] == 'c'
  {
  }

  /**
   * `extract_music_info`: the stripped title and link of the first `[title](link)` whose
   * link starts with the music prefix, or `("", "")`.
   */
  function ExtractMusicInfo(block: string): (r: (string, string))
    ensures r == ("", "") <==> NoMatchIn(block, MusicPattern, 0, |block| + 1)
    ensures r != ("", "") ==> ']' !in r.0 && FoldedAt(r.1, 0, MusicPrefix) && ')' !in r.1
  {
    match Search(block, MusicPattern, 0)
    case None => ("", "")
    case Some(m) =>
      GroupsOfMusic();
      MusicPrefixShape();
      TitleCapture(block, MusicPattern, m, 1);
      PrefixLinkCapture(block, MusicPattern, m, MusicPrefix);
      (Strip(Python, m.groups[0]), Strip(Python, m.groups[1]))
  }

  /** Only the first qualifying link is used: the pair is the stripped groups of the leftmost match. */
  lemma MusicFromLeftmost(block: string)
    ensures !NoMatchIn(block, MusicPattern, 0, |block| + 1) ==>
              exists m :: Leftmost(block, MusicPattern, 0, m) && |m.groups| >= 2
                          && ExtractMusicInfo(block) == (Strip(Python, m.groups[0]), Strip(Python, m.groups[1]))
  {
    var s := Search(block, MusicPattern, 0);
    if s.Some? {
      GroupsOfMusic();
      TitleCapture(block, MusicPattern, s.value, 1);
      assert Leftmost(block, MusicPattern, 0, s.value);
    }
  }

  /** The first group of a match, a `[^\]]` run, holds no `]` once stripped. */
  lemma TitleCapture(block: string, p: Pattern, m: Match, min: nat)
    requires Search(block, p, 0) == Some(m)
    requires |Groups(p)| >= 1 && Groups(p)[0] == [Rep(AllBut(']'), min, Unbounded)]
    ensures |m.groups| == |Groups(p)| && ']' !in Strip(Python, m.groups[0])
  {
    MatchPartsSpells(block, m.start, p);
    TitleSpelling(m.groups[0], min);
    StripAbsent(Python, m.groups[0], ']');
  }

  /** The second group of a match, `<x>[^\)]+`, keeps the prefix `x` and no `)` once stripped. */
  lemma PrefixLinkCapture(block: string, p: Pattern, m: Match, x: string)
    requires Search(block, p, 0) == Some(m)
    requires |Groups(p)| >= 2 && Groups(p)[1] == [Lit(x), Rep(AllBut(')'), 1, Unbounded)]
    requires 0 < |x| && ')' !in x && 'a' <= x[0] <= 'z' && 'a' <= x[|x| - 1] <= 'z'
    ensures |m.groups| == |Groups(p)|
    ensures FoldedAt(Strip(Python, m.groups[1]), 0, x) && ')' !in Strip(Python, m.groups[1])
  {
    MatchPartsSpells(block, m.start, p);
    LinkSpelling(m.groups[1], Groups(p)[1], x);
    StrippedLink(m.groups[1], x, |x|);
    assert x[..|x|] == x;
  }

  /** The link group of the GIF pattern: `https?://[^\)]+`. */
  const GifLinkTokens: seq<Token> :=
    [Lit("http"), Rep(OneOf("s"), 0, AtMost(1)), Lit("://"), Rep(AllBut(')'), 1, Unbounded)]

  /** A GIF or image URL starts with `http://` or `https://`, ignoring case. */
  predicate IsWebUrl(u: string) {
    FoldedAt(u, 0, "http://") || FoldedAt(u, 0, "https://")
  }

  /** The pieces of a GIF link: `http`, `n` letters `s`, `://`, then no `)`. */
  lemma GifLinkPieces(g: string, ts: seq<Token>) returns (n: nat)
    requires |ts| == 4 && ts[0] == Lit("http") && ts[1] == Rep(OneOf("s"), 0, AtMost(1))
    requires ts[2] == Lit("://") && ts[3] == Rep(AllBut(')'), 1, Unbounded)
    requires Spells(g, ts)
    ensures n <= 1 && 7 + n <= |g|
    ensures FoldEq(g[..4], "http") && FoldEq(g[4 + n..7 + n], "://")
    ensures n == 1 ==> Lower(g[4]) == 's'
    ensures forall j :: 7 + n <= j < |g| ==> g[j] != ')'
  {
    SpellsHeadLit(g, ts);
    assert g[..4] == g[0..4];
    var g1 := g[4..];
    n := SpellsHeadRep(g1, ts[1..]);
    var g2 := g1[n..];
    SpellsHeadLit(g2, ts[1..][1..]);
    assert g2[0..3] == g[4 + n..7 + n];
    var g3 := g2[3..];
    var m := SpellsHeadRep(g3, ts[1..][1..][1..]);
    assert ts[1..][1..][1..][1..] == [];
    assert g3[m..] == [];
    assert forall j :: 7 + n <= j < |g| ==> g[j] == g3[j - 7 - n];
    if n == 1 {
      assert FoldedIn(g1[0], "s");
    }
  }

  /** What the GIF link group spells: `http://` or `https://` up to case, and no `)`. */
  lemma GifLinkSpelling(g: string, n: nat) returns (prefix: string)
    requires n <= 1 && 7 + n <= |g|
    requires FoldEq(g[..4], "http") && FoldEq(g[4 + n..7 + n], "://")
    requires n == 1 ==> Lower(g[4]) == 's'
    requires forall j :: 7 + n <= j < |g| ==> g[j] != ')'
    ensures prefix == "http://" || prefix == "https://"
    ensures |prefix| <= |g| && FoldedAt(g, 0, prefix) && ')' !in g
    ensures !IsSpace(Python, g[0]) && !IsSpace(Python, g[|prefix| - 1])
  {
    prefix := if n == 0 then "http://" else "https://";
    forall j | 0 <= j < |prefix| ensures Lower(g[j]) == Lower(prefix[j]) {
      if j < 4 {
        assert g[..4][j] == g[j];
      } else if j >= 4 + n {
        assert g[4 + n..7 + n][j - 4 - n] == g[j];
      }
    }
    assert FoldEq(g[..|prefix|], prefix);
    FoldedAbsent(g, prefix, ')');
    forall j | 0 <= j < |g| ensures g[j] != ')' {
      if j < |prefix| { assert g[j] == g[..|prefix|][j]; }
    }
    LowerOfLetter(g[0], 'h');
    assert Lower(g[|prefix| - 1]) == '/';
  }

  lemma GroupsOfGif()
    ensures Groups(GifPattern) == [[Rep(AllBut(']'), 0, Unbounded)], GifLinkTokens]
  {
    var p := GifPattern;
    assert Groups(p[1..][1..][1..]) == [p[3].ts] + Groups(p[1..][1..][1..][1..]);
    assert Groups(p[1..]) == [p[1].ts] + Groups(p[1..][1..]);
  }

  /**
   * `extract_gif_link`: the stripped caption (possibly empty) and URL of the first
   * `![caption](http...)`, or `("", "")`.
   */
  function ExtractGifLink(block: string): (r: (string, string))
    ensures r == ("", "") <==> NoMatchIn(block, GifPattern, 0, |block| + 1)
    ensures r != ("", "") ==> ']' !in r.0 && IsWebUrl(r.1) && ')' !in r.1
  {
    match Search(block, GifPattern, 0)
    case None => ("", "")
    case Some(m) =>
      GroupsOfGif();
      TitleCapture(block, GifPattern, m, 0);
      WebLinkCapture(block, GifPattern, m);
      (Strip(Python, m.groups[0]), Strip(Python, m.groups[1]))
  }

  /** Only the first image link is used: the pair is the stripped groups of the leftmost match. */
  lemma GifFromLeftmost(block: string)
    ensures !NoMatchIn(block, GifPattern, 0, |block| + 1) ==>
              exists m :: Leftmost(block, GifPattern, 0, m) && |m.groups| >= 2
                          && ExtractGifLink(block) == (Strip(Python, m.groups[0]), Strip(Python, m.groups[1]))
  {
    var s := Search(block, GifPattern, 0);
    if s.Some? {
      GroupsOfGif();
      TitleCapture(block, GifPattern, s.value, 0);
      assert Leftmost(block, GifPattern, 0, s.value);
    }
  }

  /** The second group of a match, `https?://[^\)]+`, is a web URL without `)` once stripped. */
  lemma WebLinkCapture(block: string, p: Pattern, m: Match)
    requires Search(block, p, 0) == Some(m)
    requires |Groups(p)| >= 2
    requires var ts := Groups(p)[1];
             && |ts| == 4 && ts[0] == Lit("http") && ts[1] == Rep(OneOf("s"), 0, AtMost(1))
             && ts[2] == Lit("://") && ts[3] == Rep(AllBut(')'), 1, Unbounded)
    ensures |m.groups| == |Groups(p)|
    ensures IsWebUrl(Strip(Python, m.groups[1])) && ')' !in Strip(Python, m.groups[1])
  {
    MatchPartsSpells(block, m.start, p);
    var n := GifLinkPieces(m.groups[1], Groups(p)[1]);
    var prefix := GifLinkSpelling(m.groups[1], n);
    StrippedLink(m.groups[1], prefix, |prefix|);
    assert prefix[..|prefix|] == prefix;
  }
}
