/**
 * The report `main` prints (scripts/parse.py): account figures read from the whole text,
 * the first three `#tag(count)` tokens, every video ranked by views, and fixed closing
 * sections, joined with newlines. Reading the file and printing are left out; the text is
 * a parameter and the report is the returned string.
 */
module Report {
  import opened Wrappers
  import opened Text
  import opened Patterns
  import opened Numbers
  import opened Fields
  import opened Videos
  import opened Ranking

  /** The account-level figures, each as the text spells it. */
  datatype Summary = Summary(
    followers: string, likes: string, videos: string,
    engagementRate: string, likesRate: string, commentsRate: string, sharesRate: string,
    avgViews: string, avgLikes: string, avgComments: string, avgShares: string)

  /** What `\d[\d,]*` captures: a digit, then digits and commas. */
  predicate IsCountText(r: string) {
    |r| > 0 && IsDigit(r[0]) && DigitsAndCommas(r)
  }

  /**
   * Every count figure is a digit followed by digits and commas, and every rate figure is
   * digits and points followed by `%`.
   */
  predicate Shaped(a: Summary) {
    && IsCountText(a.followers) && IsCountText(a.likes) && IsCountText(a.videos)
    && IsCountText(a.avgViews) && IsCountText(a.avgLikes)
    && IsCountText(a.avgComments) && IsCountText(a.avgShares)
    && IsRateText(a.engagementRate) && IsRateText(a.likesRate)
    && IsRateText(a.commentsRate) && IsRateText(a.sharesRate)
  }

  /**
   * The account figures; each is `"0"` or `"0%"` when the text does not state it, so every
   * figure has the shape of a capture whether read from the text or defaulted.
   */
  function AccountSummary(raw: string): (a: Summary)
    ensures Shaped(a)
  {
    SummaryCounts(raw);
    SummaryRates(raw);
    Summary(
      ExtractField(CountPattern("Total Followers"), raw, "0"),
      ExtractField(CountPattern("Total Likes"), raw, "0"),
      ExtractField(CountPattern("Total Videos"), raw, "0"),
      ExtractField(RatePattern("Total Engagement Rates"), raw, "0%"),
      ExtractField(WordRatePattern("likes"), raw, "0%"),
      ExtractField(WordRatePattern("comments"), raw, "0%"),
      ExtractField(WordRatePattern("shares"), raw, "0%"),
      ExtractField(CountPattern("Avg. Views"), raw, "0"),
      ExtractField(CountPattern("Avg. Likes"), raw, "0"),
      ExtractField(CountPattern("Avg. Comments"), raw, "0"),
      ExtractField(CountPattern("Avg. Shares"), raw, "0"))
  }

  lemma SummaryCounts(raw: string)
    ensures IsCountText(ExtractField(CountPattern("Total Followers"), raw, "0"))
    ensures IsCountText(ExtractField(CountPattern("Total Likes"), raw, "0"))
    ensures IsCountText(ExtractField(CountPattern("Total Videos"), raw, "0"))
    ensures IsCountText(ExtractField(CountPattern("Avg. Views"), raw, "0"))
    ensures IsCountText(ExtractField(CountPattern("Avg. Likes"), raw, "0"))
    ensures IsCountText(ExtractField(CountPattern("Avg. Comments"), raw, "0"))
    ensures IsCountText(ExtractField(CountPattern("Avg. Shares"), raw, "0"))
  {
    CountShape(CountPattern("Total Followers"), raw);
    CountShape(CountPattern("Total Likes"), raw);
    CountShape(CountPattern("Total Videos"), raw);
    CountShape(CountPattern("Avg. Views"), raw);
    CountShape(CountPattern("Avg. Likes"), raw);
    CountShape(CountPattern("Avg. Comments"), raw);
    CountShape(CountPattern("Avg. Shares"), raw);
  }

  lemma SummaryRates(raw: string)
    ensures IsRateText(ExtractField(RatePattern("Total Engagement Rates"), raw, "0%"))
    ensures IsRateText(ExtractField(WordRatePattern("likes"), raw, "0%"))
    ensures IsRateText(ExtractField(WordRatePattern("comments"), raw, "0%"))
    ensures IsRateText(ExtractField(WordRatePattern("shares"), raw, "0%"))
  {
    RateField("Total Engagement Rates", raw);
    WordRateField("likes", raw);
    WordRateField("comments", raw);
    WordRateField("shares", raw);
  }

  /** `#[A-Za-z0-9_]+` */
  const TagTokens: seq<Token> := [Lit("#"), Rep(Word, 1, Unbounded)]

  /** `(#[A-Za-z0-9_]+)\((\d+)\)`: a hashtag and its count in parentheses. */
  const HashtagPattern: Pattern := [Group(TagTokens), Plain(Lit("(")), Group(DigitTokens), Plain(Lit(")"))]

  lemma GroupsOfHashtag()
    ensures Groups(HashtagPattern) == [TagTokens, DigitTokens]
    ensures Width(HashtagPattern) > 0
  {
    var p := HashtagPattern;
    assert Groups(p[1..][1..]) == [DigitTokens] + Groups(p[1..][1..][1..]);
  }

  /** A hashtag: `#`, then at least one ASCII letter, digit or underscore. */
  predicate IsTag(t: string) {
    |t| >= 2 && t[0] == '#' && forall j :: 1 <= j < |t| ==> InClass(t[j], Word)
  }

  /** `findall` of the hashtag pattern: (tag, count) pairs, unstripped, in text order. */
  function TopHashtags(raw: string): (r: seq<(string, string)>)
    ensures r == [] <==> NoMatchIn(raw, HashtagPattern, 0, |raw| + 1)
  {
    GroupsOfHashtag();
    var ms := FindAll(raw, HashtagPattern, 0);
    seq(|ms|, a requires 0 <= a < |ms| => (ms[a].groups[0], ms[a].groups[1]))
  }

  /** What the hashtag pattern spells in its first group. */
  lemma TagSpelling(w: string)
    requires Spells(w, TagTokens)
    ensures IsTag(w)
  {
    SpellsHeadLit(w, TagTokens);
    FoldsOnlyWithItself(w[0], '#');
    var n := SpellsHeadRep(w[1..], TagTokens[1..]);
    assert TagTokens[1..][1..] == [];
    assert forall j :: 1 <= j < |w| ==> w[j] == w[1..][j - 1];
  }

  /** Every pair `findall` gives is a hashtag and a run of digits, as they stand in the text. */
  lemma TopHashtagsShape(raw: string)
    ensures forall a :: 0 <= a < |TopHashtags(raw)| ==>
              IsTag(TopHashtags(raw)[a].0) && |TopHashtags(raw)[a].1| > 0 && AllDigits(TopHashtags(raw)[a].1)
  {
    GroupsOfHashtag();
    var ms := FindAll(raw, HashtagPattern, 0);
    FindAllMatches(raw, HashtagPattern, 0);
    forall a | 0 <= a < |TopHashtags(raw)|
      ensures IsTag(TopHashtags(raw)[a].0) && |TopHashtags(raw)[a].1| > 0 && AllDigits(TopHashtags(raw)[a].1)
    {
      assert IsMatchOf(raw, HashtagPattern, ms[a]);
      MatchPartsSpells(raw, ms[a].start, HashtagPattern);
      TagSpelling(ms[a].groups[0]);
      DigitsSpelling(ms[a].groups[1]);
    }
  }

  /**
   * The pairs are those of `findall`'s matches, one per match, and those matches skip no
   * token: the first is the leftmost, each next one the leftmost after the one before, and
   * none follows the last. So the listed three are the first three tokens of the text.
   */
  lemma TopHashtagsInOrder(raw: string)
    ensures Width(HashtagPattern) > 0 && |Groups(HashtagPattern)| == 2
    ensures var ms := FindAll(raw, HashtagPattern, 0);
            && |TopHashtags(raw)| == |ms|
            && (forall a :: 0 <= a < |ms| ==> TopHashtags(raw)[a] == (ms[a].groups[0], ms[a].groups[1]))
            && (ms != [] ==> Leftmost(raw, HashtagPattern, 0, ms[0]))
            && Chained(raw, HashtagPattern, ms)
            && (ms != [] ==> NoMatchIn(raw, HashtagPattern, ms[|ms| - 1].end, |raw| + 1))
  {
    GroupsOfHashtag();
    FindAllLeftmost(raw, HashtagPattern, 0);
  }

  /** The account figures of the statistics block, in the order it shows them. */
  datatype Figure =
    | TotalFollowers | TotalLikes | TotalVideos
    | AvgViews | AvgLikes | AvgComments | AvgShares
    | TotalEngagementRate | LikesRate | CommentsRate | SharesRate

  /** The counts each video section shows. */
  datatype Metric = Views | Likes | Comments | Shares

  /** The numbered steps of the closing instructions. */
  datatype Step = InputData | ReplacePlaceholders | RankAll | IncludeAll | Observe | HighlightMusic | LinkGifs

  /** One line of the report, by its role; `LineText` spells it. */
  datatype Line =
    | OverviewHeading | AccountPlaceholder | KeyStatistics | AveragePerformance
    | Stat(figure: Figure, value: string)
    | HashtagsHeading | TagEntry(rank: nat, tag: string, count: string)
    | Separator | VideosHeading
    | VideoHeading(rank: nat, title: string)
    | Caption(caption: string) | NoCaption
    | DatePosted(date: string)
    | Count(metric: Metric, n: int)
    | EngagementRate(rate: real)
    | HashtagCount(hashtags: string)
    | Music(title: string, link: string) | NoMusic
    | Gif(title: string, link: string) | NoGif
    | ObservationsHeading | PopularContent | EngagementTrends | MusicTrend
    | InstructionsHeading | Instruction(step: Step)

  function FigureLabel(f: Figure): string {
    match f
    case TotalFollowers => "- **Total Followers**: "
    case TotalLikes => "- **Total Likes**: "
    case TotalVideos => "- **Total Videos**: "
    case AvgViews => "  - **Views**: "
    case AvgLikes => "  - **Likes**: "
    case AvgComments => "  - **Comments**: "
    case AvgShares => "  - **Shares**: "
    case TotalEngagementRate => "- **Total Engagement Rate**: "
    case LikesRate => "  - **Likes Rate**: "
    case CommentsRate => "  - **Comments Rate**: "
    case SharesRate => "  - **Shares Rate**: "
  }

  function MetricLabel(m: Metric): string {
    match m
    case Views => "- **Views**: "
    case Likes => "- **Likes**: "
    case Comments => "- **Comments**: "
    case Shares => "- **Shares**: "
  }

  function StepText(s: Step): string {
    match s
    case InputData => "1. Input the webscraped data as structured info ... etc."
    case ReplacePlaceholders => "2. Replace placeholders like [Total Followers], etc."
    case RankAll => "3. Ensure videos are ranked by views, include all metadata, etc."
    case IncludeAll => "4. Include ALL videos in the webscraped content."
    case Observe => "5. Write concise but informative observations."
    case HighlightMusic => "6. If a specific music track shows high average performance, highlight it."
    case LinkGifs => "7. Ensure GIF previews are properly formatted as hyperlinks.\n"
  }

  /** `t` ends with `v`. */
  predicate EndsWith(t: string, v: string) {
    |v| <= |t| && t[|t| - |v|..] == v
  }

  /**
   * The text of a line, as the f-strings of the report spell it. `showRate` is Python's `str`
   * of a float, which the model takes as given.
   */
  function LineText(l: Line, showRate: real -> string): string {
    match l
    case OverviewHeading => "### **Account Overview:**\n"
    case AccountPlaceholder => "Brief summary of the account, its themes, etc.\n"
    case KeyStatistics => "**Key Statistics:**"
    case AveragePerformance => "- **Average Video Performance:**"
    case Stat(f, v) => FigureLabel(f) + v + (if f == SharesRate then "\n" else "")
    case HashtagsHeading => "**Most Used Hashtags:**"
    case TagEntry(i, t, c) => IntToString(i) + ". " + t + " (" + c + ")"
    case Separator => "---\n"
    case VideosHeading => "### **Videos Ranked by Popularity:**\n"
    case VideoHeading(i, t) => "#### " + IntToString(i) + ". **" + t + "**"
    case Caption(c) => "- **Caption**: " + c
    case NoCaption => "- **Caption**: (No caption)"
    case DatePosted(d) => "- **Date posted**: " + d
    case Count(m, n) => MetricLabel(m) + IntToString(n)
    case EngagementRate(r) => "- **Engagement Rate**: " + showRate(r) + "%"
    case HashtagCount(h) => "- **Hashtags**: " + h
    case Music(t, k) => "- **Music**: [" + t + "](" + k + ")"
    case NoMusic => "- **Music**: [Music Title and Link]"
    case Gif(t, k) => "- **GIF Preview**: [" + t + "](" + k + ")\n"
    case NoGif => "- **GIF Preview**: [No GIF link available]\n"
    case ObservationsHeading => "### **Observations:**\n"
    case PopularContent => "- Most popular content, hashtag usage, etc."
    case EngagementTrends => "- Observations about audience engagement trends."
    case MusicTrend => "- (If a specific music track is consistently popular, mention it here.)\n"
    case InstructionsHeading => "### **Instructions for Use:**"
    case Instruction(s) => StepText(s)
  }

  /**
   * A figure, caption, date, hashtag list or count is printed verbatim at the end of its line, after
   * its label; the shares rate, which closes the statistics, is followed by a newline.
   */
  lemma ValuesLast(l: Line, showRate: real -> string)
    ensures var t := LineText(l, showRate);
            && (l.Stat? && l.figure != SharesRate ==> EndsWith(t, l.value))
            && (l.Stat? && l.figure == SharesRate ==> EndsWith(t, l.value + "\n"))
            && (l.Caption? ==> EndsWith(t, l.caption))
            && (l.DatePosted? ==> EndsWith(t, l.date))
            && (l.HashtagCount? ==> EndsWith(t, l.hashtags))
            && (l.Count? ==> EndsWith(t, IntToString(l.n)))
  {
    match l
    case Stat(f, v) => if f != SharesRate { StatLast(f, v, showRate); } else { SharesRateLast(v, showRate); }
    case Caption(c) => LabelLast("- **Caption**: ", c);
    case DatePosted(d) => LabelLast("- **Date posted**: ", d);
    case HashtagCount(h) => LabelLast("- **Hashtags**: ", h);
    case Count(m, n) => LabelLast(MetricLabel(m), IntToString(n));
    case _ =>
  }

  lemma LabelLast(head: string, v: string)
    ensures EndsWith(head + v, v)
  {
    assert (head + v)[|head|..] == v;
  }

  lemma SharesRateLast(v: string, showRate: real -> string)
    ensures EndsWith(LineText(Stat(SharesRate, v), showRate), v + "\n")
  {
    assert FigureLabel(SharesRate) + v + "\n" == FigureLabel(SharesRate) + (v + "\n");
    LabelLast(FigureLabel(SharesRate), v + "\n");
  }

  lemma StatLast(f: Figure, v: string, showRate: real -> string)
    requires f != SharesRate
    ensures EndsWith(LineText(Stat(f, v), showRate), v)
  {
    assert FigureLabel(f) + v + "" == FigureLabel(f) + v;
    LabelLast(FigureLabel(f), v);
  }

  /** A music or GIF link line never reads like its placeholder: it ends in `)`, not `]`. */
  lemma LinkLinesDiffer(t: string, k: string, showRate: real -> string)
    ensures LineText(Music(t, k), showRate) != LineText(NoMusic, showRate)
    ensures LineText(Gif(t, k), showRate) != LineText(NoGif, showRate)
  {
    var m, n := LineText(Music(t, k), showRate), LineText(NoMusic, showRate);
    assert m[|m| - 1] == ')' && n[|n| - 1] == ']';
    var g, h := LineText(Gif(t, k), showRate), LineText(NoGif, showRate);
    assert g[|g| - 2] == ')' && h[|h| - 2] == ']';
  }

  /** The key statistics block. */
  function StatLines(a: Summary): (ls: seq<Line>)
    ensures |ls| == 15
  {
    [ OverviewHeading, AccountPlaceholder, KeyStatistics,
      Stat(TotalFollowers, a.followers), Stat(TotalLikes, a.likes), Stat(TotalVideos, a.videos),
      AveragePerformance,
      Stat(AvgViews, a.avgViews), Stat(AvgLikes, a.avgLikes),
      Stat(AvgComments, a.avgComments), Stat(AvgShares, a.avgShares),
      Stat(TotalEngagementRate, a.engagementRate), Stat(LikesRate, a.likesRate),
      Stat(CommentsRate, a.commentsRate), Stat(SharesRate, a.sharesRate) ]
  }

  /** `{i}. {tag} ({count})` for each pair, numbered from `i`. */
  function NumberedTags(tags: seq<(string, string)>, i: nat): (ls: seq<Line>)
    ensures |ls| == |tags|
    ensures forall a :: 0 <= a < |tags| ==> ls[a] == TagEntry(i + a, tags[a].0, tags[a].1)
    decreases |tags|
  {
    if tags == [] then []
    else [TagEntry(i, tags[0].0, tags[0].1)] + NumberedTags(tags[1..], i + 1)
  }

  function Min(a: int, b: int): int {
    if a <= b then a else b
  }

  /** How many lines the hashtag block of `tags` takes. */
  function TagLineCount(tags: seq<(string, string)>): nat {
    if tags == [] then 0 else 1 + Min(3, |tags|)
  }

  /**
   * The hashtag block: nothing at all without hashtags; otherwise a heading and the first
   * (at most three) pairs, numbered from 1.
   */
  function HashtagLines(tags: seq<(string, string)>): (ls: seq<Line>)
    ensures |ls| == TagLineCount(tags) && (tags != [] ==> ls[0] == HashtagsHeading)
    ensures forall a :: 0 <= a < Min(3, |tags|) ==> ls[1 + a] == TagEntry(1 + a, tags[a].0, tags[a].1)
  {
    if tags == [] then []
    else [HashtagsHeading] + NumberedTags(tags[..Min(3, |tags|)], 1)
  }

  /** `Video #` followed by the rank in decimal, which reads back as the rank. */
  predicate NumberedTitle(t: string, idx: nat) {
    |t| > 7 && t[..7] == "Video #" && AllDigits(t[7..]) && DigitsValue(t[7..]) == idx
  }

  /**
   * The eleven lines of the video ranked `idx`. The heading carries the rank and never an
   * empty title: an untitled video is `Video #idx`.
   */
  function VideoLines(idx: nat, v: Video): (ls: seq<Line>)
    ensures |ls| == 11
    ensures ls[0].VideoHeading? && ls[0].rank == idx && ls[0].title != ""
    ensures v.title != "" ==> ls[0].title == v.title
    ensures v.title == "" ==> NumberedTitle(ls[0].title, idx)
  {
    NatToStringValue(idx);
    [ VideoHeading(idx, if v.title != "" then v.title else "Video #" + IntToString(idx)),
      if v.caption != "" then Caption(v.caption) else NoCaption,
      DatePosted(v.datePosted),
      Count(Views, v.views), Count(Likes, v.likes), Count(Comments, v.comments), Count(Shares, v.shares),
      EngagementRate(v.engagementRate),
      HashtagCount(v.hashtags),
      if v.musicTitle != "" && v.musicLink != "" then Music(v.musicTitle, v.musicLink) else NoMusic,
      if v.gifLink != "" then Gif(v.title, v.gifLink) else NoGif ]
  }

  /**
   * The music line reads as the placeholder exactly when the title or the link is missing,
   * and the GIF line exactly when the link is missing.
   */
  lemma PlaceholdersExactly(idx: nat, v: Video, showRate: real -> string)
    ensures var ls := VideoLines(idx, v);
            && (LineText(ls[9], showRate) == LineText(NoMusic, showRate) <==> v.musicTitle == "" || v.musicLink == "")
            && (LineText(ls[10], showRate) == LineText(NoGif, showRate) <==> v.gifLink == "")
  {
    var ls := VideoLines(idx, v);
    if v.musicTitle != "" && v.musicLink != "" {
      assert ls[9] == Music(v.musicTitle, v.musicLink);
      LinkLinesDiffer(v.musicTitle, v.musicLink, showRate);
    } else {
      assert ls[9] == NoMusic;
    }
    if v.gifLink != "" {
      assert ls[10] == Gif(v.title, v.gifLink);
      LinkLinesDiffer(v.title, v.gifLink, showRate);
    } else {
      assert ls[10] == NoGif;
    }
  }

  /** The sections of `vs`, ranked from `idx` on, eleven lines each. */
  function VideoSections(vs: seq<Video>, idx: nat): (ls: seq<Line>)
    ensures |ls| == 11 * |vs|
    decreases |vs|
  {
    if vs == [] then [] else VideoLines(idx, vs[0]) + VideoSections(vs[1..], idx + 1)
  }

  /** A slice of the second part of a concatenation. */
  lemma SliceAfter(x: seq<Line>, y: seq<Line>, i: nat, n: nat)
    requires i + n <= |y|
    ensures (x + y)[|x| + i..|x| + i + n] == y[i..i + n]
  {
  }

  /** A slice of the first part of a concatenation. */
  lemma SliceBefore(x: seq<Line>, y: seq<Line>, i: nat, n: nat)
    requires i + n <= |x|
    ensures (x + y)[i..i + n] == x[i..i + n]
  {
  }

  /** Observations and instructions, after the last video. */
  const ClosingLines: seq<Line> := [
    Separator, ObservationsHeading, PopularContent, EngagementTrends, MusicTrend,
    InstructionsHeading,
    Instruction(InputData), Instruction(ReplacePlaceholders), Instruction(RankAll), Instruction(IncludeAll),
    Instruction(Observe), Instruction(HighlightMusic), Instruction(LinkGifs) ]

  /** Everything above the first video: statistics, hashtags, separator, videos heading. */
  function Head(a: Summary, tags: seq<(string, string)>): (ls: seq<Line>)
    ensures |ls| == 17 + TagLineCount(tags)
    ensures ls[0] == OverviewHeading
    ensures tags != [] ==> ls[15] == HashtagsHeading
    ensures ls[15 + TagLineCount(tags)] == Separator && ls[16 + TagLineCount(tags)] == VideosHeading
  {
    StatLines(a) + (HashtagLines(tags) + [Separator, VideosHeading])
  }

  /** The report's lines from its parts: head, one section per ranked video, closing sections. */
  function Layout(a: Summary, tags: seq<(string, string)>, ranked: seq<Video>): (ls: seq<Line>)
    ensures |ls| == 30 + TagLineCount(tags) + 11 * |ranked|
  {
    Head(a, tags) + (VideoSections(ranked, 1) + ClosingLines)
  }

  /** The lines of the report of a scraped text, by role. */
  function ReportLines(raw: string): (ls: seq<Line>)
    ensures |ls| == 30 + TagLineCount(TopHashtags(raw)) + 11 * |ExtractAllVideos(raw)|
  {
    Layout(AccountSummary(raw), TopHashtags(raw), RankByViews(ExtractAllVideos(raw)))
  }

  /** The layout opens with the statistics, the hashtag block, the separator and the videos heading. */
  lemma LayoutHead(a: Summary, tags: seq<(string, string)>, ranked: seq<Video>)
    ensures var ls := Layout(a, tags, ranked);
            var h := TagLineCount(tags);
            && ls[..15] == StatLines(a)
            && ls[15..15 + h] == HashtagLines(tags)
            && ls[15 + h] == Separator && ls[16 + h] == VideosHeading
  {
    HeadParts(StatLines(a), HashtagLines(tags), [Separator, VideosHeading], VideoSections(ranked, 1) + ClosingLines);
  }

  /** Where the parts of a head sit in the lines it starts. */
  lemma HeadParts(stats: seq<Line>, hashtags: seq<Line>, marks: seq<Line>, rest: seq<Line>)
    requires |marks| == 2
    ensures var ls := (stats + (hashtags + marks)) + rest;
            var s, h := |stats|, |hashtags|;
            && ls[..s] == stats && ls[s..s + h] == hashtags && ls[s + h] == marks[0] && ls[s + h + 1] == marks[1]
  {
    var ls := (stats + (hashtags + marks)) + rest;
    var s, h := |stats|, |hashtags|;
    assert ls[..s] == stats;
    assert ls[s..s + h] == hashtags;
  }

  /** After the head come eleven lines per video, in rank order. */
  lemma {:induction false} LayoutVideos(a: Summary, tags: seq<(string, string)>, ranked: seq<Video>, i: nat)
    requires i < |ranked|
    ensures var ls := Layout(a, tags, ranked);
            var base := 17 + TagLineCount(tags) + 11 * i;
            ls[base..base + 11] == VideoLines(i + 1, ranked[i])
  {
    LayoutSection(a, tags, ranked, i);
    VideoSectionAt(ranked, 1, i);
  }

  /** The lines after the head, eleven per video, are the video sections. */
  lemma {:induction false} LayoutSection(a: Summary, tags: seq<(string, string)>, ranked: seq<Video>, i: nat)
    requires i < |ranked|
    ensures var base := 17 + TagLineCount(tags) + 11 * i;
            Layout(a, tags, ranked)[base..base + 11] == VideoSections(ranked, 1)[11 * i..11 * i + 11]
  {
    MiddleSlice(Layout(a, tags, ranked), Head(a, tags), VideoSections(ranked, 1), ClosingLines,
                11 * i, 11, 17 + TagLineCount(tags) + 11 * i, VideoSections(ranked, 1)[11 * i..11 * i + 11]);
  }

  /** The section of the `a`-th video: the videos keep their order and each gets its rank. */
  lemma {:induction false} VideoSectionAt(vs: seq<Video>, idx: nat, a: nat)
    requires a < |vs|
    ensures VideoSections(vs, idx)[11 * a..11 * a + 11] == VideoLines(idx + a, vs[a])
    decreases a
  {
    if a == 0 {
      FirstSection(vs, idx);
    } else {
      VideoSectionAt(vs[1..], idx + 1, a - 1);
      LaterSection(vs, idx, a);
    }
  }

  /** The first eleven lines of the sections are the first video's. */
  lemma FirstSection(vs: seq<Video>, idx: nat)
    requires vs != []
    ensures VideoSections(vs, idx)[0..11] == VideoLines(idx, vs[0])
  {
    SliceBefore(VideoLines(idx, vs[0]), VideoSections(vs[1..], idx + 1), 0, 11);
  }

  /** A later video's section is its section among the sections of the videos after the first. */
  lemma LaterSection(vs: seq<Video>, idx: nat, a: nat)
    requires 0 < a < |vs|
    requires VideoSections(vs[1..], idx + 1)[11 * (a - 1)..11 * (a - 1) + 11] == VideoLines(idx + 1 + (a - 1), vs[1..][a - 1])
    ensures VideoSections(vs, idx)[11 * a..11 * a + 11] == VideoLines(idx + a, vs[a])
  {
    SliceAfter(VideoLines(idx, vs[0]), VideoSections(vs[1..], idx + 1), 11 * (a - 1), 11);
    assert vs[1..][a - 1] == vs[a] && idx + 1 + (a - 1) == idx + a;
  }

  /** What a slice of the middle part of a concatenation is, placed in the whole. */
  lemma MiddleSlice(ls: seq<Line>, x: seq<Line>, y: seq<Line>, z: seq<Line>, i: nat, n: nat, base: nat, w: seq<Line>)
    requires ls == x + (y + z) && i + n <= |y| && base == |x| + i && y[i..i + n] == w
    ensures base + n <= |ls| && ls[base..base + n] == w
  {
    SliceAfter(x, y + z, i, n);
    SliceBefore(y, z, i, n);
  }

  /** The layout ends with the thirteen closing lines. */
  lemma LayoutClosing(a: Summary, tags: seq<(string, string)>, ranked: seq<Video>)
    ensures var ls := Layout(a, tags, ranked);
            ls == ls[..|ls| - 13] + ClosingLines
  {
  }

  /**
   * The hashtag block of a report is the block of the text's `#tag(count)` tokens: absent
   * when the text has none, otherwise a heading and the first three (or fewer) pairs.
   */
  lemma ReportHashtags(raw: string)
    ensures var ls := ReportLines(raw);
            var h := TagLineCount(TopHashtags(raw));
            ls[15..15 + h] == HashtagLines(TopHashtags(raw))
  {
    LayoutHead(AccountSummary(raw), TopHashtags(raw), RankByViews(ExtractAllVideos(raw)));
  }

  /**
   * Every extracted video gets one section of the report, none lost and none added; the
   * `i`-th section shows the video ranked `i + 1`, and no later section shows more views.
   */
  lemma ReportVideos(raw: string, i: nat)
    requires i < |ExtractAllVideos(raw)|
    ensures var ls := ReportLines(raw);
            var ranked := RankByViews(ExtractAllVideos(raw));
            var base := 17 + TagLineCount(TopHashtags(raw)) + 11 * i;
            && ls[base..base + 11] == VideoLines(i + 1, ranked[i])
            && (forall j :: i < j < |ranked| ==> ranked[i].views >= ranked[j].views)
  {
    LayoutVideos(AccountSummary(raw), TopHashtags(raw), RankByViews(ExtractAllVideos(raw)), i);
  }

  /** The text of each line. */
  function Texts(ls: seq<Line>, showRate: real -> string): (r: seq<string>)
    ensures |r| == |ls|
    ensures forall k :: 0 <= k < |ls| ==> r[k] == LineText(ls[k], showRate)
  {
    seq(|ls|, k requires 0 <= k < |ls| => LineText(ls[k], showRate))
  }

  /** `"\n".join(lines)` */
  function Join(lines: seq<string>): (r: string)
    ensures |lines| == 1 ==> r == lines[0]
    decreases |lines|
  {
    if lines == [] then ""
    else if |lines| == 1 then lines[0]
    else lines[0] + "\n" + Join(lines[1..])
  }

  /** Joining two non-empty runs of lines is joining each and putting a newline between. */
  lemma {:induction false} JoinAppend(a: seq<string>, b: seq<string>)
    requires a != [] && b != []
    ensures Join(a + b) == Join(a) + "\n" + Join(b)
    decreases |a|
  {
    if |a| == 1 {
      assert (a + b)[1..] == b;
    } else {
      JoinAppend(a[1..], b);
      assert (a + b)[1..] == a[1..] + b;
    }
  }

  /** The printed report. */
  function Render(raw: string, showRate: real -> string): (r: string)
  {
    Join(Texts(ReportLines(raw), showRate))
  }

  /** The printed report opens with the overview heading, followed by a newline. */
  lemma RenderOpens(raw: string, showRate: real -> string)
    ensures var r, h := Render(raw, showRate), LineText(OverviewHeading, showRate);
            |r| > |h| && r[..|h| + 1] == h + "\n"
  {
    var ts := Texts(ReportLines(raw), showRate);
    JoinStarts(ts);
  }

  /** Joined lines open with the first line, followed by a newline when more lines come. */
  lemma JoinStarts(ts: seq<string>)
    requires |ts| > 1
    ensures |Join(ts)| > |ts[0]| && Join(ts)[..|ts[0]| + 1] == ts[0] + "\n"
  {
    assert Join(ts) == ts[0] + "\n" + Join(ts[1..]);
  }

  /** Printing lines that end with the closing sections: the closing text comes last, after a newline. */
  lemma {:induction false} JoinClosing(front: seq<Line>, showRate: real -> string)
    requires front != []
    ensures Join(Texts(front + ClosingLines, showRate)) == Join(Texts(front, showRate)) + "\n" + Join(Texts(ClosingLines, showRate))
  {
    assert Texts(front + ClosingLines, showRate) == Texts(front, showRate) + Texts(ClosingLines, showRate);
    JoinAppend(Texts(front, showRate), Texts(ClosingLines, showRate));
  }

  /** The printed report ends with the closing sections, after a newline. */
  lemma RenderEndsWithClosing(raw: string, showRate: real -> string)
    ensures var ls := ReportLines(raw);
            Render(raw, showRate) == Join(Texts(ls[..|ls| - 13], showRate)) + "\n" + Join(Texts(ClosingLines, showRate))
  {
    var ls := ReportLines(raw);
    LayoutClosing(AccountSummary(raw), TopHashtags(raw), RankByViews(ExtractAllVideos(raw)));
    JoinClosing(ls[..|ls| - 13], showRate);
  }
}
