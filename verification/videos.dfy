/**
 * `extract_all_videos` (scripts/parse.py): the segmenter cuts the scraped text into blocks,
 * and each block, read on its own, gives one video record.
 */
module Videos {
  import opened Wrappers
  import opened Text
  import opened Patterns
  import opened Numbers
  import opened Fields
  import opened Segment

  /** One video record; the fields are the keys of the dictionary the parser builds. */
  datatype Video = Video(
    views: int, likes: int, comments: int, shares: int,
    hashtags: string, mentions: string, saves: int,
    engagementRate: real, datePosted: string,
    title: string, caption: string, gifLink: string,
    musicTitle: string, musicLink: string)

  /** The record of one block: every field is searched for in the block's text only. */
  function BuildRecord(block: string): (v: Video)
    ensures v.views >= 0 && v.likes >= 0 && v.comments >= 0 && v.shares >= 0 && v.saves >= 0
    ensures |v.hashtags| > 0 && AllDigits(v.hashtags) && |v.mentions| > 0 && AllDigits(v.mentions)
    ensures v.engagementRate >= 0.0
    ensures v.datePosted == "" || Spells(v.datePosted, DateTokens)
  {
    var (gifCaption, gifLink) := ExtractGifLink(block);
    var (musicTitle, musicLink) := ExtractMusicInfo(block);
    RecordCounts(block);
    DigitsField("Hashtags", block);
    DigitsField("Mentions", block);
    RateField("Engagement Rate", block);
    DateField(block);
    Video(
      ParseInt(ExtractField(CountPattern("Views"), block, "0")),
      ParseInt(ExtractField(CountPattern("Likes"), block, "0")),
      ParseInt(ExtractField(CountPattern("Comments"), block, "0")),
      ParseInt(ExtractField(CountPattern("Shares"), block, "0")),
      ExtractField(DigitsPattern("Hashtags"), block, "0"),
      ExtractField(DigitsPattern("Mentions"), block, "0"),
      ParseInt(ExtractField(DigitsPattern("Saves"), block, "0")),
      ParseFloat(ExtractField(RatePattern("Engagement Rate"), block, "0%")),
      ExtractField(DatePattern, block, ""),
      Strip(Python, gifCaption),
      Strip(Python, gifCaption),
      gifLink,
      Strip(Python, musicTitle),
      Strip(Python, musicLink))
  }

  /** The four `\d[\d,]*` counts and the `\d+` saves of a block are never negative. */
  lemma RecordCounts(block: string)
    ensures ParseInt(ExtractField(CountPattern("Views"), block, "0")) >= 0
    ensures ParseInt(ExtractField(CountPattern("Likes"), block, "0")) >= 0
    ensures ParseInt(ExtractField(CountPattern("Comments"), block, "0")) >= 0
    ensures ParseInt(ExtractField(CountPattern("Shares"), block, "0")) >= 0
    ensures ParseInt(ExtractField(DigitsPattern("Saves"), block, "0")) >= 0
  {
    CountField(CountPattern("Views"), block);
    CountField(CountPattern("Likes"), block);
    CountField(CountPattern("Comments"), block);
    CountField(CountPattern("Shares"), block);
    DigitsField("Saves", block);
  }

  /**
   * A stat the block does not state takes its default: 0 for the counts, `"0"` for hashtags
   * and mentions (kept as text), 0.0 for the rate and `""` for the date.
   */
  lemma RecordDefaults(block: string)
    ensures var v := BuildRecord(block);
            && (NoMatchIn(block, CountPattern("Views"), 0, |block| + 1) ==> v.views == 0)
            && (NoMatchIn(block, CountPattern("Likes"), 0, |block| + 1) ==> v.likes == 0)
            && (NoMatchIn(block, CountPattern("Comments"), 0, |block| + 1) ==> v.comments == 0)
            && (NoMatchIn(block, CountPattern("Shares"), 0, |block| + 1) ==> v.shares == 0)
            && (NoMatchIn(block, DigitsPattern("Saves"), 0, |block| + 1) ==> v.saves == 0)
            && (NoMatchIn(block, DigitsPattern("Hashtags"), 0, |block| + 1) ==> v.hashtags == "0")
            && (NoMatchIn(block, DigitsPattern("Mentions"), 0, |block| + 1) ==> v.mentions == "0")
            && (NoMatchIn(block, RatePattern("Engagement Rate"), 0, |block| + 1) ==> v.engagementRate == 0.0)
            && (NoMatchIn(block, DatePattern, 0, |block| + 1) ==> v.datePosted == "")
  {
    ZeroReads();
  }

  /** The defaults read back as zero. */
  lemma ZeroReads()
    ensures ParseInt("0") == 0 && ParseFloat("0%") == 0.0
  {
    NatRoundTrip(0);
    ZeroRate();
  }

  /** The default rate `"0%"` reads as 0.0. */
  lemma ZeroRate()
    ensures ParseFloat("0%") == 0.0
  {
    var z := NatToString(0);
    assert z == "0";
    NatToStringIsLiteral(0);
    assert Remove("0%", '%') == z;
    assert Find(z, ".", 0).None?;
  }

  /**
   * Title and caption are both the GIF caption, which stripping again leaves as it is; the GIF
   * link is empty exactly when the block has no `![caption](http...)`, and is otherwise a web
   * URL without `)`.
   */
  lemma RecordGif(block: string)
    ensures var v := BuildRecord(block);
            && v.title == v.caption == ExtractGifLink(block).0 && ']' !in v.title
            && (v.gifLink == "" <==> NoMatchIn(block, GifPattern, 0, |block| + 1))
            && (v.gifLink != "" ==> IsWebUrl(v.gifLink) && ')' !in v.gifLink)
  {
    GifRestripped(block);
  }

  /** What `extract_gif_link` returns is already stripped, and a found link is never empty. */
  lemma GifRestripped(block: string)
    ensures var r := ExtractGifLink(block);
            Strip(Python, r.0) == r.0 && (r.1 == "" <==> r == ("", ""))
  {
    match Search(block, GifPattern, 0)
    case None =>
    case Some(m) =>
      StripIdempotent(Python, m.groups[0]);
      assert IsWebUrl(ExtractGifLink(block).1);
  }

  /**
   * Stripping the music fields again leaves them as they are; the music link is empty exactly
   * when the block has no `[title](https://www.tiktok.com/music...)`, and otherwise starts with
   * that prefix, while the title holds no `]`.
   */
  lemma RecordMusic(block: string)
    ensures var v := BuildRecord(block);
            && (v.musicTitle, v.musicLink) == ExtractMusicInfo(block)
            && (v.musicLink == "" <==> NoMatchIn(block, MusicPattern, 0, |block| + 1))
            && (v.musicLink == "" ==> v.musicTitle == "")
            && (v.musicLink != "" ==> FoldedAt(v.musicLink, 0, MusicPrefix) && ']' !in v.musicTitle)
  {
    MusicRestripped(block);
  }

  /** What `extract_music_info` returns is already stripped, and a found link is never empty. */
  lemma MusicRestripped(block: string)
    ensures var r := ExtractMusicInfo(block);
            Strip(Python, r.0) == r.0 && Strip(Python, r.1) == r.1 && (r.1 == "" <==> r == ("", ""))
  {
    match Search(block, MusicPattern, 0)
    case None =>
    case Some(m) =>
      GroupsOfMusic();
      StripIdempotent(Python, m.groups[0]);
      StripIdempotent(Python, m.groups[1]);
      MusicPrefixShape();
  }

  /** The text of a block, as `findall` returns it. */
  function BlockText(raw: string, b: Block): (t: string)
    requires b.start <= b.end <= |raw|
    ensures |t| == b.end - b.start
  {
    raw[b.start..b.end]
  }

  /** `extract_all_videos`: one record per block, in document order. */
  function ExtractAllVideos(raw: string): (r: seq<Video>)
    ensures |r| == |Blocks(raw, 0)|
    ensures forall a :: 0 <= a < |r| ==> r[a] == BuildRecord(BlockText(raw, Blocks(raw, 0)[a]))
  {
    var bs := Blocks(raw, 0);
    seq(|bs|, a requires 0 <= a < |bs| => BuildRecord(BlockText(raw, bs[a])))
  }

  /**
   * The `a`-th extracted video is the record of a block that matches the segmenter's
   * pattern, so every fact about `BuildRecord` (`RecordGif`, `RecordMusic`,
   * `RecordDefaults`) holds of it with that block's text.
   */
  lemma ExtractedVideo(raw: string, a: nat)
    requires a < |ExtractAllVideos(raw)|
    ensures var b := Blocks(raw, 0)[a];
            var t := BlockText(raw, b);
            var v := ExtractAllVideos(raw)[a];
            && IsBlock(raw, b)
            && v == BuildRecord(t)
            && v.title == v.caption
  {
    var b := Blocks(raw, 0)[a];
    var t := BlockText(raw, b);
    assert ExtractAllVideos(raw)[a] == BuildRecord(t);
    BlocksAreBlocks(raw, 0);
  }

  /** Every block text opens with `![`, and `views` follows its link inside the text. */
  lemma BlockTextShape(raw: string, a: nat)
    requires a < |Blocks(raw, 0)|
    ensures var b := Blocks(raw, 0)[a];
            && b.start < b.views && b.views + 5 <= b.end
            && ImageAt(BlockText(raw, b), 0) && ViewsAt(BlockText(raw, b), b.views - b.start)
  {
    BlocksAreBlocks(raw, 0);
    BlockFrame(raw, Blocks(raw, 0)[a]);
  }

  /** The frame of a block: `![` at its start and `views` before its end. */
  lemma BlockFrame(s: string, b: Block)
    requires IsBlock(s, b)
    ensures b.start < b.views && b.views + 5 <= b.end <= |s|
    ensures ImageAt(s[b.start..b.end], 0) && ViewsAt(s[b.start..b.end], b.views - b.start)
  {
    ViewsNotSpace(s, b.views);
    var t := s[b.start..b.end];
    var v := b.views - b.start;
    assert t[0] == s[b.start] && t[1] == s[b.start + 1];
    assert t[v] == s[b.views] && t[v + 1] == s[b.views + 1] && t[v + 2] == s[b.views + 2];
    assert t[v + 3] == s[b.views + 3] && t[v + 4] == s[b.views + 4];
  }

  /** Without any `![` in the text there are no videos. */
  lemma NoImageNoVideos(raw: string)
    requires forall k :: 0 <= k <= |raw| ==> !ImageAt(raw, k)
    ensures ExtractAllVideos(raw) == []
  {
    if Blocks(raw, 0) != [] {
      BlocksAreBlocks(raw, 0);
      BlockFrame(raw, Blocks(raw, 0)[0]);
      assert false;
    }
  }

  /** No block the segmenter could match is lost: each lies inside a block that gave a video. */
  lemma EveryBlockGivesVideo(raw: string, k: nat)
    requires k <= |raw| && BlockAt(raw, k).Some?
    ensures exists a :: 0 <= a < |ExtractAllVideos(raw)|
                        && Blocks(raw, 0)[a].start <= k < Blocks(raw, 0)[a].end
  {
    BlocksCover(raw, 0, k);
  }
}
