# Video-statistics report, trending topics, video ids and credits

This project models, in Dafny, four pure parts of a social-media analytics repository.

- **The report parser** (`scripts/parse.py`). It turns a scraped, markdown-like dump of an account's videos into a report:
  - account figures are read from the whole text;
  - the first three `#tag(count)` tokens are listed;
  - every video block is cut out, read into a record, and ranked by views with a stable sort;
  - four fixed sections are rendered line by line.
  
  Every regular expression it uses is modelled as an explicit scanner. The case-insensitive field patterns use a small greedy token language (module `Patterns`). The block segmenter and the topic-line pattern are hand-written scanners, and each one's matching rule is stated in its doc comment.
- **The trending-topics route** (`app/api/trending-topics/route.ts`, lines 29-46). It takes the text after the `Trending Keywords and Scores:` heading, keeps the lines that match `\d+\.\s*(.*?)\s*-\s*Score:`, trims the captures and answers at most 32 of them. It reads the text `get_trending_keywords` returns (`scripts/topics.py`, lines 62-68), and the two are tied together by a round-trip lemma. Further lemmas cover the day's file that `scripts/trending_scraper.py` writes (lines 181-199), where that text sits between the creators and the hashtags and songs.
- **`getVideoId`** (`app/api/process-youtube/route.ts`). It finds the id of a YouTube link by plain string splitting.
- **The credit ledger** (`app/api/credits/route.ts`). It covers the cost table, the PUT deduction, the PATCH top-up, the once-a-day POST reset and the GET view. Each handler is a pure function from the user's public metadata, a `map` from keys to JSON values, to its reply and the metadata it writes. Runs of requests are modelled as served one after another.

Modules, in dependency order:

| module | file | what it holds |
|---|---|---|
| `Wrappers` | wrappers.dfy | `Option` and `Result` |
| `Text` | text.dfy | whitespace sets (Python's `str.isspace`, JavaScript's `trim`), `strip`, ASCII case folding, `split(sep)[0]` and `[1]`, number rendering |
| `Numbers` | numbers.dfy | `parse_int`, `parse_float`, and Python's `int()` and `float()` grammars for decimal text |
| `Patterns` | patterns.dfy | the token language, `re.search` and `re.findall` |
| `Fields` | fields.dfy | `extract_field` and its patterns, `extract_music_info`, `extract_gif_link` |
| `Segment` | segment.dfy | the block segmenter of `extract_all_videos` |
| `Videos` | videos.dfy | the record of a block, and `extract_all_videos` |
| `Ranking` | ranking.dfy | the stable sort by views |
| `Report` | report.dfy | the report's lines by role, their text, and the joined output |
| `Topics` | topics.dfy | the trending-topics route, the text `get_trending_keywords` returns and the day's file it goes into |
| `YouTube` | youtube.dfy | `getVideoId` and the watch-page address |
| `Credits` | credits.dfy | the credit handlers over a metadata map |

Three behaviours of the code that are easy to misread:

- A video block ends only at a `![` that starts a line, at `## ` or `### ` anywhere, at the end of the text, or just before a final newline (Python's `$`). An image marker inside a line does not end it (scripts/parse.py line 75).
- `parse_float` deletes every `%` in its argument, wherever it stands (scripts/parse.py line 17).
- A report with no videos prints the closing separator straight after the videos heading. The code has no separate "no videos" text (scripts/parse.py lines 189-224).

## Model

| member | source | states |
|---|---|---|
| Text.Strip | scripts/parse.py:27 | The stripped text is no longer than the input, and neither starts nor ends with whitespace of the given set. |
| Text.StripRemovesOnlySpace | scripts/parse.py:27 | The stripped text is a contiguous slice of the input with only whitespace before and after it. |
| Text.StripIdempotent | scripts/parse.py:125-129 | Stripping twice is stripping once, so the record builder's second `.strip()` of an extracted field changes nothing. |
| Text.StripKeeps | scripts/parse.py:27 | Text that starts and ends with a non-space character is its own strip. |
| Text.FirstPiece | app/api/process-youtube/route.ts:5 | `split(sep)[0]` is the prefix up to the first occurrence of `sep`, or the whole text when there is none. It holds no `sep`, and `sep` or the end follows it. |
| Text.SecondPiece | app/api/trending-topics/route.ts:29 | `split(sep)[1]` is present exactly when `sep` occurs. It is then the unique piece that follows the first occurrence, up to the next occurrence or the end. |
| Text.SecondPieceUnique | app/api/trending-topics/route.ts:29 | Any two strings that both qualify as the piece after the first `sep` are equal, so `split(sep)[1]` is fully determined by that description. |
| Text.FindDecidesContains | app/api/process-youtube/route.ts:4 | `includes(w)` holds exactly when the scanner finds an occurrence. |
| Text.Find | app/api/process-youtube/route.ts:4-7 | The scanner returns the first occurrence of the word at or after the start, or none exactly when there is no occurrence there. |
| Text.Remove | scripts/parse.py:10-17 | `replace(c, '')` leaves no `c`, and keeps the count of every other character. |
| Text.RemoveAppend | scripts/parse.py:10-17 | Deleting a character from a concatenation deletes it from each part, so the characters that stay keep their order. |
| Text.Lower | scripts/parse.py:26 | Folding takes every ASCII letter to a lower-case letter and leaves every character that is not a capital as it is. |
| Text.FoldsTogether | scripts/parse.py:26 | Two characters fold to the same character exactly when they are equal or are the two cases of one ASCII letter. |
| Text.NatToStringValue | scripts/parse.py:195-208 | The digits a natural number renders as have that number as their decimal value, so the ranks and counts the report prints read back as the numbers. |
| Numbers.ParseInt | scripts/parse.py:7-12 | `parse_int` of text with no digit at all is 0: neither the cleaned text nor its strip is an integer literal, so `int()` fails and the handler answers 0. |
| Numbers.ParseFloat | scripts/parse.py:14-19 | `parse_float` of text with no digit at all is 0.0, for the same reason. |
| Numbers.ParseIntDigitsAndCommas | scripts/parse.py:7-12 | On digits and commas with at least one digit, `parse_int` is the decimal value of the digits with the commas deleted (`"1,234"` gives 1234). |
| Numbers.ParseIntRejectsGarbage | scripts/parse.py:9-12 | A character no integer literal can hold makes `parse_int` return 0 rather than fail. |
| Numbers.ParseIntRoundTrip | scripts/parse.py:7-12 | Reading back the rendering of any integer, negative ones included, gives the integer. |
| Numbers.NatRoundTrip | scripts/parse.py:7-12 | Reading back a rendered natural number gives the number. |
| Numbers.NegativeRoundTrip | scripts/parse.py:7-12 | Reading back `-` followed by a rendered positive number gives its negation. |
| Numbers.NatToStringIsLiteral | scripts/parse.py:10 | A rendered natural number has no commas and no padding, and is a digit part spelling its own value. |
| Numbers.ParseFloatDecimal | scripts/parse.py:14-19 | A rate captured as `<digits>.<digits>%` reads as that exact decimal. |
| Numbers.ParseFloatTwoPoints | scripts/parse.py:14-19 | Any text with two decimal points (`"1.2.3%"`) reads as 0.0. |
| Numbers.RateTextCleaned | scripts/parse.py:17 | Cleaning a rate `<whole>.<frac>%` removes the `%` and nothing else. |
| Numbers.PointsKept | scripts/parse.py:17 | Cleaning and stripping keep every decimal point of the input. |
| Numbers.TwoPointsUnreadable | scripts/parse.py:17-19 | Text with two decimal points is not a decimal `float()` accepts. |
| Numbers.FractionOfDigits | scripts/parse.py:17 | Digits after the point are worth their decimal value over ten to the power of their count. |
| Patterns.Run | scripts/parse.py:26 | A greedy repetition takes class characters as long as the bound allows, and stops only at the end of the text, at a non-class character, or at the bound. |
| Patterns.MatchTokensSpells | scripts/parse.py:26 | The text a token sequence consumes is spelled by those tokens. |
| Patterns.MatchPartsSpells | scripts/parse.py:26-27 | Each capture group of a match is spelled by that group's tokens. |
| Patterns.Search | scripts/parse.py:26 | `re.search` gives the leftmost match at or after the start position, or none exactly when no position matches. |
| Patterns.FindAll | scripts/parse.py:155 | `re.findall` gives non-empty, non-overlapping matches in text order. The list is empty exactly when nothing matches, and its first element is the leftmost match. |
| Patterns.FindAllLeftmost | scripts/parse.py:155 | Each later match is the leftmost one from where the match before it ended, and nothing matches after the last one, so `findall` skips no match. |
| Patterns.FindAllMatches | scripts/parse.py:155 | Every element `findall` returns is a match of the pattern at its start position. |
| Fields.ExtractField | scripts/parse.py:21-27 | Without any match the default is returned unchanged. |
| Fields.ExtractFieldLeftmost | scripts/parse.py:21-27 | With a match, the result is the stripped first group of the leftmost match, and the search starts at the beginning of the text. |
| Fields.FieldCapture | scripts/parse.py:26-27 | Either no position matches and the default is returned, or the result is the strip of a capture the group's tokens spell. |
| Fields.CountShape | scripts/parse.py:86-89 | A `\d[\d,]*` field is `"0"` or a digit followed by digits and commas. |
| Fields.CountField | scripts/parse.py:86-89 | A count field is a digit followed by digits and commas, and `parse_int` reads it as its digits with the commas deleted. |
| Fields.CountReads | scripts/parse.py:116-119 | `parse_int` reads a count capture as its digits with the commas deleted. |
| Fields.DigitsField | scripts/parse.py:90-92 | A `\d+` field, captured or defaulted to `"0"`, is a non-empty run of digits that `parse_int` reads as its decimal value. |
| Fields.RateShape | scripts/parse.py:94 | A rate field is digits and points followed by `%`, and the default `"0%"` has that shape too. |
| Fields.RateNotNegative | scripts/parse.py:123 | `parse_float` never reads a rate-shaped text as a negative number. |
| Fields.RateField | scripts/parse.py:94 | The engagement rate of a video is rate-shaped and never negative. |
| Fields.WordRateField | scripts/parse.py:144-146 | The account-level rates are rate-shaped. |
| Fields.DateField | scripts/parse.py:97-101 | The posting date is empty, or is a whole `M/D/YYYY, H:MM AM` stamp as the pattern spells it. |
| Fields.ExtractMusicInfo | scripts/parse.py:39-48 | The result is `("", "")` exactly when no music link matches. Otherwise the title holds no `]`, and the link starts with `https://www.tiktok.com/music` (ignoring case) and holds no `)`. |
| Fields.MusicFromLeftmost | scripts/parse.py:39-47 | When a music link matches, the pair is the stripped title and link of the leftmost match, so only the first qualifying link is used. |
| Fields.ExtractGifLink | scripts/parse.py:57-66 | The result is `("", "")` exactly when no image link matches. Otherwise the caption holds no `]`, and the URL starts with `http://` or `https://` (ignoring case) and holds no `)`. |
| Fields.GifFromLeftmost | scripts/parse.py:57-65 | When an image link matches, the pair is the stripped caption and URL of the leftmost match. |
| Fields.GifLinkSpelling | scripts/parse.py:58 | What `https?://[^\)]+` spells starts with `http://` or `https://` up to case, holds no `)`, and has no blank at either end of its prefix. |
| Segment.AltEndExact | scripts/parse.py:75 | The alt-text scanner finds exactly the first `](` of the line. |
| Segment.BlockAt | scripts/parse.py:75 | A block found at a position starts there, and its body and end lie inside the text in order. |
| Segment.FirstBlock | scripts/parse.py:78 | The block `findall` picks next starts at or after the search position and is non-empty. |
| Segment.NextBoundary | scripts/parse.py:75 | The body scanner stops at a boundary that lies within the text. |
| Segment.CloseParenExact | scripts/parse.py:75 | The link scanner finds exactly the first `)` on the line that is followed by optional whitespace and `views` in any case. |
| Segment.NextBoundaryExact | scripts/parse.py:75 | The body scanner stops exactly at the first lookahead boundary: `\n![`, `## `, `### `, the end, or just before a final newline. |
| Segment.SkipSpacesExact | scripts/parse.py:75 | The greedy `\s*` ends exactly at the end of the maximal whitespace run. |
| Segment.BlockAtSound | scripts/parse.py:74-78 | Every block the scanner finds satisfies the declarative description of a match. |
| Segment.BlockAtComplete | scripts/parse.py:74-78 | Every block that satisfies the description is the one the scanner finds at its start. |
| Segment.FirstBlockLeftmost | scripts/parse.py:78 | No block starts between the search position and the block `findall` picks, or anywhere after it when it picks none. |
| Segment.Blocks | scripts/parse.py:78 | The blocks `findall` returns are non-empty, lie in the text and do not overlap, in document order. |
| Segment.BlocksCover | scripts/parse.py:78 | Every position where a block could start lies inside a block `findall` returned. |
| Segment.BlocksFound | scripts/parse.py:78 | Every block returned is the match at its own start. |
| Segment.BlocksAreBlocks | scripts/parse.py:74-78 | Every block returned satisfies the declarative description. |
| Videos.BuildRecord | scripts/parse.py:81-130 | Every count of a record is non-negative and hashtags and mentions are digit strings. The rate is never negative, and the date is empty or a full stamp. |
| Videos.RecordDefaults | scripts/parse.py:86-101 | A stat the block does not state takes its default: 0 for the counts, `"0"` for hashtags and mentions, 0.0 for the rate, `""` for the date. |
| Videos.RecordCounts | scripts/parse.py:116-120 | Every count of a record reads as a non-negative number. |
| Videos.RecordGif | scripts/parse.py:83-127 | Title and caption are both the stripped alt text. The link is empty exactly when the block has no image link, and is otherwise a web URL without `)`. |
| Videos.RecordMusic | scripts/parse.py:113-129 | The music fields are the extracted pair, empty exactly when no music link matches. Otherwise the link starts with the music prefix and the title holds no `]`. |
| Videos.ExtractAllVideos | scripts/parse.py:78-132 | There is exactly one record per block `findall` returns, and the `a`-th record is the one built from the text of the `a`-th block. |
| Videos.ExtractedVideo | scripts/parse.py:78-130 | The `a`-th video comes from a block that matches the segmenter's pattern, and its title and caption are the same text. |
| Videos.BlockTextShape | scripts/parse.py:75 | Every block text opens with `![` and has `views` after its link. |
| Videos.NoImageNoVideos | scripts/parse.py:74-78 | A text with no `![` gives no videos. |
| Videos.EveryBlockGivesVideo | scripts/parse.py:78-81 | No matchable block is lost: each position where one could start lies inside a block that gave a record. |
| Ranking.RankByViews | scripts/parse.py:161 | The ranking has the same length as its input, and views never increase along it. |
| Ranking.Insert | scripts/parse.py:161 | Inserting into a ranked list keeps it ranked. |
| Ranking.RankingPermutes | scripts/parse.py:161 | The ranking is a permutation of the records. |
| Ranking.RankingIsStable | scripts/parse.py:161 | Records with equal views keep their document order. |
| Ranking.StableRankingUnique | scripts/parse.py:161 | Two ranked lists whose equal-views groups are the same are equal. |
| Ranking.RankingIsTheStableOne | scripts/parse.py:161 | Any ranked permutation that keeps ties in document order is the model's ranking, so the model is Python's stable `sort(reverse=True)`. |
| Report.AccountSummary | scripts/parse.py:139-151 | Every account count is a digit followed by digits and commas, and every account rate is digits and points followed by `%`, whether captured or defaulted. |
| Report.SummaryCounts | scripts/parse.py:139-151 | Each of the seven account counts (followers, likes and videos at lines 139-141, the four averages at lines 148-151) has the shape of a count, whether captured or defaulted. |
| Report.SummaryRates | scripts/parse.py:143-146 | Each of the four account rates has the shape of a rate, whether captured or defaulted. |
| Report.StatLines | scripts/parse.py:166-181 | The statistics block has fifteen lines. |
| Report.Layout | scripts/parse.py:164-240 | The layout has 30 fixed lines, plus the hashtag lines, plus eleven lines per ranked video. |
| Report.VideoSections | scripts/parse.py:192-222 | The video sections have eleven lines per video. |
| Report.TopHashtags | scripts/parse.py:154-155 | There are no pairs exactly when no `#tag(count)` token matches. |
| Report.TopHashtagsInOrder | scripts/parse.py:154-155 | The pairs are the groups of the `findall` matches, in order. The first match is the leftmost, each later one is the leftmost after the one before, and none follows the last. |
| Report.TopHashtagsShape | scripts/parse.py:154-155 | Every pair is a `#` followed by word characters, and a non-empty run of digits. |
| Report.HashtagLines | scripts/parse.py:183-186 | The hashtag block is empty without hashtags. Otherwise it is the heading followed by the first three pairs or fewer, numbered from 1 in document order. |
| Report.NumberedTags | scripts/parse.py:185-186 | The `a`-th listed pair is numbered `i + a` and shows that pair's tag and count. |
| Report.VideoLines | scripts/parse.py:192-195 | A section has eleven lines and opens with a heading for its rank. The heading shows the video's title when it has one, and otherwise `Video #` followed by digits whose value is the rank. |
| Report.PlaceholdersExactly | scripts/parse.py:213-222 | The music line reads as its placeholder exactly when title or link is empty. The GIF line reads as its placeholder exactly when the link is empty. |
| Report.ValuesLast | scripts/parse.py:170-210 | Each of the eleven account figures, and a video's caption, date, hashtag count or metric, is printed verbatim at the end of its line, after its label. The shares rate, which closes the statistics, is followed by a newline. |
| Report.LinkLinesDiffer | scripts/parse.py:213-222 | A music or GIF link line never reads like its placeholder. |
| Report.Head | scripts/parse.py:166-190 | The head has 17 lines plus the hashtag block. It opens with the overview heading and ends with the separator and the videos heading. |
| Report.LayoutHead | scripts/parse.py:166-190 | The report opens with the fifteen statistics lines, then the hashtag block, the separator and the videos heading. |
| Report.LayoutVideos | scripts/parse.py:192-222 | After the head come eleven lines per video. The `i`-th group is the section of the video ranked `i + 1`. |
| Report.VideoSectionAt | scripts/parse.py:192 | The `a`-th eleven lines of the video sections show the `a`-th video with rank `idx + a`. |
| Report.LayoutClosing | scripts/parse.py:224-240 | The report ends with the thirteen fixed closing lines. |
| Report.ReportLines | scripts/parse.py:164-240 | The report has 30 fixed lines, plus the hashtag block, plus eleven lines per extracted video. |
| Report.ReportHashtags | scripts/parse.py:153-186 | The report's hashtag block is the block of the text's `#tag(count)` tokens. |
| Report.ReportVideos | scripts/parse.py:158-222 | Every extracted video gets one section, none lost and none added. The `i`-th section shows the video ranked `i + 1`, and no later section shows more views. |
| Report.JoinAppend | scripts/parse.py:243 | Joining two non-empty runs of lines puts one newline between their joins. |
| Report.JoinClosing | scripts/parse.py:243 | Joining non-empty lines followed by the closing sections puts the closing sections after the joined front and a newline. |
| Report.RenderOpens | scripts/parse.py:166-243 | The printed report opens with the overview heading, followed by a newline. |
| Report.RenderEndsWithClosing | scripts/parse.py:224-243 | The printed report ends with the closing sections after a newline. |
| Topics.SplitLines | app/api/trending-topics/route.ts:36 | `split('\n')` always gives at least one piece. |
| Topics.SplitLinesHaveNoNewline | app/api/trending-topics/route.ts:36 | No piece of the split holds a newline. |
| Topics.JoinSplit | app/api/trending-topics/route.ts:36 | Joining the pieces with newlines gives the text back. |
| Topics.SplitJoin | app/api/trending-topics/route.ts:36 | Splitting newline-free lines that were joined with newlines gives the lines back. |
| Topics.CaptureIffMatch | app/api/trending-topics/route.ts:39 | The capture scanner finds a capture at a position exactly where the regular expression matches there. |
| Topics.CaptureSound | app/api/trending-topics/route.ts:39 | A capture the scanner returns is that of a match whose lazy group ends at the first tail `\s*-\s*Score:`. |
| Topics.TailShapeIff | app/api/trending-topics/route.ts:39 | The greedy reading of `\s*-\s*Score:` agrees with its declarative description. |
| Topics.FirstCaptureNone | app/api/trending-topics/route.ts:39-43 | `line.match` is `null` exactly when the pattern matches nowhere in the line. |
| Topics.FirstCapture | app/api/trending-topics/route.ts:39 | A capture comes from a match that starts at or after the scan's start, and it never spans a line break. |
| Topics.FirstCaptureLeftmost | app/api/trending-topics/route.ts:39-41 | A returned capture comes from the leftmost position where the pattern matches. |
| Topics.TopicOf | app/api/trending-topics/route.ts:37-45 | A kept topic is trimmed and not empty. |
| Topics.LineDropped | app/api/trending-topics/route.ts:37-45 | A line gives no topic exactly when it is blank, has no `.`, does not match the pattern, or has an empty trimmed capture. |
| Topics.MatchIsConsidered | app/api/trending-topics/route.ts:37-39 | The filter before the pattern drops no line the pattern would accept. |
| Topics.CollectAppend | app/api/trending-topics/route.ts:35-45 | Topics are collected line by line, in line order. |
| Topics.CollectTrimmed | app/api/trending-topics/route.ts:41-45 | Every collected topic is trimmed and not empty. |
| Topics.Take | app/api/trending-topics/route.ts:46 | `slice(0, n)` is the prefix of length `min(n, length)`. |
| Topics.SectionTopics | app/api/trending-topics/route.ts:36-46 | A section gives at most 32 topics. |
| Topics.TrendingTopics | app/api/trending-topics/route.ts:29-46 | The answer is the error "No trending keywords section found" exactly when the heading is missing or nothing follows it. Otherwise it has at most 32 topics. |
| Topics.TopicsTrimmed | app/api/trending-topics/route.ts:41-46 | Every topic the route answers is trimmed and not empty. |
| Topics.SectionBetweenMarkers | app/api/trending-topics/route.ts:29 | Only the text between the first heading and the second one, or the end, is read. |
| Topics.EntryRoundTrip | scripts/topics.py:65 | A written line `{idx}. {keyword} - Score: {score}` gives back the keyword when it is readable. Readable means trimmed, non-empty, on one line and without `Score:`. |
| Topics.ListingSplits | scripts/topics.py:63-65 | The listing splits into its lines and a final empty piece. |
| Topics.ListingTopics | scripts/topics.py:63-66 | The written listing gives back its first 32 keywords in order. |
| Topics.CollectEntries | scripts/topics.py:65 | When the keywords are readable, reading the written entries and the empty piece after the last newline gives back the keywords in order. |
| Topics.WriteKeywords | scripts/topics.py:62-68 | The text `get_trending_keywords` returns holds the `Trending Keywords and Scores:` heading exactly when keywords were found. |
| Topics.WrittenWhenFound | scripts/topics.py:62-66 | Whenever keywords were found, the returned text is the heading followed by the listing. |
| Topics.WrittenSection | app/api/trending-topics/route.ts:29-46 | Given the heading and listing alone, the route reads its topics from the listing that follows the heading. |
| Topics.WrittenTopics | scripts/topics.py:62-66 | Given the heading and listing alone, the route answers their first 32 keywords, in order. |
| Topics.WrittenRoundTrip | scripts/topics.py:62-66 | Given only the text `get_trending_keywords` returns, the route reads back its first 32 keywords in order, when they are readable and do not repeat the heading. |
| Topics.NothingWritten | scripts/topics.py:67-68 | When no keyword was found, the returned text makes the route answer the missing-section error. |
| Topics.DailyFileTopics | scripts/trending_scraper.py:195-199 | In the day's file the section runs to the end of the file, so the route answers the first 32 of the keywords followed by the topics of the hashtag and song lines. This holds when neither the creators text nor the hashtags and songs hold the heading. |
| Topics.DailyFileRoundTrip | scripts/trending_scraper.py:195-199 | When in addition no hashtag or song line holds `Score:`, the route answers exactly the first 32 keywords of the day's file, in order. |
| Topics.DailySection | app/api/trending-topics/route.ts:29 | In the day's file, the route's section is everything after the heading: the listing, a newline, the hashtags, a newline and the songs. |
| Topics.DailyHeading | scripts/trending_scraper.py:196-199 | In the day's file the heading first occurs right after the creators text and the blank line, and nowhere after. |
| Topics.SectionThenTail | app/api/trending-topics/route.ts:35-45 | The lines of that section give the keywords first, then the topics of the hashtag and song lines. |
| Topics.NoScoreNoTopic | app/api/trending-topics/route.ts:39 | A line without `Score:` gives no topic, since every match of the pattern ends in `Score:`. |
| Topics.ScorelessGivesNothing | app/api/trending-topics/route.ts:35-45 | Lines none of which holds `Score:` give no topics. |
| Topics.ListingThen | app/api/trending-topics/route.ts:35 | Split on newlines, a listing followed by other text gives the listing's lines and then the pieces of that text. |
| YouTube.GetVideoId | app/api/process-youtube/route.ts:3-10 | The id is never longer than the link. |
| YouTube.WatchId | app/api/process-youtube/route.ts:4-5 | With `watch?v=` in the link, the id is the text after the first `watch?v=`, cut at the first `&` or the next `watch?v=`, whatever else the link holds. |
| YouTube.WatchIdHasNoAmpersand | app/api/process-youtube/route.ts:5 | An id taken from a `watch?v=` link holds no `&`. |
| YouTube.ShortId | app/api/process-youtube/route.ts:6-7 | Without `watch?v=` but with `youtu.be/`, the id is the whole piece after the first `youtu.be/`, query included. |
| YouTube.BareId | app/api/process-youtube/route.ts:9 | With neither marker, the link is the id. |
| YouTube.IdInLink | app/api/process-youtube/route.ts:3-10 | The id always occurs in the link. |
| YouTube.IdHasNoWatchMarker | app/api/process-youtube/route.ts:3-10 | No id holds `watch?v=`. |
| YouTube.WatchPage | app/api/process-youtube/route.ts:20 | Unless the id holds `watch?v=`, the id is the whole text after the first `watch?v=` of the address. |
| YouTube.WatchPageRoundTrip | app/api/process-youtube/route.ts:5-20 | The watch page of an id without `&` or `watch?v=` gives the id back. |
| YouTube.FetchedPageKeepsId | app/api/process-youtube/route.ts:16-20 | The fetched page names the extracted id again, whenever that id has no `&`. |
| Credits.Balance | app/api/credits/route.ts:93-132 | A missing or falsy balance reads as 0, and a stored number reads as itself. |
| Credits.Cost | app/api/credits/route.ts:129 | The cost is 1 or 2, and it is 2 exactly for `create`. |
| Credits.SpendCredits | app/api/credits/route.ts:128-154 | PUT is refused exactly when the balance is below the cost. A refusal has status 400, keeps the balance and gives the shortfall message. A success stores the balance minus the cost, which is never negative, echoes the action and cost, and changes no other key. |
| Credits.Charge | app/api/credits/route.ts:134-147 | A refused PUT leaves the metadata as it was. An accepted one lowers the balance by the cost, and no other key changes either way. |
| Credits.TopUpCredits | app/api/credits/route.ts:93-111 | PATCH answers the old balance and the old balance plus 10, and stores the latter. It keeps a truthy reset time, or otherwise stores the current time. No other key changes. |
| Credits.ResetCredits | app/api/credits/route.ts:44-70 | POST resets exactly when no truthy reset time is stored or its day is not today. A reset stores 10 credits and the current time and keeps the other keys. Otherwise the reply has the once-per-day message and the stored values. |
| Credits.Renew | app/api/credits/route.ts:49-70 | After POST the balance is 10 when a reset was due. Otherwise nothing changed. |
| Credits.ShowCredits | app/api/credits/route.ts:20-24 | GET shows the stored credits when truthy and 0 otherwise, and shows the stored reset time exactly when there is one. |
| Credits.ShownIsBalance | app/api/credits/route.ts:22-132 | When the stored credits are a number or absent, GET shows the balance PUT and PATCH work with. |
| Credits.RunBalance | app/api/credits/route.ts:134-151 | A run of PUT requests lowers the balance by exactly what its accepted requests cost. |
| Credits.RunNeverOverdraws | app/api/credits/route.ts:134-145 | After a run of PUT requests the balance is not negative, unless it is still the starting balance, because a negative balance refuses every request. |
| Credits.RunKeepsOtherKeys | app/api/credits/route.ts:142-147 | A run of PUT requests writes only the balance. |
| Credits.CreatesAccepted | app/api/credits/route.ts:129-134 | From a balance `b >= 0`, `n` requests to create are charged `2 * min(n, b / 2)` credits in total. |
| Credits.FiveCreationsADay | app/api/credits/route.ts:49-151 | After a due reset, six requests to create are charged 10 credits in total and leave a balance of 0, so the sixth is refused. |
| Credits.ResetOncePerDay | app/api/credits/route.ts:49-70 | A reset whose stored time names today is not repeated the same day, so a second POST changes nothing. |
| Credits.TopUpAffords | app/api/credits/route.ts:94-134 | After a top-up, an action is affordable whenever the balance was at least its cost less ten. |

## Left out

- File reading, the argument check, the usage message and `print` of `parse.py` (scripts/parse.py lines 134-136 and 243-248) are not modelled. The text is a parameter, and the report is the returned string `Report.Render`.
- Python's `repr` of a float in the engagement-rate line (scripts/parse.py:209) is not modelled. `Report.Render` takes it as a parameter `showRate`, because IEEE-754 shortest-repr printing is outside the model.
- `Numbers.ParseFloat` reads the exact decimal value, not its IEEE-754 rounding. Exponents, `inf`, `nan` and `float()` spellings other than decimals are treated as unreadable.
- Numbers.ParseInt: CPython's limit on `int()` of decimal text is not modelled. From CPython 3.11 (and the 3.7.14, 3.8.14, 3.9.14 and 3.10.7 backports), `int()` of a string with more than 4300 digits raises `ValueError`, so `parse_int` (scripts/parse.py:9-12) answers 0. The model answers the full value. The limit depends on the interpreter version and on `sys.set_int_max_str_digits`, which are outside the model.
- Numbers.ParseIntDigitsAndCommas: it gives the decimal value for any number of digits, so for more than 4300 digits it promises a value where CPython's `parse_int` answers 0 (see `Numbers.ParseInt`).
- Fields.CountReads: a count capture longer than 4300 digits reads as its value in the model and as 0 in CPython (see `Numbers.ParseInt`).
- Fields.CountField: likewise, a count field longer than 4300 digits reads as its value here and as 0 in CPython.
- Fields.DigitsField: likewise, a `\d+` field longer than 4300 digits reads as its value here and as 0 in CPython.
- Case folding under `re.IGNORECASE` is ASCII only. Python's `re` also matches four non-ASCII letters against ASCII ones, and these are left out: the long s `ſ` (U+017F) as `s`, the Kelvin sign `K` (U+212A) as `k`, the dotless `ı` (U+0131) as `i`, and the dotted capital `İ` (U+0130) as `i`.
- Non-ASCII decimal digits are left out. Python's `\d`, `int()` and `float()` accept every Unicode digit (category Nd), but the model's digit class is `0`-`9` only. So `Views ١٢٣` gives 123 views in the source and 0 in the model.
- The directory listing, modification-time sort and file read of the trending-topics route (app/api/trending-topics/route.ts:8-26), and its JSON reply and logging (lines 48-55), are not modelled. The file's text is a parameter.
- The HTML scrapers (scripts/topics.py fetch and parse, and the other scraper scripts) are not modelled because they are thin wrappers over HTTP and HTML libraries. Only the text `get_trending_keywords` returns (scripts/topics.py lines 62-68) and the layout of the day's file (scripts/trending_scraper.py lines 195-199) are modelled. The creators, hashtags and songs texts are parameters.
- Topics.WrittenRoundTrip: it covers only the text `get_trending_keywords` returns, not the day's file the route actually reads. In that file (scripts/trending_scraper.py:195-199) the creators text comes before the keyword text, and the hashtags and songs follow it, so their lines fall inside the route's section. `Topics.DailyFileTopics` states what the route answers for the whole file, and `Topics.DailyFileRoundTrip` gives the exact round trip only when no hashtag or song line holds `Score:`. Error texts in place of the keyword text are not covered.
- Topics.WrittenTopics: it is about the heading and listing alone, for the same reason as `Topics.WrittenRoundTrip`.
- Database writes in `scripts/run_scrapers.py` are not modelled, because they are I/O.
- The YouTube route's fetch and caption handling after line 20 are not modelled, because they are network I/O. Only the address it fetches is modelled, as `YouTube.WatchPage`.
- Signing in, the 401 and 500 replies, and the user store calls of the credit routes are not modelled. The handlers take the metadata and return what they would write. As written, PUT calls `auth()` without importing it (app/api/credits/route.ts:123), so every PUT throws a ReferenceError and answers 500 before line 128. The model states the rules of lines 128-154, as the handler would apply them once `auth` is imported.
- The New York time-zone conversion of the reset (app/api/credits/route.ts:45-49) is not modelled. The current time and day are a `Clock`, and `dayOf` stands for `new Date(lastReset).toDateString()`.
- The copy of the credit rules in the React credit manager (components/CreditManager.tsx) is not modelled, because it is UI state.
- Concurrent credit requests are left out. Each handler reads the metadata and later writes back an absolute balance, with no transaction (app/api/credits/route.ts lines 90-104 and 131-147). Two requests can therefore interleave their read and write and lose an update. For example, two concurrent `create` requests on a balance of 2 both find enough credits and both write 0, so two creations cost 2 credits. `Credits.RunBalance`, `Credits.RunNeverOverdraws`, `Credits.CreatesAccepted` and `Credits.FiveCreationsADay` describe requests served one after another.
- Credits.Balance: a truthy stored credits value that is not a number, such as a string, reads as 0. JavaScript's `x as number || 0` would pass that value through and later coerce it in arithmetic. The model keeps the balance an integer. `MetaValue` covers only part of JSON: `Num(n: int)` holds no fractional number (a stored `credits: 2.5`), no rounding past 2^53, and there are no arrays or objects.
