/**
 * Security news and videos: shaping the Google News RSS items and the YouTube
 * playlist items into the response records. Opening the feed, parsing its XML
 * and the YouTube HTTP call are inputs: the feed is the list of its `<item>`
 * elements (`None` when opening or parsing it threw), the playlist reply is a
 * `Remote` value.
 */
module SecurityInfoService {
  import opened Wrappers
  import opened Text

  /** Number of news items on the main dashboard. */
  const NewsLimit: int := 2
  /** Number of news items on the news list page. */
  const NewsListLimit: int := 10

  /** Separates a Google News title from the name of its source. */
  const Separator: string := " - "
  /** The source shown when the title names none. */
  const DefaultSource: string := "뉴스"

  const NewsIdPrefix: string := "news_"
  const VideoIdPrefix: string := "yt_"
  const VideoUrlPrefix: string := "https://youtu.be/"
  const ChannelUrlPrefix: string := "https://www.youtube.com/channel/"
  /** The channel shown when the first playlist item names no channel. */
  const DefaultChannelUrl: string := "https://www.youtube.com/@경찰청"

  /** The longest summary kept, and how much of a longer one is kept before `"..."`. */
  const SummaryLimit := 100
  const SummaryKept := 97

  /** The two error statuses of this service. */
  datatype SecurityError = SecurityNewsFetchError | SecurityYoutubeFetchError

  // ---------------------------------------------------------------------------
  // Titles: "<headline> - <source>"
  // ---------------------------------------------------------------------------

  /** The text holds no `" - "`. */
  ghost predicate NoSeparator(s: string)
  {
    forall j :: !OccursAt(s, Separator, j)
  }

  /** The last `" - "` of the title starts at `k`. */
  ghost predicate LastSeparatorAt(title: string, k: int)
  {
    OccursAt(title, Separator, k) && forall j :: k < j ==> !OccursAt(title, Separator, j)
  }

  /**
   * `extractSource`: the text after the LAST `" - "` of the title (so the source
   * itself holds no `" - "`), or `"뉴스"` when the title has none.
   */
  function ExtractSource(title: string): (r: string)
    ensures NoSeparator(title) ==> r == DefaultSource
    ensures !NoSeparator(title) ==>
              && |r| + |Separator| <= |title|
              && r == title[|title| - |r|..]
              && LastSeparatorAt(title, |title| - |r| - |Separator|)
              && NoSeparator(r)
  {
    match LastIndexOf(title, Separator)
    case None => DefaultSource
    case Some(k) =>
      var r := title[k + |Separator|..];
      assert NoSeparator(r) by {
        forall j | OccursAt(r, Separator, j) ensures false {
          assert title[k + 3 + j..k + 3 + j + 3] == r[j..j + 3];
          assert OccursAt(title, Separator, k + 3 + j);
        }
      }
      r
  }

  /**
   * `cleanTitle`: the text before the LAST `" - "` of the title, or the title
   * unchanged when it has none.
   */
  function CleanTitle(title: string): (r: string)
    ensures NoSeparator(title) ==> r == title
    ensures !NoSeparator(title) ==> |r| <= |title| && r == title[..|r|] && LastSeparatorAt(title, |r|)
  {
    match LastIndexOf(title, Separator)
    case None => title
    case Some(k) => title[..k]
  }

  /** Splitting at the last separator loses nothing: headline, separator and source give the title back. */
  lemma SplitAtLastSeparator(title: string)
    requires !NoSeparator(title)
    ensures CleanTitle(title) + Separator + ExtractSource(title) == title
  {
    var head := CleanTitle(title);
    var source := ExtractSource(title);
    var p := |title| - |source| - |Separator|;
    assert p == |head|;
    assert title == title[..p] + title[p..p + 3] + title[p + 3..];
  }

  // ---------------------------------------------------------------------------
  // Summaries: cleanHtml
  // ---------------------------------------------------------------------------

  /**
   * The five entity replacements, each over the whole text, one after another in
   * the order `&nbsp;`, `&quot;`, `&amp;`, `&lt;`, `&gt;`. Every entity is longer
   * than what replaces it, so the text never grows.
   */
  function DecodeEntities(s: string): (r: string)
    ensures |r| <= |s|
  {
    var s1 := Replace(s, "&nbsp;", " ");
    var s2 := Replace(s1, "&quot;", "\"");
    var s3 := Replace(s2, "&amp;", "&");
    var s4 := Replace(s3, "&lt;", "<");
    ReplaceShrinks(s, "&nbsp;", " ");
    ReplaceShrinks(s1, "&quot;", "\"");
    ReplaceShrinks(s2, "&amp;", "&");
    ReplaceShrinks(s3, "&lt;", "<");
    ReplaceShrinks(s4, "&gt;", ">");
    Replace(s4, "&gt;", ">")
  }

  /** A text without the first character of `target` holds no occurrence of it. */
  lemma AbsentWithoutFirstChar(s: string, target: string)
    requires |target| > 0 && target[0] !in s
    ensures forall k :: !OccursAt(s, target, k)
  {
    forall k ensures !OccursAt(s, target, k) {
      if 0 <= k && k + |target| <= |s| {
        assert s[k..k + |target|][0] == s[k];
      }
    }
  }

  /** Text with no `&` holds no entity and is left as it is. */
  lemma DecodeWithoutAmpersand(s: string)
    requires '&' !in s
    ensures DecodeEntities(s) == s
  {
    AbsentWithoutFirstChar(s, "&nbsp;");
    ReplaceAbsent(s, "&nbsp;", " ");
    AbsentWithoutFirstChar(s, "&quot;");
    ReplaceAbsent(s, "&quot;", "\"");
    AbsentWithoutFirstChar(s, "&amp;");
    ReplaceAbsent(s, "&amp;", "&");
    AbsentWithoutFirstChar(s, "&lt;");
    ReplaceAbsent(s, "&lt;", "<");
    AbsentWithoutFirstChar(s, "&gt;");
    ReplaceAbsent(s, "&gt;", ">");
  }

  /**
   * Decoding is a single pass per entity, in a fixed order: a double-escaped
   * `&amp;lt;` first becomes `&lt;` and then, one replacement later, `<`.
   */
  lemma DoubleEscapedLessThan()
    ensures DecodeEntities("&amp;lt;") == "<"
  {
    FirstPassesOnDoubleEscape();
    assert Replace("&lt;", "&lt;", "<") == "<";
    assert Replace("<", "&gt;", ">") == "<";
  }

  /** The first three passes leave `&amp;lt;` as `&lt;`. */
  lemma FirstPassesOnDoubleEscape()
    ensures Replace(Replace(Replace("&amp;lt;", "&nbsp;", " "), "&quot;", "\""), "&amp;", "&") == "&lt;"
  {
    NoNbspInDoubleEscape();
    NoQuotInDoubleEscape();
    assert Replace("lt;", "&amp;", "&") == "lt;";
    assert Replace("&amp;lt;", "&amp;", "&") == "&lt;";
  }

  lemma NoNbspInDoubleEscape()
    ensures Replace("&amp;lt;", "&nbsp;", " ") == "&amp;lt;"
  {
    assert "&amp;lt;"[1] != "&nbsp;"[1];
    assert Replace("p;lt;", "&nbsp;", " ") == "p;lt;";
    assert "mp;lt;"[0] != "&nbsp;"[0];
    assert Replace("mp;lt;", "&nbsp;", " ") == "mp;lt;";
    assert "amp;lt;"[0] != "&nbsp;"[0];
    assert Replace("amp;lt;", "&nbsp;", " ") == "amp;lt;";
  }

  lemma NoQuotInDoubleEscape()
    ensures Replace("&amp;lt;", "&quot;", "\"") == "&amp;lt;"
  {
    assert "&amp;lt;"[1] != "&quot;"[1];
    assert Replace("p;lt;", "&quot;", "\"") == "p;lt;";
    assert "mp;lt;"[0] != "&quot;"[0];
    assert Replace("mp;lt;", "&quot;", "\"") == "mp;lt;";
    assert "amp;lt;"[0] != "&quot;"[0];
    assert Replace("amp;lt;", "&quot;", "\"") == "amp;lt;";
  }

  /**
   * Tags removed, entities decoded, every whitespace run collapsed to one space,
   * then trimmed: the text `cleanHtml` measures against its limit. The result
   * uses no whitespace but `' '`, never two in a row, and neither starts nor
   * ends with a character `trim()` would strip.
   */
  function Normalize(s: string): (r: string)
    ensures |r| <= |s|
    ensures PlainSpacesOnly(r) && SingleSpaced(r)
    ensures |r| > 0 ==> r[0] > ' ' && r[|r| - 1] > ' '
  {
    var c := CollapseSpaces(DecodeEntities(StripTags(s)));
    TrimKeepsSpacing(c);
    Trim(c)
  }

  /** A slice of a text keeps the text's spacing properties. */
  lemma SliceKeepsSpacing(s: string, lo: nat, hi: nat)
    requires lo <= hi <= |s|
    requires PlainSpacesOnly(s) && SingleSpaced(s)
    ensures PlainSpacesOnly(s[lo..hi]) && SingleSpaced(s[lo..hi])
  {
    var t := s[lo..hi];
    forall i, j | 0 <= i < |t| && 0 <= j < |t| && j == i + 1
      ensures !(IsSpace(t[i]) && IsSpace(t[j]))
    {
      assert t[i] == s[lo + i] && t[j] == s[lo + j];
    }
  }

  /** Trimming cuts a slice out of a text, so it keeps the text's spacing properties. */
  lemma TrimKeepsSpacing(c: string)
    requires PlainSpacesOnly(c) && SingleSpaced(c)
    ensures PlainSpacesOnly(Trim(c)) && SingleSpaced(Trim(c))
  {
    var st := SkipPadding(c, 0);
    SliceKeepsSpacing(c, st, BackOverPadding(c, st, |c|));
  }

  /**
   * `cleanHtml`: `""` for a null or empty summary; otherwise the normalized text
   * when it fits in 100 characters, else its first 97 characters and `"..."`.
   */
  function CleanHtml(html: Option<string>): (r: string)
    ensures |r| <= SummaryLimit
    ensures html.None? || html == Some("") ==> r == ""
    ensures html.Some? && |Normalize(html.value)| <= SummaryLimit ==> r == Normalize(html.value)
    ensures html.Some? && |Normalize(html.value)| > SummaryLimit ==>
              |r| == SummaryLimit && r[..SummaryKept] == Normalize(html.value)[..SummaryKept]
              && r[SummaryKept..] == "..."
  {
    if html.None? || html.value == "" then ""
    else
      var text := Normalize(html.value);
      if |text| > SummaryLimit then text[..SummaryKept] + "..." else text
  }

  lemma {:induction false} StripTagsPlain(s: string)
    requires '<' !in s
    ensures StripTags(s) == s
    decreases |s|
  {
    if |s| > 0 {
      StripTagsPlain(s[1..]);
    }
  }

  lemma {:induction false} CollapseSpacesPlain(s: string)
    requires forall k :: 0 <= k < |s| ==> !IsSpace(s[k])
    ensures CollapseSpaces(s) == s
    decreases |s|
  {
    if |s| > 0 {
      CollapseSpacesPlain(s[1..]);
    }
  }

  /**
   * On a summary with no tag, no entity and no control character but whitespace,
   * normalizing changes only whitespace: the rest of the text is kept, in order.
   */
  lemma NormalizeKeepsText(s: string)
    requires '<' !in s && '&' !in s
    requires forall k :: 0 <= k < |s| && s[k] <= ' ' ==> IsSpace(s[k])
    ensures Unspaced(Normalize(s)) == Unspaced(s)
  {
    StripTagsPlain(s);
    DecodeWithoutAmpersand(s);
    var c := CollapseSpaces(s);
    CollapseSpacesKeepsText(s);
    CollapseSpacesChars(s);
    forall k | 0 <= k < |c| && c[k] <= ' '
      ensures IsSpace(c[k])
    {
      assert c[k] in c;
    }
    TrimKeepsText(c);
  }

  /**
   * A tag between two words is dropped, and the whitespace after it, if any,
   * becomes one space.
   */
  lemma NormalizeTagBetweenWords(a: string, t: string, w: string, b: string)
    requires |a| > 0 && |b| > 0
    requires forall k :: 0 <= k < |a| ==> a[k] > ' ' && a[k] != '<' && a[k] != '&'
    requires forall k :: 0 <= k < |b| ==> b[k] > ' ' && b[k] != '<' && b[k] != '&'
    requires '>' !in t
    requires forall k :: 0 <= k < |w| ==> IsSpace(w[k])
    ensures Normalize(a + "<" + t + ">" + w + b) == a + (if |w| > 0 then " " else "") + b
  {
    TagBetweenWordsStripped(a, t, w, b);
    var c := a + (if |w| > 0 then " " else "") + b;
    TagBetweenWordsCollapsed(a, w, b);
    TrimUnpadded(c);
  }

  /** Stripping the tag and decoding leave the words and the whitespace. */
  lemma TagBetweenWordsStripped(a: string, t: string, w: string, b: string)
    requires forall k :: 0 <= k < |a| ==> a[k] != '<' && a[k] != '&'
    requires forall k :: 0 <= k < |b| ==> b[k] != '<' && b[k] != '&'
    requires '>' !in t
    requires forall k :: 0 <= k < |w| ==> IsSpace(w[k])
    ensures DecodeEntities(StripTags(a + "<" + t + ">" + w + b)) == a + w + b
  {
    TagBetweenWordsDropped(a, t, w, b);
    WordsWithoutAmpersand(a, w, b);
  }

  lemma TagBetweenWordsDropped(a: string, t: string, w: string, b: string)
    requires '<' !in a && '<' !in b && '>' !in t
    requires forall k :: 0 <= k < |w| ==> IsSpace(w[k])
    ensures StripTags(a + "<" + t + ">" + w + b) == a + w + b
  {
    var rest := w + b;
    ConcatAssoc(a + "<" + t + ">", w, b);
    StripTagsDropsTag(a, t, rest);
    SpacesOpenNoTag(w);
    assert '<' !in rest;
    StripTagsPlain(rest);
    ConcatAssoc(a, w, b);
  }

  lemma SpacesOpenNoTag(w: string)
    requires forall k :: 0 <= k < |w| ==> IsSpace(w[k])
    ensures '<' !in w
  {
  }

  lemma WordsWithoutAmpersand(a: string, w: string, b: string)
    requires forall k :: 0 <= k < |a| ==> a[k] != '&'
    requires forall k :: 0 <= k < |b| ==> b[k] != '&'
    requires forall k :: 0 <= k < |w| ==> IsSpace(w[k])
    ensures DecodeEntities(a + w + b) == a + w + b
  {
    var s := a + w + b;
    assert forall k :: 0 <= k < |s| ==> s[k] != '&';
    DecodeWithoutAmpersand(s);
  }

  /** The whitespace between the words becomes one space, or stays absent. */
  lemma TagBetweenWordsCollapsed(a: string, w: string, b: string)
    requires forall k :: 0 <= k < |a| ==> a[k] > ' '
    requires forall k :: 0 <= k < |b| ==> b[k] > ' '
    requires forall k :: 0 <= k < |w| ==> IsSpace(w[k])
    ensures CollapseSpaces(a + w + b) == a + (if |w| > 0 then " " else "") + b
  {
    var sp: string := if |w| > 0 then " " else "";
    ConcatAssoc(a, w, b);
    CollapseSpacesKeepsWord(a, w + b);
    RunBeforeWord(w, b);
    ConcatAssoc(a, sp, b);
  }

  /** Whitespace before a word becomes one space, or stays absent. */
  lemma RunBeforeWord(w: string, b: string)
    requires forall k :: 0 <= k < |b| ==> b[k] > ' '
    requires forall k :: 0 <= k < |w| ==> IsSpace(w[k])
    ensures CollapseSpaces(w + b) == (if |w| > 0 then " " else "") + b
  {
    CollapseSpacesPlain(b);
    if |w| > 0 {
      CollapseSpacesRun(w, b);
    } else {
      assert w + b == b;
    }
  }

  /**
   * A summary that is already plain text (no tag, no entity, no whitespace or
   * control character) and fits in 100 characters is shown exactly as written.
   */
  lemma PlainSummaryUnchanged(s: string)
    requires 0 < |s| <= SummaryLimit
    requires forall k :: 0 <= k < |s| ==> s[k] > ' ' && s[k] != '<' && s[k] != '&'
    ensures CleanHtml(Some(s)) == s
  {
    NormalizePlain(s);
  }

  /** Text without tags, entities, whitespace or control characters normalizes to itself. */
  lemma NormalizePlain(s: string)
    requires forall k :: 0 <= k < |s| ==> s[k] > ' ' && s[k] != '<' && s[k] != '&'
    ensures Normalize(s) == s
  {
    StripTagsPlain(s);
    DecodeWithoutAmpersand(s);
    assert forall k :: 0 <= k < |s| ==> !IsSpace(s[k]);
    CollapseSpacesPlain(s);
    TrimPlain(s);
  }

  lemma TrimPlain(s: string)
    requires forall k :: 0 <= k < |s| ==> s[k] > ' '
    ensures Trim(s) == s
  {
    assert SkipPadding(s, 0) == 0;
    assert BackOverPadding(s, 0, |s|) == |s|;
  }

  // ---------------------------------------------------------------------------
  // News list: fetchNewsFromRss
  // ---------------------------------------------------------------------------

  /** The four tags read from one RSS `<item>` (a missing tag reads as `""`). */
  datatype RssItem = RssItem(title: string, link: string, pubDate: string, description: string)

  datatype SecurityNews = SecurityNews(
    id: string,
    source: string,
    title: string,
    summary: string,
    publishedAt: string,
    linkUrl: string)

  /** A list entry's id: the prefix and its 1-based position, zero-padded to three digits. */
  function PositionId(prefix: string, i: nat): string
  {
    prefix + Format03d(i + 1)
  }

  /** The id is the prefix followed by digits that spell the 1-based position. */
  lemma PositionIdShape(prefix: string, i: nat)
    ensures var r := PositionId(prefix, i);
            && |r| >= |prefix| + 3 && r[..|prefix|] == prefix
            && AllDigits(r[|prefix|..]) && DecimalValue(r[|prefix|..]) == i + 1
  {
    var r := PositionId(prefix, i);
    Format03dSpells(i + 1);
    assert r[|prefix|..] == Format03d(i + 1);
  }

  /** Different positions get different ids. */
  lemma PositionIdsDistinct(prefix: string, i: nat, j: nat)
    requires i != j
    ensures PositionId(prefix, i) != PositionId(prefix, j)
  {
    PositionIdShape(prefix, i);
    PositionIdShape(prefix, j);
  }

  /** The record built from the i-th item; `formatDate` is the date reformatting, left uninterpreted. */
  function NewsEntry(i: nat, item: RssItem, formatDate: string -> string): SecurityNews
  {
    SecurityNews(PositionId(NewsIdPrefix, i), ExtractSource(item.title), CleanTitle(item.title),
                 CleanHtml(Some(item.description)), formatDate(item.pubDate), item.link)
  }

  function Min(a: int, b: int): int
  {
    if a < b then a else b
  }

  /** The records of the first `n` items, in item order. */
  function NewsEntries(items: seq<RssItem>, n: nat, formatDate: string -> string): (r: seq<SecurityNews>)
    requires n <= |items|
    ensures |r| == n
  {
    if n == 0 then [] else NewsEntries(items, n - 1, formatDate) + [NewsEntry(n - 1, items[n - 1], formatDate)]
  }

  /** Entry k of the list is the record of item k, shaped with its own position. */
  lemma {:induction false} NewsEntryAt(items: seq<RssItem>, n: nat, formatDate: string -> string, k: nat)
    requires k < n <= |items|
    ensures NewsEntries(items, n, formatDate)[k] == NewsEntry(k, items[k], formatDate)
  {
    var prev := NewsEntries(items, n - 1, formatDate);
    var last := NewsEntry(n - 1, items[n - 1], formatDate);
    assert NewsEntries(items, n, formatDate) == prev + [last];
    if k < n - 1 {
      NewsEntryAt(items, n - 1, formatDate, k);
      assert (prev + [last])[k] == prev[k];
    }
  }

  /**
   * `fetchNewsFromRss`: a failure to open or parse the feed is
   * `SECURITY_NEWS_FETCH_ERROR`; otherwise the first `limit` items (all of
   * them when there are fewer), each shaped by its position.
   */
  method FetchNewsFromRss(feed: Option<seq<RssItem>>, limit: int, formatDate: string -> string)
    returns (r: Result<seq<SecurityNews>, SecurityError>)
    ensures feed.None? <==> r == Err(SecurityNewsFetchError)
    ensures feed.Some? ==> r == Ok(NewsEntries(feed.value, if limit <= 0 then 0 else Min(limit, |feed.value|), formatDate))
  {
    if feed.None? {
      return Err(SecurityNewsFetchError);
    }
    var items := feed.value;
    var newsList: seq<SecurityNews> := [];
    var i := 0;
    while i < |items| && i < limit
      invariant 0 <= i <= |items|
      invariant limit <= 0 ==> i == 0
      invariant limit > 0 ==> i <= limit
      invariant newsList == NewsEntries(items, i, formatDate)
    {
      var item := items[i];
      newsList := newsList + [NewsEntry(i, item, formatDate)];
      i := i + 1;
    }
    return Ok(newsList);
  }

  /** The news ids of one list are pairwise different. */
  lemma NewsIdsDistinct(items: seq<RssItem>, n: nat, formatDate: string -> string)
    requires n <= |items|
    ensures var news := NewsEntries(items, n, formatDate);
            forall i, j :: 0 <= i < j < n ==> news[i].id != news[j].id
  {
    var news := NewsEntries(items, n, formatDate);
    forall i, j | 0 <= i < j < n ensures news[i].id != news[j].id {
      NewsEntryAt(items, n, formatDate, i);
      NewsEntryAt(items, n, formatDate, j);
      PositionIdsDistinct(NewsIdPrefix, i, j);
    }
  }

  /** `getSecurityNewsList`: ten items at most. */
  method GetSecurityNewsList(feed: Option<seq<RssItem>>, formatDate: string -> string)
    returns (r: Result<seq<SecurityNews>, SecurityError>)
    ensures feed.None? <==> r == Err(SecurityNewsFetchError)
    ensures feed.Some? ==> r == Ok(NewsEntries(feed.value, Min(NewsListLimit, |feed.value|), formatDate))
  {
    r := FetchNewsFromRss(feed, NewsListLimit, formatDate);
  }

  // ---------------------------------------------------------------------------
  // Videos: getYoutubeInfo
  // ---------------------------------------------------------------------------

  // The playlist reply, as far as the code reads it; every `Option` is a JSON
  // member that may be missing or null.
  datatype Thumbnail = Thumbnail(url: Option<string>)
  datatype Thumbnails = Thumbnails(medium: Option<Thumbnail>, high: Option<Thumbnail>)
  datatype Snippet = Snippet(title: Option<string>, channelId: Option<string>, thumbnails: Option<Thumbnails>)
  datatype ContentDetails = ContentDetails(videoId: Option<string>)
  datatype PlaylistItem = PlaylistItem(snippet: Option<Snippet>, contentDetails: Option<ContentDetails>)
  datatype YoutubeApiResponse = YoutubeApiResponse(items: Option<seq<PlaylistItem>>)

  datatype YoutubeVideo = YoutubeVideo(id: string, title: Option<string>, thumbnailUrl: Option<string>, videoUrl: string)
  datatype YoutubeInfo = YoutubeInfo(channelUrl: string, videos: seq<YoutubeVideo>)

  /**
   * The item can be read without dereferencing null: it has content details, a
   * snippet, thumbnails and a `high` thumbnail (any of them missing throws).
   */
  predicate Readable(item: PlaylistItem)
  {
    && item.contentDetails.Some?
    && item.snippet.Some?
    && item.snippet.value.thumbnails.Some?
    && item.snippet.value.thumbnails.value.high.Some?
  }

  /** The i-th video: `yt_` and its 1-based position, and the short URL of its video id. */
  function VideoOf(i: nat, item: PlaylistItem): YoutubeVideo
    requires Readable(item)
  {
    YoutubeVideo(PositionId(VideoIdPrefix, i), item.snippet.value.title,
                 item.snippet.value.thumbnails.value.high.value.url,
                 VideoUrlPrefix + StringValueOf(item.contentDetails.value.videoId))
  }

  /** The video link is the short-link prefix followed by the video id (`"null"` when it is missing). */
  lemma VideoUrlShape(i: nat, item: PlaylistItem)
    requires Readable(item)
    ensures var url := VideoOf(i, item).videoUrl;
            && |url| >= |VideoUrlPrefix| && url[..|VideoUrlPrefix|] == VideoUrlPrefix
            && (item.contentDetails.value.videoId.Some? ==>
                  url[|VideoUrlPrefix|..] == item.contentDetails.value.videoId.value)
            && (item.contentDetails.value.videoId.None? ==> url[|VideoUrlPrefix|..] == "null")
  {
    var url := VideoOf(i, item).videoUrl;
    assert url[|VideoUrlPrefix|..] == StringValueOf(item.contentDetails.value.videoId);
  }

  /** The channel link: from the first item's channel id, or the fixed fallback channel. */
  function ChannelUrl(channelId: Option<string>): (r: string)
    ensures channelId.None? <==> r == DefaultChannelUrl
    ensures channelId.Some? ==> |r| >= |ChannelUrlPrefix| && r[..|ChannelUrlPrefix|] == ChannelUrlPrefix
                                && r[|ChannelUrlPrefix|..] == channelId.value
  {
    if channelId.Some? then
      var r := ChannelUrlPrefix + channelId.value;
      assert r[..|ChannelUrlPrefix|] == ChannelUrlPrefix;
      assert |r| > |DefaultChannelUrl|;
      r
    else DefaultChannelUrl
  }

  /** The playlist items of a usable reply, if there is one. */
  function ItemsOf(response: Remote<YoutubeApiResponse>): Option<seq<PlaylistItem>>
  {
    if response.Delivered? && response.body.Some? then response.body.value.items else None
  }

  /** Every one of the first `n` items can be read. */
  ghost predicate AllReadable(items: seq<PlaylistItem>, n: nat)
  {
    forall k :: 0 <= k < n && k < |items| ==> Readable(items[k])
  }

  /** The videos of the first `n` items, in item order. */
  function Videos(items: seq<PlaylistItem>, n: nat): (r: seq<YoutubeVideo>)
    requires n <= |items| && AllReadable(items, n)
    ensures |r| == n
  {
    if n == 0 then [] else Videos(items, n - 1) + [VideoOf(n - 1, items[n - 1])]
  }

  /** One more readable item adds its video at the end. */
  lemma VideosStep(items: seq<PlaylistItem>, i: nat)
    requires i < |items| && AllReadable(items, i) && Readable(items[i])
    ensures AllReadable(items, i + 1)
    ensures Videos(items, i + 1) == Videos(items, i) + [VideoOf(i, items[i])]
  {
  }

  /** Video k is the video of item k, numbered by its own position. */
  lemma {:induction false} VideoAt(items: seq<PlaylistItem>, n: nat, k: nat)
    requires k < n <= |items| && AllReadable(items, n)
    ensures Videos(items, n)[k] == VideoOf(k, items[k])
  {
    var prev := Videos(items, n - 1);
    assert Videos(items, n) == prev + [VideoOf(n - 1, items[n - 1])];
    if k < n - 1 {
      VideoAt(items, n - 1, k);
    }
  }

  /**
   * `getYoutubeInfo`: a failed call, a null reply, a null or empty item list, or
   * an item that cannot be read is `SECURITY_YOUTUBE_FETCH_ERROR`. Otherwise one
   * video per item in order, and the channel of the FIRST item only.
   */
  method GetYoutubeInfo(response: Remote<YoutubeApiResponse>) returns (r: Result<YoutubeInfo, SecurityError>)
    ensures r.Err? ==> r.error == SecurityYoutubeFetchError
    ensures r.Ok? <==>
              && ItemsOf(response).Some? && |ItemsOf(response).value| > 0
              && AllReadable(ItemsOf(response).value, |ItemsOf(response).value|)
    ensures r.Ok? ==>
              var items := ItemsOf(response).value;
              r.value == YoutubeInfo(ChannelUrl(items[0].snippet.value.channelId), Videos(items, |items|))
  {
    var found := ItemsOf(response);
    if found.None? || |found.value| == 0 {
      return Err(SecurityYoutubeFetchError);
    }
    var items := found.value;
    var videos: seq<YoutubeVideo> := [];
    var channelId: Option<string> := None;
    for i := 0 to |items|
      invariant AllReadable(items, i)
      invariant videos == Videos(items, i)
      invariant channelId == if i == 0 then None else items[0].snippet.value.channelId
    {
      var item := items[i];
      if !Readable(item) {
        assert !AllReadable(items, |items|) by {
          assert !Readable(items[i]);
        }
        return Err(SecurityYoutubeFetchError);
      }
      if i == 0 && item.snippet.value.channelId.Some? {
        channelId := item.snippet.value.channelId;
      }
      VideosStep(items, i);
      videos := videos + [VideoOf(i, item)];
    }
    return Ok(YoutubeInfo(ChannelUrl(channelId), videos));
  }

  /** The video ids of one reply are pairwise different. */
  lemma VideoIdsDistinct(items: seq<PlaylistItem>, n: nat)
    requires n <= |items| && AllReadable(items, n)
    ensures var videos := Videos(items, n);
            forall i, j :: 0 <= i < j < n ==> videos[i].id != videos[j].id
  {
    var videos := Videos(items, n);
    forall i, j | 0 <= i < j < n ensures videos[i].id != videos[j].id {
      VideoAt(items, n, i);
      VideoAt(items, n, j);
      PositionIdsDistinct(VideoIdPrefix, i, j);
    }
  }

  // ---------------------------------------------------------------------------
  // getSecurityInfo: two news items and the videos
  // ---------------------------------------------------------------------------

  datatype SecurityInfoResponse = SecurityInfoResponse(securityNews: seq<SecurityNews>, youtube: YoutubeInfo)

  /**
   * `getSecurityInfo`: the news are fetched first, so a feed failure is reported
   * even when the videos would fail too; then the videos.
   */
  method GetSecurityInfo(feed: Option<seq<RssItem>>, formatDate: string -> string, response: Remote<YoutubeApiResponse>)
    returns (r: Result<SecurityInfoResponse, SecurityError>)
    ensures feed.None? <==> r == Err(SecurityNewsFetchError)
    ensures r == Err(SecurityYoutubeFetchError) <==>
              feed.Some? && (ItemsOf(response).None? || |ItemsOf(response).value| == 0
                             || !AllReadable(ItemsOf(response).value, |ItemsOf(response).value|))
    ensures r.Ok? ==>
              var items := ItemsOf(response).value;
              && r.value.securityNews == NewsEntries(feed.value, Min(NewsLimit, |feed.value|), formatDate)
              && r.value.youtube == YoutubeInfo(ChannelUrl(items[0].snippet.value.channelId), Videos(items, |items|))
  {
    var news := FetchNewsFromRss(feed, NewsLimit, formatDate);
    if news.Err? {
      return Err(news.error);
    }
    var youtube := GetYoutubeInfo(response);
    if youtube.Err? {
      return Err(youtube.error);
    }
    return Ok(SecurityInfoResponse(news.value, youtube.value));
  }
}
