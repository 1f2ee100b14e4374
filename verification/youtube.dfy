/**
 * `getVideoId` (app/api/process-youtube/route.ts): the video id of a YouTube link, found by
 * plain string splitting. The route then fetches the watch page of that id.
 */
module YouTube {
  import opened Wrappers
  import opened Text

  /** The query marker of a long link. */
  const WatchMarker := "watch?v="

  /** The host and path of a short link. */
  const ShortMarker := "youtu.be/"

  /** The address the route fetches for an id, before the marker. */
  const WatchBase := "https://www.youtube.com/"

  /**
   * `getVideoId`: after a `watch?v=`, the text up to the next `watch?v=` and then up to the
   * first `&`; otherwise after a `youtu.be/`, the text up to the next `youtu.be/`; otherwise
   * the link itself.
   */
  function GetVideoId(url: string): (id: string)
    ensures |id| <= |url|
  {
    match SecondPiece(url, WatchMarker)
    case Some(after) => FirstPiece(after, "&")
    case None =>
      match SecondPiece(url, ShortMarker)
      case Some(after) => after
      case None => url
  }

  /**
   * The page the route fetches for an id (`https://www.youtube.com/watch?v=${videoId}`): unless
   * the id itself holds `watch?v=`, the id is the whole text after the page's first `watch?v=`.
   */
  function WatchPage(id: string): (page: string)
    ensures |page| == |WatchBase| + |WatchMarker| + |id|
    ensures !Contains(id, WatchMarker) ==> SecondPiece(page, WatchMarker) == Some(id)
  {
    WatchPageId(id);
    WatchBase + WatchMarker + id
  }

  /** After the watch page header, an id without `watch?v=` is the piece after the first marker. */
  lemma WatchPageId(id: string)
    ensures !Contains(id, WatchMarker) ==> SecondPiece(WatchBase + WatchMarker + id, WatchMarker) == Some(id)
  {
    if !Contains(id, WatchMarker) {
      var s := WatchBase + WatchMarker + id;
      WatchHeader();
      HeaderPiece(WatchBase, WatchMarker, id);
      SecondPieceUnique(s, WatchMarker, id, SecondPiece(s, WatchMarker).value);
    }
  }

  /**
   * `id` is what a long link gives: it follows the first `sep` of `url` (at `p`), holds no
   * `&` and no further `sep`, and stops at the end, at a `&` or at the next `sep`.
   */
  predicate CutAfter(url: string, sep: string, p: nat, id: string) {
    var q := p + |sep|;
    && FirstOccurrence(url, sep, p) && StartsAt(url, q, id)
    && '&' !in id && NoOccurrence(url, sep, q, q + |id|)
    && (q + |id| == |url| || url[q + |id|] == '&' || StartsAt(url, q + |id|, sep))
  }

  /**
   * With a `watch?v=` in the link, the id is the text after the first one, cut at the first
   * `&` or the next `watch?v=`; a `youtu.be/` in the link does not matter.
   */
  lemma WatchId(url: string)
    requires Contains(url, WatchMarker)
    ensures exists p: nat :: CutAfter(url, WatchMarker, p, GetVideoId(url))
  {
    var after := SecondPiece(url, WatchMarker).value;
    assert GetVideoId(url) == FirstPiece(after, "&");
    CutPiece(url, WatchMarker, after);
  }

  /** The first piece up to `&` of the second piece of a split is a cut after the first `sep`. */
  lemma CutPiece(url: string, sep: string, after: string)
    requires |sep| > 0 && IsSecondPiece(url, sep, after)
    ensures exists p: nat :: CutAfter(url, sep, p, FirstPiece(after, "&"))
  {
    var p: nat :| PieceAt(url, sep, p, after);
    var id := FirstPiece(after, "&");
    var q := p + |sep|;
    assert url[q..q + |after|] == after;
    assert url[q..q + |id|] == after[..|id|] == id;
    NoAmpersandInPiece(after, id);
    if |id| < |after| {
      assert after[|id|..|id| + 1] == "&";
      assert url[q + |id|] == after[|id|];
    }
    assert CutAfter(url, sep, p, id);
  }

  /** The text before the first `&` holds no `&`. */
  lemma NoAmpersandInPiece(after: string, id: string)
    requires id == FirstPiece(after, "&")
    ensures '&' !in id
  {
    forall k | 0 <= k < |id|
      ensures id[k] != '&'
    {
      assert !StartsAt(after, k, "&");
      assert after[k..k + 1] == [id[k]];
    }
  }

  /** A long link never gives an id with `&`. */
  lemma WatchIdHasNoAmpersand(url: string)
    requires Contains(url, WatchMarker)
    ensures '&' !in GetVideoId(url)
  {
    WatchId(url);
  }

  /**
   * Without `watch?v=` but with a `youtu.be/`, the id is the whole text between the first
   * `youtu.be/` and the next one or the end; a query after it is kept.
   */
  lemma ShortId(url: string)
    requires !Contains(url, WatchMarker) && Contains(url, ShortMarker)
    ensures IsSecondPiece(url, ShortMarker, GetVideoId(url))
  {
  }

  /** With neither marker the link is taken as the id. */
  lemma BareId(url: string)
    requires !Contains(url, WatchMarker) && !Contains(url, ShortMarker)
    ensures GetVideoId(url) == url
  {
  }

  /** The id always occurs in the link. */
  lemma IdInLink(url: string)
    ensures Contains(url, GetVideoId(url))
  {
    var id := GetVideoId(url);
    if Contains(url, WatchMarker) {
      WatchId(url);
      var p: nat :| CutAfter(url, WatchMarker, p, id);
      assert StartsAt(url, p + |WatchMarker|, id);
    } else if Contains(url, ShortMarker) {
      var p: nat :| PieceAt(url, ShortMarker, p, id);
      assert StartsAt(url, p + |ShortMarker|, id);
    } else {
      assert StartsAt(url, 0, id);
    }
  }

  /** No id holds `watch?v=`. */
  lemma IdHasNoWatchMarker(url: string)
    ensures !Contains(GetVideoId(url), WatchMarker)
  {
    var id := GetVideoId(url);
    IdInLink(url);
    if Contains(url, WatchMarker) {
      WatchId(url);
      var p: nat :| CutAfter(url, WatchMarker, p, id);
      var q := p + |WatchMarker|;
      forall k | 0 <= k <= |id|
        ensures !StartsAt(id, k, WatchMarker)
      {
        assert url[q..][..|id|] == id;
        Inside(url, q, id, k, WatchMarker);
      }
    } else {
      var i :| 0 <= i <= |url| && StartsAt(url, i, id);
      forall k | 0 <= k <= |id|
        ensures !StartsAt(id, k, WatchMarker)
      {
        Inside(url, i, id, k, WatchMarker);
      }
    }
  }

  /** An occurrence of `w` inside an occurrence of `id` at `i` is an occurrence in `s` at `i + k`. */
  lemma Inside(s: string, i: nat, id: string, k: nat, w: string)
    requires StartsAt(s, i, id)
    ensures StartsAt(id, k, w) ==> StartsAt(s, i + k, w)
  {
    if StartsAt(id, k, w) {
      var a := s[i + k..i + k + |w|];
      forall x | 0 <= x < |w|
        ensures a[x] == w[x]
      {
        assert a[x] == s[i..i + |id|][k + x] == id[k..k + |w|][x];
      }
    }
  }

  /** The marker starts with a character it does not repeat. */
  predicate FirstCharOnce(w: string) {
    |w| > 0 && forall j :: 0 < j < |w| ==> w[j] != w[0]
  }

  /**
   * After a header in which `w` occurs only at its end, an id without `w` and without `&`
   * reads back as itself.
   */
  lemma HeaderRoundTrip(base: string, w: string, id: string)
    requires FirstCharOnce(w) && NoOccurrence(base + w, w, 0, |base|)
    requires '&' !in id && !Contains(id, w)
    ensures SecondPiece(base + w + id, w) == Some(id)
    ensures FirstPiece(id, "&") == id
  {
    var s := base + w + id;
    HeaderPiece(base, w, id);
    SecondPieceUnique(s, w, id, SecondPiece(s, w).value);
    NoAmpersandFirstPiece(id);
  }

  /** Text without `&` is its own first piece. */
  lemma NoAmpersandFirstPiece(id: string)
    requires '&' !in id
    ensures FirstPiece(id, "&") == id
  {
    forall k | 0 <= k < |id|
      ensures !StartsAt(id, k, "&")
    {
      assert id[k..k + 1][0] == id[k];
    }
  }

  /** After such a header the id is the piece after the first `w`. */
  lemma HeaderPiece(base: string, w: string, id: string)
    requires FirstCharOnce(w) && NoOccurrence(base + w, w, 0, |base|) && !Contains(id, w)
    ensures PieceAt(base + w + id, w, |base|, id)
  {
    var s := base + w + id;
    var q := |base| + |w|;
    assert s[|base|..q] == w;
    assert s[q..] == id;
    assert s[..q] == base + w;
    forall k | 0 <= k < |base|
      ensures !StartsAt(s, k, w)
    {
      HeaderPrefix(base + w, id, k, w);
    }
    forall k | q <= k <= |s|
      ensures !StartsAt(s, k, w)
    {
      StartsAtSuffix(s, q, k - q, w);
    }
    forall k | |base| < k < q
      ensures !StartsAt(s, k, w)
    {
      assert s[k] == w[k - |base|];
    }
  }

  /** An occurrence that starts early enough to end inside `h` is an occurrence in `h`. */
  lemma HeaderPrefix(h: string, id: string, k: nat, w: string)
    requires k + |w| <= |h|
    ensures StartsAt(h + id, k, w) <==> StartsAt(h, k, w)
  {
    assert (h + id)[k..k + |w|] == h[k..k + |w|];
  }

  /** The watch page header holds `watch?v=` only at its end, and the marker's `w` comes once. */
  lemma WatchHeader()
    ensures FirstCharOnce(WatchMarker) && NoOccurrence(WatchBase + WatchMarker, WatchMarker, 0, |WatchBase|)
  {
    var s := WatchBase + WatchMarker;
    forall k | 0 <= k < |WatchBase|
      ensures !StartsAt(s, k, WatchMarker)
    {
      if k + 8 <= |s| {
        assert s[k..k + 8][0] == s[k];
        assert s[k..k + 8][1] == s[k + 1];
      }
    }
  }

  /** The watch page of an id without `&` or `watch?v=` gives the id back. */
  lemma WatchPageRoundTrip(id: string)
    requires '&' !in id && !Contains(id, WatchMarker)
    ensures GetVideoId(WatchPage(id)) == id
  {
    WatchHeader();
    HeaderRoundTrip(WatchBase, WatchMarker, id);
  }

  /**
   * The page the route fetches names the id it extracted, whenever that id has no `&`; a long
   * link always gives such an id.
   */
  lemma FetchedPageKeepsId(url: string)
    requires Contains(url, WatchMarker) || '&' !in GetVideoId(url)
    ensures GetVideoId(WatchPage(GetVideoId(url))) == GetVideoId(url)
  {
    if Contains(url, WatchMarker) {
      WatchIdHasNoAmpersand(url);
    }
    IdHasNoWatchMarker(url);
    WatchPageRoundTrip(GetVideoId(url));
  }
}
