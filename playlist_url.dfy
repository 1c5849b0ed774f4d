/**
 * Extracting a playlist id from a pasted playlist link:
 * `url.split("/playlist/")[1].split("?")[0]`, where a missing second piece
 * (an `IndexError`) means the link is invalid.
 */
module PlaylistUrl {
  import opened Wrappers
  import opened Strings

  const PlaylistMarker := "/playlist/"

  /** The playlist id of a link, or `None` for an invalid link; an id holds neither "?" nor "/playlist/". */
  function PlaylistId(url: string): (r: Option<string>)
    ensures r.Some? ==> '?' !in r.value && !Contains(r.value, PlaylistMarker)
  {
    var parts := Split(url, PlaylistMarker);
    if |parts| < 2 then None
    else
      var id := Split(parts[1], "?")[0];
      SplitPiecesFree(url, PlaylistMarker);
      SplitFirstPiece(parts[1], "?");
      PrefixFree(id, parts[1], PlaylistMarker);
      CharFree(id, '?');
      Some(id)
  }

  /** Extraction fails exactly when the link has no "/playlist/". */
  lemma PlaylistIdFailsIff(url: string)
    ensures PlaylistId(url).None? <==> !Contains(url, PlaylistMarker)
  {
    SplitSingleIff(url, PlaylistMarker);
  }

  /**
   * When "/playlist/" first occurs at `i`, the id is the text right after it, up
   * to the first "?" or the next start of "/playlist/"; it contains neither.
   */
  lemma PlaylistIdShape(url: string, i: nat)
    requires OccursAt(url, PlaylistMarker, i)
    requires forall j: nat :: j < i ==> !OccursAt(url, PlaylistMarker, j)
    ensures PlaylistId(url).Some?
    ensures var id := PlaylistId(url).value;
            var rest := url[i + |PlaylistMarker|..];
            && id <= rest
            && '?' !in id
            && !Contains(id, PlaylistMarker)
            && (|id| == |rest| || rest[|id|] == '?' || OccursAt(rest, PlaylistMarker, |id|))
            && forall j: nat :: j < |id| ==> !OccursAt(rest, PlaylistMarker, j)
  {
    var rest := url[i + |PlaylistMarker|..];
    SplitSecondPiece(url, PlaylistMarker, i);
    assert PlaylistId(url) == Some(Split(Split(rest, PlaylistMarker)[0], "?")[0]);
    CutShape(rest);
  }

  /** The first "?"-piece of the first "/playlist/"-piece of `rest` stops at the first "?" or "/playlist/". */
  lemma CutShape(rest: string)
    ensures var id := Split(Split(rest, PlaylistMarker)[0], "?")[0];
            && id <= rest
            && (|id| == |rest| || rest[|id|] == '?' || OccursAt(rest, PlaylistMarker, |id|))
            && forall j: nat :: j < |id| ==> !OccursAt(rest, PlaylistMarker, j)
  {
    var piece := Split(rest, PlaylistMarker)[0];
    var id := Split(piece, "?")[0];
    SplitFirstPiece(rest, PlaylistMarker);
    SplitFirstPiece(piece, "?");
    if id != piece {
      assert piece[|id|..|id| + 1] == "?";
      assert rest[|id|] == piece[|id|];
    }
  }

  const ShareHost := "https://open.spotify.com"

  /** A playlist share link with a query string: "https://open.spotify.com/playlist/XYZ123?si=abc". */
  const ShareLink := ShareHost + PlaylistMarker + ShareId + "?si=abc"

  const ShareId := "XYZ123"

  /** In the share link "/playlist/" first occurs at index 24. */
  lemma ShareLinkMarker()
    ensures OccursAt(ShareLink, PlaylistMarker, 24)
    ensures forall j: nat :: j < 24 ==> !OccursAt(ShareLink, PlaylistMarker, j)
  {
    var url := ShareLink;
    assert |ShareHost| == 24;
    assert url[24..24 + |PlaylistMarker|] == PlaylistMarker;
    forall j: nat | j < 24 ensures !OccursAt(url, PlaylistMarker, j) {
      assert j == 0 || j == 1 || j == 2 || j == 3 || j == 4 || j == 5 || j == 6 || j == 7
          || j == 8 || j == 9 || j == 10 || j == 11 || j == 12 || j == 13 || j == 14 || j == 15
          || j == 16 || j == 17 || j == 18 || j == 19 || j == 20 || j == 21 || j == 22 || j == 23;
      assert url[j..j + |PlaylistMarker|][0] == url[j];
      assert url[j..j + |PlaylistMarker|][1] == url[j + 1];
    }
  }

  /** Inside the id of the share link, nothing cuts the text short. */
  lemma ShareIdUncut(rest: string, k: nat)
    requires rest == ShareId + "?si=abc" && k < |ShareId|
    ensures rest[k] != '?' && !OccursAt(rest, PlaylistMarker, k) && k != |rest|
  {
    assert rest[k] == ShareId[k];
    assert '?' !in ShareId && '/' !in ShareId;
  }

  /** The id of a share link with a query string is the text between "/playlist/" and "?". */
  lemma PlaylistIdExample()
    ensures PlaylistId(ShareLink) == Some("XYZ123")
  {
    ShareLinkMarker();
    PlaylistIdShape(ShareLink, 24);
    var id := PlaylistId(ShareLink).value;
    var rest := ShareLink[24 + |PlaylistMarker|..];
    assert rest == ShareId + "?si=abc";
    assert rest[6] == '?' && '?' !in ShareId && '/' !in ShareId;
    if |id| > 6 {
      assert false;
    }
    if |id| < 6 {
      ShareIdUncut(rest, |id|);
      assert false;
    }
    assert id == rest[..6] == ShareId;
  }

  /** A link in which "/playlist/" occurs again, overlapping itself: "X/playlist/ab/playlist/playlist/x". */
  const OverlapLink := "X" + PlaylistMarker + OverlapRest

  const OverlapRest := "ab" + PlaylistMarker + "playlist/x"

  /** The id stops at the second "/playlist/", however the later text overlaps it. */
  lemma PlaylistIdOverlapExample()
    ensures PlaylistId(OverlapLink) == Some("ab")
  {
    var url := OverlapLink;
    assert OccursAt(url, PlaylistMarker, 1);
    forall j: nat | j < 1 ensures !OccursAt(url, PlaylistMarker, j) {
      assert url[j] == 'X';
    }
    PlaylistIdShape(url, 1);
    var id := PlaylistId(url).value;
    var rest := url[1 + |PlaylistMarker|..];
    assert rest == OverlapRest;
    assert OccursAt(rest, PlaylistMarker, 2);
    if |id| > 2 {
      assert false;
    }
    if |id| < 2 {
      assert false;
    }
    assert id == rest[..2] == "ab";
  }

  /** A link without the "/playlist/" segment is invalid. */
  lemma PlaylistIdRejects()
    ensures PlaylistId("https://example.com/track/XYZ123").None?
  {
    var url := "https://example.com/track/XYZ123";
    assert PlaylistMarker[4] == 'y' && 'y' !in url;
    MissingCharFree(url, PlaylistMarker, 4);
    PlaylistIdFailsIff(url);
  }
}
