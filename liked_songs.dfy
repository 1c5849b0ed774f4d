/**
 * The liked-songs fetcher: pages through the saved-tracks listing, keeps the
 * entries whose track has a truthy id, flattens each to `{id, name, artists}`
 * and finally reverses the list so that the earliest-saved track comes first.
 */
module LikedSongs {
  import opened Wrappers
  import opened Strings
  import opened Paging

  /** A flattened liked song; `artists` is the artists' names joined by ", ". */
  datatype Track = Track(id: string, name: string, artists: string)

  const ArtistSeparator := ", "

  /** The flattened form of a kept track object with id `id`. */
  function ToTrack(t: TrackObject, id: string): Track
  {
    Track(id, t.name, Join(t.artistNames, ArtistSeparator))
  }

  /** What one entry contributes: its flattened track, or nothing when the entry is skipped. */
  function KeepEntry(item: Item): seq<Track>
  {
    match KeptId(item)
    case None => []
    case Some(id) => [ToTrack(item.track.value, id)]
  }

  /** The entries of one page that are kept, flattened, in page order. */
  function Keep(items: seq<Item>): seq<Track>
  {
    if |items| == 0 then [] else Keep(items[..|items| - 1]) + KeepEntry(items[|items| - 1])
  }

  /** The kept entries of a run of pages, in collection order. */
  function KeepAll(pages: seq<Response>): seq<Track>
  {
    if |pages| == 0 then [] else KeepAll(pages[..|pages| - 1]) + Keep(ItemsOf(pages[|pages| - 1]))
  }

  /** The list the loop has built when it stops: the kept entries of every page before the first empty one. */
  function Collected(pages: seq<Response>): seq<Track>
  {
    KeepAll(pages[..StopIndex(pages)])
  }

  /** `s` read backwards. */
  function Reverse<T>(s: seq<T>): seq<T>
  {
    if |s| == 0 then [] else Reverse(s[1..]) + [s[0]]
  }

  /** What `fetch_all_liked_songs` returns: nothing when a request fails (the run exits), else the reversed collection. */
  function FetchedLikedSongs(pages: seq<Response>): (r: Option<seq<Track>>)
    ensures r.None? <==> Aborts(pages)
    ensures r.Some? ==> |r.value| == KeptCount(pages[..StopIndex(pages)])
    ensures r.Some? ==> forall t :: t in r.value ==> t.id != ""
  {
    if Aborts(pages) then None
    else
      ReversedCollected(pages);
      Some(Reverse(Collected(pages)))
  }

  /** The collection read backwards has one song per kept entry, and none with an empty id. */
  lemma ReversedCollected(pages: seq<Response>)
    ensures |Reverse(Collected(pages))| == KeptCount(pages[..StopIndex(pages)])
    ensures forall t :: t in Reverse(Collected(pages)) ==> t.id != ""
  {
    var prefix := pages[..StopIndex(pages)];
    ReverseAt(Collected(pages), 0);
    KeepAllLength(prefix);
    forall t | t in Reverse(Collected(pages)) ensures t.id != "" {
      ReverseMembers(Collected(pages), t);
      KeepAllMembers(prefix, t);
      var k, i :| KeptAt(prefix, k, i, t);
    }
  }

  /** The entry is kept and flattens to `t`: its id, its name, its artists' names joined by ", ". */
  predicate FlattensTo(item: Item, t: Track)
  {
    KeptId(item).Some?
    && t == Track(KeptId(item).value, item.track.value.name, Join(item.track.value.artistNames, ArtistSeparator))
  }

  /** Entry `i` of page `k` of a run is kept and flattens to `t`. */
  predicate KeptAt(pages: seq<Response>, k: int, i: int, t: Track)
  {
    0 <= k < |pages| && 0 <= i < |ItemsOf(pages[k])| && FlattensTo(ItemsOf(pages[k])[i], t)
  }

  /** The indices of the entries of a page that are kept. */
  function KeptIndices(items: seq<Item>): set<nat>
  {
    set i: nat | i < |items| && KeptId(items[i]).Some?
  }

  /** The number of kept entries over a run of pages. */
  function KeptCount(pages: seq<Response>): nat
  {
    if |pages| == 0 then 0 else KeptCount(pages[..|pages| - 1]) + |KeptIndices(ItemsOf(pages[|pages| - 1]))|
  }

  // ---------------------------------------------------------------- the loops

  /**
   * `liked_tracks.reverse()`: swaps the two ends and moves inward.
   */
  method ReverseList<T>(s: seq<T>) returns (r: seq<T>)
    ensures r == Reverse(s)
  {
    r := s;
    var n := |s|;
    var i := 0;
    while i < n / 2
      invariant 0 <= i <= n / 2
      invariant |r| == n
      invariant forall k :: 0 <= k < i ==> r[k] == s[n - 1 - k] && r[n - 1 - k] == s[k]
      invariant forall k :: i <= k < n - i ==> r[k] == s[k]
    {
      var front, back := r[i], r[n - 1 - i];
      r := r[i := back][n - 1 - i := front];
      i := i + 1;
    }
    ReverseAt(s, 0);
    forall k | 0 <= k < n ensures r[k] == Reverse(s)[k] {
      ReverseAt(s, k);
    }
  }

  /**
   * The inner loop of `fetch_all_liked_songs`: appends, in page order, the
   * flattened form of every entry whose track has a truthy id.
   */
  method AppendKept(likedTracks: seq<Track>, items: seq<Item>) returns (r: seq<Track>)
    ensures r == likedTracks + Keep(items)
  {
    r := likedTracks;
    for j := 0 to |items|
      invariant r == likedTracks + Keep(items[..j])
    {
      var track := items[j].track;
      if track.Some? && track.value.id.Some? && track.value.id.value != "" {
        r := r + [ToTrack(track.value, track.value.id.value)];
      }
      KeepStep(items, j);
    }
    assert items[..|items|] == items;
  }

  /**
   * `fetch_all_liked_songs`: reads page after page at offsets 0, 50, 100, ...
   * until a page is empty; a failed request ends the run with no result.
   * Also returns the offsets it requested.
   */
  method FetchAllLikedSongs(pages: seq<Response>) returns (liked: Option<seq<Track>>, offsets: seq<nat>)
    ensures liked == FetchedLikedSongs(pages)
    ensures offsets == Offsets(pages, SavedTracksLimit)
  {
    var likedTracks: seq<Track> := [];
    var offset: nat := 0;
    ghost var k: nat := 0;
    offsets := [];
    while true
      invariant k <= StopIndex(pages)
      invariant offset == k * SavedTracksLimit
      invariant |offsets| == k
      invariant forall j :: 0 <= j < k ==> offsets[j] == j * SavedTracksLimit
      invariant likedTracks == KeepAll(pages[..k])
      decreases StopIndex(pages) - k
    {
      offsets := offsets + [offset];
      var results := Request(pages, offset, SavedTracksLimit);
      RequestPage(pages, k, SavedTracksLimit);
      StopsAt(pages, k);
      if results.Failed? {
        OffsetsLog(pages, SavedTracksLimit, offsets);
        liked := None;
        return;
      }
      var items := results.items;
      if items == [] {
        break;
      }
      likedTracks := AppendKept(likedTracks, items);
      KeepAllStep(pages, k);
      offset := offset + SavedTracksLimit;
      k := k + 1;
    }
    OffsetsLog(pages, SavedTracksLimit, offsets);
    likedTracks := ReverseList(likedTracks);
    liked := Some(likedTracks);
  }

  /** One more entry read: the page's kept list grows by what that entry contributes. */
  lemma KeepStep(items: seq<Item>, j: nat)
    requires j < |items|
    ensures Keep(items[..j + 1]) == Keep(items[..j]) + KeepEntry(items[j])
  {
    assert items[..j + 1][..j] == items[..j];
  }

  /** One more page read: the collection grows by the page's kept list. */
  lemma KeepAllStep(pages: seq<Response>, k: nat)
    requires k < |pages|
    ensures KeepAll(pages[..k + 1]) == KeepAll(pages[..k]) + Keep(ItemsOf(pages[k]))
  {
    assert pages[..k + 1][..k] == pages[..k];
  }

  // ---------------------------------------------------------------- properties

  /** The reverse has the same length and holds the elements mirrored. */
  lemma {:induction false} ReverseAt<T>(s: seq<T>, k: nat)
    ensures |Reverse(s)| == |s|
    ensures k < |s| ==> Reverse(s)[k] == s[|s| - 1 - k]
  {
    if |s| > 0 {
      ReverseAt(s[1..], k);
      if k < |s| - 1 {
        assert Reverse(s)[k] == Reverse(s[1..])[k];
      }
    }
  }

  /** Reversing twice gives back the list. */
  lemma ReverseReverse<T>(s: seq<T>)
    ensures Reverse(Reverse(s)) == s
  {
    ReverseAt(s, 0);
    ReverseAt(Reverse(s), 0);
    forall k | 0 <= k < |s| ensures Reverse(Reverse(s))[k] == s[k] {
      ReverseAt(Reverse(s), k);
      ReverseAt(s, |s| - 1 - k);
    }
  }

  /** Reversing keeps exactly the same elements. */
  lemma ReverseMembers<T>(s: seq<T>, x: T)
    ensures x in Reverse(s) <==> x in s
  {
    ReverseAt(s, 0);
    if x in s {
      var k :| 0 <= k < |s| && s[k] == x;
      ReverseAt(s, |s| - 1 - k);
    }
    if x in Reverse(s) {
      var k :| 0 <= k < |s| && Reverse(s)[k] == x;
      ReverseAt(s, k);
    }
  }

  /** A page keeps exactly its entries with a truthy id, each flattened with its artists joined by ", ". */
  lemma {:induction false} KeepMembers(items: seq<Item>, t: Track)
    ensures t in Keep(items) <==> exists i :: 0 <= i < |items| && FlattensTo(items[i], t)
  {
    if |items| > 0 {
      var n := |items| - 1;
      KeepMembers(items[..n], t);
      forall i | 0 <= i < n ensures items[..n][i] == items[i] { }
    }
  }

  /** A page contributes one track per kept entry. */
  lemma {:induction false} KeepLength(items: seq<Item>)
    ensures |Keep(items)| == |KeptIndices(items)|
  {
    if |items| == 0 {
      assert KeptIndices(items) == {};
    } else {
      var n := |items| - 1;
      KeepLength(items[..n]);
      KeptIndicesStep(items);
    }
  }

  /** The kept indices of a page are those of all but its last entry, plus the last one if it is kept. */
  lemma KeptIndicesStep(items: seq<Item>)
    requires |items| > 0
    ensures var n := |items| - 1;
            |KeptIndices(items)| == |KeptIndices(items[..n])| + (if KeptId(items[n]).Some? then 1 else 0)
  {
    var n := |items| - 1;
    var before := KeptIndices(items[..n]);
    assert forall i :: 0 <= i < n ==> items[..n][i] == items[i];
    if KeptId(items[n]).Some? {
      assert KeptIndices(items) == before + {n};
    } else {
      assert KeptIndices(items) == before;
    }
  }

  /** The collection holds exactly the kept entries of the pages it read. */
  lemma {:induction false} KeepAllMembers(pages: seq<Response>, t: Track)
    ensures t in KeepAll(pages) <==> exists k, i :: KeptAt(pages, k, i, t)
  {
    if |pages| > 0 {
      var n := |pages| - 1;
      var items := ItemsOf(pages[n]);
      KeepAllMembers(pages[..n], t);
      KeepMembers(items, t);
      forall k, i ensures KeptAt(pages, k, i, t) <==> KeptAt(pages[..n], k, i, t) || (k == n && 0 <= i < |items| && FlattensTo(items[i], t)) {
        if 0 <= k < n {
          assert pages[..n][k] == pages[k];
        }
      }
      if t in Keep(items) {
        var i :| 0 <= i < |items| && FlattensTo(items[i], t);
        assert KeptAt(pages, n, i, t);
      }
      if t in KeepAll(pages[..n]) {
        var k, i :| KeptAt(pages[..n], k, i, t);
        assert KeptAt(pages, k, i, t);
      }
      if exists k, i :: KeptAt(pages, k, i, t) {
        var k, i :| KeptAt(pages, k, i, t);
        if k == n {
          assert 0 <= i < |items| && FlattensTo(items[i], t);
        }
      }
    }
  }

  /** The collection has one track per kept entry of the pages it read. */
  lemma {:induction false} KeepAllLength(pages: seq<Response>)
    ensures |KeepAll(pages)| == KeptCount(pages)
  {
    if |pages| > 0 {
      KeepAllLength(pages[..|pages| - 1]);
      KeepLength(ItemsOf(pages[|pages| - 1]));
    }
  }

  /**
   * Fetch filtering: every fetched song is a kept entry of a page before the
   * first empty page and conversely; in particular no fetched id is empty.
   */
  lemma LikedSongsMembers(pages: seq<Response>, t: Track)
    requires FetchedLikedSongs(pages).Some?
    ensures t in FetchedLikedSongs(pages).value <==> exists k, i :: k < StopIndex(pages) && KeptAt(pages, k, i, t)
    ensures t in FetchedLikedSongs(pages).value ==> t.id != ""
  {
    var n := StopIndex(pages);
    var prefix := pages[..n];
    ReverseMembers(Collected(pages), t);
    KeepAllMembers(prefix, t);
    forall k, i ensures KeptAt(prefix, k, i, t) <==> k < n && KeptAt(pages, k, i, t) {
      if 0 <= k < n {
        assert prefix[k] == pages[k];
      }
    }
  }

  /**
   * Fetch order and length: read backwards, the result is the collection order,
   * and it has one song per kept entry of the pages before the first empty page.
   */
  lemma LikedSongsOrder(pages: seq<Response>)
    requires FetchedLikedSongs(pages).Some?
    ensures Reverse(FetchedLikedSongs(pages).value) == KeepAll(pages[..StopIndex(pages)])
    ensures |FetchedLikedSongs(pages).value| == KeptCount(pages[..StopIndex(pages)])
  {
    ReverseReverse(Collected(pages));
    ReverseAt(Collected(pages), 0);
    KeepAllLength(pages[..StopIndex(pages)]);
  }

  /** Pages after the first empty one are never read: they cannot change the result. */
  lemma LikedSongsIgnoresLaterPages(pages: seq<Response>, other: seq<Response>)
    requires forall k: nat :: k <= StopIndex(pages) ==> PageAt(other, k) == PageAt(pages, k)
    ensures FetchedLikedSongs(other) == FetchedLikedSongs(pages)
  {
    StopIndexFrame(pages, other);
  }
}
