/**
 * Playlist operations: the batch appender `add_tracks_to_playlist`, which sends
 * track ids in consecutive slices of at most 100, and the reader
 * `get_existing_playlist_tracks`, which collects the ids already in a playlist.
 */
module Playlists {
  import opened Wrappers
  import opened Paging

  /** The largest number of ids one append call may carry. */
  const BatchSize: nat := 100

  /** The playlist calls the program issues, in the order it issues them. */
  datatype PlaylistOp =
    | CreatePlaylist(name: string, description: string)
    | ReadItems(playlist: string, offset: nat)
    | AddItems(playlist: string, ids: seq<string>)

  function Min(a: int, b: int): int
  {
    if a <= b then a else b
  }

  /** The id sequence cut into the slices `ids[0:100]`, `ids[100:200]`, ... (the last one may be shorter). */
  function Batches(ids: seq<string>): (bs: seq<seq<string>>)
    ensures forall k :: 0 <= k < |bs| ==> 0 < |bs[k]| <= BatchSize
    ensures |bs| == (|ids| + BatchSize - 1) / BatchSize
    decreases |ids|
  {
    if |ids| == 0 then []
    else if |ids| <= BatchSize then [ids]
    else [ids[..BatchSize]] + Batches(ids[BatchSize..])
  }

  /** The batches put back together, in call order. */
  function Concat(bs: seq<seq<string>>): seq<string>
  {
    if |bs| == 0 then [] else bs[0] + Concat(bs[1..])
  }

  /** One append call per batch, all to `playlist`. */
  function AddOps(playlist: string, bs: seq<seq<string>>): (ops: seq<PlaylistOp>)
  {
    seq(|bs|, k requires 0 <= k < |bs| => AddItems(playlist, bs[k]))
  }

  /** One listing call per page offset, all on `playlist`. */
  function ReadOps(playlist: string, offsets: seq<nat>): (ops: seq<PlaylistOp>)
  {
    seq(|offsets|, k requires 0 <= k < |offsets| => ReadItems(playlist, offsets[k]))
  }

  /** The ids of the entries of one page that are kept. */
  function PageIds(items: seq<Item>): (r: set<string>)
    ensures "" !in r
  {
    if |items| == 0 then {}
    else PageIds(items[..|items| - 1])
         + (match KeptId(items[|items| - 1]) case None => {} case Some(id) => {id})
  }

  /** The ids of the kept entries of a run of pages. */
  function AllIds(pages: seq<Response>): (r: set<string>)
    ensures "" !in r
  {
    if |pages| == 0 then {} else AllIds(pages[..|pages| - 1]) + PageIds(ItemsOf(pages[|pages| - 1]))
  }

  /** What `get_existing_playlist_tracks` returns: nothing when a request raises, else the collected id set. */
  function ExistingIds(pages: seq<Response>): (r: Option<set<string>>)
    ensures r.None? <==> Aborts(pages)
    ensures r.Some? ==> "" !in r.value
  {
    if Aborts(pages) then None else Some(AllIds(pages[..StopIndex(pages)]))
  }

  /** Entry `i` of page `k` is kept and has id `x`. */
  predicate HasIdAt(pages: seq<Response>, k: int, i: int, x: string)
  {
    0 <= k < |pages| && 0 <= i < |ItemsOf(pages[k])| && KeptId(ItemsOf(pages[k])[i]) == Some(x)
  }

  // ---------------------------------------------------------------- the loops

  /**
   * `add_tracks_to_playlist`: one append call per slice `ids[i:i+100]` for
   * i = 0, 100, ...; after each call the progress counter shows `min(i + 100, total)`.
   */
  method AddTracksToPlaylist(playlist: string, ids: seq<string>) returns (ops: seq<PlaylistOp>, progress: seq<nat>)
    ensures ops == AddOps(playlist, Batches(ids))
    ensures |progress| == |ops|
    ensures forall k :: 0 <= k < |progress| ==> progress[k] == Min((k + 1) * BatchSize, |ids|)
    ensures forall k :: 0 <= k < |progress| ==> progress[k] == |Concat(Batches(ids)[..k + 1])|
    ensures forall k :: 0 <= k < |progress| ==> progress[k] <= |ids|
    ensures forall k :: 0 < k < |progress| ==> progress[k - 1] < progress[k]
    ensures |progress| > 0 ==> progress[|progress| - 1] == |ids|
  {
    var total := |ids|;
    ops, progress := [], [];
    var i := 0;
    while i < total
      invariant i == |ops| * BatchSize
      invariant i < total + BatchSize
      invariant |progress| == |ops|
      invariant forall k :: 0 <= k < |ops| ==> ops[k] == AddItems(playlist, ids[k * BatchSize..Min((k + 1) * BatchSize, total)])
      invariant forall k :: 0 <= k < |progress| ==> progress[k] == Min((k + 1) * BatchSize, total)
    {
      var batch := ids[i..Min(i + BatchSize, total)];
      ops := ops + [AddItems(playlist, batch)];
      progress := progress + [Min(i + BatchSize, total)];
      i := i + BatchSize;
    }
    var bs := Batches(ids);
    forall k | 0 <= k < |bs| ensures bs[k] == ids[k * BatchSize..Min((k + 1) * BatchSize, total)] {
      BatchesSlice(ids, k);
    }
    forall k | 0 <= k < |progress| ensures progress[k] == |Concat(bs[..k + 1])| {
      BatchesPrefix(ids, k + 1);
    }
  }

  /**
   * The inner loop of `get_existing_playlist_tracks`: adds the id of every
   * entry whose track has a truthy id.
   */
  method AddKeptIds(existingIds: set<string>, items: seq<Item>) returns (r: set<string>)
    ensures r == existingIds + PageIds(items)
  {
    r := existingIds;
    for j := 0 to |items|
      invariant r == existingIds + PageIds(items[..j])
    {
      var track := items[j].track;
      if track.Some? && track.value.id.Some? && track.value.id.value != "" {
        r := r + {track.value.id.value};
      }
      PageIdsStep(items, j);
    }
    assert items[..|items|] == items;
  }

  /**
   * `get_existing_playlist_tracks`: reads page after page at offsets 0, 100, 200, ...
   * until a page is empty, adding each kept id to a set. A failed request
   * propagates, so there is no result. Also returns the offsets it requested.
   */
  method GetExistingPlaylistTracks(pages: seq<Response>) returns (existing: Option<set<string>>, offsets: seq<nat>)
    ensures existing == ExistingIds(pages)
    ensures offsets == Offsets(pages, PlaylistItemsLimit)
  {
    var existingIds: set<string> := {};
    var offset: nat := 0;
    ghost var k: nat := 0;
    offsets := [];
    while true
      invariant k <= StopIndex(pages)
      invariant offset == k * PlaylistItemsLimit
      invariant |offsets| == k
      invariant forall j :: 0 <= j < k ==> offsets[j] == j * PlaylistItemsLimit
      invariant existingIds == AllIds(pages[..k])
      decreases StopIndex(pages) - k
    {
      offsets := offsets + [offset];
      var results := Request(pages, offset, PlaylistItemsLimit);
      RequestPage(pages, k, PlaylistItemsLimit);
      StopsAt(pages, k);
      if results.Failed? {
        OffsetsLog(pages, PlaylistItemsLimit, offsets);
        existing := None;
        return;
      }
      var items := results.items;
      if items == [] {
        break;
      }
      existingIds := AddKeptIds(existingIds, items);
      AllIdsStep(pages, k);
      offset := offset + PlaylistItemsLimit;
      k := k + 1;
    }
    OffsetsLog(pages, PlaylistItemsLimit, offsets);
    existing := Some(existingIds);
  }

  /** One more entry read: the page's id set grows by that entry's id, if it is kept. */
  lemma PageIdsStep(items: seq<Item>, j: nat)
    requires j < |items|
    ensures PageIds(items[..j + 1])
         == PageIds(items[..j]) + (match KeptId(items[j]) case None => {} case Some(id) => {id})
  {
    assert items[..j + 1][..j] == items[..j];
  }

  /** One more page read: the id set grows by the page's ids. */
  lemma AllIdsStep(pages: seq<Response>, k: nat)
    requires k < |pages|
    ensures AllIds(pages[..k + 1]) == AllIds(pages[..k]) + PageIds(ItemsOf(pages[k]))
  {
    assert pages[..k + 1][..k] == pages[..k];
  }

  // ---------------------------------------------------------------- properties

  /** The batches, in call order, put back together are the input. */
  lemma {:induction false} ConcatBatches(ids: seq<string>)
    ensures Concat(Batches(ids)) == ids
    decreases |ids|
  {
    if |ids| > BatchSize {
      ConcatBatches(ids[BatchSize..]);
      var bs := Batches(ids);
      assert bs[1..] == Batches(ids[BatchSize..]);
      assert ids == ids[..BatchSize] + ids[BatchSize..];
    } else if |ids| > 0 {
      assert Batches(ids)[1..] == [];
    }
  }

  /** Batch `k` is the slice `ids[100*k : 100*k + 100]`. */
  lemma {:induction false} BatchesSlice(ids: seq<string>, k: nat)
    requires k < |Batches(ids)|
    ensures Batches(ids)[k] == ids[k * BatchSize..Min((k + 1) * BatchSize, |ids|)]
    decreases |ids|
  {
    if k > 0 {
      var rest := ids[BatchSize..];
      assert Batches(ids)[k] == Batches(rest)[k - 1];
      BatchesSlice(rest, k - 1);
      assert rest[(k - 1) * BatchSize..Min(k * BatchSize, |rest|)]
          == ids[k * BatchSize..Min((k + 1) * BatchSize, |ids|)];
    }
  }

  /** The first `j` batches together are the first `min(100*j, N)` ids. */
  lemma {:induction false} BatchesPrefix(ids: seq<string>, j: nat)
    requires j <= |Batches(ids)|
    ensures Concat(Batches(ids)[..j]) == ids[..Min(j * BatchSize, |ids|)]
    decreases |ids|
  {
    var bs := Batches(ids);
    if j == 0 {
      assert bs[..0] == [];
    } else if |ids| <= BatchSize {
      assert bs[..j] == [ids];
      assert Concat([ids]) == ids + Concat([]);
    } else {
      var rest := ids[BatchSize..];
      BatchesPrefix(rest, j - 1);
      assert bs[..j] == [ids[..BatchSize]] + Batches(rest)[..j - 1];
      assert bs[..j][1..] == Batches(rest)[..j - 1];
      assert ids[..Min(j * BatchSize, |ids|)] == ids[..BatchSize] + rest[..Min((j - 1) * BatchSize, |rest|)];
    }
  }

  /** No calls for no ids; otherwise ceil(N/100) calls, every one carrying between 1 and 100 ids. */
  lemma BatchesShape(ids: seq<string>)
    ensures |Batches(ids)| == 0 <==> |ids| == 0
    ensures |ids| > 0 ==> (|Batches(ids)| - 1) * BatchSize < |ids| <= |Batches(ids)| * BatchSize
  {
  }

  /** The existing-id set holds exactly the truthy ids of entries on pages before the first empty page. */
  lemma {:induction false} AllIdsMembers(pages: seq<Response>, x: string)
    ensures x in AllIds(pages) <==> exists k, i :: HasIdAt(pages, k, i, x)
  {
    if |pages| > 0 {
      var n := |pages| - 1;
      var items := ItemsOf(pages[n]);
      AllIdsMembers(pages[..n], x);
      PageIdsMembers(items, x);
      forall k, i ensures HasIdAt(pages, k, i, x) <==> HasIdAt(pages[..n], k, i, x) || (k == n && HasIdAt(pages, n, i, x)) {
        if 0 <= k < n {
          assert pages[..n][k] == pages[k];
        }
      }
      if x in PageIds(items) {
        var i :| 0 <= i < |items| && KeptId(items[i]) == Some(x);
        assert HasIdAt(pages, n, i, x);
      }
      if exists k, i :: HasIdAt(pages, k, i, x) {
        var k, i :| HasIdAt(pages, k, i, x);
        if k == n {
          assert 0 <= i < |items| && KeptId(items[i]) == Some(x);
        }
      }
    }
  }

  /** One page contributes exactly the truthy ids of its entries. */
  lemma {:induction false} PageIdsMembers(items: seq<Item>, x: string)
    ensures x in PageIds(items) <==> exists i :: 0 <= i < |items| && KeptId(items[i]) == Some(x)
  {
    if |items| > 0 {
      var n := |items| - 1;
      PageIdsMembers(items[..n], x);
      forall i | 0 <= i < n ensures items[..n][i] == items[i] { }
    }
  }

  /** Existing-id set: exactly the truthy ids read before the first empty page; the empty id never appears. */
  lemma ExistingIdsMembers(pages: seq<Response>, x: string)
    requires ExistingIds(pages).Some?
    ensures x in ExistingIds(pages).value <==> exists k, i :: k < StopIndex(pages) && HasIdAt(pages, k, i, x)
    ensures "" !in ExistingIds(pages).value
  {
    var n := StopIndex(pages);
    var prefix := pages[..n];
    AllIdsMembers(prefix, x);
    AllIdsMembers(prefix, "");
    forall k, i, y ensures HasIdAt(prefix, k, i, y) <==> k < n && HasIdAt(pages, k, i, y) {
      if 0 <= k < n {
        assert prefix[k] == pages[k];
      }
    }
  }

  /** Pages after the first empty one are never read: they cannot change the set. */
  lemma ExistingIdsIgnoresLaterPages(pages: seq<Response>, other: seq<Response>)
    requires forall k: nat :: k <= StopIndex(pages) ==> PageAt(other, k) == PageAt(pages, k)
    ensures ExistingIds(other) == ExistingIds(pages)
  {
    StopIndexFrame(pages, other);
  }
}
