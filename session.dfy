/**
 * The interactive run (`main`) after sign-in: fetch the liked songs, then either
 * copy all of them into a new playlist or add the ones that are missing to an
 * existing playlist. The answers the user types (already stripped), the
 * clock-based default name and the id the service gives a new playlist are
 * inputs; the result is the list of playlist calls issued and how the run ended.
 */
module Session {
  import opened Wrappers
  import opened Strings
  import opened Paging
  import opened LikedSongs
  import opened Playlists
  import opened PlaylistUrl

  /** How a run ends. */
  datatype Ending =
    | FetchFailed        // a saved-tracks request raised: "Error: ...", exit status 1
    | NoLikedSongs       // "No liked songs found."
    | InvalidOption      // "Invalid option!"
    | InvalidUrl         // "Invalid URL!"
    | ReadFailed         // a playlist-items request raised and the exception propagated
    | AllAlreadyPresent  // "All songs already in playlist!"
    | Done               // "Done!"

  datatype Outcome = Outcome(ops: seq<PlaylistOp>, ending: Ending)

  /** The description given to a newly created playlist. */
  const NewPlaylistDescription := "Liked songs backup"

  /** `[t["id"] for t in tracks]`. */
  function Ids(tracks: seq<Track>): seq<string>
  {
    seq(|tracks|, k requires 0 <= k < |tracks| => tracks[k].id)
  }

  /** `[t for t in liked if t["id"] not in existing]`: liked songs only, none of them with an existing id. */
  function NewTracks(liked: seq<Track>, existing: set<string>): (r: seq<Track>)
    ensures |r| <= |liked|
    ensures forall k :: 0 <= k < |r| ==> r[k] in liked && r[k].id !in existing
  {
    if |liked| == 0 then []
    else (if liked[0].id in existing then [] else [liked[0]]) + NewTracks(liked[1..], existing)
  }

  /** The ids carried by the append calls among `ops`, in call order. */
  function AddedIds(ops: seq<PlaylistOp>): seq<string>
  {
    if |ops| == 0 then [] else (if ops[0].AddItems? then ops[0].ids else []) + AddedIds(ops[1..])
  }

  /**
   * Choice "1": create the playlist, named by the user or by default, then
   * append every liked id, in order, in batches of 1 to 100.
   */
  function CreateMode(liked: seq<Track>, nameInput: string, defaultName: string, createdId: string): (r: Outcome)
    ensures r.ending == Done
    ensures |r.ops| >= 1
    ensures r.ops[0] == CreatePlaylist(if nameInput == "" then defaultName else nameInput, NewPlaylistDescription)
    ensures forall k :: 1 <= k < |r.ops| ==> r.ops[k].AddItems? && r.ops[k].playlist == createdId
                                             && 0 < |r.ops[k].ids| <= BatchSize
    ensures AddedIds(r.ops) == Ids(liked)
  {
    var name := if nameInput == "" then defaultName else nameInput;
    var head := [CreatePlaylist(name, NewPlaylistDescription)];
    var adds := AddOps(createdId, Batches(Ids(liked)));
    AddedIdsAppend(head, adds);
    AddedIdsOfAddOps(createdId, Batches(Ids(liked)));
    ConcatBatches(Ids(liked));
    assert head[1..] == [];
    Outcome(head + adds, Done)
  }

  /**
   * Choice "2": parse the link, list the playlist, append the liked songs it
   * lacks. Every call goes to the linked playlist; an invalid link issues none.
   */
  function AppendMode(liked: seq<Track>, urlInput: string, playlistPages: seq<Response>): (r: Outcome)
    ensures r.ending == InvalidUrl <==> PlaylistId(urlInput).None?
    ensures r.ending == ReadFailed <==> PlaylistId(urlInput).Some? && ExistingIds(playlistPages).None?
    ensures r.ending in {InvalidUrl, ReadFailed, AllAlreadyPresent, Done}
    ensures r.ops != [] ==> PlaylistId(urlInput).Some?
    ensures r.ops != [] ==> forall k :: 0 <= k < |r.ops| ==> (r.ops[k].ReadItems? || r.ops[k].AddItems?) && r.ops[k].playlist == PlaylistId(urlInput).value
  {
    match PlaylistId(urlInput)
    case None => Outcome([], InvalidUrl)
    case Some(playlist) =>
      var listing := ReadOps(playlist, Offsets(playlistPages, PlaylistItemsLimit));
      match ExistingIds(playlistPages)
      case None => Outcome(listing, ReadFailed)
      case Some(existing) =>
        var newTracks := NewTracks(liked, existing);
        if newTracks == [] then Outcome(listing, AllAlreadyPresent)
        else Outcome(listing + AddOps(playlist, Batches(Ids(newTracks))), Done)
  }

  /**
   * The run of `main` from the liked-songs fetch on. A playlist call is issued
   * only after a fetch that found liked songs and on a valid choice.
   */
  function Run(savedPages: seq<Response>, choiceInput: string, nameInput: string, defaultName: string,
               createdId: string, urlInput: string, playlistPages: seq<Response>): (r: Outcome)
    ensures r.ending == FetchFailed <==> FetchedLikedSongs(savedPages).None?
    ensures r.ops != [] ==> FetchedLikedSongs(savedPages).Some? && FetchedLikedSongs(savedPages).value != []
    ensures r.ops != [] ==> choiceInput in {"", "1", "2"}
  {
    match FetchedLikedSongs(savedPages)
    case None => Outcome([], FetchFailed)
    case Some(liked) =>
      if liked == [] then Outcome([], NoLikedSongs)
      else
        var choice := if choiceInput == "" then "1" else choiceInput;
        if choice == "1" then CreateMode(liked, nameInput, defaultName, createdId)
        else if choice == "2" then AppendMode(liked, urlInput, playlistPages)
        else Outcome([], InvalidOption)
  }

  // ---------------------------------------------------------------- duplicate filter

  /** A liked song is new exactly when it is liked and its id is not yet in the playlist. */
  lemma {:induction false} NewTracksMembers(liked: seq<Track>, existing: set<string>, t: Track)
    ensures t in NewTracks(liked, existing) <==> t in liked && t.id !in existing
  {
    if |liked| > 0 {
      NewTracksMembers(liked[1..], existing, t);
      assert liked == [liked[0]] + liked[1..];
    }
  }

  /** Filtering commutes with concatenation, so the new songs keep the liked-songs order. */
  lemma {:induction false} NewTracksAppend(a: seq<Track>, b: seq<Track>, existing: set<string>)
    ensures NewTracks(a + b, existing) == NewTracks(a, existing) + NewTracks(b, existing)
  {
    if |a| > 0 {
      assert (a + b)[1..] == a[1..] + b;
      NewTracksAppend(a[1..], b, existing);
    } else {
      assert a + b == b;
    }
  }

  /** With nothing in the playlist yet, every liked song is new; the filter never keeps more than it got. */
  lemma {:induction false} NewTracksBounds(liked: seq<Track>, existing: set<string>)
    ensures |NewTracks(liked, existing)| <= |liked|
    ensures NewTracks(liked, {}) == liked
  {
    if |liked| > 0 {
      NewTracksBounds(liked[1..], existing);
    }
  }

  /** Liked [A, B, C] against a playlist holding B gives [A, C]. */
  lemma NewTracksExample(a: Track, b: Track, c: Track)
    requires a.id != b.id && c.id != b.id
    ensures NewTracks([a, b, c], {b.id}) == [a, c]
  {
    assert [a, b, c][1..] == [b, c];
    assert [b, c][1..] == [c];
    assert [c][1..] == [];
    assert NewTracks([c], {b.id}) == [c];
    assert NewTracks([b, c], {b.id}) == [c];
    assert NewTracks([a, b, c], {b.id}) == [a] + [c];
  }

  /** The id list of two track lists in a row is their id lists in a row. */
  lemma IdsAppend(a: seq<Track>, b: seq<Track>)
    ensures Ids(a + b) == Ids(a) + Ids(b)
  {
  }

  /** An id is listed exactly when some track carries it. */
  lemma IdsMembers(tracks: seq<Track>, x: string)
    ensures x in Ids(tracks) <==> exists t :: t in tracks && t.id == x
  {
    if x in Ids(tracks) {
      var k :| 0 <= k < |tracks| && Ids(tracks)[k] == x;
      assert tracks[k] in tracks;
    }
    if exists t :: t in tracks && t.id == x {
      var t :| t in tracks && t.id == x;
      var k :| 0 <= k < |tracks| && tracks[k] == t;
      assert Ids(tracks)[k] == x;
    }
  }

  /** The append calls of a list of batches carry the batches' ids in order. */
  lemma {:induction false} AddedIdsOfAddOps(playlist: string, bs: seq<seq<string>>)
    ensures AddedIds(AddOps(playlist, bs)) == Concat(bs)
  {
    if |bs| > 0 {
      AddedIdsOfAddOps(playlist, bs[1..]);
      assert AddOps(playlist, bs)[1..] == AddOps(playlist, bs[1..]);
    }
  }

  /** Listing calls carry no ids. */
  lemma {:induction false} AddedIdsOfReadOps(playlist: string, offsets: seq<nat>)
    ensures AddedIds(ReadOps(playlist, offsets)) == []
  {
    if |offsets| > 0 {
      AddedIdsOfReadOps(playlist, offsets[1..]);
      assert ReadOps(playlist, offsets)[1..] == ReadOps(playlist, offsets[1..]);
    }
  }

  lemma {:induction false} AddedIdsAppend(a: seq<PlaylistOp>, b: seq<PlaylistOp>)
    ensures AddedIds(a + b) == AddedIds(a) + AddedIds(b)
  {
    if |a| > 0 {
      assert (a + b)[1..] == a[1..] + b;
      AddedIdsAppend(a[1..], b);
    } else {
      assert a + b == b;
    }
  }

  // ---------------------------------------------------------------- dispatch

  /** Nothing is touched when the fetch fails or finds no liked songs. */
  lemma RunWithoutLikedSongs(savedPages: seq<Response>, choiceInput: string, nameInput: string, defaultName: string,
                             createdId: string, urlInput: string, playlistPages: seq<Response>)
    requires FetchedLikedSongs(savedPages).None? || FetchedLikedSongs(savedPages) == Some([])
    ensures var r := Run(savedPages, choiceInput, nameInput, defaultName, createdId, urlInput, playlistPages);
            r.ops == [] && r.ending in {FetchFailed, NoLikedSongs}
  {
  }

  /** A blank choice means "1". */
  lemma RunBlankChoiceIsCreate(savedPages: seq<Response>, nameInput: string, defaultName: string,
                               createdId: string, urlInput: string, playlistPages: seq<Response>)
    ensures Run(savedPages, "", nameInput, defaultName, createdId, urlInput, playlistPages)
         == Run(savedPages, "1", nameInput, defaultName, createdId, urlInput, playlistPages)
  {
  }

  /** Any choice other than blank, "1" or "2" is rejected and issues no playlist call. */
  lemma RunRejectsOtherChoices(savedPages: seq<Response>, choiceInput: string, nameInput: string, defaultName: string,
                               createdId: string, urlInput: string, playlistPages: seq<Response>)
    requires choiceInput !in {"", "1", "2"}
    ensures var r := Run(savedPages, choiceInput, nameInput, defaultName, createdId, urlInput, playlistPages);
            && r.ops == [] && r.ending in {FetchFailed, NoLikedSongs, InvalidOption}
            && (FetchedLikedSongs(savedPages).Some? && FetchedLikedSongs(savedPages).value != [] ==> r.ending == InvalidOption)
  {
  }

  /**
   * Create mode: one new playlist, named by the user or by default, then all
   * liked ids in order, in batches of 1 to 100, without deduplication.
   */
  lemma RunCreate(savedPages: seq<Response>, choiceInput: string, nameInput: string, defaultName: string,
                  createdId: string, urlInput: string, playlistPages: seq<Response>)
    requires choiceInput in {"", "1"}
    requires FetchedLikedSongs(savedPages).Some? && FetchedLikedSongs(savedPages).value != []
    ensures var r := Run(savedPages, choiceInput, nameInput, defaultName, createdId, urlInput, playlistPages);
            && r.ending == Done
            && r.ops[0] == CreatePlaylist(if nameInput == "" then defaultName else nameInput, NewPlaylistDescription)
            && (forall k :: 1 <= k < |r.ops| ==> r.ops[k].AddItems? && r.ops[k].playlist == createdId
                                                 && 0 < |r.ops[k].ids| <= BatchSize)
            && AddedIds(r.ops) == Ids(FetchedLikedSongs(savedPages).value)
  {
    var liked := FetchedLikedSongs(savedPages).value;
    var bs := Batches(Ids(liked));
    var r := Run(savedPages, choiceInput, nameInput, defaultName, createdId, urlInput, playlistPages);
    var head := [CreatePlaylist(if nameInput == "" then defaultName else nameInput, NewPlaylistDescription)];
    assert r.ops == head + AddOps(createdId, bs);
    AddedIdsAppend(head, AddOps(createdId, bs));
    AddedIdsOfAddOps(createdId, bs);
    assert AddedIds(head) == [] by {
      assert head[1..] == [];
    }
    ConcatBatches(Ids(liked));
  }

  /** Append mode with a link lacking "/playlist/": "Invalid URL!" and no playlist call at all. */
  lemma RunInvalidUrl(savedPages: seq<Response>, nameInput: string, defaultName: string,
                      createdId: string, urlInput: string, playlistPages: seq<Response>)
    requires !Contains(urlInput, PlaylistMarker)
    ensures var r := Run(savedPages, "2", nameInput, defaultName, createdId, urlInput, playlistPages);
            && r.ops == [] && r.ending in {FetchFailed, NoLikedSongs, InvalidUrl}
            && (FetchedLikedSongs(savedPages).Some? && FetchedLikedSongs(savedPages).value != [] ==> r.ending == InvalidUrl)
  {
    PlaylistIdFailsIff(urlInput);
  }

  /**
   * Append mode when a listing request raises: the listing calls up to the
   * failed one are issued, nothing is appended and the run ends there.
   */
  lemma RunReadFailed(savedPages: seq<Response>, nameInput: string, defaultName: string,
                      createdId: string, urlInput: string, playlistPages: seq<Response>)
    requires FetchedLikedSongs(savedPages).Some? && FetchedLikedSongs(savedPages).value != []
    requires PlaylistId(urlInput).Some? && ExistingIds(playlistPages).None?
    ensures var r := Run(savedPages, "2", nameInput, defaultName, createdId, urlInput, playlistPages);
            && r.ending == ReadFailed
            && r.ops == ReadOps(PlaylistId(urlInput).value, Offsets(playlistPages, PlaylistItemsLimit))
            && AddedIds(r.ops) == []
  {
    AddedIdsOfReadOps(PlaylistId(urlInput).value, Offsets(playlistPages, PlaylistItemsLimit));
  }

  /**
   * Append mode with a valid link: the playlist is listed page by page, then
   * exactly the new liked songs are appended, in liked-songs order, none of
   * them already present. Nothing is appended when there is nothing new.
   */
  lemma RunAppend(savedPages: seq<Response>, nameInput: string, defaultName: string,
                  createdId: string, urlInput: string, playlistPages: seq<Response>)
    requires FetchedLikedSongs(savedPages).Some? && FetchedLikedSongs(savedPages).value != []
    requires PlaylistId(urlInput).Some? && ExistingIds(playlistPages).Some?
    ensures var r := Run(savedPages, "2", nameInput, defaultName, createdId, urlInput, playlistPages);
            var liked := FetchedLikedSongs(savedPages).value;
            var existing := ExistingIds(playlistPages).value;
            var playlist := PlaylistId(urlInput).value;
            && r.ops[..StopIndex(playlistPages) + 1] == ReadOps(playlist, Offsets(playlistPages, PlaylistItemsLimit))
            && (forall k :: 0 <= k < |r.ops| ==> (r.ops[k].ReadItems? || r.ops[k].AddItems?) && r.ops[k].playlist == playlist)
            && (forall k :: StopIndex(playlistPages) + 1 <= k < |r.ops| ==> r.ops[k].AddItems? && 0 < |r.ops[k].ids| <= BatchSize)
            && AddedIds(r.ops) == Ids(NewTracks(liked, existing))
            && (forall id :: id in AddedIds(r.ops) ==> id !in existing)
            && (r.ending == AllAlreadyPresent <==> AddedIds(r.ops) == [])
            && (r.ending == AllAlreadyPresent ==> |r.ops| == StopIndex(playlistPages) + 1)
            && r.ending in {AllAlreadyPresent, Done}
  {
    var liked := FetchedLikedSongs(savedPages).value;
    assert Run(savedPages, "2", nameInput, defaultName, createdId, urlInput, playlistPages)
        == AppendMode(liked, urlInput, playlistPages);
    AppendModeCalls(liked, urlInput, playlistPages);
  }

  /** The facts of `RunAppend`, stated on the append branch alone. */
  lemma AppendModeCalls(liked: seq<Track>, urlInput: string, playlistPages: seq<Response>)
    requires PlaylistId(urlInput).Some? && ExistingIds(playlistPages).Some?
    ensures var r := AppendMode(liked, urlInput, playlistPages);
            var existing := ExistingIds(playlistPages).value;
            var playlist := PlaylistId(urlInput).value;
            && r.ops[..StopIndex(playlistPages) + 1] == ReadOps(playlist, Offsets(playlistPages, PlaylistItemsLimit))
            && (forall k :: 0 <= k < |r.ops| ==> (r.ops[k].ReadItems? || r.ops[k].AddItems?) && r.ops[k].playlist == playlist)
            && (forall k :: StopIndex(playlistPages) + 1 <= k < |r.ops| ==> r.ops[k].AddItems? && 0 < |r.ops[k].ids| <= BatchSize)
            && AddedIds(r.ops) == Ids(NewTracks(liked, existing))
            && (forall id :: id in AddedIds(r.ops) ==> id !in existing)
            && (r.ending == AllAlreadyPresent <==> AddedIds(r.ops) == [])
            && (r.ending == AllAlreadyPresent ==> |r.ops| == StopIndex(playlistPages) + 1)
            && r.ending in {AllAlreadyPresent, Done}
  {
    var existing := ExistingIds(playlistPages).value;
    var playlist := PlaylistId(urlInput).value;
    var newTracks := NewTracks(liked, existing);
    var offsets := Offsets(playlistPages, PlaylistItemsLimit);
    var ids := Ids(newTracks);
    assert ids == [] <==> newTracks == [];
    ListingThenAppend(playlist, offsets, ids);
    NewIdsAreNew(liked, existing);
    assert AppendMode(liked, urlInput, playlistPages).ops
        == ReadOps(playlist, offsets) + (if ids == [] then [] else AddOps(playlist, Batches(ids)));
  }

  /** No id occurs twice among `tracks`. */
  predicate DistinctIds(tracks: seq<Track>)
  {
    forall i, j :: 0 <= i < j < |tracks| ==> tracks[i].id != tracks[j].id
  }

  /** A track whose id is not among distinct ones can go in front of them. */
  lemma DistinctCons(x: Track, rest: seq<Track>)
    requires DistinctIds(rest) && forall t :: t in rest ==> t.id != x.id
    ensures DistinctIds([x] + rest)
  {
    var r := [x] + rest;
    forall i, j | 0 <= i < j < |r| ensures r[i].id != r[j].id {
      assert r[j] == rest[j - 1];
      if i > 0 {
        assert r[i] == rest[i - 1];
      }
    }
  }

  /** With distinct liked ids, the new songs have distinct ids too. */
  lemma {:induction false} NewTracksDistinct(liked: seq<Track>, existing: set<string>)
    requires DistinctIds(liked)
    ensures DistinctIds(NewTracks(liked, existing))
  {
    if |liked| > 0 {
      var rest := NewTracks(liked[1..], existing);
      assert DistinctIds(liked[1..]) by {
        forall i, j | 0 <= i < j < |liked[1..]| ensures liked[1..][i].id != liked[1..][j].id {
          assert liked[1..][i] == liked[i + 1] && liked[1..][j] == liked[j + 1];
        }
      }
      NewTracksDistinct(liked[1..], existing);
      forall t | t in rest ensures t.id != liked[0].id {
        var k :| 0 <= k < |rest| && rest[k] == t;
        var m :| 0 <= m < |liked[1..]| && liked[1..][m] == t;
        assert liked[m + 1] == t;
      }
      if liked[0].id !in existing {
        DistinctCons(liked[0], rest);
      }
    }
  }

  /**
   * A track is appended at most once per append-mode run, provided no id
   * repeats among the liked songs.
   */
  lemma RunAppendAtMostOnce(savedPages: seq<Response>, nameInput: string, defaultName: string,
                            createdId: string, urlInput: string, playlistPages: seq<Response>)
    requires FetchedLikedSongs(savedPages).Some? && FetchedLikedSongs(savedPages).value != []
    requires PlaylistId(urlInput).Some? && ExistingIds(playlistPages).Some?
    requires DistinctIds(FetchedLikedSongs(savedPages).value)
    ensures var added := AddedIds(Run(savedPages, "2", nameInput, defaultName, createdId, urlInput, playlistPages).ops);
            forall i, j :: 0 <= i < j < |added| ==> added[i] != added[j]
  {
    var liked := FetchedLikedSongs(savedPages).value;
    RunAppend(savedPages, nameInput, defaultName, createdId, urlInput, playlistPages);
    NewTracksDistinct(liked, ExistingIds(playlistPages).value);
  }

  /** The ids of the new songs are all missing from the playlist. */
  lemma NewIdsAreNew(liked: seq<Track>, existing: set<string>)
    ensures forall id :: id in Ids(NewTracks(liked, existing)) ==> id !in existing
  {
    var newTracks := NewTracks(liked, existing);
    forall id | id in Ids(newTracks) ensures id !in existing {
      var k :| 0 <= k < |newTracks| && Ids(newTracks)[k] == id;
      NewTracksMembers(liked, existing, newTracks[k]);
    }
  }

  /**
   * Listing calls followed by the append calls for `ids`, all on one playlist:
   * after the listing come only appends of 1 to 100 ids, none at all when
   * `ids` is empty, and together they carry exactly `ids`.
   */
  lemma ListingThenAppend(playlist: string, offsets: seq<nat>, ids: seq<string>)
    ensures var ops := ReadOps(playlist, offsets) + (if ids == [] then [] else AddOps(playlist, Batches(ids)));
            && ops[..|offsets|] == ReadOps(playlist, offsets)
            && (forall k :: 0 <= k < |ops| ==> (ops[k].ReadItems? || ops[k].AddItems?) && ops[k].playlist == playlist)
            && (forall k :: |offsets| <= k < |ops| ==> ops[k].AddItems? && 0 < |ops[k].ids| <= BatchSize)
            && (ids == [] ==> |ops| == |offsets|)
            && AddedIds(ops) == ids
  {
    var listing := ReadOps(playlist, offsets);
    var adds := if ids == [] then [] else AddOps(playlist, Batches(ids));
    AddedIdsOfReadOps(playlist, offsets);
    AddedIdsAppend(listing, adds);
    if ids != [] {
      AddedIdsOfAddOps(playlist, Batches(ids));
      ConcatBatches(ids);
    }
    assert (listing + adds)[..|offsets|] == listing;
  }
}
