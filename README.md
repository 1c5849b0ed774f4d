# liked-songs-to-playlist, modelled in Dafny

The script copies a user's Spotify "Liked Songs" into a playlist. It reads every
saved track, page by page. Then it either creates a new playlist and appends all
of them, or it appends only the missing ones to a playlist the user names by link.
This project models the collection logic under the HTTP calls and console prompts.

- **Paging** (`paging.dfy`): the page-by-page reader. Each service is a sequence of
  replies, one per page request. A reply is a page of entries or a failed call. A
  page past the end of the sequence reads as empty. `StopIndex` is the first page
  that ends the loop. `Offsets` lists the offsets `0, limit, 2*limit, …` that the
  loop requests.
- **LikedSongs** (`liked_songs.dfy`): `fetch_all_liked_songs`. Its loops are Dafny
  loops proved against the function `FetchedLikedSongs`:
  - `FetchAllLikedSongs` is the paging loop;
  - `AppendKept` is the per-page loop;
  - `ReverseList` is the in-place reverse.
- **Playlists** (`playlists.dfy`):
  - `add_tracks_to_playlist` becomes `AddTracksToPlaylist`, which returns the log of
    append calls and the progress counter values;
  - `get_existing_playlist_tracks` becomes `GetExistingPlaylistTracks` and
    `AddKeptIds`, proved against `ExistingIds`.
- **PlaylistUrl** (`playlist_url.dfy`): the id extraction
  `url.split("/playlist/")[1].split("?")[0]` as a function returning an `Option`.
  `None` stands for the `IndexError`.
- **Strings** (`strings.dfy`): Python's `str.split` with a separator and `str.join`.
- **Session** (`session.dfy`): `main` from the fetch on. It takes these inputs:
  - the text the user types, already stripped;
  - the clock-based default name;
  - the id the service gives a newly created playlist.

  It returns the playlist calls issued, in order, and the way the run ended.

An entry is kept exactly when its `track` is present and the track's `id` is present
and non-empty, as in Python's `if track and track.get("id")`. This condition is `KeptId`.

## Model

| member | source | states |
|---|---|---|
| Paging.StopIndex | copy_liked_songs.py:52-58 | the first page that is empty or failed; every earlier page is a non-empty page |
| Paging.RequestPage | copy_liked_songs.py:49-50 | loop lemma: with page size 50 or 100, the request at offset `k*limit` is answered with the `k`-th reply |
| Paging.StopsAt | copy_liked_songs.py:57-58 | loop lemma: up to the stop page, a page ends the loop exactly when it is the stop page |
| Paging.OffsetsLog | copy_liked_songs.py:69 | loop lemma: the offsets `0, limit, 2*limit, …` logged through the stop page are `Offsets` |
| Paging.StopIndexFrame | copy_liked_songs.py:52-58 | two services that agree up to the stop page stop at the same page, both fail or neither does, and agree on every page read |
| LikedSongs.ReverseList | copy_liked_songs.py:78 | the swap loop yields the list read backwards |
| LikedSongs.AppendKept | copy_liked_songs.py:60-67 | the per-page loop appends the kept entries of the page, flattened, in page order |
| LikedSongs.FetchAllLikedSongs | copy_liked_songs.py:45-80 | the loop returns `FetchedLikedSongs` (nothing once a request fails) and requests offsets 0, 50, 100, … through the stop page |
| LikedSongs.KeepStep | copy_liked_songs.py:60-67 | loop lemma: reading one more entry appends exactly what that entry contributes |
| LikedSongs.KeepAllStep | copy_liked_songs.py:52-69 | loop lemma: reading one more page appends exactly that page's kept entries |
| LikedSongs.ReverseAt | copy_liked_songs.py:78 | element `k` of the reversed list is element `n-1-k` of the original |
| LikedSongs.FetchedLikedSongs | copy_liked_songs.py:45-80 | nothing exactly when a request fails; otherwise one song per kept entry of the pages before the first empty page, none with an empty id |
| LikedSongs.ReversedCollected | copy_liked_songs.py:60-78 | the collection read backwards has one song per kept entry before the stop page, and no song with an empty id |
| LikedSongs.ReverseReverse | copy_liked_songs.py:78 | reversing twice gives back the collection order |
| LikedSongs.ReverseMembers | copy_liked_songs.py:78 | reversing keeps exactly the same elements |
| LikedSongs.KeepMembers | copy_liked_songs.py:60-67 | a track is in a page's kept list iff some entry of the page is kept and flattens to it (id, name, artists joined by ", ") |
| LikedSongs.KeepLength | copy_liked_songs.py:60-67 | a page contributes exactly one track per kept entry |
| LikedSongs.KeptIndicesStep | copy_liked_songs.py:60-62 | the number of kept entries grows by one exactly when the next entry is kept |
| LikedSongs.KeepAllMembers | copy_liked_songs.py:52-67 | a track is collected from a run of pages iff some entry of some page is kept and flattens to it |
| LikedSongs.KeepAllLength | copy_liked_songs.py:52-67 | the number collected is the number of kept entries over the pages |
| LikedSongs.LikedSongsMembers | copy_liked_songs.py:52-80 | the result holds a track iff an entry on a page before the first empty page flattens to it; no result track has an empty id |
| LikedSongs.LikedSongsOrder | copy_liked_songs.py:60-80 | the result is the collection order reversed; its length is the number of kept entries before the first empty page |
| LikedSongs.LikedSongsIgnoresLaterPages | copy_liked_songs.py:52-58 | pages after the first empty one do not affect the result |
| Playlists.Batches | copy_liked_songs.py:93-94 | every batch holds 1 to 100 ids, and there are `ceil(N/100)` batches |
| Playlists.AddTracksToPlaylist | copy_liked_songs.py:89-98 | one append call per batch, in order; progress value `k` is `min((k+1)*100, total)`, the number of ids sent so far, is at most `total`, rises strictly and ends at `total` |
| Playlists.ConcatBatches | copy_liked_songs.py:93-95 | the batches, concatenated in call order, are the input |
| Playlists.BatchesSlice | copy_liked_songs.py:93-94 | batch `k` is the slice `ids[100k : 100k+100]` |
| Playlists.BatchesPrefix | copy_liked_songs.py:93-96 | the first `j` batches together are `ids[:min(100j, N)]` |
| Playlists.BatchesShape | copy_liked_songs.py:93 | no batch for no ids; otherwise the batch count is the smallest whose capacity covers N |
| Playlists.PageIds | copy_liked_songs.py:113-116 | the kept ids of a page never include the empty id |
| Playlists.AllIds | copy_liked_songs.py:106-118 | the kept ids of a run of pages never include the empty id |
| Playlists.ExistingIds | copy_liked_songs.py:101-120 | nothing exactly when a request raises; otherwise a set without the empty id |
| Playlists.AddKeptIds | copy_liked_songs.py:113-116 | the per-page loop adds the ids of the page's kept entries to the set |
| Playlists.GetExistingPlaylistTracks | copy_liked_songs.py:101-120 | the loop returns `ExistingIds` (nothing once a request raises) and requests offsets 0, 100, 200, … through the stop page |
| Playlists.PageIdsStep | copy_liked_songs.py:113-116 | loop lemma: reading one more entry adds that entry's id if it is kept |
| Playlists.AllIdsStep | copy_liked_songs.py:106-118 | loop lemma: reading one more page adds that page's ids |
| Playlists.PageIdsMembers | copy_liked_songs.py:113-116 | an id is in a page's set iff some entry of the page is kept with that id |
| Playlists.AllIdsMembers | copy_liked_songs.py:106-116 | an id is collected from a run of pages iff some entry of some page is kept with that id |
| Playlists.ExistingIdsMembers | copy_liked_songs.py:101-120 | the set holds exactly the kept ids on pages before the first empty page, and never the empty id |
| Playlists.ExistingIdsIgnoresLaterPages | copy_liked_songs.py:106-111 | pages after the first empty one do not affect the set |
| Strings.FindFrom | copy_liked_songs.py:164 | the first occurrence of the separator at or after a position, or none |
| Strings.Split | copy_liked_songs.py:164 | `str.split(sep)` yields at least one piece |
| Strings.Join | copy_liked_songs.py:66 | `sep.join(parts)` starts with the first part, followed by the separator when more parts come |
| Strings.JoinSplit | copy_liked_songs.py:164 | joining the pieces with the separator gives back the string |
| Strings.SplitPiecesFree | copy_liked_songs.py:164 | no piece contains the separator |
| Strings.SplitSingleIff | copy_liked_songs.py:164 | there is a single piece iff the separator does not occur |
| Strings.SplitFirstPiece | copy_liked_songs.py:164 | the first piece is a prefix without the separator, ending at the end of the string or at an occurrence, and no occurrence starts inside it, so it ends at the first one |
| Strings.SplitSecondPiece | copy_liked_songs.py:164 | the second piece is the first piece of the text after the first occurrence |
| Strings.FindFromFirst | copy_liked_songs.py:164 | the search finds the first occurrence at or after its start |
| Strings.JoinLength | copy_liked_songs.py:66 | the joined length is the parts' total length plus one separator between each pair of parts |
| Strings.JoinAppend | copy_liked_songs.py:66 | joining two non-empty lists puts one separator between their joins |
| PlaylistUrl.PlaylistId | copy_liked_songs.py:164 | an extracted id holds neither "?" nor "/playlist/" |
| PlaylistUrl.PlaylistIdFailsIff | copy_liked_songs.py:163-167 | extraction fails exactly when "/playlist/" does not occur |
| PlaylistUrl.PlaylistIdShape | copy_liked_songs.py:164 | the id is the text after the first "/playlist/", cut at the first later "?" or at the first later start of "/playlist/"; it contains neither |
| PlaylistUrl.CutShape | copy_liked_songs.py:164 | the first "?"-piece of the first "/playlist/"-piece of a text stops at its first "?" or first start of "/playlist/" |
| PlaylistUrl.ShareLinkMarker | copy_liked_songs.py:164 | in the sample share link, "/playlist/" first occurs at index 24 |
| PlaylistUrl.PlaylistIdExample | copy_liked_songs.py:164 | ".../playlist/XYZ123?si=abc" gives "XYZ123" |
| PlaylistUrl.PlaylistIdOverlapExample | copy_liked_songs.py:164 | "X/playlist/ab/playlist/playlist/x" gives "ab", not "ab/playlist" |
| PlaylistUrl.PlaylistIdRejects | copy_liked_songs.py:163-167 | a track link without "/playlist/" is invalid |
| Session.NewTracks | copy_liked_songs.py:173 | the new songs are liked songs, none with an id already in the playlist, and no more of them than liked |
| Session.IdsAppend | copy_liked_songs.py:156 | the ids of two track lists in a row are their ids in a row |
| Session.IdsMembers | copy_liked_songs.py:156 | an id is listed iff some track carries it |
| Session.NewTracksMembers | copy_liked_songs.py:173 | a song is new iff it is liked and its id is not in the playlist |
| Session.NewTracksAppend | copy_liked_songs.py:173 | the filter commutes with concatenation, so it keeps the liked-songs order |
| Session.NewTracksBounds | copy_liked_songs.py:173 | the filter never grows the list and keeps everything against an empty playlist |
| Session.NewTracksExample | copy_liked_songs.py:173 | liked [A, B, C] against a playlist holding B gives [A, C] |
| Session.AddedIdsOfAddOps | copy_liked_songs.py:93-95 | the append calls carry the batches' ids in order |
| Session.AddedIdsOfReadOps | copy_liked_songs.py:107 | listing calls carry no ids |
| Session.AddedIdsAppend | copy_liked_songs.py:170-181 | the ids added by two call logs in a row are those of the first, then those of the second |
| Session.CreateMode | copy_liked_songs.py:148-158 | one CreatePlaylist with the chosen or default name and "Liked songs backup", then only appends to the new playlist of 1 to 100 ids that carry every liked id in order; ends "Done!" |
| Session.AppendMode | copy_liked_songs.py:160-181 | ends "Invalid URL!" exactly for a link without an id, and as a failed listing exactly when a listing request raises; every call is a listing or an append on the linked playlist |
| Session.Run | copy_liked_songs.py:134-185 | ends as a failed fetch exactly when a saved-tracks request raises; a playlist call is issued only after a fetch that found songs and on a blank, "1" or "2" choice |
| Session.RunWithoutLikedSongs | copy_liked_songs.py:134-138 | a failed fetch or no liked songs issues no playlist call |
| Session.RunBlankChoiceIsCreate | copy_liked_songs.py:146 | a blank choice behaves as "1" |
| Session.RunRejectsOtherChoices | copy_liked_songs.py:146-185 | any other choice issues no playlist call; after a fetch that found songs it ends "Invalid option!" |
| Session.RunCreate | copy_liked_songs.py:148-158 | create mode makes one playlist, named by the user or by default with description "Liked songs backup", then appends every liked id in order in batches of 1 to 100, without deduplication |
| Session.RunInvalidUrl | copy_liked_songs.py:160-167 | a link without "/playlist/" issues no playlist call; after a fetch that found songs it ends "Invalid URL!" |
| Session.RunReadFailed | copy_liked_songs.py:169-170 | when a listing request raises, only the listing calls are issued, nothing is appended, and the run ends there |
| Session.RunAppend | copy_liked_songs.py:160-181 | append mode lists the playlist page by page, then issues only appends of 1 to 100 ids, carrying exactly the ids of the new songs in liked order, none already present; when nothing is new the run ends "All songs already in playlist!" after the listing calls alone |
| Session.AppendModeCalls | copy_liked_songs.py:160-181 | the same facts, stated on the append branch alone |
| Session.NewIdsAreNew | copy_liked_songs.py:173-180 | no id of a new song is already in the playlist |
| Session.DistinctCons | copy_liked_songs.py:173 | a track whose id is not among a list of distinct ids can go in front of them, and the ids stay distinct |
| Session.NewTracksDistinct | copy_liked_songs.py:173 | when the liked ids are distinct, so are the new songs' ids |
| Session.RunAppendAtMostOnce | copy_liked_songs.py:170-181 | with distinct liked ids, append mode appends every id at most once |
| Session.ListingThenAppend | copy_liked_songs.py:170-181 | listing calls followed by the append calls for the ids: all on one playlist, only appends of 1 to 100 ids after the listing and none for no ids, carrying exactly those ids |

## Left out

- Sign-in: credential loading and OAuth client construction (copy_liked_songs.py:15-42) read environment variables and configure an external library.
- `create_playlist` (copy_liked_songs.py:83-86) is modelled as the logged call `CreatePlaylist(name, description)` and the id it returns, which is a parameter of `Session.Run`. The `public=False` flag, the `current_user` lookups (lines 84 and 130) and the playlist's URL are not modelled.
- The HTTP calls are replaced. The saved-tracks and playlist-items readers get a sequence of replies. The append and create calls become a returned log of `PlaylistOp`s. Transport, retries and timeouts belong to the library.
- Console output is not modelled. Of the carriage-return progress line, only the counter's arithmetic is kept, as `AddTracksToPlaylist`'s `progress`.
- `input()`: the stripped answers are parameters.
- The date-based default playlist name depends on the clock and is a parameter.
- `sys.exit(1)` after a failed saved-tracks request becomes the `None` result and the `FetchFailed` ending. An exception raised by a playlist-items request propagates in the script and becomes the `None` result and the `ReadFailed` ending.
- Malformed replies are only modelled as a failed call. A missing `"name"`, or an artist without `"name"`, raises `KeyError` inside the `try` in the script. A track object in the model always has a name and a list of artist names (possibly empty, as `track.get("artists", [])` gives).
- Failure of an individual append call is not modelled: every append succeeds.
- A raising `create_playlist` call (copy_liked_songs.py:84-85) is not modelled: creation always succeeds and yields the given id.
- A service that never returns an empty page cannot be expressed. Pages past the given sequence read as empty, so every modelled listing ends. The `while True` loops at copy_liked_songs.py:52 and 106 would not stop against such a service.
- Session.RunAppendAtMostOnce: assumes the liked ids are distinct. If a liked id repeated, the script would append it once per occurrence, in both modes; `Session.RunCreate` and `Session.RunAppend` hold for that case too.
- Paging.RequestPage: states the offset-to-page correspondence only for the two page sizes the script uses, 50 and 100.
- `liked_tracks.reverse()` works in place on a Python list. The model reverses a sequence value with the same swap loop; aliasing of the list is not modelled.
