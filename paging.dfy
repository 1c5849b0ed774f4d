/**
 * The offset-cursor paging pattern shared by the saved-tracks reader and the
 * playlist-items reader: request `limit` entries at offset 0, `limit`, `2*limit`, ...
 * and stop at the first page that comes back empty.
 *
 * The service is given as the sequence of its replies, page by page; a page past
 * the end of that sequence reads as an empty page.
 */
module Paging {
  import opened Wrappers

  /** A track object of a reply: its id may be null; the artists are given by name. */
  datatype TrackObject = TrackObject(id: Option<string>, name: string, artistNames: seq<string>)

  /** One entry of a page; its `track` may be null. */
  datatype Item = Item(track: Option<TrackObject>)

  /** The reply to one page request: the page's entries, or a call that raised. */
  datatype Response = Page(items: seq<Item>) | Failed

  /** Page size of the saved-tracks listing. */
  const SavedTracksLimit: nat := 50

  /** Page size of the playlist-items listing. */
  const PlaylistItemsLimit: nat := 100

  /** The reply to the `k`-th page request. */
  function PageAt(pages: seq<Response>, k: nat): Response
  {
    if k < |pages| then pages[k] else Page([])
  }

  /** The service's answer to a request for `limit` entries starting at `offset`. */
  function Request(pages: seq<Response>, offset: nat, limit: nat): Response
    requires limit > 0
  {
    PageAt(pages, offset / limit)
  }

  /** The request for page `k` is answered with the `k`-th reply. */
  lemma RequestPage(pages: seq<Response>, k: nat, limit: nat)
    requires limit == SavedTracksLimit || limit == PlaylistItemsLimit
    ensures Request(pages, k * limit, limit) == PageAt(pages, k)
  {
  }

  /** A reply after which the loop does not ask for another page. */
  predicate Ends(r: Response)
  {
    r.Failed? || r.items == []
  }

  /** The entries of a reply; a failed call carries none. */
  function ItemsOf(r: Response): seq<Item>
  {
    if r.Page? then r.items else []
  }

  /** The index of the first page that ends the loop: every page before it is read and non-empty. */
  function StopIndex(pages: seq<Response>): (n: nat)
    ensures n <= |pages|
    ensures Ends(PageAt(pages, n))
    ensures forall k :: 0 <= k < n ==> !Ends(pages[k])
  {
    if |pages| == 0 || Ends(pages[0]) then 0 else 1 + StopIndex(pages[1..])
  }

  /** Reading no further than the stop page, a page that ends the loop is the stop page. */
  lemma StopsAt(pages: seq<Response>, k: nat)
    requires k <= StopIndex(pages)
    ensures Ends(PageAt(pages, k)) <==> k == StopIndex(pages)
    ensures !Ends(PageAt(pages, k)) ==> k < |pages| && PageAt(pages, k) == pages[k]
  {
  }

  /** The loop ends on a failed call rather than on an empty page. */
  predicate Aborts(pages: seq<Response>)
  {
    PageAt(pages, StopIndex(pages)).Failed?
  }

  /** The offsets of the requests the loop issues, the last one included. */
  function Offsets(pages: seq<Response>, limit: nat): seq<nat>
  {
    seq(StopIndex(pages) + 1, k => k * limit)
  }

  /** A log of requests at offsets 0, limit, 2*limit, ... up to the stop page is the loop's offset log. */
  lemma OffsetsLog(pages: seq<Response>, limit: nat, log: seq<nat>)
    requires |log| == StopIndex(pages) + 1
    requires forall j :: 0 <= j < |log| ==> log[j] == j * limit
    ensures log == Offsets(pages, limit)
  {
  }

  /** Python's `track and track.get("id")`: the id of an entry that is kept, if any. */
  function KeptId(item: Item): Option<string>
  {
    match item.track
    case None => None
    case Some(t) =>
      match t.id
      case None => None
      case Some(id) => if id == "" then None else Some(id)
  }

  /** No page is read after the first one that ends the loop: two services that agree up to it look alike. */
  lemma StopIndexFrame(pages: seq<Response>, other: seq<Response>)
    requires forall k: nat :: k <= StopIndex(pages) ==> PageAt(other, k) == PageAt(pages, k)
    ensures StopIndex(other) == StopIndex(pages)
    ensures Aborts(other) == Aborts(pages)
    ensures other[..StopIndex(other)] == pages[..StopIndex(pages)]
  {
    var n := StopIndex(pages);
    forall k | 0 <= k < n ensures k < |other| && other[k] == pages[k] {
      assert PageAt(other, k) == PageAt(pages, k) && !Ends(pages[k]);
    }
  }
}
