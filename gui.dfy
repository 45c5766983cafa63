/**
 * The stateful part of `ModDependencyGUI` (gui.py): the paginated search
 * (`search_mods`, `append_search_results`, `check_scroll_load_more`) and the
 * per-item image slot (`set_item_image`, `set_item_image_failed`).
 *
 * The worker threads and `root.after` callbacks become explicit completion
 * methods that run one at a time: `PageArrived` and `FetchRaised` finish a
 * search request, `ImageWorkerDone` finishes an icon download. Widgets,
 * message boxes and the status line are not modelled.
 */
module Gui {
  import opened Wrappers
  import opened Text
  import opened Icons

  /** Hits requested per page (gui.py:323). */
  const PageSize: nat := 20

  // ---------------------------------------------------------------------------
  // Pagination, as values
  // ---------------------------------------------------------------------------

  /** The fields `current_query`, `current_loader`, `current_offset`, `is_loading`, `has_more`, `search_results`. */
  datatype Pagination = Pagination(
    query: string,
    loader: string,
    offset: int,
    loading: bool,
    hasMore: bool,
    results: seq<ModHit>)

  /** The state after `__init__` (gui.py:34-43). */
  const Initial: Pagination := Pagination("", "neoforge", 0, false, true, [])

  /** A request's new state, and whether it started a fetch worker. */
  datatype Step = Step(state: Pagination, fetch: bool)

  /** The offset counts exactly the results held. */
  predicate Consistent(p: Pagination) {
    p.offset == |p.results|
  }

  /** What a "load more" request needs: a previous search, no fetch under way, more to fetch. */
  predicate CanLoadMore(p: Pagination) {
    p.query != "" && !p.loading && p.hasMore
  }

  /** `search_mods(load_more=True)` (gui.py:287-295, 315). */
  function LoadMoreRequested(p: Pagination): (s: Step)
    ensures s.fetch <==> CanLoadMore(p)
    ensures !s.fetch ==> s.state == p
    ensures s.fetch ==> s.state == p.(loading := true)
  {
    if p.query == "" then Step(p, false)
    else if p.loading || !p.hasMore then Step(p, false)
    else Step(p.(loading := true), true)
  }

  /**
   * `search_mods(load_more=False)` with the entry text `entry` and the chosen
   * loader (gui.py:296-315). It does not look at `is_loading`.
   */
  function NewSearchRequested(p: Pagination, entry: string, loader: string): (s: Step)
    ensures s.fetch <==> Strip(entry) != ""
    ensures !s.fetch ==> s.state == p
    ensures s.fetch ==> s.state == Pagination(Strip(entry), loader, 0, true, true, [])
  {
    var query := Strip(entry);
    if query == "" then Step(p, false)
    else Step(Pagination(query, loader, 0, true, true, []), true)
  }

  /** `search_mods(load_more)` (gui.py:284-339). */
  function SearchRequested(p: Pagination, loadMore: bool, entry: string, loader: string): Step {
    if loadMore then LoadMoreRequested(p) else NewSearchRequested(p, entry, loader)
  }

  /**
   * A search request either changes nothing or marks a fetch under way for a
   * non-empty query, keeping the held results on "load more" and dropping
   * them on a new search; "load more" never starts a second fetch.
   */
  lemma SearchOutcome(p: Pagination, loadMore: bool, entry: string, loader: string)
    ensures var s := SearchRequested(p, loadMore, entry, loader);
      && (!s.fetch ==> s.state == p)
      && (s.fetch ==> s.state.loading && s.state.query != "" && s.state.hasMore)
      && (s.fetch ==> s.state.results == if loadMore then p.results else [])
      && (s.fetch && loadMore ==> !p.loading)
  {
  }

  /**
   * `append_search_results(results, has_more)` on the pagination fields
   * (gui.py:372-399): the hits are appended and the offset advanced by their
   * number; `has_more` is taken over except on an empty first page, which
   * only clears `is_loading`.
   */
  function ResultsAppended(p: Pagination, hits: seq<ModHit>, hasMore: bool): (r: Pagination)
    ensures r.results == p.results + hits
    ensures r.offset - |r.results| == p.offset - |p.results|
    ensures !r.loading && r.query == p.query && r.loader == p.loader
    ensures r.hasMore == if hits == [] && p.results == [] then p.hasMore else hasMore
  {
    if hits == [] && |p.results| == 0 then
      p.(loading := false)
    else
      p.(results := p.results + hits, offset := p.offset + |hits|, hasMore := hasMore, loading := false)
  }

  /**
   * The worker's success path: `has_more` from the offset before the append
   * (gui.py:320-330), so with a consistent offset more is announced exactly
   * when fewer than `total` results are then held.
   */
  function PageReceived(p: Pagination, hits: seq<ModHit>, total: int): (r: Pagination)
    ensures r.results == p.results + hits && !r.loading
    ensures Consistent(p) && (hits != [] || p.results != []) ==> (r.hasMore <==> |r.results| < total)
  {
    ResultsAppended(p, hits, p.offset + |hits| < total)
  }

  /** The worker's exception path: only `is_loading` is cleared (gui.py:333-337). */
  function FetchFailed(p: Pagination): (r: Pagination)
    ensures !r.loading && r.(loading := p.loading) == p
  {
    p.(loading := false)
  }

  /**
   * `check_scroll_load_more` with the scroll test `bottom >= 0.9` as
   * `nearBottom` (gui.py:777-796): a page is requested exactly when the view
   * is near the bottom and a "load more" request would start one.
   */
  function ScrollChecked(p: Pagination, nearBottom: bool): (s: Step)
    ensures s.fetch <==> nearBottom && CanLoadMore(p)
    ensures !s.fetch ==> s.state == p
    ensures s.fetch ==> s.state == p.(loading := true)
  {
    if p.query == "" then Step(p, false)
    else if !p.hasMore || p.loading then Step(p, false)
    else if nearBottom then LoadMoreRequested(p)
    else Step(p, false)
  }

  /**
   * The scroll check applies the same guard as "load more": it requests a
   * page exactly when a "load more" request would start one and the view is
   * near the bottom, and otherwise changes nothing.
   */
  lemma ScrollMatchesLoadMore(p: Pagination, nearBottom: bool)
    ensures ScrollChecked(p, nearBottom) == if nearBottom then LoadMoreRequested(p) else Step(p, false)
    ensures ScrollChecked(p, nearBottom).fetch <==> nearBottom && CanLoadMore(p)
  {
  }

  /** A new search is refused, changing nothing, exactly when the entry is blank. */
  lemma BlankSearchRejected(p: Pagination, entry: string, loader: string)
    ensures NewSearchRequested(p, entry, loader) == Step(p, false)
      <==> forall k :: 0 <= k < |entry| ==> IsSpace(entry[k])
  {
    StripEmptyIffBlank(entry);
  }

  /** Every request and completion keeps `current_offset == len(search_results)`. */
  lemma StepsKeepConsistent(p: Pagination, loadMore: bool, entry: string, loader: string,
                            hits: seq<ModHit>, hasMore: bool, total: int, nearBottom: bool)
    requires Consistent(p)
    ensures Consistent(SearchRequested(p, loadMore, entry, loader).state)
    ensures Consistent(ResultsAppended(p, hits, hasMore))
    ensures Consistent(PageReceived(p, hits, total))
    ensures Consistent(FetchFailed(p))
    ensures Consistent(ScrollChecked(p, nearBottom).state)
  {
  }

  /**
   * A page that brings hits, or any page after the first, appends the hits in
   * order, advances the offset by their number, clears `is_loading`, and
   * leaves `has_more` true exactly when fewer than `total` results are held.
   */
  lemma PageReceivedAppends(p: Pagination, hits: seq<ModHit>, total: int)
    requires Consistent(p)
    requires hits != [] || p.results != []
    ensures var r := PageReceived(p, hits, total);
      && r.results == p.results + hits
      && r.offset == p.offset + |hits|
      && !r.loading
      && (r.hasMore <==> |r.results| < total)
      && r.query == p.query && r.loader == p.loader
  {
  }

  /**
   * An empty first page only clears `is_loading`: `has_more` stays as it was
   * (true after a new search), so a later "load more" may ask again.
   */
  lemma EmptyFirstPage(p: Pagination, total: int)
    requires p.results == []
    ensures PageReceived(p, [], total) == p.(loading := false)
    ensures FetchFailed(p) == PageReceived(p, [], total)
  {
  }

  /** Pages of 20, 20 and 5 hits against a total of 45: 20, 40 and 45 results, then no more. */
  lemma FortyFiveInPages(p: Pagination, entry: string, loader: string, h1: seq<ModHit>, h2: seq<ModHit>, h3: seq<ModHit>)
    requires Strip(entry) != ""
    requires |h1| == PageSize && |h2| == PageSize && |h3| == 5
    ensures var s0 := NewSearchRequested(p, entry, loader);
      var s1 := PageReceived(s0.state, h1, 45);
      var l1 := LoadMoreRequested(s1);
      var s2 := PageReceived(l1.state, h2, 45);
      var l2 := LoadMoreRequested(s2);
      var s3 := PageReceived(l2.state, h3, 45);
      && s0.fetch && l1.fetch && l2.fetch
      && |s1.results| == 20 && s1.hasMore
      && |s2.results| == 40 && s2.hasMore
      && |s3.results| == 45 && !s3.hasMore
      && s3.results == h1 + h2 + h3
      && !LoadMoreRequested(s3).fetch
  {
  }

  // ---------------------------------------------------------------------------
  // The image slot, as values
  // ---------------------------------------------------------------------------

  /** A photo handed to a slot: a downloaded image (an opaque token) or the grey placeholder. */
  datatype Image = Loaded(photo: nat) | PlaceholderImage

  /** What a slot shows. */
  datatype SlotState = Unset | Placeholder | Real(photo: nat)

  /** A completion delivered to a slot. */
  datatype SlotEvent = ImageArrived(photo: nat) | ImageFailed

  /** `set_item_image` (gui.py:562-592): anything but a real image is replaced. */
  function OnImage(s: SlotState, photo: nat): (r: SlotState)
    ensures r.Real?
    ensures s.Real? ==> r == s
    ensures !s.Real? ==> r.photo == photo
  {
    if s.Real? then s else Real(photo)
  }

  /** `set_item_image_failed` (gui.py:594-625): only an unset slot takes the placeholder. */
  function OnFailed(s: SlotState): (r: SlotState)
    ensures r != Unset
    ensures s != Unset ==> r == s
  {
    if s == Unset then Placeholder else s
  }

  function Apply(s: SlotState, e: SlotEvent): SlotState {
    match e
    case ImageArrived(p) => OnImage(s, p)
    case ImageFailed => OnFailed(s)
  }

  /** The slot after the completions `events`, delivered in order. */
  function Run(s: SlotState, events: seq<SlotEvent>): SlotState
    decreases |events|
  {
    if events == [] then s else Run(Apply(s, events[0]), events[1..])
  }

  /** The photo of the first image that arrives, if any. */
  function FirstPhoto(events: seq<SlotEvent>): Option<nat> {
    if events == [] then None
    else if events[0].ImageArrived? then Some(events[0].photo)
    else FirstPhoto(events[1..])
  }

  /** A failure never overwrites an image, and a placeholder gives way to a real one. */
  lemma SlotTransitions(s: SlotState, photo: nat)
    ensures s != Unset ==> OnFailed(s) == s
    ensures OnFailed(Unset) == Placeholder
    ensures OnImage(Placeholder, photo) == Real(photo) && OnImage(Unset, photo) == Real(photo)
    ensures s.Real? ==> OnImage(s, photo) == s
  {
  }

  /** "Real" is absorbing: once a real image is shown, no completion changes the slot. */
  lemma {:induction false} RealAbsorbing(photo: nat, events: seq<SlotEvent>)
    ensures Run(Real(photo), events) == Real(photo)
  {
    if events != [] {
      RealAbsorbing(photo, events[1..]);
    }
  }

  lemma {:induction false} RunFromPlaceholder(events: seq<SlotEvent>)
    ensures Run(Placeholder, events) == if FirstPhoto(events).Some? then Real(FirstPhoto(events).value) else Placeholder
  {
    if events != [] {
      if events[0].ImageArrived? {
        RealAbsorbing(events[0].photo, events[1..]);
      } else {
        RunFromPlaceholder(events[1..]);
      }
    }
  }

  /**
   * From a fresh slot, the first image to arrive is the one shown for good;
   * with no image, a single failure leaves the placeholder; with neither the
   * slot stays unset.
   */
  lemma {:induction false} RunFromUnset(events: seq<SlotEvent>)
    ensures Run(Unset, events) ==
      if FirstPhoto(events).Some? then Real(FirstPhoto(events).value)
      else if ImageFailed in events then Placeholder
      else Unset
  {
    if events != [] {
      if events[0].ImageArrived? {
        RealAbsorbing(events[0].photo, events[1..]);
      } else {
        RunFromPlaceholder(events[1..]);
      }
      assert events == [events[0]] + events[1..];
    }
  }

  /**
   * The completion the `load_image` worker delivers (gui.py:497-518): the
   * downloaded image when there was an address and the download gave a photo,
   * the placeholder otherwise. (The worker's own `_image_set` test before
   * scheduling the placeholder is the one `set_item_image_failed` repeats.)
   */
  function WorkerEvent(url: Option<string>, loaded: Option<nat>): (e: SlotEvent)
    ensures e.ImageArrived? <==> url.Some? && loaded.Some?
  {
    if url.Some? && loaded.Some? then ImageArrived(loaded.value) else ImageFailed
  }

  /**
   * The `image_cache` after a completion reaches `item`, whose slot showed
   * `s`: each setter stores the photo it shows (gui.py:588, 625).
   */
  function CacheAfter(cache: map<ItemFrame, Image>, item: ItemFrame, s: SlotState, e: SlotEvent): map<ItemFrame, Image> {
    match e
    case ImageArrived(p) => if s.Real? then cache else cache[item := Loaded(p)]
    case ImageFailed => if s == Unset then cache[item := PlaceholderImage] else cache
  }

  // ---------------------------------------------------------------------------
  // The tiles one page makes
  // ---------------------------------------------------------------------------

  /**
   * A hit `create_mod_item` can finish: it subscripts `mod['title']` and
   * `mod['slug']` (gui.py:532, 537), so a hit lacking either key raises
   * `KeyError` after its tile is placed and its icon handling started.
   */
  predicate Complete(h: ModHit) {
    h.title.Some? && h.slug.Some?
  }

  /** Some hit lacks a key `create_mod_item` subscripts. */
  predicate AnyIncomplete(hits: seq<ModHit>) {
    exists k :: 0 <= k < |hits| && !Complete(hits[k])
  }

  /**
   * The tiles the loop of `append_search_results` (gui.py:406-407) places
   * before the first `KeyError` ends it: every hit up to and including the
   * first incomplete one.
   */
  function TilesMade(hits: seq<ModHit>): (n: nat)
    ensures n <= |hits|
    ensures forall k :: 0 <= k < n - 1 ==> Complete(hits[k])
    ensures n < |hits| ==> 0 < n && !Complete(hits[n - 1])
    ensures !AnyIncomplete(hits) ==> n == |hits|
  {
    if hits == [] then 0
    else if !Complete(hits[0]) then 1
    else 1 + TilesMade(hits[1..])
  }

  /**
   * A loop that stops after `n` hits, all but the last of them complete, and
   * stops early exactly when that last one is incomplete, has made
   * `TilesMade(hits)` tiles, and has met an incomplete hit exactly when there
   * is one.
   */
  lemma {:induction false} TilesMadeStops(hits: seq<ModHit>, n: nat, stopped: bool)
    requires n <= |hits|
    requires forall k :: 0 <= k < n - 1 ==> Complete(hits[k])
    requires stopped <==> 0 < n && !Complete(hits[n - 1])
    requires !stopped ==> n == |hits|
    ensures TilesMade(hits) == n
    ensures stopped <==> AnyIncomplete(hits)
  {
    if hits != [] {
      if !Complete(hits[0]) {
        assert n == 1;
      } else {
        assert hits[1..][..] == hits[1..];
        TilesMadeStops(hits[1..], n - 1, stopped);
        if !stopped {
          assert !AnyIncomplete(hits);
        }
      }
    }
  }

  // ---------------------------------------------------------------------------
  // The objects
  // ---------------------------------------------------------------------------

  /**
   * A result tile: its hit, the position `index` it was created for, its grid
   * cell, and the flags `_image_set`, `_is_placeholder`, `_photo_ref`.
   */
  class ItemFrame {
    const hit: ModHit
    const index: nat
    const row: nat
    const col: nat
    var imageSet: bool
    var isPlaceholder: bool
    var photoRef: Option<Image>

    /** The flag combinations the two setters can produce. */
    ghost predicate Valid()
      reads this
    {
      || (!imageSet && !isPlaceholder && photoRef == None)
      || (imageSet && isPlaceholder && photoRef == Some(PlaceholderImage))
      || (imageSet && !isPlaceholder && photoRef.Some? && photoRef.value.Loaded?)
    }

    /** The three-state reading of the flags. */
    function Slot(): SlotState
      reads this
    {
      if !imageSet then Unset
      else if isPlaceholder then Placeholder
      else match photoRef
        case Some(Loaded(p)) => Real(p)
        case _ => Unset
    }

    /** The tile for the hit at position `index` (gui.py:444-470). */
    constructor(hit: ModHit, index: nat)
      ensures this.hit == hit && this.index == index && (row, col) == GridCell(index)
      ensures Valid() && Slot() == Unset
    {
      this.hit := hit;
      this.index := index;
      row := index / 2;
      col := index % 2;
      imageSet := false;
      isPlaceholder := false;
      photoRef := None;
    }
  }

  /**
   * The hit yields a truthy icon address or identifier, so its tile starts
   * the `load_image` worker rather than taking the placeholder at once
   * (gui.py:522-526); `ModIconUrl` is truthy exactly then.
   */
  predicate IconSource(h: ModHit) {
    Truthy(h.iconUrl) || Truthy(h.slug) || Truthy(h.projectId) || Truthy(h.id)
  }

  /** The cache entries of the tiles among `tiles` that got the placeholder straight away. */
  function PlaceholderEntries(tiles: seq<ItemFrame>): map<ItemFrame, Image> {
    map t | t in tiles && !IconSource(t.hit) :: PlaceholderImage
  }

  lemma PlaceholderEntriesAppend(tiles: seq<ItemFrame>, t: ItemFrame)
    ensures PlaceholderEntries(tiles + [t]) ==
      if IconSource(t.hit) then PlaceholderEntries(tiles) else PlaceholderEntries(tiles)[t := PlaceholderImage]
  {
  }

  lemma MapUnionUpdate<K, V>(a: map<K, V>, b: map<K, V>, k: K, v: V)
    ensures (a + b)[k := v] == a + b[k := v]
  {
  }

  /**
   * Every tile was made for a position below `n` and shows the result at
   * that position in that position's cell; tiles come in position order.
   */
  ghost predicate TilesPlaced(tiles: seq<ItemFrame>, results: seq<ModHit>, n: int) {
    && (forall i :: 0 <= i < |tiles| ==>
          && tiles[i].index < n && tiles[i].index < |results|
          && tiles[i].hit == results[tiles[i].index]
          && (tiles[i].row, tiles[i].col) == GridCell(tiles[i].index))
    && Increasing(Positions(tiles))
  }

  /** The positions the tiles were made for, in tile order. */
  ghost function Positions(tiles: seq<ItemFrame>): seq<int> {
    seq(|tiles|, i requires 0 <= i < |tiles| => tiles[i].index)
  }

  ghost predicate Increasing(s: seq<int>) {
    forall i, j :: 0 <= i < j < |s| ==> s[i] < s[j]
  }

  /** One tile per result, tile `i` made for result `i`: what a run without `KeyError` leaves. */
  ghost predicate TilesDense(tiles: seq<ItemFrame>, results: seq<ModHit>) {
    |tiles| == |results| && forall i :: 0 <= i < |tiles| ==> tiles[i].index == i
  }

  /** The tiles `tiles` were made for `hits`, in order, from position `start` on. */
  ghost predicate TilesFor(tiles: seq<ItemFrame>, hits: seq<ModHit>, start: nat) {
    && |tiles| <= |hits|
    && forall k :: 0 <= k < |tiles| ==>
         tiles[k].hit == hits[k] && tiles[k].index == start + k && (tiles[k].row, tiles[k].col) == GridCell(start + k)
  }

  /** The tiles' image slots as `create_mod_item` leaves them: the placeholder when the hit gives no address or identifier. */
  ghost predicate JustMade(tiles: seq<ItemFrame>)
    reads tiles
  {
    forall k :: 0 <= k < |tiles| ==> tiles[k].Valid() && tiles[k].Slot() == (if IconSource(tiles[k].hit) then Unset else Placeholder)
  }

  /** Tiles made for hits appended to the held results keep the tiles placed. */
  lemma TilesPlacedConcat(tiles: seq<ItemFrame>, added: seq<ItemFrame>, held: seq<ModHit>, hits: seq<ModHit>)
    requires TilesPlaced(tiles, held, |held|)
    requires TilesFor(added, hits, |held|)
    ensures TilesPlaced(tiles + added, held + hits, |held + hits|)
  {
    var results := held + hits;
    var s := tiles + added;
    forall i | 0 <= i < |s|
      ensures s[i].index < |results| && s[i].hit == results[s[i].index]
      ensures (s[i].row, s[i].col) == GridCell(s[i].index)
    {
      if i < |tiles| { assert s[i] == tiles[i]; } else { assert s[i] == added[i - |tiles|]; }
    }
    var ps, pt := Positions(s), Positions(tiles);
    forall i, j | 0 <= i < j < |ps|
      ensures ps[i] < ps[j]
    {
      if j < |tiles| {
        assert s[i] == tiles[i] && s[j] == tiles[j];
        assert ps[i] == pt[i] && ps[j] == pt[j];
      } else if i < |tiles| {
        assert s[i] == tiles[i] && s[j] == added[j - |tiles|];
      } else {
        assert s[i] == added[i - |tiles|] && s[j] == added[j - |tiles|];
      }
    }
  }

  lemma TilesForAppend(tiles: seq<ItemFrame>, hits: seq<ModHit>, start: nat, t: ItemFrame)
    requires TilesFor(tiles, hits, start) && |tiles| < |hits|
    requires t.hit == hits[|tiles|] && t.index == start + |tiles| && (t.row, t.col) == GridCell(start + |tiles|)
    ensures TilesFor(tiles + [t], hits, start)
  {
  }

  lemma JustMadeAppend(tiles: seq<ItemFrame>, t: ItemFrame)
    requires JustMade(tiles) && JustMade([t])
    ensures JustMade(tiles + [t])
  {
  }

  /** A dense row of tiles followed by one tile per appended result is dense again. */
  lemma TilesDenseAppend(tiles: seq<ItemFrame>, added: seq<ItemFrame>, results: seq<ModHit>, hits: seq<ModHit>)
    requires TilesDense(tiles, results)
    requires TilesFor(added, hits, |results|) && |added| == |hits|
    ensures TilesDense(tiles + added, results + hits)
  {
    var s := tiles + added;
    forall i | 0 <= i < |s|
      ensures s[i].index == i
    {
      if i < |tiles| { assert s[i] == tiles[i]; } else { assert s[i] == added[i - |tiles|]; }
    }
  }

  /** The search window's pagination fields, result tiles and image cache. */
  class SearchWindow {
    var currentQuery: string
    var currentLoader: string
    var currentOffset: int
    var isLoading: bool
    var hasMore: bool
    var searchResults: seq<ModHit>
    /** The tiles in the results container, in creation order. */
    var items: seq<ItemFrame>
    /** `image_cache`, keyed by tile rather than by `id(tile)`. */
    var imageCache: map<ItemFrame, Image>

    function Pager(): Pagination
      reads this`currentQuery, this`currentLoader, this`currentOffset, this`isLoading, this`hasMore, this`searchResults
    {
      Pagination(currentQuery, currentLoader, currentOffset, isLoading, hasMore, searchResults)
    }

    ghost predicate Placed()
      reads this`items, this`searchResults
    {
      TilesPlaced(items, searchResults, |searchResults|)
    }

    ghost predicate Dense()
      reads this`items, this`searchResults
    {
      TilesDense(items, searchResults)
    }

    constructor()
      ensures Pager() == Initial && Placed() && Dense()
      ensures items == [] && imageCache == map[]
    {
      currentQuery := "";
      currentLoader := "neoforge";
      currentOffset := 0;
      isLoading := false;
      hasMore := true;
      searchResults := [];
      items := [];
      imageCache := map[];
    }

    /**
     * `search_mods` (gui.py:284-339); `fetch` tells whether a worker was
     * started. A new search destroys the tiles and clears the image cache.
     */
    method SearchMods(loadMore: bool, entry: string, loader: string) returns (fetch: bool)
      requires Placed()
      modifies this
      ensures loadMore ==> var s := LoadMoreRequested(old(Pager()));
        Pager() == s.state && fetch == s.fetch
      ensures !loadMore ==> var s := NewSearchRequested(old(Pager()), entry, loader);
        Pager() == s.state && fetch == s.fetch
      ensures Placed() && (old(Dense()) ==> Dense())
      ensures fetch && !loadMore ==> items == [] && imageCache == map[]
      ensures !(fetch && !loadMore) ==> items == old(items) && imageCache == old(imageCache)
    {
      if loadMore {
        fetch := LoadMore();
      } else {
        fetch := NewSearch(entry, loader);
      }
    }

    /** The "load more" half of `search_mods` (gui.py:287-295, 315): only `is_loading` may change. */
    method LoadMore() returns (fetch: bool)
      modifies this`isLoading
      ensures var s := LoadMoreRequested(old(Pager()));
        Pager() == s.state && fetch == s.fetch
    {
      if currentQuery == "" {
        return false;
      }
      if isLoading || !hasMore {
        return false;
      }
      isLoading := true;
      fetch := true;
    }

    /** The new-search half of `search_mods` (gui.py:296-315): it also drops the tiles and the cache. */
    method NewSearch(entry: string, loader: string) returns (fetch: bool)
      modifies this`currentQuery, this`currentLoader, this`currentOffset, this`isLoading, this`hasMore,
        this`searchResults, this`items, this`imageCache
      ensures var s := NewSearchRequested(old(Pager()), entry, loader);
        Pager() == s.state && fetch == s.fetch
      ensures fetch ==> items == [] && imageCache == map[]
      ensures !fetch ==> items == old(items) && imageCache == old(imageCache)
    {
      var query := Strip(entry);
      if query == "" {
        return false;
      }
      currentQuery := query;
      currentLoader := loader;
      currentOffset := 0;
      hasMore := true;
      searchResults := [];
      items := [];
      imageCache := map[];
      isLoading := true;
      fetch := true;
    }

    /**
     * `create_mod_item(mod, index)` (gui.py:442-537): the tile is placed and
     * its icon worker started, or the placeholder set, before the title and
     * slug are read; `ok` is false when that read raises `KeyError`.
     */
    method CreateModItem(mod: ModHit, index: nat) returns (item: ItemFrame, ok: bool)
      modifies this`imageCache
      ensures fresh(item) && item.hit == mod && item.index == index && (item.row, item.col) == GridCell(index)
      ensures item.Valid()
      ensures item.Slot() == if IconSource(mod) then Unset else Placeholder
      ensures imageCache == if IconSource(mod) then old(imageCache) else old(imageCache)[item := PlaceholderImage]
      ensures ok <==> Complete(mod)
    {
      item := new ItemFrame(mod, index);
      var urlOrId := ModIconUrl(mod);
      if !Truthy(urlOrId) {
        SetItemImageFailed(item);
      }
      ok := mod.title.Some? && mod.slug.Some?;
    }

    /**
     * `append_search_results(results, has_more)` (gui.py:372-420). The
     * pagination fields are updated before any tile is made; `raised` tells
     * that a hit without `title` or `slug` ended the tile loop, after which
     * the remaining hits are held but get no tile.
     */
    method AppendSearchResults(results: seq<ModHit>, more: bool) returns (raised: bool)
      requires Placed()
      modifies this
      ensures Pager() == ResultsAppended(old(Pager()), results, more)
      ensures Placed()
      ensures raised <==> AnyIncomplete(results)
      ensures |items| == old(|items|) + TilesMade(results) && items[..old(|items|)] == old(items)
      ensures TilesFor(items[old(|items|)..], results, old(|searchResults|))
      ensures forall i :: old(|items|) <= i < |items| ==> fresh(items[i])
      ensures JustMade(items[old(|items|)..])
      ensures imageCache == old(imageCache) + PlaceholderEntries(items[old(|items|)..])
      ensures old(Dense()) && !raised ==> Dense()
    {
      var startIndex := |searchResults|;
      ghost var before, held := items, searchResults;
      AdvancePager(results, more);
      if results == [] && startIndex == 0 {
        assert items[|items|..] == [];
        return false;
      }
      raised := CreateModItems(results, startIndex);
      ghost var added := items[|before|..];
      assert items == items[..|before|] + added;
      TilesPlacedConcat(before, added, held, results);
      if TilesDense(before, held) && !raised {
        TilesDenseAppend(before, added, held, results);
      }
    }

    /** The pagination fields of `append_search_results` (gui.py:374-399). */
    method AdvancePager(results: seq<ModHit>, more: bool)
      modifies this`currentOffset, this`isLoading, this`hasMore, this`searchResults
      ensures Pager() == ResultsAppended(old(Pager()), results, more)
    {
      if results == [] && |searchResults| == 0 {
        isLoading := false;
        return;
      }
      searchResults := searchResults + results;
      currentOffset := currentOffset + |results|;
      hasMore := more;
      isLoading := false;
    }

    /**
     * The loop of `append_search_results` (gui.py:405-407): the hit `k` gets
     * a tile for position `startIndex + k`, until one raises. Nothing reads
     * the results container while the loop runs, so the tiles made, the
     * raising one included, are attached to `items` together at the end.
     */
    method CreateModItems(results: seq<ModHit>, startIndex: nat) returns (raised: bool)
      modifies this`items, this`imageCache
      ensures raised <==> AnyIncomplete(results)
      ensures |items| == old(|items|) + TilesMade(results) && items[..old(|items|)] == old(items)
      ensures TilesFor(items[old(|items|)..], results, startIndex)
      ensures forall i :: old(|items|) <= i < |items| ==> fresh(items[i])
      ensures JustMade(items[old(|items|)..])
      ensures imageCache == old(imageCache) + PlaceholderEntries(items[old(|items|)..])
    {
      var made: seq<ItemFrame> := [];
      var idx := 0;
      raised := false;
      while idx < |results| && !raised
        invariant 0 <= idx <= |results|
        invariant items == old(items) && |made| == idx
        invariant forall k :: 0 <= k < idx - 1 ==> Complete(results[k])
        invariant raised <==> 0 < idx && !Complete(results[idx - 1])
        invariant TilesFor(made, results, startIndex)
        invariant forall k :: 0 <= k < |made| ==> fresh(made[k])
        invariant JustMade(made)
        invariant imageCache == old(imageCache) + PlaceholderEntries(made)
      {
        var item, ok := CreateModItem(results[idx], startIndex + idx);
        PlaceholderEntriesAppend(made, item);
        MapUnionUpdate(old(imageCache), PlaceholderEntries(made), item, PlaceholderImage);
        TilesForAppend(made, results, startIndex, item);
        JustMadeAppend(made, item);
        made := made + [item];
        idx := idx + 1;
        raised := !ok;
      }
      items := items + made;
      assert items[|old(items)|..] == made;
      TilesMadeStops(results, idx, raised);
    }

    /** A search worker that got `hits` out of `total` (gui.py:320-330, then 372-420). */
    method PageArrived(hits: seq<ModHit>, total: int) returns (raised: bool)
      requires Placed()
      modifies this
      ensures Pager() == PageReceived(old(Pager()), hits, total)
      ensures Placed()
      ensures raised <==> AnyIncomplete(hits)
      ensures |items| == old(|items|) + TilesMade(hits) && items[..old(|items|)] == old(items)
      ensures TilesFor(items[old(|items|)..], hits, old(|searchResults|))
      ensures forall i :: old(|items|) <= i < |items| ==> fresh(items[i])
      ensures JustMade(items[old(|items|)..])
      ensures imageCache == old(imageCache) + PlaceholderEntries(items[old(|items|)..])
      ensures old(Dense()) && !raised ==> Dense()
    {
      var more := currentOffset + |hits| < total;
      raised := AppendSearchResults(hits, more);
    }

    /** A search worker that raised (gui.py:333-337). */
    method FetchRaised()
      modifies this`isLoading
      ensures Pager() == FetchFailed(old(Pager()))
    {
      isLoading := false;
    }

    /** `check_scroll_load_more` (gui.py:777-796). */
    method CheckScrollLoadMore(nearBottom: bool) returns (fetch: bool)
      requires Placed()
      modifies this
      ensures var s := ScrollChecked(old(Pager()), nearBottom);
        Pager() == s.state && fetch == s.fetch
      ensures Placed() && items == old(items) && imageCache == old(imageCache)
    {
      if currentQuery == "" {
        return false;
      }
      if !hasMore || isLoading {
        return false;
      }
      if nearBottom {
        fetch := SearchMods(true, "", "");
      } else {
        fetch := false;
      }
    }

    /** `set_item_image(item, photo)` (gui.py:562-592). */
    method SetItemImage(item: ItemFrame, photo: nat)
      requires item.Valid()
      modifies item, this`imageCache
      ensures item.Valid()
      ensures item.Slot() == OnImage(old(item.Slot()), photo)
      ensures imageCache == CacheAfter(old(imageCache), item, old(item.Slot()), ImageArrived(photo))
    {
      if item.imageSet {
        if !item.isPlaceholder {
          return;
        }
      }
      item.photoRef := Some(Loaded(photo));
      item.imageSet := true;
      item.isPlaceholder := false;
      imageCache := imageCache[item := Loaded(photo)];
    }

    /** `set_item_image_failed(item)` (gui.py:594-625). */
    method SetItemImageFailed(item: ItemFrame)
      requires item.Valid()
      modifies item, this`imageCache
      ensures item.Valid()
      ensures item.Slot() == OnFailed(old(item.Slot()))
      ensures imageCache == CacheAfter(old(imageCache), item, old(item.Slot()), ImageFailed)
    {
      if item.imageSet {
        return;
      }
      item.photoRef := Some(PlaceholderImage);
      item.imageSet := true;
      item.isPlaceholder := true;
      imageCache := imageCache[item := PlaceholderImage];
    }

    /**
     * The `load_image` worker of a tile whose hit yields a truthy address or
     * identifier, and the callback it schedules (gui.py:473-523). `lookup` is
     * what the project lookup returned, `loaded` what the download returned.
     */
    method ImageWorkerDone(item: ItemFrame, lookup: Option<Option<string>>, loaded: Option<nat>)
      requires item.Valid() && Truthy(ModIconUrl(item.hit))
      modifies item, this`imageCache
      ensures var e := WorkerEvent(ResolveIconUrl(ModIconUrl(item.hit).value, lookup), loaded);
        && item.Valid()
        && item.Slot() == Apply(old(item.Slot()), e)
        && imageCache == CacheAfter(old(imageCache), item, old(item.Slot()), e)
    {
      var url := ResolveIconUrl(ModIconUrl(item.hit).value, lookup);
      if url.Some? {
        if loaded.Some? {
          SetItemImage(item, loaded.value);
        } else if !item.imageSet {
          SetItemImageFailed(item);
        }
      } else if !item.imageSet {
        SetItemImageFailed(item);
      }
    }
  }
}
