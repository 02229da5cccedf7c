/** The grid side of `render` and `makeItemNode`: which items each grid
    container shows, and the abstract tile each item becomes. The document
    nodes themselves are not modelled, only what they carry. */
module Grid {

  import opened Items
  import YouTube

  /** What a tile displays. */
  datatype Media =
    | ImageMedia(src: string, alt: string)
    | VideoMedia(src: string, poster: Option<string>)
    | YouTubeMedia(thumbnail: string, alt: string)
    | NoMedia    // an unrecognised type: an empty tile

  /** One tile: its size class, what it shows, and the viewer index a click on
      it opens (None: the tile has no click handler). */
  datatype Tile = Tile(spanClass: string, media: Media, opens: Option<nat>)

  const SpanDouble: string := "span-2x2"
  /** The thumbnail's alt text when the item has none. */
  const DefaultYouTubeAlt: string := "YouTube video"
  const SpanSingle: string := "span-1x1"

  function SpanClass(span: string): (c: string)
    ensures c == SpanDouble <==> span == "2x2"
    ensures c == SpanSingle <==> span != "2x2"
  {
    if span == "2x2" then SpanDouble else SpanSingle
  }

  /** `makeItemNode(item, index)`. */
  function TileOf(item: Item, index: nat): (t: Tile)
    ensures t.spanClass == SpanClass(item.span)
    ensures t.opens.Some? <==> IsKnownKind(item.kind)
    ensures t.opens.Some? ==> t.opens.value == index
    ensures t.media.NoMedia? <==> !IsKnownKind(item.kind)
    // each known type gets its own kind of media, made from the item's source
    ensures item.kind == ImageKind ==> t.media == ImageMedia(item.src, item.alt)
    ensures item.kind == VideoKind ==>
              t.media.VideoMedia? && t.media.src == item.src &&
              (t.media.poster.Some? <==> item.poster != "") &&
              (t.media.poster.Some? ==> t.media.poster.value == item.poster)
    ensures item.kind == YouTubeKind ==>
              t.media.YouTubeMedia? &&
              t.media.thumbnail == YouTube.ThumbnailUrl(YouTube.ExtractId(item.src)) &&
              t.media.alt != "" && (item.alt != "" ==> t.media.alt == item.alt) &&
              (item.alt == "" ==> t.media.alt == DefaultYouTubeAlt)
  {
    var media :=
      if item.kind == ImageKind then ImageMedia(item.src, item.alt)
      else if item.kind == VideoKind then
        VideoMedia(item.src, if item.poster != "" then Some(item.poster) else None)
      else if item.kind == YouTubeKind then
        YouTubeMedia(YouTube.ThumbnailUrl(YouTube.ExtractId(item.src)),
                     if item.alt != "" then item.alt else DefaultYouTubeAlt)
      else NoMedia;
    Tile(SpanClass(item.span), media, if media.NoMedia? then None else Some(index))
  }

  /** `parseInt(container.dataset.limit) || n`: an absent or unparsable limit
      (None, JavaScript's NaN) and a zero limit both fall back to n. */
  function EffectiveLimit(limit: Option<int>, n: nat): (l: int)
    ensures limit == None || limit == Some(0) ==> l == n
    ensures limit.Some? && limit.value != 0 ==> l == limit.value
    // `||` yields a falsy value only when the length itself is 0
    ensures l == 0 ==> n == 0
  {
    match limit
    case None => n
    case Some(l) => if l == 0 then n else l
  }

  /** How many elements `slice(0, end)` keeps of a list of length n: a
      negative end counts from the back, and the end is clamped to [0, n]. */
  function SliceEnd(end: int, n: nat): (k: nat)
    ensures k <= n
    ensures 0 <= end ==> k == if end < n then end else n
    ensures end < 0 ==> k == if n + end < 0 then 0 else n + end
  {
    if end < 0 then (if n + end < 0 then 0 else n + end)
    else if end < n then end else n
  }

  /** Number of items a container with this limit renders out of n. */
  function RenderCount(limit: Option<int>, n: nat): (k: nat)
    ensures k <= n
    ensures limit == None || limit == Some(0) ==> k == n
    ensures limit.Some? && 0 < limit.value <= n ==> k == limit.value
    ensures limit.Some? && limit.value > n ==> k == n
    // a negative limit counts from the back of the list, as `slice` does
    ensures limit.Some? && limit.value < 0 ==>
              k == if n + limit.value < 0 then 0 else n + limit.value
  {
    SliceEnd(EffectiveLimit(limit, n), n)
  }

  /** The tiles of one container, in order. */
  function GridOf(items: seq<Item>, limit: Option<int>): (g: seq<Tile>)
    ensures |g| == RenderCount(limit, |items|) && |g| <= |items|
    ensures forall i :: 0 <= i < |g| ==> g[i] == TileOf(items[i], i)
  {
    var k := RenderCount(limit, |items|);
    seq(k, i requires 0 <= i < k => TileOf(items[i], i))
  }

  /** The loop of `render` that fills one container. */
  method BuildGrid(items: seq<Item>, limit: Option<int>) returns (tiles: seq<Tile>)
    ensures tiles == GridOf(items, limit)
  {
    var toRender := items[..RenderCount(limit, |items|)];
    tiles := [];
    var idx := 0;
    while idx < |toRender|
      invariant 0 <= idx <= |toRender|
      invariant |tiles| == idx
      invariant forall i :: 0 <= i < idx ==> tiles[i] == TileOf(toRender[i], i)
    {
      tiles := tiles + [TileOf(toRender[idx], idx)];
      idx := idx + 1;
    }
  }

  /** Every container shows a prefix of the full grid: the items in their
      original order, each at its own position. */
  lemma GridIsPrefix(items: seq<Item>, limit: Option<int>)
    ensures GridOf(items, limit) <= GridOf(items, None)
    ensures |GridOf(items, None)| == |items|
  {
  }

  /** A click on tile k of any container opens viewer index k, which is a
      valid index of the full list; the tile was made from item k. */
  lemma GridOpensInRange(items: seq<Item>, limit: Option<int>, k: nat)
    requires k < |GridOf(items, limit)|
    ensures k < |items|
    ensures GridOf(items, limit)[k] == TileOf(items[k], k)
    ensures GridOf(items, limit)[k].opens.Some? ==> GridOf(items, limit)[k].opens.value == k
  {
  }

  /** A container whose positive limit is below the list length renders
      exactly that many tiles. */
  lemma GridHonoursLimit(items: seq<Item>, l: int)
    requires 0 < l <= |items|
    ensures |GridOf(items, Some(l))| == l
  {
  }

  /** A grid container as the page declares it: an optional feed address
      (`data-source`, empty when absent) and an optional parsed `data-limit`. */
  datatype Container = Container(source: string, limit: Option<int>)

  const DefaultFeed: string := "/assets/gallery.json"

  /** The feed is fetched once, from the first container's address. */
  function FeedUrl(containers: seq<Container>): (url: string)
    requires |containers| > 0
    ensures containers[0].source != "" ==> url == containers[0].source
    ensures containers[0].source == "" ==> url == DefaultFeed
  {
    if containers[0].source != "" then containers[0].source else DefaultFeed
  }
}
