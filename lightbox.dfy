/** The modal viewer (lightbox): a singleton over the full item list with a
    current index, opened from a grid tile and driven by buttons and keys.

    The state-changing functions of the page script are specified here as
    pure steps on a ViewerState value; class Gallery below holds the same
    state in fields and its methods are proved to perform those steps.

    Closing takes effect at once: the script hides the viewer and clears its
    content 300 ms after `closeLightbox`, and this model has no clock. */
module Lightbox {

  import opened Items
  import YouTube
  import Grid
  import Actions

  /** What the viewer's content area shows. */
  datatype View =
    | ImageView(src: string, alt: string)
    | VideoView(src: string)
    | YouTubeView(embedUrl: string)
    | EmptyView   // an unrecognised type: an empty wrapper

  /** `updateLightboxContent` for one item. */
  function ViewOf(item: Item): (v: View)
    ensures v.EmptyView? <==> !IsKnownKind(item.kind)
    ensures v.ImageView? <==> item.kind == ImageKind
    ensures v.VideoView? <==> item.kind == VideoKind
    ensures v.YouTubeView? <==> item.kind == YouTubeKind
    ensures v.ImageView? ==> v.alt == item.alt
    ensures v.ImageView? ==> v.src == item.src
    ensures v.VideoView? ==> v.src == item.src
    ensures v.YouTubeView? ==> v.embedUrl == YouTube.EmbedUrl(YouTube.ExtractId(item.src))
  {
    if item.kind == ImageKind then ImageView(item.src, item.alt)
    else if item.kind == VideoKind then VideoView(item.src)
    else if item.kind == YouTubeKind then YouTubeView(YouTube.EmbedUrl(YouTube.ExtractId(item.src)))
    else EmptyView
  }

  /** The page script's module-level state: the fetched items, the current
      index, whether the viewer is visible, what its content area holds
      (None once cleared), whether page scrolling is disabled, and whether
      the viewer's buttons and key handler have been wired up. */
  datatype ViewerState = ViewerState(
    items: seq<Item>,
    index: int,
    visible: bool,
    content: Option<View>,
    scrollLocked: bool,
    wired: bool)

  /** The invariant every step keeps: the index is never negative, and lies
      inside the list whenever the list is non-empty. */
  predicate IndexInBounds(s: ViewerState) {
    0 <= s.index && (|s.items| > 0 ==> s.index < |s.items|)
  }

  /** The content area shows the current item. */
  predicate Showing(s: ViewerState) {
    0 <= s.index < |s.items| && s.content == Some(ViewOf(s.items[s.index]))
  }

  /** The state when the page has loaded and nothing has run yet. */
  function Initial(): (s: ViewerState)
    ensures IndexInBounds(s) && !s.visible && !s.wired && s.items == []
    ensures s.index == 0 && s.content == None && !s.scrollLocked
  {
    ViewerState([], 0, false, None, false, false)
  }

  /** `openLightbox(i)`: an index outside the list changes nothing. */
  function Open(s: ViewerState, i: int): (t: ViewerState)
    requires IndexInBounds(s)
    ensures IndexInBounds(t)
    ensures (i < 0 || i >= |s.items|) ==> t == s
    ensures 0 <= i < |s.items| ==>
              t.index == i && t.visible && t.scrollLocked && Showing(t) &&
              t.content == Some(ViewOf(s.items[i])) &&
              t.items == s.items && t.wired == s.wired
  {
    if i < 0 || i >= |s.items| then s
    else s.(index := i, content := Some(ViewOf(s.items[i])), visible := true, scrollLocked := true)
  }

  /** `closeLightbox`: hides the viewer, clears its content (which stops any
      playback) and gives scrolling back to the page. */
  function Close(s: ViewerState): (t: ViewerState)
    requires IndexInBounds(s)
    ensures IndexInBounds(t)
    ensures !t.visible && t.content == None && !t.scrollLocked
    ensures t.items == s.items && t.index == s.index && t.wired == s.wired
  {
    s.(visible := false, content := None, scrollLocked := false)
  }

  /** `showNext`: one step forward, wrapping from the last item to the first.
      Both operands of `%` are non-negative here, so JavaScript's remainder
      and Dafny's agree. */
  function Next(s: ViewerState): (t: ViewerState)
    requires IndexInBounds(s)
    ensures IndexInBounds(t)
    ensures |s.items| == 0 ==> t == s
    ensures |s.items| > 0 ==> Showing(t)
    ensures |s.items| > 0 && s.index < |s.items| - 1 ==> t.index == s.index + 1
    ensures |s.items| > 0 && s.index == |s.items| - 1 ==> t.index == 0
    ensures t.items == s.items && t.visible == s.visible && t.scrollLocked == s.scrollLocked && t.wired == s.wired
  {
    if |s.items| == 0 then s
    else
      var i := (s.index + 1) % |s.items|;
      WrapOnce(s.index + 1, |s.items|);
      s.(index := i, content := Some(ViewOf(s.items[i])))
  }

  /** `showPrev`: one step back, wrapping from the first item to the last. */
  function Prev(s: ViewerState): (t: ViewerState)
    requires IndexInBounds(s)
    ensures IndexInBounds(t)
    ensures |s.items| == 0 ==> t == s
    ensures |s.items| > 0 ==> Showing(t)
    ensures |s.items| > 0 && s.index > 0 ==> t.index == s.index - 1
    ensures |s.items| > 0 && s.index == 0 ==> t.index == |s.items| - 1
    ensures t.items == s.items && t.visible == s.visible && t.scrollLocked == s.scrollLocked && t.wired == s.wired
  {
    if |s.items| == 0 then s
    else
      var i := (s.index - 1 + |s.items|) % |s.items|;
      WrapOnce(s.index - 1 + |s.items|, |s.items|);
      s.(index := i, content := Some(ViewOf(s.items[i])))
  }

  const EscapeKey: string := "Escape"
  const LeftKey: string := "ArrowLeft"
  const RightKey: string := "ArrowRight"

  /** The keydown handler: nothing happens before it is installed or while
      the viewer is hidden; otherwise its three tests run one after another. */
  function Key(s: ViewerState, key: string): (t: ViewerState)
    requires IndexInBounds(s)
    ensures IndexInBounds(t)
    ensures !s.wired || !s.visible ==> t == s
    ensures s.wired && s.visible ==>
              t == (if key == EscapeKey then Close(s)
                    else if key == LeftKey then Prev(s)
                    else if key == RightKey then Next(s)
                    else s)
  {
    if !s.wired || !s.visible then s
    else
      var afterEscape := if key == EscapeKey then Close(s) else s;
      var afterLeft := if key == LeftKey then Prev(afterEscape) else afterEscape;
      if key == RightKey then Next(afterLeft) else afterLeft
  }

  /** `render` with the feed already fetched: nothing without containers or
      with a non-array feed; otherwise the list is stored and the viewer's
      controls are wired up. */
  function Load(s: ViewerState, containers: seq<Grid.Container>, feed: Feed): (t: ViewerState)
    requires IndexInBounds(s) && s.index == 0
    ensures IndexInBounds(t)
    ensures |containers| == 0 || feed.NotArray? ==> t == s
    ensures |containers| > 0 && !feed.NotArray? ==>
              t.wired && t.items == Loaded(feed).value && t.index == s.index && t.visible == s.visible &&
              t.content == s.content && t.scrollLocked == s.scrollLocked
  {
    if |containers| == 0 then s
    else match Loaded(feed)
      case None => s
      case Some(items) => s.(items := items, wired := true)
  }

  /** Going forward and then back (or back, then forward) returns to the same
      index, and to the same state when the viewer was showing the current
      item. */
  lemma NextPrevInverse(s: ViewerState)
    requires IndexInBounds(s)
    ensures Prev(Next(s)).index == s.index && Next(Prev(s)).index == s.index
    ensures Showing(s) ==> Prev(Next(s)) == s && Next(Prev(s)) == s
  {
  }

  /** n steps forward. */
  function NextN(s: ViewerState, n: nat): (t: ViewerState)
    requires IndexInBounds(s)
    ensures IndexInBounds(t)
    ensures t.items == s.items && t.visible == s.visible
  {
    if n == 0 then s else Next(NextN(s, n - 1))
  }

  /** n steps forward move the index by n around the list. */
  lemma {:induction false} NextNIndex(s: ViewerState, n: nat)
    requires IndexInBounds(s) && |s.items| > 0
    ensures NextN(s, n).index == (s.index + n) % |s.items|
  {
    if n > 0 {
      NextNIndex(s, n - 1);
      ModSucc(s.index + n - 1, |s.items|);
    }
  }

  /** The number of forward steps from the current index to index j. */
  function StepsTo(s: ViewerState, j: int): (k: nat)
    requires IndexInBounds(s) && 0 <= j < |s.items|
    ensures k < |s.items|
  {
    if j >= s.index then j - s.index else j - s.index + |s.items|
  }

  /** Within one lap, n steps forward add n to the index, less one length
      once the end of the list has been passed. */
  lemma {:induction false} NextNWithinLap(s: ViewerState, n: nat)
    requires IndexInBounds(s) && 0 < |s.items| && n <= |s.items|
    ensures NextN(s, n).index ==
              if s.index + n < |s.items| then s.index + n else s.index + n - |s.items|
  {
    if n > 0 {
      NextNWithinLap(s, n - 1);
    }
  }

  /** Stepping forward once per item returns to the starting index, and every
      index is reached on the way. */
  lemma FullCycle(s: ViewerState)
    requires IndexInBounds(s) && |s.items| > 0
    ensures NextN(s, |s.items|).index == s.index
    ensures forall j :: 0 <= j < |s.items| ==> NextN(s, StepsTo(s, j)).index == j
  {
    NextNWithinLap(s, |s.items|);
    forall j | 0 <= j < |s.items| ensures NextN(s, StepsTo(s, j)).index == j {
      NextNWithinLap(s, StepsTo(s, j));
    }
  }

  /** Arithmetic behind the wrap-around: Euclidean remainders are unique, so
      stepping a remainder by one is stepping the number by one. */
  lemma ModSucc(a: nat, len: nat)
    requires len > 0
    ensures ((a % len) + 1) % len == (a + 1) % len
  {
    var q, r := a / len, a % len;
    assert a == q * len + r;
    if r + 1 < len {
      ModUnique(a + 1, len, q, r + 1);
    } else {
      assert a + 1 == (q + 1) * len;
      ModUnique(a + 1, len, q + 1, 0);
    }
  }

  /** A number below two lengths wraps at most once. */
  lemma WrapOnce(a: nat, len: nat)
    requires 0 < len && a < 2 * len
    ensures a % len == if a < len then a else a - len
  {
    if a < len {
      ModUnique(a, len, 0, a);
    } else {
      ModUnique(a, len, 1, a - len);
    }
  }

  lemma ModUnique(a: int, len: nat, q: int, r: int)
    requires len > 0 && 0 <= r < len && a == q * len + r
    ensures a % len == r
  {
    var q', r' := a / len, a % len;
    assert a == q' * len + r';
    assert (q - q') * len == r' - r;
    if q > q' {
      MulAtLeast(q - q', len);
    } else if q < q' {
      assert (q' - q) * len == r - r';
      MulAtLeast(q' - q, len);
    }
  }

  lemma {:induction false} MulAtLeast(k: int, len: nat)
    requires k >= 1
    ensures k * len >= len
    decreases k
  {
    if k > 1 {
      MulAtLeast(k - 1, len);
      assert k * len == (k - 1) * len + len;
    }
  }

  /** A click on any tile of any container opens the viewer on the very item
      that tile was made from, although the viewer works over the whole list
      and the container may show only a prefix of it. */
  lemma TileClickShowsItsItem(s: ViewerState, limit: Option<int>, k: nat)
    requires IndexInBounds(s)
    requires k < |Grid.GridOf(s.items, limit)| && Grid.GridOf(s.items, limit)[k].opens.Some?
    ensures var t := Open(s, Grid.GridOf(s.items, limit)[k].opens.value);
            t.visible && t.index == k && t.content == Some(ViewOf(s.items[k])) &&
            Grid.GridOf(s.items, limit)[k] == Grid.TileOf(s.items[k], k)
  {
    Grid.GridOpensInRange(s.items, limit, k);
  }

  /** The walk-through of two items: open the first, go forward to the video,
      go forward again and wrap back to the image. */
  lemma TwoItemWalkThrough(s: ViewerState)
    requires IndexInBounds(s)
    requires s.items == [Item(ImageKind, "/a.jpg", "", "", ""), Item(VideoKind, "/b.mp4", "", "", "")]
    ensures var first := Open(s, 0);
            Next(first).index == 1 && Next(first).content == Some(VideoView("/b.mp4")) &&
            Next(Next(first)).index == 0 && Next(Next(first)).content == Some(ImageView("/a.jpg", ""))
  {
  }

  /** The page script's state, held in fields that its functions update. */
  class Gallery {
    var items: seq<Item>
    var index: int
    var visible: bool
    var content: Option<View>
    var scrollLocked: bool
    var wired: bool

    function State(): ViewerState
      reads this
    {
      ViewerState(items, index, visible, content, scrollLocked, wired)
    }

    predicate Valid()
      reads this
    {
      IndexInBounds(State())
    }

    constructor ()
      ensures Valid() && State() == Initial()
    {
      items, index, visible, content, scrollLocked, wired := [], 0, false, None, false, false;
    }

    method OpenLightbox(i: int)
      requires Valid()
      modifies this
      ensures Valid() && State() == Open(old(State()), i)
    {
      if i < 0 || i >= |items| {
        return;
      }
      index := i;
      content := Some(ViewOf(items[index]));
      visible := true;
      scrollLocked := true;
    }

    method CloseLightbox()
      requires Valid()
      modifies this
      ensures Valid() && State() == Close(old(State()))
    {
      visible := false;
      content := None;
      scrollLocked := false;
    }

    method ShowNext()
      requires Valid()
      modifies this
      ensures Valid() && State() == Next(old(State()))
    {
      if |items| == 0 {
        return;
      }
      index := (index + 1) % |items|;
      content := Some(ViewOf(items[index]));
    }

    method ShowPrev()
      requires Valid()
      modifies this
      ensures Valid() && State() == Prev(old(State()))
    {
      if |items| == 0 {
        return;
      }
      index := (index - 1 + |items|) % |items|;
      content := Some(ViewOf(items[index]));
    }

    method KeyDown(key: string)
      requires Valid()
      modifies this
      ensures Valid() && State() == Key(old(State()), key)
    {
      if !wired || !visible {
        return;
      }
      if key == EscapeKey {
        CloseLightbox();
      }
      if key == LeftKey {
        ShowPrev();
      }
      if key == RightKey {
        ShowNext();
      }
    }

    /** `render`: fetch the feed named by the first container (the fetch is
        the parameter `fetch`), keep the list, fill every container, and wire
        up the viewer. The result holds each container's tiles, or None when
        nothing was rendered. It runs once, at page load. */
    method Render(containers: seq<Grid.Container>, fetch: string -> Feed)
      returns (grids: Option<seq<seq<Grid.Tile>>>)
      requires Valid() && index == 0
      modifies this
      ensures Valid()
      ensures |containers| == 0 ==> State() == old(State()) && grids == None
      ensures |containers| > 0 ==> State() == Load(old(State()), containers, fetch(Grid.FeedUrl(containers)))
      ensures grids.Some? <==> |containers| > 0 && !fetch(Grid.FeedUrl(containers)).NotArray?
      ensures grids.Some? ==>
                |grids.value| == |containers| &&
                forall k :: 0 <= k < |containers| ==> grids.value[k] == Grid.GridOf(items, containers[k].limit)
    {
      if |containers| == 0 {
        return None;
      }
      var loaded := Loaded(fetch(Grid.FeedUrl(containers)));
      if loaded.None? {
        return None;
      }
      var list := loaded.value;
      var filled: seq<seq<Grid.Tile>> := [];
      var k := 0;
      while k < |containers|
        invariant 0 <= k <= |containers|
        invariant |filled| == k
        invariant forall c :: 0 <= c < k ==> filled[c] == Grid.GridOf(list, containers[c].limit)
        invariant State() == old(State())
      {
        var tiles := Grid.BuildGrid(list, containers[k].limit);
        filled := filled + [tiles];
        k := k + 1;
      }
      items := list;
      wired := true;
      grids := Some(filled);
    }

    /** `downloadCurrentItem`, given whether fetching the item's bytes
        succeeds. None: there is no current item, where the script fails on
        reading the type of `undefined`. */
    method DownloadCurrentItem(fetched: bool) returns (d: Option<Actions.Download>)
      requires Valid()
      ensures d.None? <==> |items| == 0
      ensures d.Some? ==> d.value == Actions.DownloadOf(items[index], fetched)
    {
      if |items| == 0 {
        return None;
      }
      d := Some(Actions.DownloadOf(items[index], fetched));
    }

    /** `shareCurrentItem` on a page at origin, given which of the browser's
        channels are available. None: there is no current item. */
    method ShareCurrentItem(origin: string, hasNativeShare: bool, clipboardWorks: bool)
      returns (s: Option<Actions.Share>)
      requires Valid()
      ensures s.None? <==> |items| == 0
      ensures s.Some? ==>
                s.value == Actions.ShareOf(Actions.ShareDataOf(items[index], origin), hasNativeShare, clipboardWorks)
    {
      if |items| == 0 {
        return None;
      }
      var data := Actions.ShareDataOf(items[index], origin);
      s := Some(Actions.ShareOf(data, hasNativeShare, clipboardWorks));
    }
  }
}
