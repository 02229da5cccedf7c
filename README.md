# Gallery loader: a verified model

The page script `assets/gallery-loader.js` fills the page's grid containers
(`.bento`) from one JSON feed of media items and drives a modal viewer (the
lightbox) over that list: open on a tile, step forward and back with wrap-around,
close, and download or share the current item. This project models the
parts of the script whose behaviour can be stated exactly, and proves what the
script promises about them:

- `items.dfy` (`Items`): a feed entry (`type`, `src`, `alt`, `poster`,
  `span`) and what fetching the feed can yield.
- `text.dfy` (`Text`): JavaScript's `split` with a one-character separator,
  with `join` as its inverse, and the two pieces of a split the script uses
  (the first one, the last one).
- `youtube.dfy` (`YouTube`): `extractYouTubeID`. The regular expression is
  written out as a left-to-right scan for the leftmost position where one of
  `youtube.com/watch?v=`, `youtube.com/embed/` or `youtu.be/` is followed by
  eleven characters of `[A-Za-z0-9_-]`.
- `actions.dfy` (`Actions`): the download file name, the share address and
  text, and which browser channel a share or download ends in.
- `grid.dfy` (`Grid`): how many items a container shows (`parseInt(limit) ||
  length` followed by `slice(0, limit)`), the abstract tile each item becomes,
  and the loop that fills one container.
- `lightbox.dfy` (`Lightbox`): the viewer. `ViewerState` holds the script's
  module-level state (items, current index, visibility, content, page scroll
  lock, whether the controls are wired). Each handler is specified as a pure
  step on that value. The class `Gallery` holds the same state in fields, and
  its methods are proved to perform those steps while keeping the invariant
  "a non-empty list has `0 <= index < |items|`".

Closing is modelled as taking effect at once. The script drops the page
scroll lock at once, but hides the viewer and clears its content only after a
300 ms timer. The model has no clock, so it applies all three at the moment
of closing.

Two behaviours of the script are easy to miss:
- An item of an unknown `type` still becomes a grid cell (a `div` with its
  span class, lines 25-26 and 73). It simply holds no media and has no click
  handler. The model's `NoMedia` tile with `opens == None` reflects this.
- Page scrolling comes back as soon as the viewer is closed (line 97), not
  after the fade-out delay.

## Model

| member | source | states |
|---|---|---|
| `Items.Loaded` | assets/gallery-loader.js:9-15 | a failed fetch continues as the empty list; only a non-array value stops rendering; a list is kept as it is |
| `Text.Split` | assets/gallery-loader.js:169-170 | `split` always yields at least one piece, and no piece contains the separator |
| `Text.JoinSplit` | assets/gallery-loader.js:169-170 | joining the pieces of a split with the separator gives back the string |
| `Text.SplitJoin` | assets/gallery-loader.js:169-170 | splitting a join of separator-free pieces gives back those pieces |
| `Text.FirstPiece` | assets/gallery-loader.js:170 | `split(sep)[0]` is the prefix of the string before its first separator |
| `Text.LastPiece` | assets/gallery-loader.js:169-170 | `parts[parts.length-1]` is the suffix of the string after its last separator |
| `YouTube.PrefixLengthAt` | assets/gallery-loader.js:19 | the alternative taken at a position is the one whose literal text is there (at most one can be); the pattern matches there exactly when that alternative is followed by an identifier |
| `YouTube.MatchesAt` | assets/gallery-loader.js:19 | a match can only start at a `y`, and needs at least the short-link prefix plus eleven characters before the end of the string |
| `YouTube.CapturedAt` | assets/gallery-loader.js:19-21 | the captured group is eleven characters of `[A-Za-z0-9_-]`, and they are the ones that directly follow the alternative present at the match position (`m[1]`) |
| `YouTube.FindMatch` | assets/gallery-loader.js:19-20 | the scan returns the leftmost position where the pattern matches, or reports that it matches nowhere |
| `YouTube.ExtractId` | assets/gallery-loader.js:17-22 | no match gives the input unchanged (the empty string included); any changed result is an 11-character identifier of `[A-Za-z0-9_-]` |
| `YouTube.ExtractIdLeftmost` | assets/gallery-loader.js:19-21 | when the pattern matches at `p` and nowhere before it, the result is what the match at `p` captures |
| `YouTube.ExtractIdUnchanged` | assets/gallery-loader.js:17-22 | the input comes back unchanged if and only if the pattern matches nowhere in it |
| `YouTube.ExtractIdIdempotent` | assets/gallery-loader.js:17-22 | extracting from an extracted identifier changes nothing |
| `YouTube.RecognisedLink` | assets/gallery-loader.js:17-22 | a host part without `y`, then `youtube.com/watch?v=`, `youtube.com/embed/` or `youtu.be/`, then an identifier and anything after it: the result is that identifier |
| `YouTube.EmbedUrlRoundTrip` | assets/gallery-loader.js:136-138 | the embed address the viewer builds from an identifier is recognised, and yields that identifier again |
| `YouTube.EmbedUrl` | assets/gallery-loader.js:138 | the identifier sits exactly between `https://www.youtube.com/embed/` and `?autoplay=1&rel=0` |
| `YouTube.ThumbnailUrl` | assets/gallery-loader.js:53 | the identifier sits exactly between `https://img.youtube.com/vi/` and `/maxresdefault.jpg` |
| `Actions.BaseName` | assets/gallery-loader.js:169-170 | the base name is non-empty and has no `/` and no `?`; it is `gallery-item` exactly when the last path segment is empty or starts with `?`, and otherwise that segment up to (not including) its first `?` |
| `Actions.FileName` | assets/gallery-loader.js:169-172 | the file name has no `/` or `?`; it starts with the base name; images and videos always end up with a dot; only `.jpg` (images) or `.mp4` (videos) is ever appended, and nothing is appended when the base name already has a dot or the type is neither |
| `Actions.DownloadOf` | assets/gallery-loader.js:147-183 | YouTube items, and only they, are refused; otherwise the item is saved under its derived file name, or opened in a new tab when the fetch fails |
| `Actions.ShareUrl` | assets/gallery-loader.js:193-196 | an `http` source is shared as it is; any other is joined to the origin with exactly one `/`; the address always ends with the source |
| `Actions.ShareText` | assets/gallery-loader.js:200 | the share text is the alt text when that is non-empty, and the fixed sentence `Check out this moment from Hackathon Nova!` when it is empty |
| `Actions.ShareDataOf` | assets/gallery-loader.js:198-202 | the shared record carries the fixed title `Hackathon Nova Gallery`, a non-empty share text and an address that ends with the item's source |
| `Actions.ShareOf` | assets/gallery-loader.js:204-225 | the native share is used exactly when it exists; without it, the address is copied exactly when the clipboard works, and otherwise a notice carrying the address is shown |
| `Grid.SpanClass` | assets/gallery-loader.js:26 | the class is `span-2x2` exactly when `span` is `"2x2"`, else `span-1x1` |
| `Grid.TileOf` | assets/gallery-loader.js:24-74 | a tile keeps its item's span class; it has a click target exactly when the type is known, and that target is the tile's own index; an image shows its `src` and `alt`, a video its `src` with the poster exactly when one is given, a YouTube item the thumbnail of its extracted identifier with the item's own alt, or `YouTube video` when it has none; unknown types give an empty tile |
| `Grid.SliceEnd` | assets/gallery-loader.js:248 | `slice(0, end)` keeps at most the whole list; a non-negative end is clamped to the length; a negative end counts from the back and stops at zero |
| `Grid.EffectiveLimit` | assets/gallery-loader.js:247 | an absent, unparsable or zero limit falls back to the list length, any other limit is kept; the result is 0 only for an empty list |
| `Grid.RenderCount` | assets/gallery-loader.js:247-248 | a container never shows more than the list; an absent or zero limit shows every item; a positive limit up to the length shows exactly that many, a larger one the whole list; a negative limit drops that many items from the back, leaving none when it exceeds the length |
| `Grid.GridOf` | assets/gallery-loader.js:247-253 | a container holds one tile per rendered item, no more than the list, tile `i` made from item `i` with index `i` |
| `Grid.BuildGrid` | assets/gallery-loader.js:248-254 | the filling loop produces exactly the tiles of the container's prefix, in order, tile `i` made from item `i` |
| `Grid.GridIsPrefix` | assets/gallery-loader.js:247-254 | every container's tiles are a prefix of the unlimited grid, which has one tile per item |
| `Grid.GridOpensInRange` | assets/gallery-loader.js:251-252 | tile `k` of any container comes from item `k` of the full list, and a click on it opens index `k`, which lies inside the list |
| `Grid.GridHonoursLimit` | assets/gallery-loader.js:247-248 | a positive limit no larger than the list gives exactly that many tiles |
| `Grid.FeedUrl` | assets/gallery-loader.js:240 | the feed is read from the first container's `data-source`, else from `/assets/gallery.json` |
| `Lightbox.ViewOf` | assets/gallery-loader.js:112-145 | the view kind follows the item's type exactly: an image (with its own `src` and `alt`), a video from its own `src`, a YouTube item through the embed address of its extracted identifier, and an empty wrapper for an unknown type |
| `Lightbox.Initial` | assets/gallery-loader.js:3-4 | at page load the list is empty, the index is 0, the viewer is hidden with no content, page scrolling is unlocked and the controls are not yet wired |
| `Lightbox.Open` | assets/gallery-loader.js:78-89 | an index outside the list changes nothing; otherwise the viewer becomes visible at that index, showing that item, with page scroll locked |
| `Lightbox.Close` | assets/gallery-loader.js:91-98 | closing hides the viewer, clears its content and unlocks page scroll, and keeps the list and the index |
| `Lightbox.Next` | assets/gallery-loader.js:100-104 | on an empty list nothing changes; otherwise the index moves one forward and wraps from the last item to the first; the viewer then shows the new item; nothing else changes |
| `Lightbox.Prev` | assets/gallery-loader.js:106-110 | on an empty list nothing changes; otherwise the index moves one back and wraps from the first item to the last; the viewer then shows the new item; nothing else changes |
| `Lightbox.Key` | assets/gallery-loader.js:285-290 | keys do nothing while the viewer is hidden (or before the handler is installed); while it is visible Escape closes it, ArrowLeft steps back, ArrowRight steps forward, and any other key changes nothing |
| `Lightbox.Load` | assets/gallery-loader.js:236-257 | without containers or with a non-array feed nothing changes; otherwise the fetched list (empty after a failed fetch) becomes the viewer's list and the controls are wired; index, visibility, content and scroll lock are unchanged |
| `Lightbox.NextPrevInverse` | assets/gallery-loader.js:100-110 | a step back after a step forward (and the reverse) restores the index, and the whole state when the viewer was showing the current item |
| `Lightbox.NextNIndex` | assets/gallery-loader.js:102 | `n` steps forward move the index to `(index + n) mod length` |
| `Lightbox.FullCycle` | assets/gallery-loader.js:102 | as many steps forward as there are items return to the starting index, and every index is reached within one lap |
| `Lightbox.NextNWithinLap` | assets/gallery-loader.js:102 | within one lap, `n` steps forward add `n` to the index, less the length once the end of the list has been passed |
| `Lightbox.TileClickShowsItsItem` | assets/gallery-loader.js:35 | a click on tile `k` of any container opens the viewer at index `k`, showing the item that tile was made from |
| `Lightbox.TwoItemWalkThrough` | assets/gallery-loader.js:78-104 | with an image and a video, opening the first item and stepping forward shows the video; a second step wraps back to the image |
| `Lightbox.Gallery.constructor` | assets/gallery-loader.js:3-4 | the script starts in the initial state |
| `Lightbox.Gallery.OpenLightbox` | assets/gallery-loader.js:78-89 | the method performs `Open` on the fields and keeps the index invariant |
| `Lightbox.Gallery.CloseLightbox` | assets/gallery-loader.js:91-98 | the method performs `Close` on the fields and keeps the index invariant |
| `Lightbox.Gallery.ShowNext` | assets/gallery-loader.js:100-104 | the method performs `Next` on the fields and keeps the index invariant |
| `Lightbox.Gallery.ShowPrev` | assets/gallery-loader.js:106-110 | the method performs `Prev` on the fields and keeps the index invariant |
| `Lightbox.Gallery.KeyDown` | assets/gallery-loader.js:285-290 | the handler performs `Key` on the fields and keeps the index invariant |
| `Lightbox.Gallery.Render` | assets/gallery-loader.js:230-258 | no containers or a non-array feed: nothing is rendered and the state is unchanged; otherwise every container receives exactly the grid for its own limit over the fetched list, and the state becomes `Load` of the old one |
| `Lightbox.Gallery.DownloadCurrentItem` | assets/gallery-loader.js:147-187 | with no current item there is no download; otherwise the current item's download outcome |
| `Lightbox.Gallery.ShareCurrentItem` | assets/gallery-loader.js:189-226 | with no current item there is no share; otherwise the current item's share data, delivered through the first channel available |

## Left out

- Fetching: the request of `fetchGallery` is I/O. `Render` takes the fetch as a function from address to `Feed`, and `DownloadCurrentItem` takes whether the byte fetch succeeds as a parameter.
- A non-array feed: the script still stores that value as its item list (line 241) before stopping. The model keeps the old, empty list, because nothing can reach the viewer afterwards: no tiles exist and no controls are wired.
- Document construction, CSS classes, cached element lookups and listener registration (lines 29-71, 117-144, 260-283). Tiles and viewer content are abstract descriptors. The viewer's elements are assumed to exist: without them the script's `initLightboxUI` returns early, and the model does not capture that.
- Timers: the 10 ms opacity delay on opening, the 300 ms hide-and-clear delay on closing and the 2 s "Copied!" label. Closing acts at once. As a consequence, the model does not capture that keys still act during the fade-out window. It also does not capture that reopening the viewer within that window lets the pending timer hide it again.
- Blob download, object URLs, `window.open`, the button spinner, `navigator.share`, the clipboard and `alert`. These are browser capabilities. Only the outcome each leads to is modelled (`Actions.Download`, `Actions.Share`).
- `parseInt` of `data-limit`: the limit arrives already parsed, as an optional integer. None stands for `NaN`.
- Asynchrony: download and share run to completion one at a time. Re-entering an in-flight download is not modelled.
- `Lightbox.Gallery.Render`: requires the index to still be 0. The script runs `render` once, on `DOMContentLoaded`, before anything can move the index.
