/** The gallery's data model: one entry of the JSON feed, and what fetching
    the feed can yield. */
module Items {

  datatype Option<+T> = None | Some(value: T)

  /** The `type` tags the loader recognises; any other tag is kept as it is. */
  const ImageKind: string := "image"
  const VideoKind: string := "video"
  const YouTubeKind: string := "youtube"

  predicate IsKnownKind(kind: string) {
    kind == ImageKind || kind == VideoKind || kind == YouTubeKind
  }

  /** One gallery entry. `alt`, `poster` and `span` are optional in the feed;
      an absent one is the empty string, which the loader treats alike
      (`item.alt || ...`, `if(item.poster)`, `item.span === '2x2'`). */
  datatype Item = Item(kind: string, src: string, alt: string, poster: string, span: string)

  /** What `fetchGallery` hands back to `render`: a failed request (network
      error or non-2xx status), a JSON value that is not an array, or a list. */
  datatype Feed = Failed | NotArray | List(items: seq<Item>)

  /** The value `render` continues with: a failure becomes the empty list,
      a non-array value stops rendering (None). */
  function Loaded(feed: Feed): (r: Option<seq<Item>>)
    ensures r.None? <==> feed.NotArray?
    ensures feed.Failed? ==> r == Some([])
    ensures feed.List? ==> r == Some(feed.items)
  {
    match feed
    case Failed => Some([])
    case NotArray => None
    case List(items) => Some(items)
  }
}
