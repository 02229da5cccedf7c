/** The value-level parts of the viewer's download and share buttons
    (`downloadCurrentItem`, `shareCurrentItem`): the file name a download is
    saved under, the absolute address and text a share carries, and which of
    the browser's channels delivers it. */
module Actions {

  import opened Items
  import Text

  const DefaultFileName: string := "gallery-item"
  const ImageExtension: string := ".jpg"
  const VideoExtension: string := ".mp4"

  /** The part of the last `/`-separated segment of src before its first `?`,
      or the default name when that is empty. */
  function BaseName(src: string): (name: string)
    ensures name != "" && '/' !in name && '?' !in name
    ensures name == DefaultFileName || name <= Text.LastPiece(src, '/')
    // the default is used exactly when the last segment is empty or starts
    // with '?'; otherwise the name is that segment up to its first '?'
    ensures var seg := Text.LastPiece(src, '/');
            if seg == "" || seg[0] == '?' then name == DefaultFileName
            else name <= seg && (|name| == |seg| || seg[|name|] == '?')
  {
    var piece := Text.FirstPiece(Text.LastPiece(src, '/'), '?');
    if piece == "" then DefaultFileName else piece
  }

  /** The name a download of an item of this kind is saved under: the base
      name, with `.jpg` (images) or `.mp4` (videos) appended when it has no
      dot. The two tests run one after the other, as in the script. */
  function FileName(kind: string, src: string): (name: string)
    ensures '/' !in name && '?' !in name
    ensures BaseName(src) <= name
    ensures (kind == ImageKind || kind == VideoKind) ==> '.' in name
    ensures '.' in BaseName(src) || !(kind == ImageKind || kind == VideoKind) ==> name == BaseName(src)
    ensures kind == ImageKind ==> name[|BaseName(src)|..] in {"", ImageExtension}
    ensures kind == VideoKind ==> name[|BaseName(src)|..] in {"", VideoExtension}
  {
    var base := BaseName(src);
    var afterImage := if kind == ImageKind && '.' !in base then base + ImageExtension else base;
    var name := if kind == VideoKind && '.' !in afterImage then afterImage + VideoExtension else afterImage;
    assert name == base || name == base + ImageExtension || name == base + VideoExtension;
    AppendExtension(base, ImageExtension);
    AppendExtension(base, VideoExtension);
    assert base[|base|..] == "";
    name
  }

  /** Appending an extension keeps the base as a prefix, adds a dot and
      neither a '/' nor a '?'. */
  lemma AppendExtension(base: string, ext: string)
    requires ext == ImageExtension || ext == VideoExtension
    ensures base <= base + ext && (base + ext)[|base|..] == ext
    ensures '.' in base + ext
    ensures '/' !in base ==> '/' !in base + ext
    ensures '?' !in base ==> '?' !in base + ext
  {
  }

  /** What pressing the download button does. */
  datatype Download =
    | NotDownloadable             // YouTube item: the user is told it cannot be downloaded
    | SaveAs(url: string, filename: string)  // the bytes are fetched and saved under filename
    | OpenInNewTab(url: string)   // the fetch failed: the item's address opens in a new tab

  /** Download of one item, given whether fetching its bytes succeeded (the
      fetch itself is not modelled). */
  function DownloadOf(item: Item, fetched: bool): (d: Download)
    ensures d.NotDownloadable? <==> item.kind == YouTubeKind
    ensures d.SaveAs? ==> fetched && d.url == item.src && d.filename == FileName(item.kind, item.src)
    ensures d.OpenInNewTab? ==> !fetched && d.url == item.src
  {
    if item.kind == YouTubeKind then NotDownloadable
    else if fetched then SaveAs(item.src, FileName(item.kind, item.src))
    else OpenInNewTab(item.src)
  }

  const ShareTitle: string := "Hackathon Nova Gallery"
  const DefaultShareText: string := "Check out this moment from Hackathon Nova!"

  /** The address a share carries: src itself when it starts with `http`,
      otherwise src made absolute against the page's origin. */
  function ShareUrl(origin: string, src: string): (url: string)
    ensures "http" <= src ==> url == src
    // a relative src is joined to the origin by exactly one '/'
    ensures !("http" <= src) ==> url == origin + "/" + (if "/" <= src then src[1..] else src)
    ensures |src| <= |url| && url[|url| - |src|..] == src
  {
    if "http" <= src then src
    else
      var joined := origin + (if "/" <= src then "" else "/") + src;
      assert "/" <= src ==> src == "/" + src[1..];
      joined
  }

  /** `item.alt || ...`: the alt text, or the fixed sentence when it is empty. */
  function ShareText(alt: string): (text: string)
    ensures text != ""
    ensures alt != "" ==> text == alt
    ensures alt == "" ==> text == DefaultShareText
  {
    if alt != "" then alt else DefaultShareText
  }

  datatype ShareData = ShareData(title: string, text: string, url: string)

  /** The record handed to the share sheet: the fixed title, the item's
      share text and its absolute address. */
  function ShareDataOf(item: Item, origin: string): (d: ShareData)
    ensures d.title == ShareTitle
    ensures d.text == ShareText(item.alt) && d.text != ""
    ensures d.url == ShareUrl(origin, item.src)
    ensures |item.src| <= |d.url| && d.url[|d.url| - |item.src|..] == item.src
  {
    ShareData(ShareTitle, ShareText(item.alt), ShareUrl(origin, item.src))
  }

  /** How a share reaches the user: the native share sheet when the browser
      has one (its failure or cancellation is ignored), else the clipboard,
      else a notice showing the address. */
  datatype Share =
    | NativeShare(data: ShareData)
    | CopiedToClipboard(url: string)
    | CopyFailedNotice(message: string)

  function ShareOf(data: ShareData, hasNativeShare: bool, clipboardWorks: bool): (s: Share)
    ensures s.NativeShare? <==> hasNativeShare
    ensures s.NativeShare? ==> s.data == data
    ensures s.CopiedToClipboard? ==> s.url == data.url
    ensures s.CopyFailedNotice? ==> !clipboardWorks && s.message == "Could not copy link: " + data.url
    // without a share sheet, the copy succeeds or the notice is shown
    ensures !hasNativeShare ==> (s.CopiedToClipboard? <==> clipboardWorks)
    ensures !hasNativeShare ==> (s.CopyFailedNotice? <==> !clipboardWorks)
  {
    if hasNativeShare then NativeShare(data)
    else if clipboardWorks then CopiedToClipboard(data.url)
    else CopyFailedNotice("Could not copy link: " + data.url)
  }
}
