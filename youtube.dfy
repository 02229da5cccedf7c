/** `extractYouTubeID`: the search for
    `(?:youtube\.com\/(?:watch\?v=|embed\/)|youtu\.be\/)([A-Za-z0-9_-]{11})`
    written out as a left-to-right scan over the string. */
module YouTube {

  import opened Items

  /** The three alternatives of the pattern, in the order the regex tries them. */
  const WatchPrefix: string := "youtube.com/watch?v="
  const EmbedPrefix: string := "youtube.com/embed/"
  const ShortPrefix: string := "youtu.be/"

  /** Length of a video identifier: the `{11}` of the pattern. */
  const IdLength: nat := 11

  /** The character class `[A-Za-z0-9_-]`. */
  predicate IdChar(c: char) {
    ('A' <= c <= 'Z') || ('a' <= c <= 'z') || ('0' <= c <= '9') || c == '_' || c == '-'
  }

  predicate IsVideoId(id: string) {
    |id| == IdLength && forall k :: 0 <= k < |id| ==> IdChar(id[k])
  }

  /** Eleven identifier characters start at position p of s. */
  predicate IdAt(s: string, p: nat) {
    p + IdLength <= |s| && IsVideoId(s[p..p + IdLength])
  }

  /** The pattern matches at position p: some alternative starts there and is
      followed by an identifier. */
  predicate MatchesAt(s: string, p: nat)
    requires p <= |s|
    // every alternative starts with 'y', and the shortest match is the short
    // link followed by an identifier
    ensures MatchesAt(s, p) ==> p < |s| && s[p] == 'y' && p + |ShortPrefix| + IdLength <= |s|
  {
    || (WatchPrefix <= s[p..] && IdAt(s, p + |WatchPrefix|))
    || (EmbedPrefix <= s[p..] && IdAt(s, p + |EmbedPrefix|))
    || (ShortPrefix <= s[p..] && IdAt(s, p + |ShortPrefix|))
  }

  /** Length of the alternative the regex takes at position p (0 when none of
      the three literal prefixes is there). At most one of them can start at
      any position, so the order of the tests decides nothing. */
  function PrefixLengthAt(s: string, p: nat): (n: nat)
    requires p <= |s|
    ensures n == 0 || n == |WatchPrefix| || n == |EmbedPrefix| || n == |ShortPrefix|
    // the alternative taken is the one present
    ensures WatchPrefix <= s[p..] ==> n == |WatchPrefix|
    ensures EmbedPrefix <= s[p..] ==> n == |EmbedPrefix|
    ensures ShortPrefix <= s[p..] ==> n == |ShortPrefix|
    ensures MatchesAt(s, p) <==> n > 0 && IdAt(s, p + n)
  {
    if WatchPrefix <= s[p..] then
      assert !(EmbedPrefix <= s[p..]) by { assert s[p..][12] == 'w'; }
      assert !(ShortPrefix <= s[p..]) by { assert s[p..][5] == 'b'; }
      |WatchPrefix|
    else if EmbedPrefix <= s[p..] then
      assert !(ShortPrefix <= s[p..]) by { assert s[p..][5] == 'b'; }
      |EmbedPrefix|
    else if ShortPrefix <= s[p..] then |ShortPrefix|
    else 0
  }

  /** The identifier captured by a match at position p. */
  function CapturedAt(s: string, p: nat): (id: string)
    requires p <= |s| && MatchesAt(s, p)
    ensures IsVideoId(id)
    // the eleven characters right after the alternative present at p
    ensures || (WatchPrefix <= s[p..] && WatchPrefix + id <= s[p..])
            || (EmbedPrefix <= s[p..] && EmbedPrefix + id <= s[p..])
            || (ShortPrefix <= s[p..] && ShortPrefix + id <= s[p..])
  {
    var n := PrefixLengthAt(s, p);
    s[p + n..p + n + IdLength]
  }

  /** Leftmost position at or after i where the pattern matches. */
  function FindMatch(s: string, i: nat): (r: Option<nat>)
    requires i <= |s|
    ensures r.Some? ==> i <= r.value <= |s| && MatchesAt(s, r.value)
    ensures r.Some? ==> forall q :: i <= q < r.value ==> !MatchesAt(s, q)
    ensures r.None? ==> forall q :: i <= q <= |s| ==> !MatchesAt(s, q)
    decreases |s| - i
  {
    var n := PrefixLengthAt(s, i);
    if n > 0 && IdAt(s, i + n) then Some(i)
    else if i == |s| then None
    else FindMatch(s, i + 1)
  }

  /** `extractYouTubeID(url)`: the identifier of the leftmost match, or the
      input itself (also for the empty string) when there is none. */
  function ExtractId(url: string): (r: string)
    // no match anywhere: the input comes back unchanged
    ensures (forall q :: 0 <= q <= |url| ==> !MatchesAt(url, q)) ==> r == url
    // otherwise r is what the leftmost match captures (ExtractIdLeftmost),
    // so any result other than the input is an identifier
    ensures r == url || IsVideoId(r)
  {
    if url == "" then url
    else match FindMatch(url, 0)
      case Some(p) => CapturedAt(url, p)
      case None => url
  }

  /** With a match at p and none before it, the result is what p captures. */
  lemma ExtractIdLeftmost(url: string, p: nat)
    requires p <= |url| && MatchesAt(url, p)
    requires forall q :: 0 <= q < p ==> !MatchesAt(url, q)
    ensures ExtractId(url) == CapturedAt(url, p)
  {
    var found := FindMatch(url, 0);
    if found.None? {
      assert false;
    } else if found.value < p {
      assert false;
    } else if found.value > p {
      assert false;
    }
  }

  /** The input comes back unchanged exactly when the pattern matches nowhere. */
  lemma ExtractIdUnchanged(url: string)
    ensures ExtractId(url) == url <==> forall q :: 0 <= q <= |url| ==> !MatchesAt(url, q)
  {
  }

  /** An identifier is too short to contain a match, so extracting again
      changes nothing. */
  lemma ExtractIdIdempotent(url: string)
    ensures ExtractId(ExtractId(url)) == ExtractId(url)
  {
  }

  /** The player address the viewer embeds, and the thumbnail the grid shows. */
  const EmbedBase: string := "https://www.youtube.com/embed/"
  const EmbedQuery: string := "?autoplay=1&rel=0"
  const ThumbnailBase: string := "https://img.youtube.com/vi/"
  const ThumbnailFile: string := "/maxresdefault.jpg"

  /** The identifier sits between the fixed address and the fixed query. */
  function EmbedUrl(id: string): (u: string)
    ensures |u| == |EmbedBase| + |id| + |EmbedQuery|
    ensures EmbedBase <= u && u[|EmbedBase|..|EmbedBase| + |id|] == id
    ensures u[|EmbedBase| + |id|..] == EmbedQuery
  {
    EmbedBase + id + EmbedQuery
  }

  /** The identifier is the path segment between `vi/` and the file name. */
  function ThumbnailUrl(id: string): (u: string)
    ensures |u| == |ThumbnailBase| + |id| + |ThumbnailFile|
    ensures ThumbnailBase <= u && u[|ThumbnailBase|..|ThumbnailBase| + |id|] == id
    ensures u[|ThumbnailBase| + |id|..] == ThumbnailFile
  {
    ThumbnailBase + id + ThumbnailFile
  }

  /** Every alternative starts with 'y', so no match can start elsewhere. */
  lemma NoMatchWithoutY(s: string, q: nat)
    requires q < |s| && s[q] != 'y'
    ensures !MatchesAt(s, q)
  {
  }

  /** A link made of a host part without any 'y', one of the three
      recognised prefixes, an identifier and anything after it yields that
      identifier: the watch, embed and short-link forms alike. */
  lemma RecognisedLink(host: string, prefix: string, id: string, rest: string)
    requires 'y' !in host
    requires prefix == WatchPrefix || prefix == EmbedPrefix || prefix == ShortPrefix
    requires IsVideoId(id)
    ensures ExtractId(host + prefix + id + rest) == id
  {
    var s := host + prefix + id + rest;
    var p := |host|;
    assert s[p..] == prefix + (id + rest);
    assert prefix <= s[p..];
    assert PrefixLengthAt(s, p) == |prefix|;
    assert s[p + |prefix|..p + |prefix| + IdLength] == id;
    assert MatchesAt(s, p);
    forall q | 0 <= q < p ensures !MatchesAt(s, q) {
      assert s[q] == host[q];
      NoMatchWithoutY(s, q);
    }
    ExtractIdLeftmost(s, p);
  }

  /** The embed address the viewer builds from an identifier is itself
      recognised, and yields that identifier back. */
  lemma EmbedUrlRoundTrip(id: string)
    requires IsVideoId(id)
    ensures ExtractId(EmbedUrl(id)) == id
  {
    var host := "https://www.";
    assert EmbedUrl(id) == host + EmbedPrefix + id + EmbedQuery;
    RecognisedLink(host, EmbedPrefix, id, EmbedQuery);
  }
}
