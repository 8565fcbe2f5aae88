/**
 * The history parser of `ParseYtHistory` (modules/module_extract_urls_1.py):
 * cutting the `<head>` element out of the exported page, deciding the video
 * id of a link, collecting the links of a JSON history into a dictionary, and
 * the row filters that turn that dictionary into the links table.
 *
 * `ParseYtHistory` only stores its constructor arguments, so its methods
 * take the history as a parameter; the JSON branch of `createLinksCSV` is
 * the one modelled.
 */
module ExtractUrls {
  import opened Wrappers
  import opened Seqs
  import opened PyStr

  // ---------------------------------------------------------------------------
  // removeHeadtag

  /** `"<" + tag + ">"` */
  function OpenTag(tag: string): string {
    "<" + tag + ">"
  }

  /** `"</" + tag + ">"`, whose length is the `len(tag) + 3` the code skips. */
  function CloseTag(tag: string): (t: string)
    ensures |t| == |tag| + 3
  {
    "</" + tag + ">"
  }

  /** `text[: text.find(OpenTag(tag))]`: everything before the opening tag, or all but the last character when there is none. */
  function HeadPart(text: string, tag: string): (h: string)
    ensures forall i :: IsFirstMatch(text, OpenTag(tag), i) ==> h == text[..i]
    ensures !Occurs(text, OpenTag(tag)) ==> h == text[..if text == [] then 0 else |text| - 1]
  {
    SliceTo(text, Find(text, OpenTag(tag)))
  }

  /** `text[text.find(CloseTag(tag)) + len(tag) + 3 :]`: everything after the closing tag, or everything after position `len(tag) + 2` when there is none. */
  function TailPart(text: string, tag: string): (t: string)
    ensures forall j :: IsFirstMatch(text, CloseTag(tag), j) ==> t == text[j + |CloseTag(tag)|..]
    ensures !Occurs(text, CloseTag(tag)) ==> t == text[if |tag| + 2 <= |text| then |tag| + 2 else |text|..]
  {
    SliceFrom(text, Find(text, CloseTag(tag)) + |tag| + 3)
  }

  /** `ParseYtHistory.removeHeadtag(text, tag)` */
  function RemoveHeadtag(text: string, tag: string := "head"): (r: string)
    ensures forall i, j :: IsFirstMatch(text, OpenTag(tag), i) && IsFirstMatch(text, CloseTag(tag), j) && i <= j ==>
      r == text[..i] + text[j + |CloseTag(tag)|..]
  {
    HeadPart(text, tag) + TailPart(text, tag)
  }

  /** Cutting `text[i..k]` out of `text` leaves `text[..i] + text[k..]`, and putting it back restores `text`. */
  lemma CutAndRestore(text: string, i: nat, k: nat, open: string, close: string)
    requires i + |open| <= k && i + |close| <= k && k <= |text|
    requires text[i..i + |open|] == open && text[k - |close|..k] == close
    ensures var r, e := text[..i] + text[k..], text[i..k];
      && text == r[..i] + e + r[i..]
      && open <= e
      && e[|e| - |close|..] == close
  {
    var r, e := text[..i] + text[k..], text[i..k];
    assert r[..i] == text[..i] && r[i..] == text[k..];
    assert text == text[..i] + e + text[k..];
    assert e[..|open|] == text[i..i + |open|];
    assert e[|e| - |close|..] == text[k - |close|..k];
  }

  /** With both tags present in order, what is removed is exactly one element: from its opening tag through its closing tag. */
  lemma RemoveHeadtagCutsElement(text: string, tag: string, i: nat, j: nat)
    requires IsFirstMatch(text, OpenTag(tag), i) && IsFirstMatch(text, CloseTag(tag), j) && i <= j
    ensures var r, e := RemoveHeadtag(text, tag), text[i..j + |CloseTag(tag)|];
      && text == r[..i] + e + r[i..]
      && OpenTag(tag) <= e
      && e[|e| - |CloseTag(tag)|..] == CloseTag(tag)
  {
    var open, close := OpenTag(tag), CloseTag(tag);
    var k := j + |close|;
    assert HeadPart(text, tag) == text[..i];
    assert TailPart(text, tag) == text[k..];
    assert text[i..i + |open|] == open && text[j..k] == close;
    CutAndRestore(text, i, k, open, close);
  }

  /** Without either tag, the text is not returned unchanged: characters are dropped or repeated, and nothing is raised. */
  lemma RemoveHeadtagWithoutTagsAltersText(text: string, tag: string)
    requires !Occurs(text, OpenTag(tag)) && !Occurs(text, CloseTag(tag))
    requires text != [] && |text| != |tag| + 3
    ensures RemoveHeadtag(text, tag) != text
  {
    var r := RemoveHeadtag(text, tag);
    if |tag| + 2 <= |text| {
      assert |r| == 2 * |text| - |tag| - 3;
    } else {
      assert |r| == |text| - 1;
    }
  }

  // ---------------------------------------------------------------------------
  // getVideoID

  /** `urllib.parse.parse_qs(query)`: every key maps to the non-empty list of its values. */
  type QueryMap = m: map<string, seq<string>> | forall k :: k in m ==> m[k] != []

  /** The fields of `urllib.parse.urlparse(link)` that `getVideoID` reads, with the query already parsed. */
  datatype ParsedUrl = ParsedUrl(hostname: Option<string>, path: string, query: QueryMap)

  /** `s[:len(p)] == p` is the prefix test. */
  lemma SliceToIsPrefixTest(s: string, p: string)
    ensures SliceTo(s, |p|) == p <==> p <= s
  {
  }

  predicate IsYoutubeHost(hostname: Option<string>) {
    hostname == Some("www.youtube.com") || hostname == Some("youtube.com")
  }

  /** `path[1:]`: the path without its leading character. */
  function ShortLinkId(path: string): (id: string)
    ensures path == [] ==> id == []
    ensures path != [] ==> path == [path[0]] + id
  {
    SliceFrom(path, 1)
  }

  /** `path.split("/")[2]` for a path that starts with `/name/`: the segment right after that prefix. */
  function PathSegmentId(path: string, name: string): (id: string)
    requires '/' !in name && "/" + name + "/" <= path
    ensures IsLeadingSegment(id, path[|name| + 2..], '/')
  {
    SplitPrefixed(path, name);
    Split(path, '/')[2]
  }

  /**
   * `ParseYtHistory.getVideoID` (and its copy `video_id`) on a parsed link:
   * `Success(Some(id))`, `Success(None)` for a link of no known shape, or the
   * `KeyError` that `parse_qs(query)["v"]` raises on a watch link without `v`.
   */
  function GetVideoId(u: ParsedUrl): (r: Result<Option<string>, PyError>)
    ensures u.hostname == Some("youtu.be") ==>
      && r.Success? && r.value.Some?
      && (u.path == [] ==> r.value.value == [])
      && (u.path != [] ==> u.path == [u.path[0]] + r.value.value)
    ensures IsYoutubeHost(u.hostname) && u.path == "/watch" && "v" in u.query ==>
      r == Success(Some(u.query["v"][0]))
    ensures IsYoutubeHost(u.hostname) && "/embed/" <= u.path ==>
      r.Success? && r.value.Some? && IsLeadingSegment(r.value.value, u.path[7..], '/')
    ensures IsYoutubeHost(u.hostname) && "/v/" <= u.path ==>
      r.Success? && r.value.Some? && IsLeadingSegment(r.value.value, u.path[3..], '/')
    ensures r.Failure? ==> r == Failure(KeyError("v"))
  {
    SliceToIsPrefixTest(u.path, "/embed/");
    SliceToIsPrefixTest(u.path, "/v/");
    assert u.path == "/watch" ==> u.path[1] == 'w';
    assert "/embed/" <= u.path ==> u.path[1] == 'e';
    assert "/v/" <= u.path ==> u.path[1] == 'v';
    if u.hostname == Some("youtu.be") then
      Success(Some(ShortLinkId(u.path)))
    else if IsYoutubeHost(u.hostname) then
      if u.path == "/watch" then
        if "v" in u.query then Success(Some(u.query["v"][0])) else Failure(KeyError("v"))
      else if SliceTo(u.path, 7) == "/embed/" then
        Success(Some(PathSegmentId(u.path, "embed")))
      else if SliceTo(u.path, 3) == "/v/" then
        Success(Some(PathSegmentId(u.path, "v")))
      else
        Success(None)
    else
      Success(None)
  }

  /** The only exception: a watch link on a youtube.com host whose query has no `v`. */
  lemma GetVideoIdFails(u: ParsedUrl)
    ensures GetVideoId(u).Failure? <==> IsYoutubeHost(u.hostname) && u.path == "/watch" && "v" !in u.query
  {
    SliceToIsPrefixTest(u.path, "/embed/");
    SliceToIsPrefixTest(u.path, "/v/");
  }

  /** `None` exactly for the links of none of the four shapes. */
  lemma GetVideoIdNone(u: ParsedUrl)
    ensures GetVideoId(u) == Success(None) <==>
      && u.hostname != Some("youtu.be")
      && !(IsYoutubeHost(u.hostname) && (u.path == "/watch" || "/embed/" <= u.path || "/v/" <= u.path))
  {
    SliceToIsPrefixTest(u.path, "/embed/");
    SliceToIsPrefixTest(u.path, "/v/");
    assert u.path == "/watch" ==> u.path[1] == 'w';
  }

  /** The short-link shape in the docstring of `getVideoID`. */
  lemma ShortLinkExample()
    ensures GetVideoId(ParsedUrl(Some("youtu.be"), "/SA2iWivDJiE", map[])) == Success(Some("SA2iWivDJiE"))
  {
    var u := ParsedUrl(Some("youtu.be"), "/SA2iWivDJiE", map[]);
    assert u.path == ['/'] + "SA2iWivDJiE";
  }

  /** The watch shape in the docstring of `getVideoID`. */
  lemma WatchLinkExample()
    ensures GetVideoId(ParsedUrl(Some("www.youtube.com"), "/watch", map["v" := ["_oPAwA_Udwc"], "feature" := ["feedu"]]))
      == Success(Some("_oPAwA_Udwc"))
  {
  }

  /** A string has only one leading segment. */
  lemma LeadingSegmentUnique(a: string, b: string, s: string, sep: char)
    requires IsLeadingSegment(a, s, sep) && IsLeadingSegment(b, s, sep)
    ensures a == b
  {
    assert forall k :: 0 <= k < |a| ==> s[k] == a[k] && s[k] != sep;
    assert forall k :: 0 <= k < |b| ==> s[k] == b[k] && s[k] != sep;
  }

  /**
   * On a youtube.com host, a path `/embed/<id>` or `/v/<id>`, possibly
   * followed by `/` and more, yields exactly `<id>` when the id has no `/`
   * (the embed and `/v/` shapes of the docstring).
   */
  lemma SegmentLinkId(u: ParsedUrl, prefix: string, id: string, rest: string)
    requires IsYoutubeHost(u.hostname) && (prefix == "/embed/" || prefix == "/v/")
    requires '/' !in id
    requires u.path == prefix + id || u.path == prefix + id + "/" + rest
    ensures GetVideoId(u) == Success(Some(id))
  {
    assert prefix <= u.path;
    var tail := u.path[|prefix|..];
    assert tail == id || tail == id + "/" + rest;
    assert IsLeadingSegment(id, tail, '/');
    LeadingSegmentUnique(GetVideoId(u).value.value, id, tail, '/');
  }

  /** `series.apply(getVideoID)` on a column of links: the first exception aborts the whole column; otherwise one entry per link, `None` included. */
  function VideoIdColumn(urls: seq<string>, urlparse: string -> ParsedUrl): (r: Result<seq<Option<string>>, PyError>)
    ensures r.Success? <==> forall i :: 0 <= i < |urls| ==> GetVideoId(urlparse(urls[i])).Success?
    ensures r.Success? ==> |r.value| == |urls| && forall i :: 0 <= i < |urls| ==> GetVideoId(urlparse(urls[i])) == Success(r.value[i])
    ensures r.Failure? ==> r.error == KeyError("v")
    decreases |urls|
  {
    if urls == [] then Success([])
    else
      match GetVideoId(urlparse(urls[0]))
      case Failure(e) => Failure(e)
      case Success(id) =>
        match VideoIdColumn(urls[1..], urlparse)
        case Failure(e) => Failure(e)
        case Success(ids) =>
          assert forall i :: 1 <= i < |urls| ==> urls[i] == urls[1..][i - 1];
          Success([id] + ids)
  }

  // ---------------------------------------------------------------------------
  // extractURLs_JSON

  /** One record of the JSON history; `titleUrl` or `title` may be missing (`dict.get` gives `None`). */
  datatype HistoryEntry = HistoryEntry(titleUrl: Option<string>, title: Option<string>)

  /** A Python dict from URL (possibly `None`) to text (possibly `None`), with its insertion order. */
  datatype UrlDict = UrlDict(keys: seq<Option<string>>, titles: map<Option<string>, Option<string>>)
  {
    /** The keys are listed once each, in insertion order, and are exactly the dict's keys. */
    ghost predicate Valid() {
      Distinct(keys) && forall k :: k in titles <==> k in keys
    }

    /** `d[k] = v`: a new key goes last, an existing key keeps its place and takes the new value. */
    function Put(k: Option<string>, v: Option<string>): (d: UrlDict)
      requires Valid()
      ensures d.Valid()
      ensures d.titles == titles[k := v]
      ensures d.keys == if k in keys then keys else keys + [k]
    {
      if k in titles then UrlDict(keys, titles[k := v]) else UrlDict(keys + [k], titles[k := v])
    }

    /** `d.items()`: the pairs in insertion order. */
    function Items(): (items: seq<(Option<string>, Option<string>)>)
      requires Valid()
      ensures |items| == |keys|
      ensures forall k, v :: (k, v) in items <==> k in titles && titles[k] == v
      ensures forall i :: 0 <= i < |keys| ==> items[i] == (keys[i], titles[keys[i]])
    {
      var items := seq(|keys|, i requires 0 <= i < |keys| => (keys[i], titles[keys[i]]));
      assert forall k :: k in titles ==> items[FirstIndex(keys, k)] == (k, titles[k]);
      items
    }
  }

  function TitleUrl(e: HistoryEntry): Option<string> {
    e.titleUrl
  }

  /** The dictionary `extractURLs_JSON` has built after the records of `history`. */
  function JsonUrls(history: seq<HistoryEntry>): (d: UrlDict)
    ensures d.Valid()
    decreases |history|
  {
    if history == [] then UrlDict([], map[])
    else
      var n := |history| - 1;
      JsonUrls(history[..n]).Put(history[n].titleUrl, history[n].title)
  }

  /** `ParseYtHistory.extractURLs_JSON` */
  method ExtractUrlsJson(history: seq<HistoryEntry>) returns (watchedUrls: UrlDict)
    ensures watchedUrls == JsonUrls(history)
  {
    watchedUrls := UrlDict([], map[]);
    for i := 0 to |history|
      invariant watchedUrls == JsonUrls(history[..i])
    {
      assert history[..i + 1][..i] == history[..i];
      watchedUrls := watchedUrls.Put(history[i].titleUrl, history[i].title);
    }
    assert history[..|history|] == history;
  }

  /** The dictionary has one key per distinct `titleUrl`, in the order each was first seen. */
  lemma {:induction false} JsonUrlsKeys(history: seq<HistoryEntry>)
    ensures JsonUrls(history).keys == Dedup(Map(TitleUrl, history))
    decreases |history|
  {
    if history != [] {
      var n := |history| - 1;
      var s := Map(TitleUrl, history);
      JsonUrlsKeys(history[..n]);
      assert s[..n] == Map(TitleUrl, history[..n]);
    }
  }

  /** Each URL maps to the title of the last record that carries it. */
  lemma {:induction false} JsonUrlsLastWins(history: seq<HistoryEntry>, i: nat)
    requires i < |history|
    requires forall j :: i < j < |history| ==> history[j].titleUrl != history[i].titleUrl
    ensures history[i].titleUrl in JsonUrls(history).titles
    ensures JsonUrls(history).titles[history[i].titleUrl] == history[i].title
    decreases |history|
  {
    var n := |history| - 1;
    var prefix := history[..n];
    if i < n {
      assert prefix[i] == history[i];
      forall j | i < j < n ensures prefix[j].titleUrl != prefix[i].titleUrl {
        assert prefix[j] == history[j];
      }
      JsonUrlsLastWins(prefix, i);
      assert history[n].titleUrl != history[i].titleUrl;
    }
  }

  // ---------------------------------------------------------------------------
  // createLinksCSV

  /** A row of the links table before the video id is added. */
  datatype LinkText = LinkText(url: string, text: string)

  /** A row of the links table: `URLs`, `Text`, `Video_ID`. */
  datatype LinkRow = LinkRow(url: string, text: string, videoId: Option<string>)

  function AsItem(row: LinkText): (Option<string>, Option<string>) {
    (Some(row.url), Some(row.text))
  }

  function TextOf(row: LinkRow): LinkText {
    LinkText(row.url, row.text)
  }

  /** `pd.DataFrame(items).dropna()`: the items whose URL and text are both present, in order. */
  function PresentItems(items: seq<(Option<string>, Option<string>)>): (rows: seq<LinkText>)
    ensures forall row :: row in rows <==> AsItem(row) in items
    ensures IsSubsequence(Map(AsItem, rows), items)
    decreases |items|
  {
    if items == [] then []
    else
      var rest := PresentItems(items[1..]);
      assert forall x :: x in items <==> x == items[0] || x in items[1..];
      if items[0].0.Some? && items[0].1.Some? then
        var rows := [LinkText(items[0].0.value, items[0].1.value)] + rest;
        assert Map(AsItem, rows)[1..] == Map(AsItem, rest);
        rows
      else rest
  }

  /** `~URLs.str.contains("google")` */
  predicate NotGoogle(row: LinkText) {
    !Contains(row.url, "google")
  }

  /** `Video_ID` is not `None` (the second `dropna`). */
  predicate HasVideoId(row: LinkRow) {
    row.videoId.Some?
  }

  /** `~Text.str.lower().str.contains("short")` */
  predicate NotShort(row: LinkRow) {
    !Contains(Lower(row.text), "short")
  }

  /** The rows whose video id `createLinksCSV` asks for: present URL and text, no `google` in the URL. */
  function Candidates(history: seq<HistoryEntry>): (rows: seq<LinkText>)
    ensures forall row :: row in rows <==>
      && Some(row.url) in JsonUrls(history).titles
      && JsonUrls(history).titles[Some(row.url)] == Some(row.text)
      && !Contains(row.url, "google")
  {
    Filter(PresentItems(JsonUrls(history).Items()), NotGoogle)
  }

  function UrlOf(row: LinkText): string {
    row.url
  }

  /** The `URLs` column of a frame. */
  function Urls(frame: seq<LinkText>): seq<string> {
    Map(UrlOf, frame)
  }

  /** `df["Video_ID"] = ids`: the frame with the id column added. */
  function WithVideoIds(frame: seq<LinkText>, ids: seq<Option<string>>): (rows: seq<LinkRow>)
    requires |ids| == |frame|
    ensures |rows| == |frame| && Map(TextOf, rows) == frame
    ensures forall i :: 0 <= i < |frame| ==> rows[i] == LinkRow(frame[i].url, frame[i].text, ids[i])
  {
    seq(|frame|, i requires 0 <= i < |frame| => LinkRow(frame[i].url, frame[i].text, ids[i]))
  }

  /** The id column fails exactly when some row of the frame raises. */
  lemma {:induction false} VideoIdColumnFails(frame: seq<LinkText>, urlparse: string -> ParsedUrl)
    ensures VideoIdColumn(Urls(frame), urlparse).Failure? <==>
      exists c :: c in frame && GetVideoId(urlparse(c.url)).Failure?
  {
    var urls := Urls(frame);
    if VideoIdColumn(urls, urlparse).Failure? {
      var i :| 0 <= i < |urls| && !GetVideoId(urlparse(urls[i])).Success?;
      assert frame[i] in frame;
    }
  }

  /** The rows that survive the second `dropna` and the `short` filter. */
  function IdentifiedRows(frame: seq<LinkText>, ids: seq<Option<string>>): seq<LinkRow>
    requires |ids| == |frame|
  {
    Filter(Filter(WithVideoIds(frame, ids), HasVideoId), NotShort)
  }

  /**
   * Given the ids of a frame, every surviving row has an id, the one
   * `getVideoID` gives its URL, and a text without `short`, and the rows
   * keep the frame's order.
   */
  lemma {:induction false} IdentifiedRowsSound(frame: seq<LinkText>, ids: seq<Option<string>>, urlparse: string -> ParsedUrl)
    requires |ids| == |frame|
    requires forall i :: 0 <= i < |frame| ==> GetVideoId(urlparse(frame[i].url)) == Success(ids[i])
    ensures forall row :: row in IdentifiedRows(frame, ids) ==>
      && row.videoId.Some?
      && !Contains(Lower(row.text), "short")
      && GetVideoId(urlparse(row.url)) == Success(row.videoId)
      && TextOf(row) in frame
    ensures IsSubsequence(Map(TextOf, IdentifiedRows(frame, ids)), frame)
  {
    var withIds := WithVideoIds(frame, ids);
    var identified := Filter(withIds, HasVideoId);
    var rows := Filter(identified, NotShort);
    SubsequenceTransitive(rows, identified, withIds);
    SubsequenceMap(TextOf, rows, withIds);
    forall row | row in rows
      ensures GetVideoId(urlparse(row.url)) == Success(row.videoId) && TextOf(row) in frame
    {
      var i :| 0 <= i < |withIds| && withIds[i] == row;
      assert frame[i] == TextOf(row);
    }
  }

  /** Given the ids of a frame, no row with an id and a text without `short` is dropped. */
  lemma {:induction false} IdentifiedRowsComplete(frame: seq<LinkText>, ids: seq<Option<string>>, urlparse: string -> ParsedUrl)
    requires |ids| == |frame|
    requires forall i :: 0 <= i < |frame| ==> GetVideoId(urlparse(frame[i].url)) == Success(ids[i])
    ensures forall c :: c in frame && GetVideoId(urlparse(c.url)).Success? ==>
      (GetVideoId(urlparse(c.url)).value.Some? && !Contains(Lower(c.text), "short") <==>
       LinkRow(c.url, c.text, GetVideoId(urlparse(c.url)).value) in IdentifiedRows(frame, ids))
  {
    var withIds := WithVideoIds(frame, ids);
    forall c | c in frame && GetVideoId(urlparse(c.url)).Success?
      ensures GetVideoId(urlparse(c.url)).value.Some? && !Contains(Lower(c.text), "short") <==>
        LinkRow(c.url, c.text, GetVideoId(urlparse(c.url)).value) in IdentifiedRows(frame, ids)
    {
      var i :| 0 <= i < |frame| && frame[i] == c;
      var row := withIds[i];
      assert row == LinkRow(c.url, c.text, GetVideoId(urlparse(c.url)).value);
      assert row in Filter(withIds, HasVideoId) <==> HasVideoId(row);
      assert row in IdentifiedRows(frame, ids) <==> HasVideoId(row) && NotShort(row);
    }
  }

  /** `ParseYtHistory.createLinksCSV` for a JSON history; `urlparse` stands for `urllib.parse.urlparse` with `parse_qs`. */
  method CreateLinksCsv(history: seq<HistoryEntry>, urlparse: string -> ParsedUrl) returns (result: Result<seq<LinkRow>, PyError>)
    ensures result.Failure? <==> exists c :: c in Candidates(history) && GetVideoId(urlparse(c.url)).Failure?
    ensures result.Failure? ==> result.error == KeyError("v")
    ensures result.Success? ==> forall row :: row in result.value ==>
      && row.videoId.Some?
      && !Contains(row.url, "google")
      && !Contains(Lower(row.text), "short")
      && GetVideoId(urlparse(row.url)) == Success(row.videoId)
      && TextOf(row) in Candidates(history)
    ensures result.Success? ==> IsSubsequence(Map(TextOf, result.value), Candidates(history))
    ensures result.Success? ==> forall c :: c in Candidates(history) && GetVideoId(urlparse(c.url)).Success? ==>
      (GetVideoId(urlparse(c.url)).value.Some? && !Contains(Lower(c.text), "short") <==>
       LinkRow(c.url, c.text, GetVideoId(urlparse(c.url)).value) in result.value)
  {
    var watchedUrlsDict := ExtractUrlsJson(history);
    var frame := PresentItems(watchedUrlsDict.Items());
    frame := Filter(frame, NotGoogle);
    assert frame == Candidates(history);
    var ids := VideoIdColumn(Urls(frame), urlparse);
    VideoIdColumnFails(frame, urlparse);
    if ids.Failure? {
      return Failure(ids.error);
    }
    var withIds := WithVideoIds(frame, ids.value);
    withIds := Filter(withIds, HasVideoId);
    withIds := Filter(withIds, NotShort);
    IdentifiedRowsSound(frame, ids.value, urlparse);
    IdentifiedRowsComplete(frame, ids.value, urlparse);
    result := Success(withIds);
  }
}
