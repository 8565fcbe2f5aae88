/**
 * The second data-preparation script: the video id of every collected link,
 * by the same decision as `ExtractUrls.GetVideoId`, written next to the
 * link. Unlike the module's pipeline, rows without an id are kept.
 */
module DataPrep2 {
  import opened Wrappers
  import opened PyStr
  import opened ExtractUrls

  /** One row of the output file: the link and its `Video-ID` (empty when `None`). */
  datatype IdRow = IdRow(link: string, videoId: Option<string>)

  /**
   * `url_csv['Video-ID'] = url_csv['Link'].apply(video_id)` followed by the
   * selection of the two output columns.
   */
  function LinksWithVideoIds(links: seq<string>, urlparse: string -> ParsedUrl): (r: Result<seq<IdRow>, PyError>)
    ensures r.Success? <==> forall i :: 0 <= i < |links| ==> GetVideoId(urlparse(links[i])).Success?
    ensures r.Success? ==>
      && |r.value| == |links|
      && forall i :: 0 <= i < |links| ==>
        r.value[i].link == links[i] && GetVideoId(urlparse(links[i])) == Success(r.value[i].videoId)
    ensures r.Failure? ==> r.error == KeyError("v")
  {
    match VideoIdColumn(links, urlparse)
    case Failure(e) => Failure(e)
    case Success(ids) => Success(seq(|links|, i requires 0 <= i < |links| => IdRow(links[i], ids[i])))
  }

  /** A link of none of the recognised shapes keeps its row, with no id. */
  lemma UnrecognisedLinkKeepsItsRow(links: seq<string>, urlparse: string -> ParsedUrl, i: nat)
    requires LinksWithVideoIds(links, urlparse).Success?
    requires i < |links|
    requires urlparse(links[i]).hostname != Some("youtu.be")
    requires !IsYoutubeHost(urlparse(links[i]).hostname)
    ensures LinksWithVideoIds(links, urlparse).value[i] == IdRow(links[i], None)
  {
    GetVideoIdNone(urlparse(links[i]));
  }
}
