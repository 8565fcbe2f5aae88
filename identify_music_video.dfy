/**
 * The music-video identifier for a watch history with video details: a
 * filter on YouTube's category id (10 is "Music") and an unfinished
 * filter on tags.
 */
module IdentifyMusicVideo {
  import opened Wrappers
  import opened Seqs
  import opened PyStr
  import opened VideoRecords

  /** The category YouTube assigns to music videos. */
  const MusicCategory: int := 10

  /** `df['CategoryID'] == category_id` for one row; a missing category never matches. */
  predicate InCategory(categoryId: int, row: VideoDetails) {
    row.categoryId == Some(categoryId)
  }

  /**
   * `df.reset_index(inplace=True, drop=True)` on a value that may be `None`:
   * a frame only gets new row labels, which a sequence does not have;
   * `None` has no such attribute.
   */
  function ResetIndex(frame: Option<seq<VideoDetails>>): (r: Result<seq<VideoDetails>, PyError>)
    ensures frame.None? <==> r == Failure(AttributeError("reset_index"))
    ensures frame.Some? ==> r == Success(frame.value)
  {
    match frame
    case None => Failure(AttributeError("reset_index"))
    case Some(rows) => Success(rows)
  }

  class IdentifyMusicVideo {
    /** The watch history joined with the video details. */
    const historyDetails: seq<VideoDetails>

    constructor(historyDetails: seq<VideoDetails>)
      ensures this.historyDetails == historyDetails
    {
      this.historyDetails := historyDetails;
    }

    /** `df.loc[df['CategoryID'] == category_id]`: the rows of that category, in their order, with their multiplicity. */
    static function FilterByCategory(df: seq<VideoDetails>, categoryId: int := MusicCategory): (rows: seq<VideoDetails>)
      ensures forall row: VideoDetails :: row in rows <==> row in df && row.categoryId == Some(categoryId)
      ensures IsSubsequence(rows, df)
      ensures forall row: VideoDetails :: row.categoryId == Some(categoryId) ==> multiset(rows)[row] == multiset(df)[row]
    {
      var inCategory := (row: VideoDetails) => InCategory(categoryId, row);
      FilterCounts(df, inCategory);
      Filter(df, inCategory)
    }

    /** The tag filter is a stub: it returns `None` for every frame. */
    static function FilterByTags(df: seq<VideoDetails>): (r: Option<seq<VideoDetails>>)
      ensures r.None?
    {
      None
    }

    /**
     * Filters by the music category and then by tags. The tag stub returns
     * `None`, so renumbering its result fails: the method never produces a
     * frame.
     */
    function FilterMusicVideo(): (r: Result<(), PyError>)
      ensures r == Failure(AttributeError("reset_index"))
    {
      var byCategory := ResetIndex(Some(FilterByCategory(historyDetails, MusicCategory)));
      var byTags := ResetIndex(FilterByTags(historyDetails));
      if byTags.Success? then Success(()) else Failure(byTags.error)
    }
  }

  /** Filtering the filtered rows again by the same category changes nothing. */
  lemma FilterByCategoryIdempotent(df: seq<VideoDetails>, categoryId: int)
    ensures IdentifyMusicVideo.FilterByCategory(IdentifyMusicVideo.FilterByCategory(df, categoryId), categoryId)
         == IdentifyMusicVideo.FilterByCategory(df, categoryId)
  {
    FilterIdempotent(df, (row: VideoDetails) => InCategory(categoryId, row));
  }

  /** The filter works row by row: filtering a concatenation concatenates the filtered parts. */
  lemma FilterByCategoryAppend(a: seq<VideoDetails>, b: seq<VideoDetails>, categoryId: int)
    ensures IdentifyMusicVideo.FilterByCategory(a + b, categoryId)
         == IdentifyMusicVideo.FilterByCategory(a, categoryId) + IdentifyMusicVideo.FilterByCategory(b, categoryId)
  {
    FilterAppend(a, b, (row: VideoDetails) => InCategory(categoryId, row));
  }

  /** The default category is the music category. */
  lemma FilterByCategoryDefault(df: seq<VideoDetails>)
    ensures forall row :: row in IdentifyMusicVideo.FilterByCategory(df) ==> row.categoryId == Some(10)
  {
  }
}
