/**
 * The per-video record that the YouTube details requests produce: one
 * dictionary per video with the snippet fields that the project keeps.
 * Every field except the id comes from `snippet.get(...)` and may therefore
 * be missing (`None`).
 */
module VideoRecords {
  import opened Wrappers

  /**
   * `categoryId` is an integer here: the frames the category filter sees
   * hold it as a number (it compares it with `10`), although the API
   * delivers it as a string.
   */
  datatype VideoDetails = VideoDetails(
    videoId: string,
    title: Option<string>,
    categoryId: Option<int>,
    publishDate: Option<string>,
    channelTitle: Option<string>,
    description: Option<string>,
    tags: Option<seq<string>>)
}
