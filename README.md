# SongsDatabase in Dafny

This project models the parts of SongsDatabase that decide things, leaving
out the parts that move data around. SongsDatabase turns a YouTube watch
history into a table of music videos. The model covers three areas.

- **From history to video ids.** These are the `ParseYtHistory` methods and
  their script copies:
  - `removeHeadtag` cuts the `<head>` element out of the exported page,
    with Python's `str.find` and slicing rules;
  - `getVideoID` / `video_id` decide a link's video id from its host, path
    and query;
  - `extractURLs_JSON` builds an insertion-ordered dictionary in which the
    last record wins;
  - `createLinksCSV` filters rows in order: drop missing values, drop
    `google` links, compute the id, drop rows without an id, drop `short`
    texts;
  - the first data-preparation script selects links with
    `^https://www.youtube.com/w`;
  - the second data-preparation script adds an id column.
- **The reference profile.** A playlist of music videos is mined for the
  five most frequent categories, the top 1% of lower-cased tags, and the
  top 0.1% of description words. Stop words are removed before the cut and
  punctuation after it. `Counter.most_common` is modelled as a pure
  function that sorts by count descending, ties in first-seen order. The
  project proves that these properties determine the list uniquely.
- **The category filter of `IdentifyMusicVideo`.** It keeps the rows of one
  category, 10 by default. `filter_music_video` is unfinished: its tag
  filter is a stub that returns `None`.

Modules:

- `Wrappers`: Python's `None` and exceptions.
- `Seqs`: order-preserving filters, subsequences and first-seen
  de-duplication.
- `PyStr`: `find`, `in`, `lower`, `split(sep)`, `split()` and slices, with
  Python's rules.
- `Counting`: `Counter` and `most_common`.
- `ExtractUrls`: `modules/module_extract_urls_1.py`.
- `VideoRecords`: the fetched video record.
- `MusicProfile`: the experiment script's mining step.
- `IdentifyMusicVideo`: `modules/module_identify_music_video_3.py`.
- `DataPrep1`: `data_preparation/data_prep_1.py`.
- `DataPrep2`: `data_preparation/data_prep_2.py`.

Notes on what the modelled code does:

- Checking candidate videos against the profile, the `Y`/`N`/`Maybe`
  verdict, the filter that drops videos of 60 seconds or less, and the
  merge of manually reviewed videos all live in later versions of the
  scripts, outside the modelled files:
  - the category, tag and description checks are at
    `1. modules/module_identify_music_video_3.py:67-119`;
  - the duration filter is at
    `1. modules/module_identify_music_video_3.py:131-132`;
  - the verdict is at `2. song_database/create_song_db_2.py:9-27`;
  - the merge is at `2. song_database/create_song_db_2.py:43-60`.
- In `experiments/how_to_identify_a_music_video.py:118-119`, the top entries
  of the description words are cut first. An entry is then dropped when its
  word is a *substring* of `string.punctuation`. So `"()"` is dropped while
  `"!!"` is kept, and fewer entries than the cut may remain.
- A missing description makes `''.join` raise `TypeError`. An empty
  playlist has no `CategoryID` column, so it raises `KeyError`. Missing
  categories are left out of the counts without an error.

## Model

| member | source | states |
|---|---|---|
| ExtractUrls.CloseTag | modules/module_extract_urls_1.py:42 | the closing tag is `len(tag) + 3` characters long, so the skipped offset removes it in full for every tag |
| ExtractUrls.HeadPart | modules/module_extract_urls_1.py:41 | with the opening tag first found at `i` the head is `text[:i]`; without it `find` gives -1 and the slice keeps all but the last character |
| ExtractUrls.TailPart | modules/module_extract_urls_1.py:42 | with the closing tag first found at `j` the tail is everything after it; without it the tail starts at position `len(tag) + 2` (clamped to the text) |
| ExtractUrls.RemoveHeadtag | modules/module_extract_urls_1.py:40-43 | when the first opening tag at `i` is no later than the first closing tag at `j`, the result is `text[:i] + text[j + len(closing tag):]` |
| ExtractUrls.RemoveHeadtagCutsElement | modules/module_extract_urls_1.py:40-43 | what is removed is exactly one element, starting with the opening tag and ending with the closing tag, and inserting it back at `i` restores the text; the copy in data_preparation/data_prep_1.py:14-20 is the same expression |
| ExtractUrls.RemoveHeadtagWithoutTagsAltersText | modules/module_extract_urls_1.py:41-42 | with neither tag in a non-empty text of a length other than `len(tag) + 3`, nothing is raised, yet the result differs from the text (characters are dropped or repeated) |
| ExtractUrls.ShortLinkId | modules/module_extract_urls_1.py:59 | `path[1:]`: the path without its first character, empty for an empty path (also the copy, data_preparation/data_prep_2.py:22-23) |
| ExtractUrls.PathSegmentId | modules/module_extract_urls_1.py:64-67 | for a path starting with `/name/`, `path.split('/')[2]` is the run of non-`/` characters right after the prefix |
| ExtractUrls.SliceToIsPrefixTest | modules/module_extract_urls_1.py:64 | `path[:len(p)] == p` holds exactly when `p` is a prefix of the path |
| ExtractUrls.GetVideoId | modules/module_extract_urls_1.py:56-69 | `youtu.be` gives the path minus its first character; `/watch` on the two youtube.com hosts gives the first `v` value; an `/embed/` or `/v/` prefix gives the segment after it; the only exception is `KeyError('v')`; `video_id` in data_preparation/data_prep_2.py:12-33 is the same decision |
| ExtractUrls.GetVideoIdFails | modules/module_extract_urls_1.py:60-63 | the call raises exactly for a `/watch` link on a youtube.com host whose query has no `v`, as in the copy at data_preparation/data_prep_2.py:24-27 |
| ExtractUrls.GetVideoIdNone | modules/module_extract_urls_1.py:58-69 | the result is `None` exactly when the link has none of the four shapes |
| ExtractUrls.ShortLinkExample | modules/module_extract_urls_1.py:49 | the docstring's `youtu.be` link gives `SA2iWivDJiE` |
| ExtractUrls.WatchLinkExample | modules/module_extract_urls_1.py:50 | the docstring's watch link gives `_oPAwA_Udwc` |
| ExtractUrls.SegmentLinkId | modules/module_extract_urls_1.py:64-67 | `/embed/<id>` and `/v/<id>`, alone or followed by `/...`, give exactly `<id>` when it has no `/`, as in the copy at data_preparation/data_prep_2.py:28-31 |
| ExtractUrls.VideoIdColumn | modules/module_extract_urls_1.py:140-142 | `apply` succeeds exactly when every link does, giving one id per link in order; the only error is `KeyError('v')` |
| ExtractUrls.UrlDict.Put | modules/module_extract_urls_1.py:109 | `d[k] = v`: a new key goes last, an existing key keeps its place and takes the new value, and the keys stay distinct |
| ExtractUrls.UrlDict.Items | modules/module_extract_urls_1.py:130 | `items()` lists exactly the dictionary's pairs, one per key, in key-insertion order |
| ExtractUrls.ExtractUrlsJson | modules/module_extract_urls_1.py:99-111 | the loop builds the dictionary `JsonUrls` describes: the one after inserting every record in order |
| ExtractUrls.JsonUrlsKeys | modules/module_extract_urls_1.py:105-111 | the dictionary has one key per distinct `titleUrl`, in first-seen order |
| ExtractUrls.JsonUrlsLastWins | modules/module_extract_urls_1.py:107-109 | each URL maps to the `title` of the last record carrying it |
| ExtractUrls.PresentItems | modules/module_extract_urls_1.py:129-132 | `dropna` keeps exactly the pairs whose URL and text are both present, in their order |
| ExtractUrls.Candidates | modules/module_extract_urls_1.py:129-137 | the rows left before the id is computed: exactly the dictionary's URL/text pairs with both present and no `google` in the URL |
| ExtractUrls.WithVideoIds | modules/module_extract_urls_1.py:140-142 | adding the `Video_ID` column changes no URL or text and puts each id on its own row |
| ExtractUrls.VideoIdColumnFails | modules/module_extract_urls_1.py:140-142 | the column raises exactly when the link of some remaining row raises |
| ExtractUrls.IdentifiedRowsSound | modules/module_extract_urls_1.py:146-151 | every row left has an id, the one `getVideoID` gives its URL, and a text whose lower case has no `short`; the rows keep their order |
| ExtractUrls.IdentifiedRowsComplete | modules/module_extract_urls_1.py:146-151 | no row with an id and without `short` in its lower-cased text is dropped |
| ExtractUrls.CreateLinksCsv | modules/module_extract_urls_1.py:113-154 | raises `KeyError('v')` exactly when some candidate link does; otherwise the result has the candidate rows with an id and without `short`, in their original order |
| PyStr.Find | modules/module_extract_urls_1.py:41 | `find` returns the position of the first occurrence, and -1 exactly when there is none |
| PyStr.Contains | modules/module_extract_urls_1.py:136 | `sub in s` holds exactly when `sub` occurs in `s` |
| PyStr.Lower | modules/module_extract_urls_1.py:150 | `lower()` keeps the length and lower-cases character by character |
| PyStr.SplitJoinRoundTrip | modules/module_extract_urls_1.py:65 | joining the pieces of `split('/')` with `/` gives back the path |
| PyStr.SplitPrefixed | modules/module_extract_urls_1.py:65 | a path `/name/...` splits into at least three pieces, and the third is the segment after the prefix |
| PyStr.WordAt | experiments/how_to_identify_a_music_video.py:113 | the word at the start of the text is a non-empty run without whitespace that stops at whitespace or at the end |
| PyStr.WordsKeepEveryOtherCharacter | experiments/how_to_identify_a_music_video.py:113 | `split()` loses only whitespace: its words, joined together, are the non-whitespace characters in order |
| PyStr.WordsAppendAfterSpace | experiments/how_to_identify_a_music_video.py:113 | text that ends in whitespace splits independently of what follows it |
| PyStr.WordsAppendBeforeSpace | experiments/how_to_identify_a_music_video.py:113 | text followed by whitespace or nothing splits independently of what follows |
| PyStr.DescriptionsFuse | experiments/how_to_identify_a_music_video.py:113 | when two texts are joined with no separator, the last word of the first and the first word of the second come out as one word |
| Counting.Counter | experiments/how_to_identify_a_music_video.py:110 | `Counter` has one tally per distinct element, in first-seen order, with the exact number of occurrences |
| Counting.SortIsSorted | experiments/how_to_identify_a_music_video.py:110 | sorting the tallies orders them by count descending, ties in first-seen order |
| Counting.MostCommon | experiments/how_to_identify_a_music_video.py:110 | `most_common(k)` gives `min(k, distinct)` tallies with exact counts, in that order; every element left out comes after every one kept |
| Counting.DistinctKeys | experiments/how_to_identify_a_music_video.py:110 | no element appears twice in `most_common(k)` |
| Counting.MostCommonIsUnique | experiments/how_to_identify_a_music_video.py:110 | these properties single out one list, so the model's `most_common` is the only one that has them |
| Seqs.Filter | modules/module_extract_urls_1.py:135-137 | a boolean mask keeps exactly the rows that satisfy it, as a subsequence of the frame |
| Seqs.FilterCounts | modules/module_identify_music_video_3.py:33 | a mask keeps every row that satisfies it as many times as it occurs |
| Seqs.FilterIdempotent | modules/module_identify_music_video_3.py:33 | applying the same mask twice changes nothing |
| Seqs.Dedup | modules/module_extract_urls_1.py:105-111 | the distinct values, each once, exactly the values of the input |
| Seqs.DedupFirstSeenOrder | modules/module_extract_urls_1.py:105-111 | the distinct values come in the order of their first occurrence |
| MusicProfile.Categories | experiments/how_to_identify_a_music_video.py:101 | the counted categories are exactly those present in some record; missing ones are left out |
| MusicProfile.CategoriesCount | experiments/how_to_identify_a_music_video.py:101 | each category id is counted once per record of that category |
| MusicProfile.CategoriesAppend | experiments/how_to_identify_a_music_video.py:101 | the ids keep the order of the records: those of later records follow those of earlier ones |
| MusicProfile.CategoriesOfRecord | experiments/how_to_identify_a_music_video.py:101 | one record contributes its id when it has one, and nothing otherwise |
| MusicProfile.TopCategories | experiments/how_to_identify_a_music_video.py:101 | at most five categories with their exact counts, counts non-increasing, the most frequent ones |
| MusicProfile.AllTags | experiments/how_to_identify_a_music_video.py:106-108 | every flattened tag is already lower case |
| MusicProfile.LowerIsIdempotent | experiments/how_to_identify_a_music_video.py:107 | lower-casing twice equals lower-casing once |
| MusicProfile.AllTagsOfRecord | experiments/how_to_identify_a_music_video.py:106-108 | a record with tags contributes each of them, lower-cased, in its order |
| MusicProfile.AllTagsAppend | experiments/how_to_identify_a_music_video.py:106-108 | the tags of later records follow those of earlier ones |
| MusicProfile.RecordWithoutTagsIsSkipped | experiments/how_to_identify_a_music_video.py:107 | a record whose `Tags` is `None` contributes nothing |
| MusicProfile.TopTags | experiments/how_to_identify_a_music_video.py:110 | `most_common(len // 100)` of the flattened tags, so at most `len // 100` entries |
| MusicProfile.DescriptionTexts | experiments/how_to_identify_a_music_video.py:113 | the descriptions in record order, or nothing exactly when some record has none |
| MusicProfile.AdjacentDescriptionsFuse | experiments/how_to_identify_a_music_video.py:113 | joining the lower-cased descriptions with `''` fuses the last word of one with the first of the next, so the word list differs from the two lists concatenated |
| MusicProfile.WithoutStopwords | experiments/how_to_identify_a_music_video.py:115-116 | exactly the words that are not stop words, in order, each as often as before |
| MusicProfile.PunctuationRunIsDropped | experiments/how_to_identify_a_music_video.py:119 | `"()"` is a substring of `string.punctuation`, so its entry is dropped |
| MusicProfile.RepeatedMarkIsKept | experiments/how_to_identify_a_music_video.py:119 | `"!!"` is not a substring of `string.punctuation`, so its entry is kept |
| MusicProfile.DescMostCommon | experiments/how_to_identify_a_music_video.py:118-119 | at most `len // 1000` entries, in their order within the top `len // 1000`; an entry of the cut is kept exactly when its word is not a substring of `string.punctuation`; counts are exact |
| MusicProfile.MineProfile | experiments/how_to_identify_a_music_video.py:99-119 | an empty playlist raises `KeyError('CategoryID')`; otherwise it raises exactly when a description is missing; else it gives the three top lists |
| IdentifyMusicVideo.ResetIndex | modules/module_identify_music_video_3.py:41-43 | `reset_index` leaves a frame's rows unchanged and raises `AttributeError` exactly on `None` |
| IdentifyMusicVideo.IdentifyMusicVideo.constructor | modules/module_identify_music_video_3.py:18-23 | the identifier keeps the frame it is given |
| IdentifyMusicVideo.IdentifyMusicVideo.FilterByCategory | modules/module_identify_music_video_3.py:25-33 | exactly the rows of the category, as a subsequence, each as often as in the frame |
| IdentifyMusicVideo.FilterByCategoryIdempotent | modules/module_identify_music_video_3.py:33 | filtering the result again by the same category changes nothing |
| IdentifyMusicVideo.FilterByCategoryAppend | modules/module_identify_music_video_3.py:33 | the filter works row by row: the filter of two concatenated frames is the concatenation of their filters |
| IdentifyMusicVideo.FilterByCategoryDefault | modules/module_identify_music_video_3.py:26 | without an explicit category only category 10 is kept |
| IdentifyMusicVideo.IdentifyMusicVideo.FilterByTags | modules/module_identify_music_video_3.py:35-37 | the stub returns `None` for every frame |
| IdentifyMusicVideo.IdentifyMusicVideo.FilterMusicVideo | modules/module_identify_music_video_3.py:39-43 | always raises `AttributeError` on `reset_index` of the tag filter's `None`, and never returns a frame |
| DataPrep1.SelectWatchedUrls | data_preparation/data_prep_1.py:49-54 | the loop collects `WatchedUrls` of the anchors' `href` values |
| DataPrep1.WatchedUrlsAppend | data_preparation/data_prep_1.py:53-54 | links come out in document order |
| DataPrep1.WatchedUrlsMembers | data_preparation/data_prep_1.py:53 | a link is collected exactly when some anchor carries it and it matches the pattern |
| DataPrep1.WatchedUrlsKeepDuplicates | data_preparation/data_prep_1.py:49-54 | a matching link is collected once per anchor carrying it, unlike the module's dictionary |
| DataPrep1.DotMatchesAnyCharacter | data_preparation/data_prep_1.py:53 | each unescaped `.` of the pattern accepts any character but a newline |
| DataPrep2.LinksWithVideoIds | data_preparation/data_prep_2.py:36-43 | succeeds exactly when every link does, with one row per link carrying the link and its id, `None`s kept; the only error is `KeyError('v')` |
| DataPrep2.UnrecognisedLinkKeepsItsRow | data_preparation/data_prep_2.py:32-39 | a link on another host keeps its row with no id |

## Left out

- HTML parsing with BeautifulSoup is left out. `extractURLs_HTML`
  (modules/module_extract_urls_1.py:78-97) and the `soup.findAll('a')` call
  of data_preparation/data_prep_1.py:48 are foreign library calls. The
  model starts from the anchors' `href` values, and `createLinksCSV` is
  modelled on its JSON branch.
- `cleanHistory` has no member of its own: it is `RemoveHeadtag` with the
  default tag.
- `ParseYtHistory` only stores its constructor arguments. Its methods take
  the history as a parameter.
- `urllib.parse.urlparse` and `parse_qs` are not modelled. A link reaches
  the model already parsed, through the `urlparse` parameter; `ParsedUrl`
  holds the hostname, the path, and a map from each query key to its
  non-empty list of values.
- The playlist fetch loop, the API client, the key file, file and CSV
  reading and writing, and the progress `print` calls are I/O and are left
  out. This includes the count printed at data_preparation/data_prep_1.py:56,
  which is the length of the collected list.
- DataFrame index labels are not modelled. `reset_index` and
  `inplace=True` only renumber rows; a sequence has no labels.
- IdentifyMusicVideo.IdentifyMusicVideo.FilterByCategory: `categoryId` is
  an integer. The API delivers it as a string, and then `== 10` only
  matches after a CSV round trip has turned it into a number.
- MusicProfile.TopCategories: ties are ordered first-seen, as in
  `most_common`. pandas `value_counts` does not document the order of ties.
- MusicProfile.TopTags: `int(0.01 * len)` is modelled as `len // 100`;
  floating-point rounding is not modelled.
- MusicProfile.DescMostCommon: `int(0.001 * len)` is modelled as
  `len // 1000`; floating-point rounding is not modelled.
- PyStr.Lower lower-cases ASCII letters only. Other scripts' case mappings
  are not modelled.
- PyStr.IsSpace lists Python's whitespace code points explicitly; no other
  Unicode property is modelled.
- MusicProfile.MineProfile: the `TypeError` carries a fixed message; the
  index of the failing item is not modelled.
- Only `SegmentLinkId` covers the docstring's `/embed/` and `/v/` links,
  as a general lemma. There are no literal examples for them.
- The scripts and modules that only fetch, merge or store data are not part
  of this model:
  - `modules/module_fetch_video_details_2.py`;
  - `data_preparation/data_prep_3.py`;
  - `song_database/create_songs_DB.py` and
    `song_database/create_songs_DB_3.py`, which call the modelled modules
    and read and write the tables;
  - the animation script.
- The later versions of the scripts are not part of this model:
  - `0. music_vid_identify/`;
  - `1. modules/`;
  - `2. song_database/`;
  - `3. animation/`.

  Their checks, verdict, duration filter and manual merge are listed at the
  top of this file.
