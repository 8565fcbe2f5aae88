/**
 * The statistics mined from a playlist of music videos: the most frequent
 * categories, the most frequent (lower-cased) tags, and the most frequent
 * description words once stop words and punctuation are removed.
 */
module MusicProfile {
  import opened Wrappers
  import opened Seqs
  import opened PyStr
  import opened Counting
  import opened VideoRecords

  // ---------------------------------------------------------------------------
  // Categories

  function CategoryOf(r: VideoDetails): Option<int> {
    r.categoryId
  }

  /** The `CategoryID` column without its missing values, in record order (what `value_counts` counts). */
  function Categories(records: seq<VideoDetails>): (ids: seq<int>)
    ensures |ids| <= |records|
    ensures forall id :: id in ids <==> exists r :: r in records && r.categoryId == Some(id)
  {
    if records == [] then []
    else
      var rest := Categories(records[1..]);
      assert forall r :: r in records <==> r == records[0] || r in records[1..];
      match records[0].categoryId
      case None => rest
      case Some(id) => [id] + rest
  }

  /** Every id occurs as often as there are records of that category. */
  lemma {:induction false} CategoriesCount(records: seq<VideoDetails>)
    ensures forall id :: multiset(Categories(records))[id] == multiset(Map(CategoryOf, records))[Some(id)]
    decreases |records|
  {
    if records != [] {
      var rest := records[1..];
      CategoriesCount(rest);
      assert Map(CategoryOf, records) == [records[0].categoryId] + Map(CategoryOf, rest);
      var ms := multiset(Map(CategoryOf, records));
      assert ms == multiset{records[0].categoryId} + multiset(Map(CategoryOf, rest));
      match records[0].categoryId
      case None =>
        assert Categories(records) == Categories(rest);
      case Some(c) =>
        assert Categories(records) == [c] + Categories(rest);
        assert multiset(Categories(records)) == multiset{c} + multiset(Categories(rest));
    }
  }

  /** The ids keep the order of the records. */
  lemma {:induction false} CategoriesAppend(a: seq<VideoDetails>, b: seq<VideoDetails>)
    ensures Categories(a + b) == Categories(a) + Categories(b)
    decreases |a|
  {
    if a == [] {
      assert a + b == b;
    } else {
      assert (a + b)[0] == a[0];
      assert (a + b)[1..] == a[1..] + b;
      CategoriesAppend(a[1..], b);
    }
  }

  /** One record contributes its id when it has one, and nothing otherwise. */
  lemma CategoriesOfRecord(r: VideoDetails)
    ensures Categories([r]) == if r.categoryId.Some? then [r.categoryId.value] else []
  {
    assert [r][1..] == [];
  }

  /** `df['CategoryID'].value_counts()[:5]`: at most five categories, the most frequent first. */
  function TopCategories(records: seq<VideoDetails>): (top: seq<Tally<int>>)
    ensures |top| <= 5
    ensures forall i, j :: 0 <= i < j < |top| ==> top[i].count >= top[j].count
    ensures IsMostCommon(Categories(records), 5, top)
  {
    MostCommon(Categories(records), 5)
  }

  // ---------------------------------------------------------------------------
  // Tags

  /** The lower-cased tags of one record; a record without tags contributes none. */
  function TagsOf(r: VideoDetails): seq<string> {
    match r.tags
    case None => []
    case Some(ts) => Map(Lower, ts)
  }

  lemma LowerIsIdempotent(s: string)
    ensures Lower(Lower(s)) == Lower(s)
  {
    assert forall i :: 0 <= i < |s| ==> LowerChar(LowerChar(s[i])) == LowerChar(s[i]);
  }

  /** `all_tags`: every record's tags, lower-cased, record after record. */
  function AllTags(records: seq<VideoDetails>): (tags: seq<string>)
    ensures forall t :: t in tags ==> Lower(t) == t
  {
    if records == [] then []
    else
      var own := TagsOf(records[0]);
      forall t | t in own
        ensures Lower(t) == t
      {
        var k :| 0 <= k < |own| && own[k] == t;
        LowerIsIdempotent(records[0].tags.value[k]);
      }
      own + AllTags(records[1..])
  }

  /** Flattening follows the order of the records. */
  lemma {:induction false} AllTagsAppend(a: seq<VideoDetails>, b: seq<VideoDetails>)
    ensures AllTags(a + b) == AllTags(a) + AllTags(b)
    decreases |a|
  {
    if a == [] {
      assert a + b == b;
    } else {
      assert (a + b)[0] == a[0];
      assert (a + b)[1..] == a[1..] + b;
      AllTagsAppend(a[1..], b);
    }
  }

  /** One record with tags contributes each of them, lower-cased, in its order. */
  lemma AllTagsOfRecord(r: VideoDetails)
    requires r.tags.Some?
    ensures AllTags([r]) == Map(Lower, r.tags.value)
  {
    assert [r][1..] == [];
  }

  /** A record whose `Tags` is missing changes nothing in the flattened list. */
  lemma RecordWithoutTagsIsSkipped(a: seq<VideoDetails>, r: VideoDetails, b: seq<VideoDetails>)
    requires r.tags.None?
    ensures AllTags(a + [r] + b) == AllTags(a + b)
  {
    assert AllTags([r]) == [] by {
      assert [r][1..] == [];
    }
    AllTagsAppend(a, [r]);
    assert AllTags(a + [r]) == AllTags(a);
    AllTagsAppend(a + [r], b);
    AllTagsAppend(a, b);
  }

  /** `Counter(all_tags).most_common(int(0.01 * len(all_tags)))`. */
  function TopTags(records: seq<VideoDetails>): (top: seq<Tally<string>>)
    ensures |top| <= |AllTags(records)| / 100
    ensures IsMostCommon(AllTags(records), |AllTags(records)| / 100, top)
  {
    var tags := AllTags(records);
    MostCommon(tags, |tags| / 100)
  }

  // ---------------------------------------------------------------------------
  // Description words

  /** The `Description` column, or `None` when some record has no description (joining it fails). */
  function DescriptionTexts(records: seq<VideoDetails>): (texts: Option<seq<string>>)
    ensures texts.None? <==> exists i :: 0 <= i < |records| && records[i].description.None?
    ensures texts.Some? ==>
      && |texts.value| == |records|
      && (forall i :: 0 <= i < |records| ==> records[i].description == Some(texts.value[i]))
  {
    if records == [] then Some([])
    else
      var rest := DescriptionTexts(records[1..]);
      assert forall i :: 1 <= i < |records| ==> records[i] == records[1..][i - 1];
      if records[0].description.None? || rest.None? then None
      else Some([records[0].description.value] + rest.value)
  }

  /** `''.join(descriptions.str.lower()).split()`: the descriptions are glued together before splitting. */
  function DescWords(texts: seq<string>): seq<string> {
    Words(Concat(Map(Lower, texts)))
  }

  /**
   * Gluing with the empty string fuses the last word of one description with
   * the first word of the next: the two words come out as one.
   */
  lemma AdjacentDescriptionsFuse(d1: string, d2: string, a: string, w1: string, w2: string, b: string)
    requires Lower(d1) == a + w1 && Lower(d2) == w2 + b
    requires a == [] || IsSpace(a[|a| - 1])
    requires IsWord(w1) && IsWord(w2)
    requires b == [] || IsSpace(b[0])
    ensures DescWords([d1]) == Words(a) + [w1]
    ensures DescWords([d2]) == [w2] + Words(b)
    ensures DescWords([d1, d2]) == Words(a) + ([w1 + w2] + Words(b))
    ensures DescWords([d1, d2]) != DescWords([d1]) + DescWords([d2])
  {
    assert Map(Lower, [d1]) == [Lower(d1)];
    assert Map(Lower, [d2]) == [Lower(d2)];
    assert Map(Lower, [d1, d2]) == [Lower(d1), Lower(d2)];
    assert Concat([Lower(d1)]) == Lower(d1) by {
      assert [Lower(d1)][1..] == [];
    }
    assert Concat([Lower(d2)]) == Lower(d2) by {
      assert [Lower(d2)][1..] == [];
    }
    assert Concat([Lower(d1), Lower(d2)]) == Lower(d1) + Lower(d2) by {
      assert [Lower(d1), Lower(d2)][1..] == [Lower(d2)];
    }
    DescriptionsFuse(a, w1, w2, b);
  }

  /** `[word for word in words if word not in stopwords]`. */
  function WithoutStopwords(words: seq<string>, stopwords: seq<string>): (kept: seq<string>)
    ensures forall w :: w in kept <==> w in words && w !in stopwords
    ensures IsSubsequence(kept, words)
    ensures forall w :: w !in stopwords ==> multiset(kept)[w] == multiset(words)[w]
  {
    var notStopword := (w: string) => w !in stopwords;
    FilterCounts(words, notStopword);
    Filter(words, notStopword)
  }

  /** Python's `string.punctuation`. */
  const Punctuation: string := "!\"#$%&'()*+,-./:;<=>?@[\\]^_`{|}~"

  /** `word[0] not in string.punctuation`: a substring test, not a character test. */
  predicate NotPunctuation(t: Tally<string>) {
    !Contains(Punctuation, t.key)
  }

  /** A run of marks that happens to appear in `string.punctuation` is dropped. */
  lemma PunctuationRunIsDropped()
    ensures !NotPunctuation(Tally("()", 1))
  {
    assert Punctuation[7] == '(' && Punctuation[8] == ')';
    assert Punctuation[7..9] == "()";
    assert MatchAt(Punctuation, "()", 7);
  }

  /** A run of marks that does not appear in `string.punctuation` is kept. */
  lemma RepeatedMarkIsKept()
    ensures NotPunctuation(Tally("!!", 1))
  {
    forall j | 0 <= j
      ensures !MatchAt(Punctuation, "!!", j)
    {
      if j + 2 <= |Punctuation| {
        assert Punctuation[j..j + 2][1] == Punctuation[j + 1];
      }
    }
  }

  /**
   * `most_common(int(0.001 * len(filtered)))` and then the punctuation
   * filter: the cut is made first, so fewer than the bound may remain.
   */
  function DescMostCommon(filtered: seq<string>): (top: seq<Tally<string>>)
    ensures |top| <= |filtered| / 1000
    ensures IsSubsequence(top, MostCommon(filtered, |filtered| / 1000))
    ensures forall t :: t in top <==> t in MostCommon(filtered, |filtered| / 1000) && NotPunctuation(t)
    ensures forall i :: 0 <= i < |top| ==>
      && !Contains(Punctuation, top[i].key)
      && top[i].key in filtered
      && top[i].count == multiset(filtered)[top[i].key]
  {
    var candidates := MostCommon(filtered, |filtered| / 1000);
    var top := Filter(candidates, NotPunctuation);
    assert forall i :: 0 <= i < |top| ==> top[i] in candidates;
    top
  }

  // ---------------------------------------------------------------------------
  // The whole profile

  datatype Profile = Profile(
    topCategories: seq<Tally<int>>,
    topTags: seq<Tally<string>>,
    descMostCommon: seq<Tally<string>>)

  /**
   * Mines the profile from the playlist records. An empty playlist has no
   * `CategoryID` column; a missing description makes the join fail.
   */
  function MineProfile(records: seq<VideoDetails>, stopwords: seq<string>): (r: Result<Profile, PyError>)
    ensures records == [] ==> r == Failure(KeyError("CategoryID"))
    ensures r.Failure? <==> records == [] || exists i :: 0 <= i < |records| && records[i].description.None?
    ensures r.Success? ==>
      && |r.value.topCategories| <= 5
      && IsMostCommon(Categories(records), 5, r.value.topCategories)
      && IsMostCommon(AllTags(records), |AllTags(records)| / 100, r.value.topTags)
      && DescriptionTexts(records).Some?
      && r.value.descMostCommon
         == DescMostCommon(WithoutStopwords(DescWords(DescriptionTexts(records).value), stopwords))
  {
    if records == [] then Failure(KeyError("CategoryID"))
    else
      match DescriptionTexts(records)
      case None => Failure(TypeError("sequence item: expected str instance"))
      case Some(texts) =>
        var filtered := WithoutStopwords(DescWords(texts), stopwords);
        Success(Profile(TopCategories(records), TopTags(records), DescMostCommon(filtered)))
  }
}
