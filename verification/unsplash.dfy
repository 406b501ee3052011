/** Image selection for a render (src/services/unsplash.ts): without an
    access key, or when the search request fails, a fixed list of numbered
    placeholder images; otherwise the regular-size URL of every search
    result, in order. */
module Unsplash {
  import opened Wrappers
  import opened Text

  const DefaultCount: nat := 5
  const PlaceholderBase: string := "https://placehold.co/1080x1920/6366f1/white?text=Image+"

  /** A search result; only `urls.regular` is read. */
  datatype Photo = Photo(regular: string)

  /** The placeholder for position `i`, numbered from 1. */
  function Placeholder(i: nat): string {
    PlaceholderBase + NatToString(i + 1)
  }

  /** `Array(count).fill(0).map((_, i) => placeholder i)`. */
  function Placeholders(count: nat): (r: seq<string>)
    ensures |r| == count
    ensures forall i :: 0 <= i < count ==> r[i] == Placeholder(i)
  {
    seq(count, i requires 0 <= i < count => Placeholder(i))
  }

  /** `results.map(img => img.urls.regular)`. */
  function RegularUrls(photos: seq<Photo>): (r: seq<string>)
    ensures |r| == |photos|
    ensures forall i :: 0 <= i < |photos| ==> r[i] == photos[i].regular
  {
    seq(|photos|, i requires 0 <= i < |photos| => photos[i].regular)
  }

  /** `fetchImages(query, count)`. `count` is `None` when the caller omits it,
      `accessKey` is the configured key, and `search` is the outcome of the
      search request made with `query` and `count`: the results, or the
      error it threw. */
  function FetchImages(query: string, count: Option<nat>, accessKey: Option<string>,
                       search: Result<seq<Photo>, string>): seq<string>
  {
    var n := count.GetOr(DefaultCount);
    if accessKey.None? || |accessKey.value| == 0 then Placeholders(n)
    else match search
      case Failure(_) => Placeholders(n)
      case Success(photos) => RegularUrls(photos)
  }

  // ---------------------------------------------------------------------
  // Properties

  /** Without a usable key the request outcome is irrelevant and the result
      is exactly `count` placeholders, five when no count is given. */
  lemma NoKeyGivesPlaceholders(query: string, count: Option<nat>, accessKey: Option<string>,
                               search: Result<seq<Photo>, string>)
    requires accessKey.None? || accessKey == Some("")
    ensures FetchImages(query, count, accessKey, search) == Placeholders(count.GetOr(DefaultCount))
    ensures count.None? ==> |FetchImages(query, count, accessKey, search)| == 5
  {
  }

  /** A failed search falls back to the same list as having no key at all. */
  lemma FailureFallsBackLikeNoKey(query: string, count: Option<nat>, key: string, e: string,
                                  other: Result<seq<Photo>, string>)
    ensures FetchImages(query, count, Some(key), Failure(e)) == FetchImages(query, count, None, other)
  {
  }

  /** A successful search yields one URL per result, in result order, however
      many results there are (possibly none, possibly not `count`). */
  lemma SuccessGivesRegularUrls(query: string, count: Option<nat>, key: string, photos: seq<Photo>)
    requires |key| > 0
    ensures var r := FetchImages(query, count, Some(key), Success(photos));
            |r| == |photos| && forall i :: 0 <= i < |r| ==> r[i] == photos[i].regular
  {
  }

  /** The number at the end of placeholder `i` reads back as `i + 1`. */
  lemma PlaceholderNumber(i: nat)
    ensures |Placeholder(i)| > |PlaceholderBase|
    ensures Placeholder(i)[..|PlaceholderBase|] == PlaceholderBase
    ensures AllDigits(Placeholder(i)[|PlaceholderBase|..])
    ensures ParseNat(Placeholder(i)[|PlaceholderBase|..]) == i + 1
  {
    var p := Placeholder(i);
    assert p[|PlaceholderBase|..] == NatToString(i + 1);
    ParseNatToString(i + 1);
  }

  /** Placeholders at different positions differ. */
  lemma PlaceholdersDistinct(i: nat, j: nat)
    requires i != j
    ensures Placeholder(i) != Placeholder(j)
  {
    PlaceholderNumber(i);
    PlaceholderNumber(j);
  }
}
