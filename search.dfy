/** Search by image embedding (`search_similar_paintings`): the index hits are
    de-duplicated by URL, projected to display entries and capped at top_k. */
module Search {
  import opened Points
  import opened Dedup
  import opened Index

  /** Number of hits requested from the index per search. */
  const SearchLimit := 50
  /** `top_k` the upload page passes. */
  const UploadTopK := 8
  /** Author shown when the payload has none. */
  const UnknownArtist := "Unknown Artist"

  datatype Painting = Painting(imageUrl: string, author: string, score: Option<real>)

  /** The `{image_url, author, score}` entry built from one kept hit. */
  function ToPainting(p: Point): Painting {
    Painting(Url(p), p.payload.author.GetOr(UnknownArtist), p.score)
  }

  ghost function Paintings(ps: seq<Point>): (r: seq<Painting>)
    ensures |r| == |ps|
    ensures forall k :: 0 <= k < |ps| ==> r[k] == ToPainting(ps[k])
  {
    seq(|ps|, k requires 0 <= k < |ps| => ToPainting(ps[k]))
  }

  /** How many entries the loop collects at most. The length test comes after an
      append, so a `top_k` below 1 still lets the first entry through. */
  function Cap(topK: int): nat {
    if topK < 1 then 1 else topK
  }

  /** Reference result: the first `Cap(topK)` de-duplicated hits, projected. */
  ghost function TopPaintings(results: seq<Point>, topK: int): seq<Painting> {
    Paintings(Take(Dedupe(results), Cap(topK)))
  }

  lemma PaintingsAppend(ps: seq<Point>, p: Point)
    ensures Paintings(ps + [p]) == Paintings(ps) + [ToPainting(p)]
  {
  }

  /** Once the cap is reached on a prefix of the hits, the rest cannot change the result. */
  lemma CapReached(results: seq<Point>, i: int, topK: int)
    requires 0 <= i <= |results|
    requires |Dedupe(results[..i])| == Cap(topK)
    ensures Paintings(Dedupe(results[..i])) == TopPaintings(results, topK)
  {
    DedupePrefix(results, i);
  }

  /** The result holds at most `top_k` entries (at least one when any hit has a URL),
      one per distinct non-empty URL, each the projection of a kept hit in hit order. */
  lemma TopPaintingsSpec(results: seq<Point>, topK: int)
    ensures |TopPaintings(results, topK)| == Min(Cap(topK), |UrlsOf(results) - {""}|)
    ensures forall k :: 0 <= k < |TopPaintings(results, topK)| ==>
              TopPaintings(results, topK)[k] == ToPainting(Dedupe(results)[k])
    ensures forall k :: 0 <= k < |TopPaintings(results, topK)| ==> TopPaintings(results, topK)[k].imageUrl != ""
    ensures forall i, j :: 0 <= i < j < |TopPaintings(results, topK)| ==>
              TopPaintings(results, topK)[i].imageUrl != TopPaintings(results, topK)[j].imageUrl
  {
    DedupeLength(results);
    DedupeNoEmptyUrls(results);
    DedupeDistinctUrls(results);
  }

  /** Scores all present and best first. */
  ghost predicate DescendingScores(scores: seq<Option<real>>) {
    && (forall k :: 0 <= k < |scores| ==> scores[k].Some?)
    && (forall i, j :: 0 <= i < j < |scores| ==> scores[i].value >= scores[j].value)
  }

  ghost function HitScores(ps: seq<Point>): (r: seq<Option<real>>)
    ensures |r| == |ps| && forall k :: 0 <= k < |ps| ==> r[k] == ps[k].score
  {
    seq(|ps|, k requires 0 <= k < |ps| => ps[k].score)
  }

  /** The loop keeps the hits in the order the index gave them, so hits sorted
      by descending score give entries sorted by descending score: the kept hits'
      scores are descending, and each entry carries its kept hit's score. */
  lemma TopPaintingsKeepScoreOrder(results: seq<Point>, topK: int)
    requires DescendingScores(HitScores(results))
    ensures DescendingScores(HitScores(Take(Dedupe(results), Cap(topK))))
    ensures forall k :: 0 <= k < |TopPaintings(results, topK)| ==>
              TopPaintings(results, topK)[k].score == Take(Dedupe(results), Cap(topK))[k].score
  {
    var kept := Take(Dedupe(results), Cap(topK));
    var hs, ks := HitScores(results), HitScores(kept);
    var idx := FirstIndices(results);
    TopPaintingsSpec(results, topK);
    DedupeKeepsFirstOccurrences(results);
    forall k | 0 <= k < |kept| ensures ks[k] == hs[idx[k]] {
    }
    forall i, j | 0 <= i < j < |kept| ensures ks[i].value >= ks[j].value {
      assert idx[i] < idx[j];
    }
  }

  /** The upload page asks for 8 entries: it gets min(8, distinct non-empty URLs
      among the hits) entries with distinct URLs; when the index returns its hits
      by descending score, the entries come by descending score too. */
  lemma UploadSearchSpec(results: seq<Point>)
    ensures |TopPaintings(results, UploadTopK)| == Min(UploadTopK, |UrlsOf(results) - {""}|)
    ensures forall i, j :: 0 <= i < j < |TopPaintings(results, UploadTopK)| ==>
              TopPaintings(results, UploadTopK)[i].imageUrl != TopPaintings(results, UploadTopK)[j].imageUrl
    ensures DescendingScores(HitScores(results)) ==>
              && DescendingScores(HitScores(Take(Dedupe(results), UploadTopK)))
              && forall k :: 0 <= k < |TopPaintings(results, UploadTopK)| ==>
                   TopPaintings(results, UploadTopK)[k].score == Take(Dedupe(results), UploadTopK)[k].score
  {
    TopPaintingsSpec(results, UploadTopK);
    if DescendingScores(HitScores(results)) {
      TopPaintingsKeepScoreOrder(results, UploadTopK);
    }
  }

  /** The de-duplicating, capped loop of `search_similar_paintings`. */
  method CollectPaintings(results: seq<Point>, topK: int) returns (paintings: seq<Painting>)
    ensures paintings == TopPaintings(results, topK)
    ensures |paintings| == Min(Cap(topK), |UrlsOf(results) - {""}|)
    ensures forall k :: 0 <= k < |paintings| ==> paintings[k].imageUrl != ""
    ensures forall i, j :: 0 <= i < j < |paintings| ==> paintings[i].imageUrl != paintings[j].imageUrl
  {
    var seen: set<string> := {};
    paintings := [];
    var i := 0;
    while i < |results|
      invariant 0 <= i <= |results|
      invariant paintings == Paintings(Dedupe(results[..i]))
      invariant seen == UrlsOf(Dedupe(results[..i]))
      invariant |paintings| < Cap(topK)
    {
      ghost var kept := Dedupe(results[..i]);
      assert results[..i + 1][..i] == results[..i];
      var result := results[i];
      var imageUrl := result.payload.imageUrl;
      if imageUrl != "" && imageUrl !in seen {
        assert Dedupe(results[..i + 1]) == kept + [result];
        UrlsOfAppend(kept, result);
        PaintingsAppend(kept, result);
        seen := seen + {imageUrl};
        var author := result.payload.author.GetOr(UnknownArtist);
        var score := result.score;
        paintings := paintings + [Painting(imageUrl, author, score)];
        if |paintings| >= topK {
          CapReached(results, i + 1, topK);
          break;
        }
      } else {
        assert Dedupe(results[..i + 1]) == kept;
      }
      i := i + 1;
    }
    if i == |results| {
      assert results[..i] == results;
    }
    TopPaintingsSpec(results, topK);
  }

  /** `search_similar_paintings`: one search query on the embedding, then the loop. */
  method SearchSimilarPaintings(client: IndexClient, embedding: seq<real>, topK: int)
    returns (r: Result<seq<Painting>>)
    modifies client
    ensures client.queries == old(client.queries) + [Search(CollectionName, embedding, SearchLimit)]
    ensures match client.respond(Search(CollectionName, embedding, SearchLimit))
            case Err(e) => r == Err(e)
            case Ok(results) => r == Ok(TopPaintings(results, topK))
  {
    var hits := client.Call(Search(CollectionName, embedding, SearchLimit));
    match hits
    case Err(e) =>
      r := Err(e);
    case Ok(results) =>
      var paintings := CollectPaintings(results, topK);
      r := Ok(paintings);
  }
}
