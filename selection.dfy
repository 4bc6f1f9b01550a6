/** The session's selection state machine: no anchor means browsing a random
    sample of the collection; an anchor brings up its memoised similar-set. */
module Selection {
  import opened Points
  import opened Dedup
  import opened Index

  /** Points fetched by one browse scroll. */
  const ScrollLimit := 100
  /** Points shown when browsing. */
  const BrowseCap := 30
  /** Points fetched by one recommend query. */
  const RecommendLimit := 100
  /** Points kept in the similar-set. */
  const SimilarCap := 15

  /** A random reordering, as `random.shuffle` performs: any function that
      returns a permutation of its argument. The random source is outside the model. */
  type Shuffler = f: seq<Point> -> seq<Point> | forall s :: multiset(f(s)) == multiset(s)
    witness (s: seq<Point>) => s

  const BrowseQuery := Scroll(CollectionName, ScrollLimit, false)

  function RecommendQuery(anchor: Point): Query {
    Recommend(CollectionName, [anchor.id], RecommendLimit)
  }

  /** What the memoised similar-set is made of, given the recommend hits. */
  ghost function SimilarSet(recommended: seq<Point>): seq<Point> {
    Take(Dedupe(recommended), SimilarCap)
  }

  /** The similar-set holds at most 15 points, as many as the recommend hits have
      distinct non-empty URLs up to that cap, with no empty and no repeated URL,
      in the order the index returned them. */
  lemma SimilarSetSpec(recommended: seq<Point>)
    ensures |SimilarSet(recommended)| == Min(SimilarCap, |UrlsOf(recommended) - {""}|)
    ensures NoEmptyUrls(SimilarSet(recommended)) && DistinctUrls(SimilarSet(recommended))
    ensures SimilarSet(recommended) <= Dedupe(recommended)
  {
    DedupeLength(recommended);
    DedupeNoEmptyUrls(recommended);
    DedupeDistinctUrls(recommended);
  }

  /** A browse sample of scrolled points: as many as the cap allows of the
      de-duplicated points, none twice, in some order. */
  ghost predicate IsBrowseSample(sample: seq<Point>, scrolled: seq<Point>) {
    && |sample| == Min(BrowseCap, |UrlsOf(scrolled) - {""}|)
    && multiset(sample) <= multiset(Dedupe(scrolled))
    && NoEmptyUrls(sample)
    && DistinctUrls(sample)
  }

  /** Reordering keeps the URLs and their distinctness. */
  lemma {:induction false} PermutationKeepsUrls(s: seq<Point>, t: seq<Point>)
    requires multiset(t) == multiset(s)
    ensures |t| == |s| && UrlsOf(t) == UrlsOf(s)
    ensures NoEmptyUrls(s) ==> NoEmptyUrls(t)
    ensures DistinctUrls(s) ==> DistinctUrls(t)
  {
    assert |t| == |multiset(t)| == |multiset(s)| == |s|;
    assert forall p :: p in t <==> p in s by {
      forall p ensures p in t <==> p in s {
        assert p in t <==> p in multiset(t);
        assert p in s <==> p in multiset(s);
      }
    }
    if NoEmptyUrls(s) {
      forall k | 0 <= k < |t| ensures Url(t[k]) != "" {
        assert t[k] in s;
        var j :| 0 <= j < |s| && s[j] == t[k];
      }
    }
    DistinctUrlsIffCard(s);
    DistinctUrlsIffCard(t);
  }

  /** A prefix of a permutation of the de-duplicated points is a browse sample. */
  lemma BrowseSampleOfShuffle(scrolled: seq<Point>, shuffled: seq<Point>)
    requires multiset(shuffled) == multiset(Dedupe(scrolled))
    ensures IsBrowseSample(Take(shuffled, BrowseCap), scrolled)
  {
    var d := Dedupe(scrolled);
    DedupeNoEmptyUrls(scrolled);
    DedupeDistinctUrls(scrolled);
    DedupeLength(scrolled);
    PermutationKeepsUrls(d, shuffled);
    var m := Min(BrowseCap, |shuffled|);
    assert shuffled == shuffled[..m] + shuffled[m..];
    assert multiset(shuffled) == multiset(shuffled[..m]) + multiset(shuffled[m..]);
  }

  /** The body of `get_initial_records` after the scroll: de-duplicate, shuffle,
      keep the first 30. */
  method SampleForBrowsing(scrolled: seq<Point>, shuffle: Shuffler) returns (sample: seq<Point>)
    ensures sample == Take(shuffle(Dedupe(scrolled)), BrowseCap)
    ensures IsBrowseSample(sample, scrolled)
  {
    var unique := FilterUniqueRecords(scrolled);
    var shuffled := shuffle(unique);
    sample := Take(shuffled, BrowseCap);
    BrowseSampleOfShuffle(scrolled, shuffled);
  }

  /** `get_initial_records`: one scroll of 100 points without vectors, then the sample. */
  method GetInitialRecords(client: IndexClient, shuffle: Shuffler) returns (r: Result<seq<Point>>)
    modifies client
    ensures client.queries == old(client.queries) + [BrowseQuery]
    ensures match client.respond(BrowseQuery)
            case Err(e) => r == Err(e)
            case Ok(scrolled) =>
              r == Ok(Take(shuffle(Dedupe(scrolled)), BrowseCap)) && IsBrowseSample(r.value, scrolled)
  {
    var page := client.Call(BrowseQuery);
    match page
    case Err(e) =>
      r := Err(e);
    case Ok(scrolled) =>
      var sample := SampleForBrowsing(scrolled, shuffle);
      r := Ok(sample);
  }

  /** The two session fields and the transitions between them. */
  class Session {
    /** The anchor; None while browsing. */
    var selectedRecord: Option<Point>
    /** The memoised similar-set of the anchor; None until first read. */
    var similarRecords: Option<seq<Point>>

    /** A cached similar-set belongs to the current anchor: it is what a fresh
        recommend query on that anchor would give. */
    ghost predicate Valid(client: IndexClient)
      reads this
    {
      similarRecords.Some? ==>
        && selectedRecord.Some?
        && client.respond(RecommendQuery(selectedRecord.value)).Ok?
        && similarRecords.value == SimilarSet(client.respond(RecommendQuery(selectedRecord.value)).value)
    }

    /** A new session browses and has nothing cached. */
    constructor ()
      ensures selectedRecord == None && similarRecords == None
      ensures forall client: IndexClient :: Valid(client)
    {
      selectedRecord := None;
      similarRecords := None;
    }

    /** `set_selected_record`: change the anchor and drop the cache. */
    method SetSelectedRecord(newRecord: Point)
      modifies this
      ensures selectedRecord == Some(newRecord) && similarRecords == None
      ensures forall client: IndexClient :: Valid(client)
    {
      selectedRecord := Some(newRecord);
      similarRecords := None;
    }

    /** `clear_selection`: back to browsing, nothing cached. */
    method ClearSelection()
      modifies this
      ensures selectedRecord == None && similarRecords == None
      ensures forall client: IndexClient :: Valid(client)
    {
      selectedRecord := None;
      similarRecords := None;
    }

    /** `get_similar_records`. With an anchor, the recommend query runs only when
        nothing is cached, and its de-duplicated, capped hits are cached; without
        an anchor, a fresh browse sample is returned and the session is untouched.
        A failed query leaves the session as it was. */
    method GetSimilarRecords(client: IndexClient, shuffle: Shuffler) returns (r: Result<seq<Point>>)
      requires Valid(client)
      modifies this, client
      ensures Valid(client)
      ensures selectedRecord == old(selectedRecord)
      ensures old(selectedRecord).None? ==>
                && similarRecords == old(similarRecords)
                && client.queries == old(client.queries) + [BrowseQuery]
                && match client.respond(BrowseQuery)
                   case Err(e) => r == Err(e)
                   case Ok(scrolled) =>
                     r == Ok(Take(shuffle(Dedupe(scrolled)), BrowseCap)) && IsBrowseSample(r.value, scrolled)
      ensures old(selectedRecord).Some? && old(similarRecords).Some? ==>
                && similarRecords == old(similarRecords)
                && client.queries == old(client.queries)
                && r == Ok(old(similarRecords).value)
      ensures old(selectedRecord).Some? && old(similarRecords).None? ==>
                && client.queries == old(client.queries) + [RecommendQuery(old(selectedRecord).value)]
                && match client.respond(RecommendQuery(old(selectedRecord).value))
                   case Err(e) => r == Err(e) && similarRecords == None
                   case Ok(recommended) =>
                     r == Ok(SimilarSet(recommended)) && similarRecords == Some(SimilarSet(recommended))
      ensures old(selectedRecord).Some? && r.Ok? ==>
                && client.respond(RecommendQuery(old(selectedRecord).value)).Ok?
                && r.value == SimilarSet(client.respond(RecommendQuery(old(selectedRecord).value)).value)
    {
      if selectedRecord.None? {
        r := GetInitialRecords(client, shuffle);
      } else if similarRecords.Some? {
        r := Ok(similarRecords.value);
      } else {
        var hits := client.Call(RecommendQuery(selectedRecord.value));
        match hits
        case Err(e) =>
          r := Err(e);
        case Ok(recommended) =>
          var unique := FilterUniqueRecords(recommended);
          similarRecords := Some(Take(unique, SimilarCap));
          r := Ok(similarRecords.value);
      }
    }
  }

  /** Two reads with no select or reset in between. Once the first read succeeds,
      the second returns the same set and issues no query, so at most one
      recommend query is sent. A failed first read caches nothing, so the second
      read sends the recommend query again and fails the same way, because the
      model's index does not change. */
  method ReadTwice(session: Session, client: IndexClient, shuffle: Shuffler)
    returns (first: Result<seq<Point>>, second: Result<seq<Point>>)
    requires session.Valid(client) && session.selectedRecord.Some?
    modifies session, client
    ensures session.Valid(client)
    ensures first.Ok? ==> second == first
    ensures first.Ok? ==>
              client.queries == old(client.queries) +
                (if old(session.similarRecords).None? then [RecommendQuery(old(session.selectedRecord).value)] else [])
    ensures first.Err? ==>
              && second == first
              && session.similarRecords == None
              && client.queries == old(client.queries) +
                   [RecommendQuery(old(session.selectedRecord).value), RecommendQuery(old(session.selectedRecord).value)]
  {
    first := session.GetSimilarRecords(client, shuffle);
    second := session.GetSimilarRecords(client, shuffle);
  }

  /** Selecting `a` and then `b`: the next read issues exactly one recommend
      query, on `b`, whatever was cached before; its answer alone decides the
      result and the new cache. */
  method ReselectThenRead(session: Session, client: IndexClient, shuffle: Shuffler, a: Point, b: Point)
    returns (r: Result<seq<Point>>)
    modifies session, client
    ensures session.Valid(client) && session.selectedRecord == Some(b)
    ensures client.queries == old(client.queries) + [RecommendQuery(b)]
    ensures match client.respond(RecommendQuery(b))
            case Err(e) => r == Err(e) && session.similarRecords == None
            case Ok(recommended) =>
              r == Ok(SimilarSet(recommended)) && session.similarRecords == Some(SimilarSet(recommended))
  {
    session.SetSelectedRecord(a);
    session.SetSelectedRecord(b);
    assert session.selectedRecord == Some(b) && session.similarRecords == None;
    r := session.GetSimilarRecords(client, shuffle);
  }

  /** After a reset both fields are None and a read browses: one scroll, no
      recommend, the cache stays empty, and the result depends on the scroll
      alone, not on what was cached before. */
  method ResetThenRead(session: Session, client: IndexClient, shuffle: Shuffler)
    returns (r: Result<seq<Point>>)
    modifies session, client
    ensures session.selectedRecord == None && session.similarRecords == None
    ensures client.queries == old(client.queries) + [BrowseQuery]
    ensures match client.respond(BrowseQuery)
            case Err(e) => r == Err(e)
            case Ok(scrolled) =>
              r == Ok(Take(shuffle(Dedupe(scrolled)), BrowseCap)) && IsBrowseSample(r.value, scrolled)
  {
    session.ClearSelection();
    r := session.GetSimilarRecords(client, shuffle);
  }
}
