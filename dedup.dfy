/** Order-preserving de-duplication of index points by image URL
    (`filter_unique_records`), its reference definition and its properties. */
module Dedup {
  import opened Points

  /** The set of image URLs that occur in `ps` (the empty one included). */
  ghost function UrlsOf(ps: seq<Point>): set<string> {
    set p | p in ps :: Url(p)
  }

  ghost predicate NoEmptyUrls(ps: seq<Point>) {
    forall k :: 0 <= k < |ps| ==> Url(ps[k]) != ""
  }

  ghost predicate DistinctUrls(ps: seq<Point>) {
    forall i, j :: 0 <= i < j < |ps| ==> Url(ps[i]) != Url(ps[j])
  }

  /** Reference definition: the points kept from `ps`, read left to right.
      The last point is kept when its URL is non-empty and was not kept before. */
  ghost function Dedupe(ps: seq<Point>): seq<Point>
    decreases |ps|
  {
    if ps == [] then []
    else
      var kept := Dedupe(ps[..|ps| - 1]);
      var p := ps[|ps| - 1];
      if Url(p) != "" && Url(p) !in UrlsOf(kept) then kept + [p] else kept
  }

  /** Number of points in `ps` whose URL is `u`. */
  ghost function CountUrl(ps: seq<Point>, u: string): nat
    decreases |ps|
  {
    if ps == [] then 0
    else CountUrl(ps[..|ps| - 1], u) + (if Url(ps[|ps| - 1]) == u then 1 else 0)
  }

  /** Position `i` holds the first point of `ps` with its (non-empty) URL. */
  ghost predicate IsFirstOccurrence(ps: seq<Point>, i: int)
    requires 0 <= i < |ps|
  {
    Url(ps[i]) != "" && forall j :: 0 <= j < i ==> Url(ps[j]) != Url(ps[i])
  }

  /** Independent characterisation: the increasing positions of first occurrences. */
  ghost function FirstIndices(ps: seq<Point>): seq<int>
    decreases |ps|
  {
    if ps == [] then []
    else FirstIndices(ps[..|ps| - 1]) + (if IsFirstOccurrence(ps, |ps| - 1) then [|ps| - 1] else [])
  }

  /** `filter_unique_records`: one pass over the records with a set of seen URLs. */
  method FilterUniqueRecords(records: seq<Point>) returns (unique: seq<Point>)
    ensures unique == Dedupe(records)
    ensures NoEmptyUrls(unique) && DistinctUrls(unique)
    ensures UrlsOf(unique) == UrlsOf(records) - {""}
  {
    var seen: set<string> := {};
    unique := [];
    for i := 0 to |records|
      invariant unique == Dedupe(records[..i])
      invariant seen == UrlsOf(unique)
    {
      assert records[..i + 1][..i] == records[..i];
      var imageUrl := records[i].payload.imageUrl;
      if imageUrl != "" && imageUrl !in seen {
        UrlsOfAppend(unique, records[i]);
        seen := seen + {imageUrl};
        unique := unique + [records[i]];
      }
    }
    assert records[..|records|] == records;
    DedupeNoEmptyUrls(records);
    DedupeDistinctUrls(records);
    DedupeUrls(records);
  }

  lemma UrlsOfAppend(s: seq<Point>, p: Point)
    ensures UrlsOf(s + [p]) == UrlsOf(s) + {Url(p)}
  {
    assert forall q :: q in s + [p] <==> q in s || q == p;
  }

  /** No kept point has an empty or missing URL. */
  lemma {:induction false} DedupeNoEmptyUrls(ps: seq<Point>)
    ensures NoEmptyUrls(Dedupe(ps))
    decreases |ps|
  {
    if ps != [] {
      DedupeNoEmptyUrls(ps[..|ps| - 1]);
    }
  }

  /** The kept URLs are pairwise distinct. */
  lemma {:induction false} DedupeDistinctUrls(ps: seq<Point>)
    ensures DistinctUrls(Dedupe(ps))
    decreases |ps|
  {
    if ps != [] {
      var kept := Dedupe(ps[..|ps| - 1]);
      DedupeDistinctUrls(ps[..|ps| - 1]);
      var p := ps[|ps| - 1];
      if Url(p) != "" && Url(p) !in UrlsOf(kept) {
        forall i | 0 <= i < |kept| ensures Url(kept[i]) != Url(p) {
          assert kept[i] in kept;
        }
      }
    }
  }

  /** Completeness: the kept URLs are exactly the non-empty URLs of the input. */
  lemma {:induction false} DedupeUrls(ps: seq<Point>)
    ensures UrlsOf(Dedupe(ps)) == UrlsOf(ps) - {""}
    decreases |ps|
  {
    if ps != [] {
      var init, p := ps[..|ps| - 1], ps[|ps| - 1];
      DedupeUrls(init);
      assert ps == init + [p];
      UrlsOfAppend(init, p);
      var kept := Dedupe(init);
      if Url(p) != "" && Url(p) !in UrlsOf(kept) {
        UrlsOfAppend(kept, p);
      }
    }
  }

  /** A sequence has pairwise distinct URLs exactly when it has as many URLs as points. */
  lemma {:induction false} DistinctUrlsIffCard(s: seq<Point>)
    ensures |UrlsOf(s)| <= |s|
    ensures DistinctUrls(s) <==> |UrlsOf(s)| == |s|
    decreases |s|
  {
    if s == [] {
      assert UrlsOf(s) == {};
    } else {
      var init, p := s[..|s| - 1], s[|s| - 1];
      DistinctUrlsIffCard(init);
      assert s == init + [p];
      UrlsOfAppend(init, p);
      if Url(p) in UrlsOf(init) {
        var q :| q in init && Url(q) == Url(p);
        var j :| 0 <= j < |init| && init[j] == q;
        assert s[j] == q && Url(s[j]) == Url(s[|s| - 1]);
        assert !DistinctUrls(s);
      } else {
        assert |UrlsOf(s)| == |UrlsOf(init)| + 1;
        if DistinctUrls(init) {
          forall i | 0 <= i < |init| ensures Url(s[i]) != Url(p) {
            assert init[i] in init;
          }
        }
      }
    }
  }

  /** The output has one point per distinct non-empty URL of the input. */
  lemma DedupeLength(ps: seq<Point>)
    ensures |Dedupe(ps)| == |UrlsOf(ps) - {""}|
  {
    DedupeDistinctUrls(ps);
    DedupeUrls(ps);
    DistinctUrlsIffCard(Dedupe(ps));
  }

  lemma {:induction false} CountDistinct(s: seq<Point>, u: string)
    requires DistinctUrls(s)
    ensures CountUrl(s, u) == if u in UrlsOf(s) then 1 else 0
    decreases |s|
  {
    if s == [] {
    } else {
      var init, p := s[..|s| - 1], s[|s| - 1];
      CountDistinct(init, u);
      assert s == init + [p];
      UrlsOfAppend(init, p);
      forall q | q in init ensures Url(q) != Url(p) {
        var j :| 0 <= j < |init| && init[j] == q;
        assert s[j] == q;
      }
    }
  }

  /** Every non-empty URL present in the input appears exactly once in the output;
      absent and empty URLs do not appear at all. */
  lemma DedupeCount(ps: seq<Point>, u: string)
    ensures CountUrl(Dedupe(ps), u) == if u != "" && u in UrlsOf(ps) then 1 else 0
  {
    DedupeDistinctUrls(ps);
    DedupeUrls(ps);
    CountDistinct(Dedupe(ps), u);
  }

  /** What is kept from a prefix of the input is a prefix of what is kept from all of it. */
  lemma {:induction false} DedupePrefix(ps: seq<Point>, i: int)
    requires 0 <= i <= |ps|
    ensures Dedupe(ps[..i]) <= Dedupe(ps)
    decreases |ps|
  {
    if i == |ps| {
      assert ps[..i] == ps;
    } else {
      var init := ps[..|ps| - 1];
      assert init[..i] == ps[..i];
      DedupePrefix(init, i);
    }
  }

  /** The output is the subsequence of the input at the positions of first
      occurrences: in input order, each kept point is the first with its URL,
      and every first occurrence is kept. */
  lemma {:induction false} DedupeKeepsFirstOccurrences(ps: seq<Point>)
    ensures |FirstIndices(ps)| == |Dedupe(ps)|
    ensures forall k :: 0 <= k < |FirstIndices(ps)| ==>
              0 <= FirstIndices(ps)[k] < |ps| &&
              Dedupe(ps)[k] == ps[FirstIndices(ps)[k]] &&
              IsFirstOccurrence(ps, FirstIndices(ps)[k])
    ensures forall k, l :: 0 <= k < l < |FirstIndices(ps)| ==> FirstIndices(ps)[k] < FirstIndices(ps)[l]
    ensures forall i :: 0 <= i < |ps| && IsFirstOccurrence(ps, i) ==> i in FirstIndices(ps)
    decreases |ps|
  {
    if ps != [] {
      var n := |ps|;
      var init, p := ps[..n - 1], ps[n - 1];
      DedupeKeepsFirstOccurrences(init);
      DedupeUrls(init);
      assert ps == init + [p];
      UrlsOfAppend(init, p);
      forall i | 0 <= i < n - 1 ensures IsFirstOccurrence(init, i) == IsFirstOccurrence(ps, i) {
        assert forall j :: 0 <= j <= i ==> init[j] == ps[j];
      }
      var kept := Dedupe(init);
      assert IsFirstOccurrence(ps, n - 1) <==> Url(p) != "" && Url(p) !in UrlsOf(kept) by {
        if Url(p) in UrlsOf(init) {
          var q :| q in init && Url(q) == Url(p);
          var j :| 0 <= j < |init| && init[j] == q;
          assert Url(ps[j]) == Url(ps[n - 1]);
        } else {
          forall j | 0 <= j < n - 1 ensures Url(ps[j]) != Url(p) {
            assert init[j] in init;
          }
        }
      }
    }
  }

  /** The inputs left unchanged are exactly those without empty or repeated URLs. */
  lemma {:induction false} DedupeFixpoint(s: seq<Point>)
    ensures Dedupe(s) == s <==> NoEmptyUrls(s) && DistinctUrls(s)
    decreases |s|
  {
    if NoEmptyUrls(s) && DistinctUrls(s) {
      if s != [] {
        var init, p := s[..|s| - 1], s[|s| - 1];
        DedupeFixpoint(init);
        forall q | q in init ensures Url(q) != Url(p) {
          var j :| 0 <= j < |init| && init[j] == q;
          assert s[j] == q;
        }
        assert s == init + [p];
      }
    } else if Dedupe(s) == s {
      DedupeNoEmptyUrls(s);
      DedupeDistinctUrls(s);
    }
  }

  /** Applying the filter twice gives the same result as applying it once. */
  lemma {:induction false} DedupeIdempotent(ps: seq<Point>)
    ensures Dedupe(Dedupe(ps)) == Dedupe(ps)
  {
    DedupeNoEmptyUrls(ps);
    DedupeDistinctUrls(ps);
    DedupeFixpoint(Dedupe(ps));
  }
}
