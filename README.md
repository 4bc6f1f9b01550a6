# Art-Vector-Search retrieval core in Dafny

This project models the retrieval core of Art-Vector-Search, a Streamlit app for
browsing a painting collection stored in a Qdrant vector index and finding
visually similar paintings. The core sits between the user interface and the
index service:

- **De-duplication by image URL** (`filter_unique_records`). Points with an empty
  or missing `image_url` are dropped. Of several points sharing a URL, only the
  first is kept. Order is preserved.
- **Search by embedding** (`search_similar_paintings`). The same first-occurrence
  filter runs over the search hits. Each kept hit becomes an
  `{image_url, author, score}` entry, with `author` defaulting to
  `"Unknown Artist"`. The loop stops once `top_k` entries are collected.
- **Selection state machine.** Two session fields, `selected_record` and
  `similar_records`, start as None. Selecting a record sets the anchor and drops
  the cached similar-set. Resetting clears both. Reading the similar-set with an
  anchor issues one `recommend` query (limit 100) only when nothing is cached,
  then caches the first 15 de-duplicated hits. Reading with no anchor returns a
  fresh browse sample: one scroll of 100 points, de-duplicated, shuffled, capped
  at 30.

Files:

- `points.dfy` (module `Points`): points, payloads, `Option`/`Result`, and
  Python's `[:n]` slice as `Take`.
- `dedup.dfy` (module `Dedup`): `Dedupe`, the reference definition over
  prefixes; `FilterUniqueRecords`, the seen-set loop proved equal to it; and the
  lemmas about `Dedupe`.
- `index_client.dfy` (module `Index`): the three queries the core sends. The
  `IndexClient` class answers them from a fixed oracle `respond` and keeps a
  ghost log of every query it was sent.
- `search.dfy` (module `Search`): the capped search loop `CollectPaintings`, its
  reference result `TopPaintings`, and `SearchSimilarPaintings`.
- `selection.dfy` (module `Selection`): the browse sample, the `Session` class
  with its two fields and transitions, and three client methods for the
  memoisation and invalidation scenarios.

Modelling choices:

- A Qdrant `Record` (from `scroll`) and a `ScoredPoint` (from `recommend` and
  `search`) are one datatype, `Point`. A `Record` has `score == None`.
- `image_url` is a string. The empty string stands both for a missing key and
  for an empty value, since the source treats every falsy value alike.
  `author` is an `Option<string>`, and None means the key is absent.
- Index errors are `Result.Err` values, not exceptions. The source assigns the
  session fields only after a query returns, so a failed query leaves the
  session unchanged. `GetSimilarRecords` states this.
- `random.shuffle` is a `Shuffler`: any function that returns a permutation of
  its argument. The contracts hold for every such function.
- The index is a fixed oracle for the lifetime of a client. This lets
  `Session.Valid` state that a cached similar-set is exactly what a fresh
  recommend query on the current anchor would give.
- `top_k` is tested only after an append (main.py:384). So a `top_k` below 1
  still yields one entry when any hit has a URL. `Cap(topK)` models this.
  `SearchSimilarPaintings` takes `top_k` explicitly. The upload page passes 8
  (`UploadTopK`, main.py:567), and `UploadSearchSpec` states what that call
  returns.
- A failed recommend query caches nothing (main.py:354-359), so the next read
  with the same anchor sends the query again. `ReadTwice` states this.

## Model

| member | source | states |
|---|---|---|
| `Dedup.FilterUniqueRecords` | main.py:312-322 | The seen-set loop returns exactly `Dedupe(records)`. Its output has no empty URL, has pairwise distinct URLs, and its URLs are the input's non-empty URLs. |
| `Dedup.DedupeNoEmptyUrls` | main.py:317-318 | No kept point has an empty or missing `image_url`. |
| `Dedup.DedupeDistinctUrls` | main.py:316-320 | The kept points' URLs are pairwise distinct. |
| `Dedup.DedupeUrls` | main.py:316-320 | Completeness: the set of kept URLs equals the set of non-empty URLs of the input. |
| `Dedup.DedupeCount` | main.py:316-320 | Every non-empty URL of the input occurs in the output exactly once. Any other URL occurs zero times. |
| `Dedup.DedupeLength` | main.py:312-322 | The output length is the number of distinct non-empty URLs in the input. |
| `Dedup.DedupeKeepsFirstOccurrences` | main.py:316-320 | The output is the input taken at strictly increasing positions. Each of these positions is the first occurrence of its non-empty URL, and every first occurrence is among them, so the output is an order-preserving subsequence. |
| `Dedup.DedupePrefix` | main.py:316-320 | What is kept from a prefix of the input is a prefix of what is kept from the whole input. So stopping early cuts the result, and does not change it. |
| `Dedup.DedupeFixpoint` | main.py:312-322 | The filter leaves its input unchanged if and only if the input has no empty URL and no repeated URL. |
| `Dedup.DedupeIdempotent` | main.py:312-322 | Filtering twice gives the same result as filtering once. |
| `Search.CollectPaintings` | main.py:373-387 | The loop with `break` returns exactly `TopPaintings(results, topK)`: the projections of the first `Cap(topK)` de-duplicated hits. Its length is min(`Cap(topK)`, number of distinct non-empty URLs among the hits). Its URLs are non-empty and pairwise distinct. |
| `Search.CapReached` | main.py:384-385 | Once the cap is reached on a prefix of the hits, what is collected so far is already the final result. |
| `Search.TopPaintingsSpec` | main.py:376-385 | The result has min(`Cap(topK)`, distinct non-empty URLs) entries. Entry k is the `{image_url, author, score}` projection of the k-th de-duplicated hit, with `author` defaulting to "Unknown Artist". Its URLs are non-empty and distinct. |
| `Search.TopPaintingsKeepScoreOrder` | main.py:376-385 | If the hit scores are all present and descending, the kept hits' scores are descending too, because kept hits stay in hit order, and each entry carries its kept hit's score. |
| `Search.UploadSearchSpec` | main.py:567 | With `top_k` = 8, as the upload page passes it: for any hits, min(8, distinct non-empty URLs) entries with distinct URLs. Only when the hits come by descending score: the entries' scores, taken from the kept hits, come that way too. |
| `Search.SearchSimilarPaintings` | main.py:364-387 | Issues exactly one search query: collection `dino_embedding_collection`, the given embedding, limit 50. On success it returns `TopPaintings` of the hits. On failure it returns the error. |
| `Index.IndexClient.Call` | main.py:354-358 | Each query returns the service's answer for it and is appended to the query log. |
| `Selection.SimilarSetSpec` | main.py:359 | The cached similar-set has min(15, distinct non-empty URLs among the recommend hits) points, no empty and no repeated URL, and is a prefix of the de-duplicated hits, so it keeps their order. |
| `Selection.PermutationKeepsUrls` | main.py:335 | A permutation keeps the length and the set of URLs. It keeps non-empty and distinct URLs too. |
| `Selection.BrowseSampleOfShuffle` | main.py:334-336 | The first 30 of any permutation of the de-duplicated points form a browse sample. It holds min(30, distinct non-empty URLs) points with distinct non-empty URLs, and it is a sub-multiset of the de-duplicated scroll. |
| `Selection.SampleForBrowsing` | main.py:334-336 | Returns the first 30 of the shuffled de-duplicated points, and that is a browse sample of the scrolled points. |
| `Selection.GetInitialRecords` | main.py:325-336 | Issues exactly one scroll: limit 100, no vectors. On success it returns the browse sample of the scrolled points. On failure it returns the error. |
| `Selection.Session.constructor` | main.py:244-247 | A new session has `selected_record` and `similar_records` both None. |
| `Selection.Session.SetSelectedRecord` | main.py:339-341 | Afterwards `selected_record` is the new record and `similar_records` is None. Nothing else changes, and the cache invariant holds. |
| `Selection.Session.ClearSelection` | main.py:344-346 | Afterwards both fields are None, and nothing else changes. |
| `Selection.Session.GetSimilarRecords` | main.py:349-361 | With no anchor: the session is untouched, one scroll is issued and the browse sample is returned. With an anchor and a cache: no query, and the cache is returned. With an anchor and no cache: exactly one recommend query (`positive=[id]`, limit 100). On success the cache and the result become the first 15 de-duplicated hits. On failure the session is unchanged. The anchor never changes, a cached set always matches the current anchor, and a successful result with an anchor is always that anchor's similar-set. |
| `Selection.ReadTwice` | main.py:349-360 | Two reads with the same anchor and no select or reset in between. If the first read succeeds, the second returns the same list and issues no query, so at most one recommend query is sent in all. If the first read fails, nothing is cached: the second read sends the recommend query again and fails the same way, because the model's index does not change. Both queries are logged. |
| `Selection.ReselectThenRead` | main.py:339-360 | After selecting `a` and then `b`, the next read issues exactly one recommend query, on `b`, and the anchor is `b`. If that query fails, the read returns its error and nothing is cached. If it succeeds, the read returns `b`'s similar-set and caches it. |
| `Selection.ResetThenRead` | main.py:344-361 | After a reset both fields are None. The next read issues one scroll and no recommend, and leaves the cache None. Its result is the scroll's browse sample or the scroll's error, whatever was cached before. |

## Left out

- Streamlit layout, CSS, HTML, the grid column arithmetic and the button wiring: these are presentation.
- The Qdrant network calls and the client construction (`get_client`): the service is the `respond` oracle of `IndexClient`. The model only logs the queries, not the API key, the URL or the `next_offset` that `scroll` returns.
- `generate_embedding`: torch model inference on floats. The embedding reaches `SearchSimilarPaintings` as an opaque `seq<real>`.
- `load_image`: HTTP, file and PIL work, all I/O.
- `random.shuffle` itself: the random source is outside the model, and any permutation is allowed.
- The similarity percentage `int(score * 100)` and the progress bars: floating-point display.
- `st.error` reporting: an index failure is returned as `Err` and the UI's reaction is not modelled.
- Point ids are integers. Qdrant also allows UUID strings, which only serve as the opaque `positive` argument here.
- Payload values that exist but are not strings (an `author` stored as null, say): the model types the payload as a string and an optional string.
- Scores are carried as `Option<real>` and never computed with. The sorted-by-score order of search hits is the index's promise: it is a precondition of `TopPaintingsKeepScoreOrder` and the hypothesis of the order clause of `UploadSearchSpec`, not a guarantee of the model.
- IndexClient.respond: the index never changes and never recovers while the client lives. So a retried query gets the same answer, and a cached similar-set equals what a new query would give. In the program a retry may succeed, and a cache may be stale after the collection changes.
- The default `top_k=9` of `search_similar_paintings` (main.py:364) is dropped: `SearchSimilarPaintings` takes `top_k` explicitly, and the only caller (main.py:567) passes 8.
