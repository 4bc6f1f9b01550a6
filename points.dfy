/** Data model of the retrieval core: points stored in the vector index,
    their payload, and the value wrappers the core uses. */
module Points {

  /** Optional value (a payload key that may be absent, an unset session field). */
  datatype Option<+T> = None | Some(value: T) {
    /** The value, or `default` when absent (Python's `dict.get(key, default)`). */
    function GetOr(default: T): T {
      match this
      case Some(v) => v
      case None => default
    }
  }

  /** The one failure the index service can report: unreachable or rejected query. */
  datatype IndexError = IndexUnavailable

  /** Outcome of a call that may raise: a value, or the index error it propagates. */
  datatype Result<+T> = Ok(value: T) | Err(error: IndexError)

  /** Metadata stored with each point. `imageUrl` is the empty string when the
      key is absent or its value is empty; `author` is None when absent. */
  datatype Payload = Payload(imageUrl: string, author: Option<string>)

  /** A point returned by the index. A scrolled record carries no score
      (`score == None`); a recommend or search hit carries its similarity. */
  datatype Point = Point(id: int, payload: Payload, score: Option<real>)

  /** The de-duplication key of a point. */
  function Url(p: Point): string {
    p.payload.imageUrl
  }

  function Min(a: int, b: int): int {
    if a <= b then a else b
  }

  /** Python's slice `s[:n]`: the first n elements, or all of `s` when shorter. */
  function Take<T>(s: seq<T>, n: nat): seq<T> {
    if |s| <= n then s else s[..n]
  }
}
