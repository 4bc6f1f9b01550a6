/** The vector index service as seen by the core: the three queries the core
    issues, and a client object that answers them from a fixed oracle and
    keeps a log of every query it was asked. */
module Index {
  import opened Points

  /** The collection every query of the core targets. */
  const CollectionName := "dino_embedding_collection"

  datatype Query =
    | Scroll(collection: string, limit: nat, withVectors: bool)
    | Recommend(collection: string, positive: seq<int>, limit: nat)
    | Search(collection: string, queryVector: seq<real>, limit: nat)

  /** The process-wide index client. What the service answers is outside the
      model: `respond` stands for it, unchanged while the process runs. */
  class IndexClient {
    const respond: Query -> Result<seq<Point>>
    /** Every query issued through this client, oldest first. */
    ghost var queries: seq<Query>

    constructor (respond: Query -> Result<seq<Point>>)
      ensures this.respond == respond && queries == []
    {
      this.respond := respond;
      queries := [];
    }

    /** Issue one query; a failure is returned, not retried. */
    method Call(q: Query) returns (r: Result<seq<Point>>)
      modifies this
      ensures r == respond(q)
      ensures queries == old(queries) + [q]
    {
      r := respond(q);
      queries := queries + [q];
    }
  }
}
