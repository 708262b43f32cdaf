/** The knowledge store as the core uses it (`KGRepository`): the chunks and
    graph fragments it holds, the size of its vector index, and the ordered
    list of calls made on it. The Neo4j repository behind it is not part of
    this model; whether a call fails is decided by the caller-supplied
    `fault`, and a failing call changes no contents. Also a source of fresh
    identifiers standing for `Uuid::new_v4`. */
module Ports {
  import opened Wrappers
  import opened Errors
  import opened Models

  type Uuid = nat

  datatype ChunkRecord = ChunkRecord(id: Uuid, text: string, embedding: Embedding)
  datatype GraphRecord = GraphRecord(chunkId: Uuid, extraction: KnowledgeExtraction)

  datatype StoreOp =
    | SaveChunkOp(id: Uuid)
    | SaveGraphOp(chunkId: Uuid)
    | ResetDatabaseOp
    | CreateIndexesOp(dim: usize)

  class KnowledgeStore {
    var chunks: seq<ChunkRecord>
    var graphs: seq<GraphRecord>
    var indexDim: Option<usize>
    var ops: seq<StoreOp>

    constructor (dim: Option<usize>)
      ensures chunks == [] && graphs == [] && indexDim == dim && ops == []
    {
      chunks, graphs, indexDim, ops := [], [], dim, [];
    }

    /** `save_chunk(id, text, embedding)`. */
    method SaveChunk(id: Uuid, text: string, embedding: Embedding, fault: Option<string>)
      returns (r: Result<(), AppError>)
      modifies this
      ensures ops == old(ops) + [SaveChunkOp(id)]
      ensures fault.None? ==> r == Ok(()) && chunks == old(chunks) + [ChunkRecord(id, text, embedding)]
      ensures fault.Some? ==> r == Err(DatabaseError(fault.value)) && chunks == old(chunks)
      ensures graphs == old(graphs) && indexDim == old(indexDim)
    {
      ops := ops + [SaveChunkOp(id)];
      if fault.Some? {
        return Err(DatabaseError(fault.value));
      }
      chunks := chunks + [ChunkRecord(id, text, embedding)];
      r := Ok(());
    }

    /** `save_graph(chunk_id, extraction)`. */
    method SaveGraph(chunkId: Uuid, extraction: KnowledgeExtraction, fault: Option<string>)
      returns (r: Result<(), AppError>)
      modifies this
      ensures ops == old(ops) + [SaveGraphOp(chunkId)]
      ensures fault.None? ==> r == Ok(()) && graphs == old(graphs) + [GraphRecord(chunkId, extraction)]
      ensures fault.Some? ==> r == Err(DatabaseError(fault.value)) && graphs == old(graphs)
      ensures chunks == old(chunks) && indexDim == old(indexDim)
    {
      ops := ops + [SaveGraphOp(chunkId)];
      if fault.Some? {
        return Err(DatabaseError(fault.value));
      }
      graphs := graphs + [GraphRecord(chunkId, extraction)];
      r := Ok(());
    }

    /** `reset_database()`: drops every chunk and graph fragment. */
    method ResetDatabase(fault: Option<string>) returns (r: Result<(), AppError>)
      modifies this
      ensures ops == old(ops) + [ResetDatabaseOp]
      ensures fault.None? ==> r == Ok(()) && chunks == [] && graphs == []
      ensures fault.Some? ==> r == Err(DatabaseError(fault.value)) && chunks == old(chunks) && graphs == old(graphs)
      ensures indexDim == old(indexDim)
    {
      ops := ops + [ResetDatabaseOp];
      if fault.Some? {
        return Err(DatabaseError(fault.value));
      }
      chunks, graphs := [], [];
      r := Ok(());
    }

    /** `create_indexes(dim)`: (re)creates the vector index at `dim`. */
    method CreateIndexes(dim: usize, fault: Option<string>) returns (r: Result<(), AppError>)
      modifies this
      ensures ops == old(ops) + [CreateIndexesOp(dim)]
      ensures fault.None? ==> r == Ok(()) && indexDim == Some(dim)
      ensures fault.Some? ==> r == Err(DatabaseError(fault.value)) && indexDim == old(indexDim)
      ensures chunks == old(chunks) && graphs == old(graphs)
    {
      ops := ops + [CreateIndexesOp(dim)];
      if fault.Some? {
        return Err(DatabaseError(fault.value));
      }
      indexDim := Some(dim);
      r := Ok(());
    }
  }

  /** `Uuid::new_v4()` as a source of identifiers never handed out before. */
  class UuidSource {
    var next: Uuid

    constructor ()
      ensures next == 0
    {
      next := 0;
    }

    method NewV4() returns (u: Uuid)
      modifies this
      ensures u == old(next) && next == old(next) + 1
    {
      u := next;
      next := next + 1;
    }
  }
}
