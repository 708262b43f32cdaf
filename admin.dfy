/** The admin endpoint `update_config`: a configuration change is accepted
    only with the force flag, and then wipes the store, rebuilds its vector
    index at the new dimension and only then swaps the live configuration.
    The write lock on the service is the plain field `RigAIService.config`. */
module Admin {
  import opened Wrappers
  import opened Errors
  import opened Models
  import opened Ports
  import opened RigClient

  /** `AdminConfigPayload`. */
  datatype AdminConfigPayload = AdminConfigPayload(config: AIConfig, forceReset: bool)

  /** A successful reply: status and the JSON string body. */
  datatype Reply = Reply(status: nat, message: string)

  const Ok200: nat := 200
  const ResetMessage: string := "System reset and reconfigured successfully"

  /** `update_config(payload)`; `resetFault` and `indexFault` are what the
      store answers to `reset_database` and `create_indexes`. Store calls
      run in order and the first failure ends the call; the configuration
      changes only after both succeeded, and nothing is rolled back. */
  method UpdateConfig(store: KnowledgeStore, ai: RigAIService, payload: AdminConfigPayload,
                      resetFault: Option<string>, indexFault: Option<string>)
    returns (r: Result<Reply, AppError>)
    modifies store, ai
    ensures !payload.forceReset ==>
              && r == Err(SafetyGuardError)
              && store.ops == old(store.ops) && store.chunks == old(store.chunks)
              && store.graphs == old(store.graphs) && store.indexDim == old(store.indexDim)
              && ai.config == old(ai.config)
    ensures payload.forceReset && resetFault.Some? ==>
              && r == Err(DatabaseError(resetFault.value))
              && store.ops == old(store.ops) + [ResetDatabaseOp]
              && store.chunks == old(store.chunks) && store.graphs == old(store.graphs)
              && store.indexDim == old(store.indexDim)
              && ai.config == old(ai.config)
    ensures payload.forceReset && resetFault.None? ==>
              && store.ops == old(store.ops) + [ResetDatabaseOp, CreateIndexesOp(payload.config.embeddingDim)]
              && store.chunks == [] && store.graphs == []
    ensures payload.forceReset && resetFault.None? && indexFault.Some? ==>
              && r == Err(DatabaseError(indexFault.value))
              && store.indexDim == old(store.indexDim)
              && ai.config == old(ai.config)
    ensures payload.forceReset && resetFault.None? && indexFault.None? ==>
              && r == Ok(Reply(Ok200, ResetMessage))
              && store.indexDim == Some(payload.config.embeddingDim)
              && ai.config == payload.config
  {
    if payload.forceReset {
      var reset := store.ResetDatabase(resetFault);
      if reset.Err? {
        return Err(reset.error);
      }
      var indexed := store.CreateIndexes(payload.config.embeddingDim, indexFault);
      if indexed.Err? {
        return Err(indexed.error);
      }
      // `update_config` never fails, so its `?` never returns early.
      var _ := ai.UpdateConfig(payload.config);
      return Ok(Reply(Ok200, ResetMessage));
    }
    r := Err(SafetyGuardError);
  }

  /** A refused change answers 403 with the guard's message, whatever the
      configuration asked for. */
  lemma RefusalResponse()
    ensures IntoResponse(SafetyGuardError) == HttpResponse(Forbidden, [("error", "Admin operation requires force flag")])
  {
  }
}
