/** Properties of the handlers that relate several calls, each proved by
    chaining the calls against one store and using only their contracts. */
module TreinoScenarios {
  import opened Common
  import opened TreinoSchemas
  import opened TreinoModels
  import opened TreinoController

  /** A session created for an existing athlete, with a duration its column
      holds, is then found under the new id with the same payload. */
  method PostThenGet(store: TreinoStore, treinoIn: TreinoIn, newId: Uuid, now: DateTime)
    returns (created: Result<TreinoOut>, got: Result<TreinoOut>)
    requires store.Valid() && ValidTreinoIn(treinoIn) && newId !in store.treinos
    requires treinoIn.atletaId in store.atletas && treinoIn.base.duracaoMinutos <= IntegerMax
    modifies store
    ensures store.Valid()
    ensures created.Ok? && got == created
    ensures created.value.base == treinoIn.base && created.value.id == newId && !created.value.realizado
    ensures newId in store.treinos && store.treinos - {newId} == old(store.treinos)
    ensures ToOut(store.treinos[newId]) == created.value
  {
    created := store.Post(treinoIn, newId, now, false);
    assert store.treinos - {newId} == old(store.treinos);
    got := store.Get(newId);
  }

  /** Marking a session done twice answers the same both times and leaves
      the table as one call leaves it. */
  method MarcarRealizadoTwice(store: TreinoStore, id: Uuid)
    returns (first: Result<TreinoOut>, second: Result<TreinoOut>)
    requires store.Valid()
    modifies store
    ensures store.Valid()
    ensures second == first
    ensures id in old(store.treinos) ==>
              first.Ok? && first.value.realizado
              && store.treinos == old(store.treinos)[id := old(store.treinos)[id].(realizado := Some(true))]
    ensures id !in old(store.treinos) ==>
              first == Err(TreinoNotFound(id)) && store.treinos == old(store.treinos)
  {
    first := store.MarcarRealizado(id);
    if first.Ok? {
      assert store.treinos[id].(realizado := Some(true)) == store.treinos[id];
      assert store.treinos[id := store.treinos[id]] == store.treinos;
    }
    second := store.MarcarRealizado(id);
  }

  /** Applying the same partial update twice answers the same both times and
      leaves the table as one application leaves it. */
  method PatchTwice(store: TreinoStore, id: Uuid, u: TreinoUpdate)
    returns (first: Result<TreinoOut>, second: Result<TreinoOut>)
    requires store.Valid() && ValidTreinoUpdate(u)
    modifies store
    ensures store.Valid()
    ensures second == first
    ensures first.Ok? ==>
              id in old(store.treinos)
              && store.treinos == old(store.treinos)[id := ApplyUpdate(old(store.treinos)[id], u)]
    ensures first.Err? ==> store.treinos == old(store.treinos)
  {
    first := store.Patch(id, u);
    if first.Ok? {
      ApplyUpdateIdempotent(old(store.treinos)[id], u);
    }
    second := store.Patch(id, u);
  }

  /** A partial update that sets `realizado` to false undoes the completion
      transition. */
  method PatchUndoesMarcarRealizado(store: TreinoStore, id: Uuid)
    returns (marked: Result<TreinoOut>, undone: Result<TreinoOut>)
    requires store.Valid() && id in store.treinos
    modifies store
    ensures store.Valid()
    ensures marked.Ok? && marked.value.realizado
    ensures undone.Ok? && !undone.value.realizado
  {
    marked := store.MarcarRealizado(id);
    undone := store.Patch(id, TreinoUpdate(realizado := Set(Some(false))));
  }

  /** After a delete the id is not found, and every other session is as it was. */
  method DeleteThenGet(store: TreinoStore, id: Uuid)
    returns (deleted: Result<()>, got: Result<TreinoOut>)
    requires store.Valid()
    modifies store
    ensures store.Valid()
    ensures got == Err(TreinoNotFound(id))
    ensures deleted.Ok? <==> id in old(store.treinos)
    ensures store.treinos == old(store.treinos) - {id}
    ensures forall k :: k in old(store.treinos) && k != id ==> k in store.treinos && store.treinos[k] == old(store.treinos)[k]
  {
    deleted := store.Delete(id);
    got := store.Get(id);
  }

  /** The life of one session: create "Leg Day" for athlete 1, read it,
      lengthen it to 75 minutes, mark it done, delete it, and find it gone. */
  method LegDay(store: TreinoStore, newId: Uuid, now: DateTime, dataTreino: DateTime)
    returns (created: Result<TreinoOut>, got: Result<TreinoOut>, patched: Result<TreinoOut>,
             marked: Result<TreinoOut>, deleted: Result<()>, gone: Result<TreinoOut>)
    requires store.Valid() && 1 in store.atletas && newId !in store.treinos
    modifies store
    ensures store.Valid() && store.treinos == old(store.treinos)
    ensures created.Ok? && created.value.id == newId && !created.value.realizado
    ensures got == created
    ensures patched.Ok? && patched.value.base.duracaoMinutos == 75 && patched.value.base.nome == "Leg Day"
    ensures marked.Ok? && marked.value.realizado
    ensures deleted.Ok? && gone == Err(TreinoNotFound(newId))
  {
    var base := Treino(nome := "Leg Day", dataTreino := dataTreino, duracaoMinutos := 60);
    created, got := PostThenGet(store, TreinoIn(base, 1), newId, now);
    ghost var others := store.treinos - {newId};
    var lengthen := TreinoUpdate(duracaoMinutos := Set(Some(75)));
    assert !CommitRefuses(lengthen);
    patched := store.Patch(newId, lengthen);
    assert store.treinos - {newId} == others;
    marked := store.MarcarRealizado(newId);
    assert store.treinos - {newId} == others;
    deleted, gone := DeleteThenGet(store, newId);
  }
}
