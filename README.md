# Workout sessions ("treinos"): a Dafny model

This project models the workout-session resource of `workout_api`. A
session ("treino") belongs to an athlete ("atleta"). Seven handlers work on
the sessions: create, list all, list by athlete, get by id, partial update,
mark completed ("marcar realizado") and delete.

The database is the class `TreinoController.TreinoStore`. It holds the
`treinos` table as a map from each session's UUID `id` to its row. It also
holds the primary keys of the athlete table, which these handlers never
change, and the next value of the `pk_id` sequence. Its invariant `Valid()`
says four things. Each row is filed under its own `id`. Each row meets the
column constraints, including the foreign key to an existing athlete. Each
row reads back as a payload the output schema accepts (`nome` at most 100
characters, a positive duration). The `pk_id` values are distinct. Every
handler keeps this invariant.

Modules, one per source file:

- `Common`: `Option`, `Uuid` (a 128-bit value), `DateTime` (an integer count of microseconds).
- `TreinoSchemas` (`schemas.py`): the `Treino`, `TreinoIn`, `TreinoOut` and `TreinoUpdate` payloads with their validity predicates. Each update field is a `Patch`: either `Unset`, or `Set` to a value that may be null. The module also has `SetFields`, the update dumped without its unset fields.
- `TreinoModels` (`models.py`): the `TreinoModel` row. It has `ColumnsHold`, the constraints a commit enforces, and `PrimaryKeyUnique`.
- `TreinoController` (`controller.py`): the handlers as methods of `TreinoStore`. Beside them are the update's assignment loop `ApplySetFields` with its reference meaning `ApplyUpdate`, and the list comprehension `ToOutList`.
- `TreinoScenarios`: client methods that chain handler calls. They prove what holds across several calls, using only the handlers' contracts.

The update schema allows null for `nome`, `data_treino`, `duracao_minutos`
and `realizado` (`workout_api/treinos/schemas.py:23-27`). Those columns are
NOT NULL (`workout_api/treinos/models.py:12-16`), and the update handler
does not catch a failed commit (`workout_api/treinos/controller.py:141`).
The schemas also put no upper bound on `duracao_minutos`, while its column
is an SQL INTEGER. So an update that nulls one of those columns, or sets a
duration beyond the INTEGER range, fails as an internal error and changes
nothing. A create with such a duration fails the same way. `Patch` and
`Post` model exactly that.

## Model

| member | source | states |
|---|---|---|
| TreinoController.TreinoStore.Post | workout_api/treinos/controller.py:21-59 | An unknown athlete gives AtletaNotFound. A failed commit, or a duration beyond the INTEGER range, gives InternalError. Both errors leave the table and the `pk_id` sequence unchanged. Otherwise exactly one new key, the fresh id, is added and every other row is unchanged. The returned payload copies the input's fields and owner, has the given id and creation time and `realizado` false, and equals what reads back from the stored row. The table invariant (distinct `pk_id`, existing owner, non-null columns) is kept. |
| TreinoController.TreinoStore.Query | workout_api/treinos/controller.py:67-72 | Returns one payload per stored row: each payload is the stored row's, every row appears, no id appears twice, the length equals the table's size, and every payload is schema-valid. |
| TreinoController.TreinoStore.QueryByAtleta | workout_api/treinos/controller.py:80-96 | Fails with AtletaNotFound exactly when the athlete does not exist. Otherwise it succeeds and lists exactly the rows owned by that athlete, once each, possibly none. Every listed payload has that owner. |
| TreinoController.TreinoStore.Get | workout_api/treinos/controller.py:105-117 | Fails with TreinoNotFound exactly when the id is not in the table. Otherwise it returns the stored row's payload, which carries that id and is schema-valid. |
| TreinoController.TreinoStore.Patch | workout_api/treinos/controller.py:125-144 | An unknown id gives TreinoNotFound. A commit that would put null into a NOT NULL column, or a duration beyond the INTEGER range into `duracao_minutos`, gives InternalError, and exactly then. Both errors leave the table unchanged. Otherwise only the patched row changes, to the reference update of the old row, and the returned payload is the one stored. |
| TreinoController.TreinoStore.MarcarRealizado | workout_api/treinos/controller.py:152-169 | An unknown id gives TreinoNotFound and leaves the table unchanged. Otherwise it succeeds: only that row changes, and only its `realizado` becomes true. The returned payload is the stored one, with `realizado` true. |
| TreinoController.TreinoStore.Delete | workout_api/treinos/controller.py:176-188 | An unknown id gives TreinoNotFound and leaves the table unchanged. Otherwise it succeeds and the table loses exactly that key. |
| TreinoController.ToOutList | workout_api/treinos/controller.py:72 | Converting the selected rows gives exactly one payload per row, each equal to that row's payload, with no id repeated, and the length equals the number of rows. |
| TreinoController.ListedDone | workout_api/treinos/controller.py:72 | Once every row has been converted, the list holds one payload per row, every row appears, and its length is the number of rows. |
| TreinoController.ApplySetFields | workout_api/treinos/controller.py:136-139 | The loop that assigns each explicitly set field, in turn, gives the per-field reference update. Set fields take the given value and unset fields keep theirs. `pk_id`, `id`, `created_at` and `atleta_id` never change. |
| TreinoController.SetAllOfSetFields | workout_api/treinos/controller.py:136-139 | Assigning the dumped set fields of an update one after another equals the per-field reference update. |
| TreinoController.SetAllAppend | workout_api/treinos/controller.py:138-139 | Assigning a concatenation of field items equals assigning the first part and then the second. |
| TreinoController.SetAllFieldItem | workout_api/treinos/controller.py:138-139 | Assigning one field's dumped item sets that field when the update sets it, and changes nothing when it does not. |
| TreinoController.ApplyUpdateIdempotent | workout_api/treinos/controller.py:136-141 | Applying the same update to its own result changes nothing further. |
| TreinoController.UpdatedRowStoredIff | workout_api/treinos/models.py:12-17 | Take a stored row and a schema-valid update. The updated row passes the commit's column constraints exactly when the update sets none of `nome`, `data_treino`, `duracao_minutos`, `realizado` to null and sets no duration beyond the INTEGER range. `descricao` and `observacoes` may be nulled. A row that passes is again one the store may hold. |
| TreinoController.RowRoundTrip | workout_api/treinos/controller.py:38-46 | Building the row from an output payload and reading it back gives the payload. The row has the given `pk_id`. The store may hold it exactly when the payload is schema-valid, its duration fits an INTEGER and its owner exists. |
| TreinoSchemas.OptionalFieldsDefaultToAbsent | workout_api/treinos/schemas.py:9-12 | A payload given only `nome`, `data_treino` and `duracao_minutos` has `descricao` and `observacoes` absent. |
| TreinoSchemas.EmptyUpdateSetsNothing | workout_api/treinos/schemas.py:22-28 | An update given no field dumps to no assignment: every update field is optional and unset by default. |
| TreinoScenarios.PostThenGet | workout_api/treinos/controller.py:36-59 | A create for an existing athlete, with a duration its INTEGER column holds, succeeds with the input's payload, the fresh id and `realizado` false, and adds only that row. A get of the new id then returns the same payload. |
| TreinoScenarios.MarcarRealizadoTwice | workout_api/treinos/controller.py:163-169 | Marking completed twice gives the same answer both times, and the table ends as one call leaves it. |
| TreinoScenarios.PatchTwice | workout_api/treinos/controller.py:136-144 | Applying the same partial update twice gives the same answer both times, and the table ends as one application leaves it. |
| TreinoScenarios.PatchUndoesMarcarRealizado | workout_api/treinos/schemas.py:27 | After marking a session completed, a partial update that sets `realizado` to false succeeds and returns it not completed. |
| TreinoScenarios.DeleteThenGet | workout_api/treinos/controller.py:181-188 | After a delete, a get of that id is TreinoNotFound. The table is the old one without that key, and every other session is as it was. The delete succeeds exactly when the id existed. |
| TreinoScenarios.LegDay | workout_api/treinos/controller.py:21-188 | The life of one session runs as follows. Create "Leg Day" for athlete 1: it is not completed. Get returns it. A patch to 75 minutes keeps the name. Marking completed sets `realizado`. Delete succeeds, and a get then finds nothing. The table ends as it began. |

## Left out

- HTTP routing, decorators, status codes and message texts. Errors are the datatype `Error`: `AtletaNotFound` (404), `TreinoNotFound` (404) and `InternalError` (500).
- The asynchronous database session. Its `execute`, `select`, `commit` and `refresh` become reads and writes of the `treinos` map. Transactions, suspension points and concurrent requests are not modelled. Each handler runs to completion alone.
- `uuid4()` and `datetime.now(timezone.utc)` are parameters of `Post` (`newId`, `now`), with the precondition that the id is not already stored. The UUID version bits and the time zone are not modelled.
- Storage failures during create are the `commitFails` parameter of `Post`. Such a failure leaves the table and the `pk_id` sequence unchanged. In a real database, a sequence value may be used up by a rolled-back insert.
- Payload parsing and coercion (UUID and date-time strings, `model_dump`, `model_validate`) are not modelled. The framework rejects invalid payloads before a handler runs, so the handlers require `ValidTreinoIn` or `ValidTreinoUpdate`.
- The order of listed sessions is not modelled. Storage order is unspecified, so `Lists` holds for any order.
- The athlete resource is reduced to the set of its primary keys. Athletes are never created or deleted here. The lazy `atleta` relationship is not modelled.
- The base classes that supply the `id` and `created_at` columns and fields are not part of this model. `id` is taken as a unique lookup key.
- `pk_id` is modelled as a sequence that starts at 1 and increases on each insert. `Valid()` keeps the values distinct.
- The `nome` column's length limit is modelled as enforced at commit, as a VARCHAR(100) column is in most databases. The payload schemas already bound `nome` to 100 characters, so this check never fails in the model.
- The INTEGER column is taken as 32-bit signed, as in PostgreSQL and standard SQL. SQLite would accept 64-bit values. A schema-valid duration is positive, so only the upper bound can be crossed.
- The `pk_id` sequence is unbounded: its exhaustion is not modelled.
