/** The handlers of the workout-session resource, over an in-memory
    `treinos` table and the set of existing athlete primary keys. */
module TreinoController {
  import opened Common
  import opened TreinoSchemas
  import opened TreinoModels

  /** Why a handler fails: a missing athlete or session (404), or a commit
      the database refuses (500). */
  datatype Error = AtletaNotFound(atletaId: int) | TreinoNotFound(id: Uuid) | InternalError

  datatype Result<T> = Ok(value: T) | Err(error: Error)

  /** The response payload read off a stored row. */
  function ToOut(row: TreinoModel): TreinoOut
    requires NotNullColumnsSet(row)
  {
    TreinoOut(
      Treino(row.nome.value, row.descricao, row.dataTreino.value, row.duracaoMinutos.value, row.observacoes),
      row.id, row.createdAt, row.realizado.value, row.atletaId)
  }

  /** The row built from a response payload, under primary key `pkId`. */
  function ToRow(o: TreinoOut, pkId: int): TreinoModel
  {
    TreinoModel(
      pkId, o.id, Some(o.base.nome), o.base.descricao, Some(o.base.dataTreino),
      Some(o.base.duracaoMinutos), Some(o.realizado), o.base.observacoes, o.createdAt, o.atletaId)
  }

  /** A row the store may hold: the database accepts it and the output
      schema validates what is read off it. */
  predicate Stored(row: TreinoModel, atletaPks: set<int>)
  {
    ColumnsHold(row, atletaPks) && ValidTreinoOut(ToOut(row))
  }

  /** Storing a payload and reading it back gives the payload, and the row
      is one the store may hold exactly when the payload is valid, its
      duration fits an INTEGER and its owner exists. */
  lemma RowRoundTrip(o: TreinoOut, pkId: int, atletaPks: set<int>)
    ensures NotNullColumnsSet(ToRow(o, pkId)) && ToOut(ToRow(o, pkId)) == o
    ensures ToRow(o, pkId).pkId == pkId
    ensures Stored(ToRow(o, pkId), atletaPks) <==>
              ValidTreinoOut(o) && o.base.duracaoMinutos <= IntegerMax && o.atletaId in atletaPks
  {
  }

  // ----- partial update -------------------------------------------------------

  /** Assigns one dumped field onto a row. */
  function SetAttr(row: TreinoModel, a: Assignment): TreinoModel
  {
    match a
    case SetNome(v) => row.(nome := v)
    case SetDescricao(v) => row.(descricao := v)
    case SetDataTreino(v) => row.(dataTreino := v)
    case SetDuracaoMinutos(v) => row.(duracaoMinutos := v)
    case SetRealizado(v) => row.(realizado := v)
    case SetObservacoes(v) => row.(observacoes := v)
  }

  /** Assigns the items one after another, first to last. */
  function SetAll(row: TreinoModel, items: seq<Assignment>): TreinoModel
  {
    if items == [] then row else SetAttr(SetAll(row, items[..|items| - 1]), items[|items| - 1])
  }

  function Take<T>(p: Patch<T>, current: T): T
  {
    if p.Set? then p.value else current
  }

  /** Reference meaning of a partial update: each field the caller set takes
      the given value, each other field keeps its old one. */
  function ApplyUpdate(row: TreinoModel, u: TreinoUpdate): TreinoModel
  {
    row.(
      nome := Take(u.nome, row.nome),
      descricao := Take(u.descricao, row.descricao),
      dataTreino := Take(u.dataTreino, row.dataTreino),
      duracaoMinutos := Take(u.duracaoMinutos, row.duracaoMinutos),
      realizado := Take(u.realizado, row.realizado),
      observacoes := Take(u.observacoes, row.observacoes))
  }

  lemma {:induction false} SetAllAppend(row: TreinoModel, s: seq<Assignment>, t: seq<Assignment>)
    ensures SetAll(row, s + t) == SetAll(SetAll(row, s), t)
    decreases |t|
  {
    if t == [] {
      assert s + t == s;
    } else {
      var t' := t[..|t| - 1];
      assert (s + t)[..|s + t| - 1] == s + t';
      SetAllAppend(row, s, t');
    }
  }

  /** The items of one field: its assignment when set, nothing when unset. */
  lemma SetAllFieldItem<T>(row: TreinoModel, p: Patch<T>, item: T -> Assignment)
    ensures SetAll(row, FieldItem(p, item)) == if p.Set? then SetAttr(row, item(p.value)) else row
  {
    if p.Set? {
      assert FieldItem(p, item)[..0] == [];
    }
  }

  /** Assigning the dumped set fields one by one is the reference update. */
  lemma {:induction false} SetAllOfSetFields(row: TreinoModel, u: TreinoUpdate)
    ensures SetAll(row, SetFields(u)) == ApplyUpdate(row, u)
  {
    var n := FieldItem(u.nome, v => SetNome(v));
    var d := FieldItem(u.descricao, v => SetDescricao(v));
    var dt := FieldItem(u.dataTreino, v => SetDataTreino(v));
    var m := FieldItem(u.duracaoMinutos, v => SetDuracaoMinutos(v));
    var r := FieldItem(u.realizado, v => SetRealizado(v));
    var o := FieldItem(u.observacoes, v => SetObservacoes(v));
    assert SetFields(u) == n + d + dt + m + r + o;

    var row1 := row.(nome := Take(u.nome, row.nome));
    SetAllFieldItem(row, u.nome, v => SetNome(v));
    assert SetAll(row, n) == row1;

    var row2 := row1.(descricao := Take(u.descricao, row.descricao));
    SetAllAppend(row, n, d);
    SetAllFieldItem(row1, u.descricao, v => SetDescricao(v));
    assert SetAll(row, n + d) == row2;

    var row3 := row2.(dataTreino := Take(u.dataTreino, row.dataTreino));
    SetAllAppend(row, n + d, dt);
    SetAllFieldItem(row2, u.dataTreino, v => SetDataTreino(v));
    assert SetAll(row, n + d + dt) == row3;

    var row4 := row3.(duracaoMinutos := Take(u.duracaoMinutos, row.duracaoMinutos));
    SetAllAppend(row, n + d + dt, m);
    SetAllFieldItem(row3, u.duracaoMinutos, v => SetDuracaoMinutos(v));
    assert SetAll(row, n + d + dt + m) == row4;

    var row5 := row4.(realizado := Take(u.realizado, row.realizado));
    SetAllAppend(row, n + d + dt + m, r);
    SetAllFieldItem(row4, u.realizado, v => SetRealizado(v));
    assert SetAll(row, n + d + dt + m + r) == row5;

    SetAllAppend(row, n + d + dt + m + r, o);
    SetAllFieldItem(row5, u.observacoes, v => SetObservacoes(v));
  }

  /** The assignment loop of the update handler: every explicitly set field
      of `u` is written onto the row, in turn. */
  method ApplySetFields(treino: TreinoModel, u: TreinoUpdate) returns (r: TreinoModel)
    ensures r == ApplyUpdate(treino, u)
    ensures r.pkId == treino.pkId && r.id == treino.id
    ensures r.createdAt == treino.createdAt && r.atletaId == treino.atletaId
  {
    var items := SetFields(u);
    r := treino;
    var i := 0;
    while i < |items|
      invariant 0 <= i <= |items|
      invariant r == SetAll(treino, items[..i])
    {
      assert items[..i + 1][..i] == items[..i];
      r := SetAttr(r, items[i]);
      i := i + 1;
    }
    assert items[..i] == items;
    SetAllOfSetFields(treino, u);
  }

  /** Applying an update to its own result changes nothing more. */
  lemma ApplyUpdateIdempotent(row: TreinoModel, u: TreinoUpdate)
    ensures ApplyUpdate(ApplyUpdate(row, u), u) == ApplyUpdate(row, u)
  {
  }

  /** The update explicitly sets a NOT NULL column to null. */
  predicate NullsRequiredColumn(u: TreinoUpdate)
  {
    u.nome == Set(None) || u.dataTreino == Set(None)
    || u.duracaoMinutos == Set(None) || u.realizado == Set(None)
  }

  /** The update sets `duracao_minutos` beyond what an INTEGER column holds. */
  predicate DuracaoOverflows(u: TreinoUpdate)
  {
    u.duracaoMinutos.Set? && u.duracaoMinutos.value.Some? && u.duracaoMinutos.value.value > IntegerMax
  }

  /** The commit of the updated row is refused by the database. */
  predicate CommitRefuses(u: TreinoUpdate)
  {
    NullsRequiredColumn(u) || DuracaoOverflows(u)
  }

  /** A schema-valid update of a stored row yields a row the store may hold
      exactly when it sets no NOT NULL column to null and keeps
      `duracao_minutos` within the INTEGER range. */
  lemma UpdatedRowStoredIff(row: TreinoModel, u: TreinoUpdate, atletaPks: set<int>)
    requires Stored(row, atletaPks) && ValidTreinoUpdate(u)
    ensures ColumnsHold(ApplyUpdate(row, u), atletaPks) <==> !CommitRefuses(u)
    ensures ColumnsHold(ApplyUpdate(row, u), atletaPks) ==> Stored(ApplyUpdate(row, u), atletaPks)
  {
  }

  // ----- listing --------------------------------------------------------------

  /** `r` holds the payload of every row of `rows` exactly once, and nothing else. */
  ghost predicate Lists(r: seq<TreinoOut>, rows: map<Uuid, TreinoModel>)
  {
    && (forall i :: 0 <= i < |r| ==> r[i].id in rows && NotNullColumnsSet(rows[r[i].id]) && r[i] == ToOut(rows[r[i].id]))
    && (forall k :: k in rows ==> exists i :: 0 <= i < |r| && r[i].id == k)
    && (forall i, j :: 0 <= i < j < |r| ==> r[i].id != r[j].id)
  }

  /** The rows owned by athlete `atletaId`. */
  function OfAtleta(rows: map<Uuid, TreinoModel>, atletaId: int): map<Uuid, TreinoModel>
  {
    map k | k in rows && rows[k].atletaId == atletaId :: rows[k]
  }

  /** Every row of `rows` is filed under its own `id` and can be read back. */
  ghost predicate KeyedReadable(rows: map<Uuid, TreinoModel>)
  {
    forall k :: k in rows ==> rows[k].id == k && NotNullColumnsSet(rows[k])
  }

  /** Progress of the conversion, part one: `r` holds distinct payloads of
      rows of `rows`, none of them still in `rest`. */
  ghost predicate ListedPayloads(r: seq<TreinoOut>, rows: map<Uuid, TreinoModel>, rest: set<Uuid>)
  {
    && rest <= rows.Keys
    && (forall i :: 0 <= i < |r| ==> r[i].id in rows && NotNullColumnsSet(rows[r[i].id]) && r[i] == ToOut(rows[r[i].id]))
    && (forall i :: 0 <= i < |r| ==> r[i].id !in rest)
    && (forall i, j :: 0 <= i < j < |r| ==> r[i].id != r[j].id)
  }

  /** Progress of the conversion, part two: `at` gives the place in `r` of
      each row no longer in `rest`, and there are as many as `r` is long. */
  ghost predicate ListedIndex(r: seq<TreinoOut>, rows: map<Uuid, TreinoModel>, rest: set<Uuid>, at: map<Uuid, nat>)
  {
    && at.Keys == rows.Keys - rest
    && (forall k :: k in at ==> at[k] < |r| && r[at[k]].id == k)
    && |r| == |at.Keys|
  }

  ghost predicate ListedSoFar(r: seq<TreinoOut>, rows: map<Uuid, TreinoModel>, rest: set<Uuid>, at: map<Uuid, nat>)
  {
    ListedPayloads(r, rows, rest) && ListedIndex(r, rows, rest, at)
  }

  lemma ListedPayloadsStep(r: seq<TreinoOut>, rows: map<Uuid, TreinoModel>, rest: set<Uuid>, k: Uuid)
    requires KeyedReadable(rows) && ListedPayloads(r, rows, rest) && k in rest
    ensures ListedPayloads(r + [ToOut(rows[k])], rows, rest - {k})
  {
    var r' := r + [ToOut(rows[k])];
    assert r'[|r|].id == k;
    forall i | 0 <= i < |r'|
      ensures r'[i].id in rows && NotNullColumnsSet(rows[r'[i].id]) && r'[i] == ToOut(rows[r'[i].id])
      ensures r'[i].id !in rest - {k}
    {
      if i < |r| {
        assert r'[i] == r[i];
      }
    }
    forall i, j | 0 <= i < j < |r'|
      ensures r'[i].id != r'[j].id
    {
      if j < |r| {
        assert r'[i] == r[i] && r'[j] == r[j];
      } else {
        assert r'[i] == r[i];
      }
    }
  }

  lemma IndexKeysStep(at: map<Uuid, nat>, rows: map<Uuid, TreinoModel>, rest: set<Uuid>, k: Uuid, n: nat)
    requires at.Keys == rows.Keys - rest && rest <= rows.Keys && k in rest && |at.Keys| == n
    ensures at[k := n].Keys == rows.Keys - (rest - {k}) && |at[k := n].Keys| == n + 1
  {
    assert k !in at.Keys;
    assert at[k := n].Keys == at.Keys + {k};
  }

  lemma IndexPlacesStep(r: seq<TreinoOut>, at: map<Uuid, nat>, k: Uuid, out: TreinoOut,
                        r': seq<TreinoOut>, at': map<Uuid, nat>)
    requires forall k' :: k' in at ==> at[k'] < |r| && r[at[k']].id == k'
    requires out.id == k && r' == r + [out] && at' == at[k := |r|]
    ensures forall k' :: k' in at' ==> at'[k'] < |r'| && r'[at'[k']].id == k'
  {
    forall k' | k' in at'
      ensures at'[k'] < |r'| && r'[at'[k']].id == k'
    {
      if k' != k {
        assert r'[at[k']] == r[at[k']];
      }
    }
  }

  lemma ListedIndexStep(r: seq<TreinoOut>, rows: map<Uuid, TreinoModel>, rest: set<Uuid>, at: map<Uuid, nat>, k: Uuid, out: TreinoOut)
    requires ListedIndex(r, rows, rest, at) && k in rest && rest <= rows.Keys && out.id == k
    ensures ListedIndex(r + [out], rows, rest - {k}, at[k := |r|])
  {
    IndexKeysStep(at, rows, rest, k, |r|);
    IndexPlacesStep(r, at, k, out, r + [out], at[k := |r|]);
  }

  /** Converting one more row keeps the progress invariant. */
  lemma ListedStep(r: seq<TreinoOut>, rows: map<Uuid, TreinoModel>, rest: set<Uuid>, at: map<Uuid, nat>, k: Uuid)
    requires KeyedReadable(rows) && ListedSoFar(r, rows, rest, at) && k in rest
    ensures ListedSoFar(r + [ToOut(rows[k])], rows, rest - {k}, at[k := |r|])
  {
    ListedPayloadsStep(r, rows, rest, k);
    ListedIndexStep(r, rows, rest, at, k, ToOut(rows[k]));
  }

  /** When no row is left, every row is listed, once. */
  lemma ListedDone(r: seq<TreinoOut>, rows: map<Uuid, TreinoModel>, at: map<Uuid, nat>)
    requires ListedSoFar(r, rows, {}, at)
    ensures Lists(r, rows) && |r| == |rows|
  {
    assert at.Keys == rows.Keys;
    forall k | k in rows
      ensures exists i :: 0 <= i < |r| && r[i].id == k
    {
      assert r[at[k]].id == k;
    }
  }

  /** Converts every selected row to its payload, one payload per row. */
  method ToOutList(rows: map<Uuid, TreinoModel>) returns (r: seq<TreinoOut>)
    requires KeyedReadable(rows)
    ensures Lists(r, rows)
    ensures |r| == |rows|
  {
    r := [];
    var rest := rows.Keys;
    ghost var at: map<Uuid, nat> := map[];
    while rest != {}
      invariant ListedSoFar(r, rows, rest, at)
      decreases rest
    {
      var k :| k in rest;
      ListedStep(r, rows, rest, at, k);
      r, at := r + [ToOut(rows[k])], at[k := |r|];
      rest := rest - {k};
    }
    ListedDone(r, rows, at);
  }

  // ----- the store ------------------------------------------------------------

  /** The database as the handlers see it: the `treinos` table, keyed by
      each row's `id`, and the primary keys of the athlete table. */
  class TreinoStore {
    /** Primary keys of the existing athletes; no handler here changes them. */
    const atletas: set<int>
    /** The `treinos` table. */
    var treinos: map<Uuid, TreinoModel>
    /** The next value the `pk_id` sequence hands out. */
    var nextPkId: int

    /** Each row is filed under its own `id`, meets the column constraints
        (including the reference to its athlete), reads back as a valid
        payload, and has a distinct `pk_id` below the sequence's next value. */
    ghost predicate Valid()
      reads this
    {
      && (forall k :: k in treinos ==> treinos[k].id == k)
      && (forall k :: k in treinos ==> Stored(treinos[k], atletas))
      && (forall k :: k in treinos ==> treinos[k].pkId < nextPkId)
      && PrimaryKeyUnique(treinos)
    }

    /** An empty table next to the given athletes. */
    constructor (atletaPks: set<int>)
      ensures Valid()
      ensures atletas == atletaPks && treinos == map[]
    {
      atletas := atletaPks;
      treinos := map[];
      nextPkId := 1;
    }

    /** Create: checks the owner exists, then inserts a fresh session under
        `newId`, created at `now`, not yet done.  The insert is refused when
        the duration does not fit its INTEGER column; `commitFails` stands
        for any other storage failure during the insert. */
    method Post(treinoIn: TreinoIn, newId: Uuid, now: DateTime, commitFails: bool)
      returns (r: Result<TreinoOut>)
      requires Valid() && ValidTreinoIn(treinoIn) && newId !in treinos
      modifies this
      ensures Valid()
      ensures r.Err? ==> treinos == old(treinos) && nextPkId == old(nextPkId)
      ensures treinoIn.atletaId !in atletas <==> r == Err(AtletaNotFound(treinoIn.atletaId))
      ensures r == Err(InternalError) <==>
                treinoIn.atletaId in atletas && (commitFails || treinoIn.base.duracaoMinutos > IntegerMax)
      ensures treinoIn.atletaId in atletas && !commitFails && treinoIn.base.duracaoMinutos <= IntegerMax ==>
                && r.Ok?
                && r.value.base == treinoIn.base && r.value.atletaId == treinoIn.atletaId
                && r.value.id == newId && r.value.createdAt == now && !r.value.realizado
                && treinos.Keys == old(treinos).Keys + {newId}
                && (forall k :: k in old(treinos) ==> treinos[k] == old(treinos)[k])
                && ToOut(treinos[newId]) == r.value
    {
      if treinoIn.atletaId !in atletas {
        return Err(AtletaNotFound(treinoIn.atletaId));
      }
      var out := TreinoOut(treinoIn.base, newId, now, false, treinoIn.atletaId);
      var row := ToRow(out, nextPkId);
      RowRoundTrip(out, nextPkId, atletas);
      if commitFails || !ColumnsHold(row, atletas) {
        return Err(InternalError);
      }
      treinos := treinos[newId := row];
      nextPkId := nextPkId + 1;
      r := Ok(out);
    }

    /** List all: one payload per stored session. */
    method Query() returns (r: seq<TreinoOut>)
      requires Valid()
      ensures Lists(r, treinos) && |r| == |treinos|
      ensures forall i :: 0 <= i < |r| ==> ValidTreinoOut(r[i])
    {
      r := ToOutList(treinos);
    }

    /** List by athlete: fails when the athlete does not exist, otherwise
        lists exactly the sessions it owns, possibly none. */
    method QueryByAtleta(atletaId: int) returns (r: Result<seq<TreinoOut>>)
      requires Valid()
      ensures atletaId !in atletas <==> r == Err(AtletaNotFound(atletaId))
      ensures atletaId in atletas ==> r.Ok? && Lists(r.value, OfAtleta(treinos, atletaId))
      ensures r.Ok? ==> forall i :: 0 <= i < |r.value| ==> r.value[i].atletaId == atletaId
    {
      if atletaId !in atletas {
        return Err(AtletaNotFound(atletaId));
      }
      var outs := ToOutList(OfAtleta(treinos, atletaId));
      r := Ok(outs);
    }

    /** Get: the session filed under `id`, or NotFound. */
    method Get(id: Uuid) returns (r: Result<TreinoOut>)
      requires Valid()
      ensures id !in treinos <==> r == Err(TreinoNotFound(id))
      ensures id in treinos ==> r.Ok? && r.value.id == id && r.value == ToOut(treinos[id])
      ensures r.Ok? ==> ValidTreinoOut(r.value)
    {
      if id !in treinos {
        return Err(TreinoNotFound(id));
      }
      r := Ok(ToOut(treinos[id]));
    }

    /** Partial update: writes the fields the caller set onto the session
        and commits; a commit that would put null into a NOT NULL column or
        an out-of-range value into `duracao_minutos` is refused and leaves
        the table as it was. */
    method Patch(id: Uuid, u: TreinoUpdate) returns (r: Result<TreinoOut>)
      requires Valid() && ValidTreinoUpdate(u)
      modifies this
      ensures Valid() && nextPkId == old(nextPkId)
      ensures id !in old(treinos) <==> r == Err(TreinoNotFound(id))
      ensures r == Err(InternalError) <==> id in old(treinos) && CommitRefuses(u)
      ensures r.Ok? <==> id in old(treinos) && !CommitRefuses(u)
      ensures r.Err? ==> treinos == old(treinos)
      ensures r.Ok? ==>
                && treinos == old(treinos)[id := ApplyUpdate(old(treinos)[id], u)]
                && r.value == ToOut(treinos[id])
    {
      if id !in treinos {
        return Err(TreinoNotFound(id));
      }
      var row := ApplySetFields(treinos[id], u);
      UpdatedRowStoredIff(treinos[id], u, atletas);
      if !ColumnsHold(row, atletas) {
        return Err(InternalError);
      }
      treinos := treinos[id := row];
      r := Ok(ToOut(row));
    }

    /** Mark completed: forces `realizado` to true and changes nothing else. */
    method MarcarRealizado(id: Uuid) returns (r: Result<TreinoOut>)
      requires Valid()
      modifies this
      ensures Valid() && nextPkId == old(nextPkId)
      ensures id !in old(treinos) <==> r == Err(TreinoNotFound(id))
      ensures r.Ok? <==> id in old(treinos)
      ensures r.Err? ==> treinos == old(treinos)
      ensures r.Ok? ==>
                && treinos == old(treinos)[id := old(treinos)[id].(realizado := Some(true))]
                && r.value == ToOut(treinos[id]) && r.value.realizado
    {
      if id !in treinos {
        return Err(TreinoNotFound(id));
      }
      var row := treinos[id].(realizado := Some(true));
      treinos := treinos[id := row];
      r := Ok(ToOut(row));
    }

    /** Delete: removes the session filed under `id`, and nothing else. */
    method Delete(id: Uuid) returns (r: Result<()>)
      requires Valid()
      modifies this
      ensures Valid() && nextPkId == old(nextPkId)
      ensures id !in old(treinos) <==> r == Err(TreinoNotFound(id))
      ensures r.Ok? <==> id in old(treinos)
      ensures r.Err? ==> treinos == old(treinos)
      ensures r.Ok? ==> treinos == old(treinos) - {id}
    {
      if id !in treinos {
        return Err(TreinoNotFound(id));
      }
      treinos := treinos - {id};
      r := Ok(());
    }
  }
}
