/** The stored shape of a workout session: one row of the `treinos` table
    and the column constraints the database enforces when it commits. */
module TreinoModels {
  import opened Common

  /** Length of the `nome` VARCHAR column. */
  const NomeColumnLength := 100

  /** Range of an SQL INTEGER column (32-bit signed). */
  const IntegerMin := -0x8000_0000
  const IntegerMax := 0x7fff_ffff

  /** One row.  The columns a partial update can set to null are nullable
      here, so that the NOT NULL constraints become checkable facts. */
  datatype TreinoModel = TreinoModel(
    pkId: int,
    id: Uuid,
    nome: Option<string>,
    descricao: Option<string>,
    dataTreino: Option<DateTime>,
    duracaoMinutos: Option<int>,
    realizado: Option<bool>,
    observacoes: Option<string>,
    createdAt: DateTime,
    atletaId: int)

  /** The NOT NULL columns `nome`, `data_treino`, `duracao_minutos` and
      `realizado` hold values; `descricao` and `observacoes` may be null. */
  predicate NotNullColumnsSet(row: TreinoModel)
  {
    row.nome.Some? && row.dataTreino.Some? && row.duracaoMinutos.Some? && row.realizado.Some?
  }

  /** The constraints a row must meet for a commit to accept it: the NOT
      NULL columns hold values, `nome` fits its column, `duracao_minutos`
      fits an INTEGER, and `atleta_id` references an existing athlete. */
  predicate ColumnsHold(row: TreinoModel, atletaPks: set<int>)
  {
    && NotNullColumnsSet(row)
    && |row.nome.value| <= NomeColumnLength
    && IntegerMin <= row.duracaoMinutos.value <= IntegerMax
    && row.atletaId in atletaPks
  }

  /** `pk_id` is the primary key: no two stored rows share it. */
  ghost predicate PrimaryKeyUnique(rows: map<Uuid, TreinoModel>)
  {
    forall k, k' :: k in rows && k' in rows && k != k' ==> rows[k].pkId != rows[k'].pkId
  }
}
