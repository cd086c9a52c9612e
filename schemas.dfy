/** The request and response payloads of the workout-session ("treino")
    resource, with the field-level limits the schema declares. */
module TreinoSchemas {
  import opened Common

  /** `max_length` of `nome`, in the base and in the update schema. */
  const NomeMaxLength := 100

  /** The fields shared by the input and the output payload.  `descricao`
      and `observacoes` are optional and absent unless given. */
  datatype Treino = Treino(
    nome: string,
    descricao: Option<string> := None,
    dataTreino: DateTime,
    duracaoMinutos: int,
    observacoes: Option<string> := None)

  /** `nome` fits in 100 characters and the duration is a positive integer. */
  predicate ValidTreino(t: Treino)
  {
    |t.nome| <= NomeMaxLength && t.duracaoMinutos > 0
  }

  /** Creation payload: the base fields plus the owning athlete. */
  datatype TreinoIn = TreinoIn(base: Treino, atletaId: int)

  predicate ValidTreinoIn(t: TreinoIn)
  {
    ValidTreino(t.base)
  }

  /** Response payload: the base fields plus the identity and creation time
      of the output mixin, the completion flag and the owning athlete. */
  datatype TreinoOut = TreinoOut(
    base: Treino,
    id: Uuid,
    createdAt: DateTime,
    realizado: bool,
    atletaId: int)

  predicate ValidTreinoOut(t: TreinoOut)
  {
    ValidTreino(t.base)
  }

  /** One field of a partial update: left unset by the caller, or set by the
      caller to a value, which may be null. */
  datatype Patch<T> = Unset | Set(value: T)

  /** Partial-update payload.  Every field is optional and unset unless
      given; there is no `atletaId`, `id` or `createdAt` field. */
  datatype TreinoUpdate = TreinoUpdate(
    nome: Patch<Option<string>> := Unset,
    descricao: Patch<Option<string>> := Unset,
    dataTreino: Patch<Option<DateTime>> := Unset,
    duracaoMinutos: Patch<Option<int>> := Unset,
    realizado: Patch<Option<bool>> := Unset,
    observacoes: Patch<Option<string>> := Unset)

  /** A non-null `nome` fits in 100 characters; a non-null duration is positive. */
  predicate ValidTreinoUpdate(u: TreinoUpdate)
  {
    && (u.nome.Set? && u.nome.value.Some? ==> |u.nome.value.value| <= NomeMaxLength)
    && (u.duracaoMinutos.Set? && u.duracaoMinutos.value.Some? ==> u.duracaoMinutos.value.value > 0)
  }

  /** One entry of the dictionary of explicitly set update fields. */
  datatype Assignment =
    | SetNome(nome: Option<string>)
    | SetDescricao(descricao: Option<string>)
    | SetDataTreino(dataTreino: Option<DateTime>)
    | SetDuracaoMinutos(duracaoMinutos: Option<int>)
    | SetRealizado(realizado: Option<bool>)
    | SetObservacoes(observacoes: Option<string>)

  function FieldItem<T>(p: Patch<T>, item: T -> Assignment): seq<Assignment>
  {
    if p.Set? then [item(p.value)] else []
  }

  /** The update dumped without its unset fields, in declaration order. */
  function SetFields(u: TreinoUpdate): seq<Assignment>
  {
    FieldItem(u.nome, v => SetNome(v))
    + FieldItem(u.descricao, v => SetDescricao(v))
    + FieldItem(u.dataTreino, v => SetDataTreino(v))
    + FieldItem(u.duracaoMinutos, v => SetDuracaoMinutos(v))
    + FieldItem(u.realizado, v => SetRealizado(v))
    + FieldItem(u.observacoes, v => SetObservacoes(v))
  }

  /** A payload built without `descricao` and `observacoes` has both absent. */
  lemma OptionalFieldsDefaultToAbsent(nome: string, dataTreino: DateTime, duracaoMinutos: int)
    ensures var t := Treino(nome := nome, dataTreino := dataTreino, duracaoMinutos := duracaoMinutos);
            t.descricao == None && t.observacoes == None
  {
  }

  /** The update built with no arguments sets no field. */
  lemma EmptyUpdateSetsNothing()
    ensures SetFields(TreinoUpdate()) == []
  {
  }
}
