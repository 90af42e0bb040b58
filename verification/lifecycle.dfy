/** The generic entity lifecycle: one save path for insertion and update, soft
    and hard deletion, and the extension points a concrete service fills in.
    The extension points are a record of functions; a hook that returns `Ok`
    stands for the Java method returning normally, possibly after changing the
    entity it was handed. */
module Lifecycle {
  import opened Results
  import opened Errors
  import opened Models
  import opened Collaborators
  import opened Repository

  /** An extension point: reads the store, may change the entity, may throw. */
  type Hook = (Store, Usuario) -> Result<Usuario, Error>

  datatype Hooks = Hooks(
    validarInclusao: Hook,
    validarAlteracao: Hook,
    validarUnicidade: Hook,
    validarExclusao: Hook,
    resolverPreDependencias: Hook,
    resolverPosDependencias: Hook,
    resolverPreExclusao: Hook,
    resolverPosExclusao: Hook)

  /** The template's own body of every extension point: accept and change nothing. */
  function Keep(s: Store, e: Usuario): Result<Usuario, Error> {
    Ok(e)
  }

  const Defaults: Hooks := Hooks(Keep, Keep, Keep, Keep, Keep, Keep, Keep, Keep)

  /** A hook that only checks: on success it hands the entity back unchanged. */
  ghost predicate Checks(h: Hook) {
    forall s, e :: h(s, e).Ok? ==> h(s, e).value == e
  }

  /** A hook that may change the entity's own data but not its id or base-class fields. */
  ghost predicate KeepsBase(h: Hook) {
    forall s, e :: h(s, e).Ok? ==> h(s, e).value.id == e.id && h(s, e).value.pojo == e.pojo
  }

  /** The shape both user services give their hooks. */
  ghost predicate Conforming(hooks: Hooks) {
    && KeepsBase(hooks.validarInclusao)
    && KeepsBase(hooks.validarAlteracao)
    && KeepsBase(hooks.validarUnicidade)
    && KeepsBase(hooks.resolverPreDependencias)
    && Checks(hooks.resolverPosDependencias)
    && Checks(hooks.validarExclusao)
    && Checks(hooks.resolverPreExclusao)
  }

  /** A `void` check as a hook. */
  function AsHook(o: Outcome<Error>, e: Usuario): (r: Result<Usuario, Error>)
    ensures r.Ok? <==> o.Pass?
    ensures r.Ok? ==> r.value == e
    ensures r.Err? ==> r.error == o.error
  {
    if o.Fail? then Err(o.error) else Ok(e)
  }

  /** The store after an operation, and what the operation returned or threw. */
  datatype Tx<T> = Tx(store: Store, result: Result<T, Error>)

  /** The transaction boundary: a thrown exception undoes every write. */
  function Rollback<T>(s: Store, t: Tx<T>): Tx<T> {
    if t.result.Err? then Tx(s, t.result) else t
  }

  /** The acting user is attached only when it is a valid user. */
  function Attach(env: Env, e: Usuario, acting: Option<Usuario>): (r: Usuario)
    ensures r.(pojo := e.pojo) == e
    ensures r.pojo.(usuario := e.pojo.usuario) == e.pojo
    ensures UsuarioValido(env, acting) ==> r.pojo.usuario == acting
    ensures !UsuarioValido(env, acting) ==> r.pojo.usuario.None?
  {
    e.WithUsuario(if UsuarioValido(env, acting) then acting else None)
  }

  /* ------------------------------------------------------------------ save */

  /** `salvarEntidade`: stamps the modification time and writes; a concurrent
      version change becomes `ENTIDADE_JA_ALTERADA`, every other store failure
      passes through. */
  function SalvarEntidade(s: Store, e: Usuario, now: Time, signal: Signal): (r: Result<Saved, Error>)
    ensures signal.OptimisticLockFailure? ==> r == Err(Custom(ENTIDADE_JA_ALTERADA))
    ensures signal.Failed? ==> r == Err(StoreFailure(signal.code))
    ensures signal.Accepted? ==>
              (r.Ok? <==> NonNullColumns(e) && !Collides(s.rows, TargetKey(s, e), e))
    ensures signal.Accepted? && r.Err? ==> r.error == ConstraintViolation
    ensures r.Ok? ==>
              var k := TargetKey(s, e);
              && r.value.row == Persisted(e.WithDataAlteracao(now)).(id := Some(k))
              && r.value.store.rows == s.rows[k := r.value.row]
    ensures r.Ok? && Valid(s) ==> Valid(r.value.store)
  {
    var e' := e.WithDataAlteracao(now);
    assert TargetKey(s, e') == TargetKey(s, e);
    match Save(s, e', signal)
    case Ok(sv) => Ok(sv)
    case Err(Stale) => Err(Custom(ENTIDADE_JA_ALTERADA))
    case Err(Violation) => Err(ConstraintViolation)
    case Err(Other(c)) => Err(StoreFailure(c))
  }

  /** The insertion branch: `validarInclusao`, then the creation stamp. */
  function Inclusao(hooks: Hooks, s: Store, e: Usuario, now: Time): Result<Usuario, Error> {
    var e' :- hooks.validarInclusao(s, e);
    Ok(e'.WithDataInclusao(Some(now)))
  }

  /** The update branch: `validarAlteracao`, then the stored row, whose creation
      stamp is carried over. */
  function Alteracao(hooks: Hooks, s: Store, e: Usuario): Result<Usuario, Error> {
    var e' :- hooks.validarAlteracao(s, e);
    if e'.id.None? then Err(IllegalArgument)
    else match FindById(s, e'.id.value)
      case None => Err(EntityNotFound(ENTIDADE_NAO_ENCONTRADA))
      case Some(stored) => Ok(e'.WithDataInclusao(stored.pojo.dataInclusao))
  }

  /** Everything `salvar` does before its write: the branch, `validarUnicidade`,
      `resolverPreDependencias`, and the active flag. */
  function Prepare(hooks: Hooks, s: Store, e: Usuario, now: Time): Result<Usuario, Error> {
    var e2 :- if e.id.None? then Inclusao(hooks, s, e, now) else Alteracao(hooks, s, e);
    var e3 :- hooks.validarUnicidade(s, e2);
    var e4 :- hooks.resolverPreDependencias(s, e3);
    Ok(e4.WithAtivo(true))
  }

  /** `salvar` without its transaction boundary: a failure of
      `resolverPosDependencias` comes after the write. */
  function SalvarRaw(hooks: Hooks, env: Env, s: Store, e: Usuario, acting: Option<Usuario>, now: Time, signal: Signal): Tx<Usuario> {
    match Prepare(hooks, s, Attach(env, e, acting), now)
    case Err(x) => Tx(s, Err(x))
    case Ok(e4) =>
      match SalvarEntidade(s, e4, now, signal)
      case Err(x) => Tx(s, Err(x))
      case Ok(sv) => Tx(sv.store, hooks.resolverPosDependencias(sv.store, e4.WithDataAlteracao(now).(id := sv.row.id)))
  }

  /** `salvar`: insertion when the id is null, update otherwise; all or nothing. */
  function Salvar(hooks: Hooks, env: Env, s: Store, e: Usuario, acting: Option<Usuario>, now: Time, signal: Signal): (t: Tx<Usuario>)
    ensures t.result.Err? ==> t.store == s
    ensures !signal.Accepted? ==> t.result.Err? && t.store == s
    ensures t.result == SalvarRaw(hooks, env, s, e, acting, now, signal).result
  {
    Rollback(s, SalvarRaw(hooks, env, s, e, acting, now, signal))
  }

  /* -------------------------------------------------------------- deletion */

  /** `consultarPorId(id).get()`: the store refuses a null id, and `get` throws
      on an id it does not hold. */
  function Carregar(s: Store, id: Option<int>): (r: Result<Usuario, Error>)
    ensures id.None? ==> r == Err(IllegalArgument)
    ensures id.Some? && id.value !in s.rows ==> r == Err(NoSuchElement)
    ensures r.Ok? <==> id.Some? && id.value in s.rows
    ensures r.Ok? ==> r.value == s.rows[id.value]
  {
    if id.None? then Err(IllegalArgument)
    else match FindById(s, id.value)
      case None => Err(NoSuchElement)
      case Some(row) => Ok(row)
  }

  /** `validarExclusao` followed by `resolverPreExclusao`. */
  function PreExclusao(hooks: Hooks, s: Store, e: Usuario): Result<Usuario, Error> {
    var e2 :- hooks.validarExclusao(s, e);
    hooks.resolverPreExclusao(s, e2)
  }

  /** `excluir` without its transaction boundary. */
  function ExcluirRaw(hooks: Hooks, env: Env, s: Store, id: Option<int>, acting: Option<Usuario>, now: Time, signal: Signal): Tx<()> {
    match Carregar(s, id)
    case Err(x) => Tx(s, Err(x))
    case Ok(row) =>
      match PreExclusao(hooks, s, Attach(env, row, acting))
      case Err(x) => Tx(s, Err(x))
      case Ok(e3) =>
        var e4 := e3.WithAtivo(false).WithDataExclusao(now);
        match SalvarEntidade(s, e4, now, signal)
        case Err(x) => Tx(s, Err(x))
        case Ok(sv) =>
          match hooks.resolverPosExclusao(sv.store, e4.WithDataAlteracao(now))
          case Err(x) => Tx(sv.store, Err(x))
          case Ok(_) => Tx(sv.store, Ok(()))
  }

  /** `excluir`, the soft delete: the row stays, inactive and stamped. */
  function Excluir(hooks: Hooks, env: Env, s: Store, id: Option<int>, acting: Option<Usuario>, now: Time, signal: Signal): (t: Tx<()>)
    ensures t.result.Err? ==> t.store == s
    ensures id.None? ==> t == Tx(s, Err(IllegalArgument))
    ensures id.Some? && id.value !in s.rows ==> t == Tx(s, Err(NoSuchElement))
    ensures !signal.Accepted? ==> t.result.Err? && t.store == s
  {
    Rollback(s, ExcluirRaw(hooks, env, s, id, acting, now, signal))
  }

  /** `excluirSemValidacao`: the soft delete with no check and no hook. */
  function ExcluirSemValidacao(env: Env, s: Store, id: Option<int>, acting: Option<Usuario>, now: Time, signal: Signal): (t: Tx<()>)
    ensures t.result.Err? ==> t.store == s
    ensures id.None? ==> t == Tx(s, Err(IllegalArgument))
    ensures id.Some? && id.value !in s.rows ==> t == Tx(s, Err(NoSuchElement))
  {
    match Carregar(s, id)
    case Err(x) => Tx(s, Err(x))
    case Ok(row) =>
      match SalvarEntidade(s, Attach(env, row, acting).WithAtivo(false).WithDataExclusao(now), now, signal)
      case Err(x) => Tx(s, Err(x))
      case Ok(sv) => Tx(sv.store, Ok(()))
  }

  /** `deletar`, the hard delete after `validarExclusao` and `resolverPreExclusao`. */
  function Deletar(hooks: Hooks, env: Env, s: Store, id: Option<int>, acting: Option<Usuario>): (t: Tx<()>)
    ensures t.result.Err? ==> t.store == s
    ensures id.None? ==> t == Tx(s, Err(IllegalArgument))
    ensures id.Some? && id.value !in s.rows ==> t == Tx(s, Err(NoSuchElement))
    ensures t.result.Ok? ==> id.Some? && id.value in s.rows && t.store.nextId == s.nextId
  {
    match Carregar(s, id)
    case Err(x) => Tx(s, Err(x))
    case Ok(row) =>
      match PreExclusao(hooks, s, Attach(env, row, acting))
      case Err(x) => Tx(s, Err(x))
      case Ok(e3) =>
        match DeleteById(s, e3.id)
        case Err(x) => Tx(s, Err(x))
        case Ok(s') => Tx(s', Ok(()))
  }

  /** `deletarSemValidacao`: removes the row under `id`, with no check and no hook. */
  function DeletarSemValidacao(s: Store, id: Option<int>): (t: Tx<()>)
    ensures t.result.Ok? <==> id.Some? && id.value in s.rows
    ensures t.result.Ok? ==> t.store.rows == s.rows - {id.value}
    ensures t.result.Err? ==> t.store == s && t.result.error == (if id.None? then IllegalArgument else EmptyResult)
    ensures Valid(s) ==> Valid(t.store)
  {
    match DeleteById(s, id)
    case Err(x) => Tx(s, Err(x))
    case Ok(s') => Tx(s', Ok(()))
  }

  /* ------------------------------------------------------------ properties */

  /** An insertion runs `validarInclusao`, stamps creation and modification with
      the clock, activates the entity and writes it under a fresh key; the
      returned entity carries that key and is exactly what was stored (bar the
      transient fields), and no other row changes. */
  lemma SalvarInsert(hooks: Hooks, env: Env, s: Store, e: Usuario, acting: Option<Usuario>, now: Time, signal: Signal)
    requires Valid(s) && Conforming(hooks) && e.id.None?
    requires Salvar(hooks, env, s, e, acting, now, signal).result.Ok?
    ensures var t := Salvar(hooks, env, s, e, acting, now, signal);
            var u := t.result.value;
            && s.nextId !in s.rows
            && u.id == Some(s.nextId)
            && t.store.rows == s.rows[s.nextId := Persisted(u)]
            && u.pojo == Attach(env, e, acting).pojo.(ativo := true, dataInclusao := Some(now), dataAlteracao := Some(now))
            && Valid(t.store)
  {
  }

  /** An update runs `validarAlteracao`, finds the stored row, keeps its creation
      stamp, stamps the modification, activates the entity and overwrites the
      same key; the set of keys does not change. */
  lemma SalvarUpdate(hooks: Hooks, env: Env, s: Store, e: Usuario, acting: Option<Usuario>, now: Time, signal: Signal)
    requires Valid(s) && Conforming(hooks) && e.id.Some?
    requires Salvar(hooks, env, s, e, acting, now, signal).result.Ok?
    ensures var t := Salvar(hooks, env, s, e, acting, now, signal);
            var u := t.result.value;
            var k := e.id.value;
            && k in s.rows
            && u.id == Some(k)
            && t.store.rows == s.rows[k := Persisted(u)]
            && t.store.rows.Keys == s.rows.Keys
            && u.pojo == Attach(env, e, acting).pojo.(ativo := true, dataInclusao := s.rows[k].pojo.dataInclusao,
                                                       dataAlteracao := Some(now))
            && Valid(t.store)
  {
  }

  /** The first failing step decides the error, and nothing is written. */
  lemma SalvarFirstFailure(hooks: Hooks, env: Env, s: Store, e: Usuario, acting: Option<Usuario>, now: Time, signal: Signal)
    ensures var a := Attach(env, e, acting);
            var t := Salvar(hooks, env, s, e, acting, now, signal);
            && (e.id.None? && hooks.validarInclusao(s, a).Err? ==>
                  t == Tx(s, Err(hooks.validarInclusao(s, a).error)))
            && (e.id.Some? && hooks.validarAlteracao(s, a).Err? ==>
                  t == Tx(s, Err(hooks.validarAlteracao(s, a).error)))
            && (e.id.Some? && hooks.validarAlteracao(s, a).Ok? && hooks.validarAlteracao(s, a).value.id == e.id
                && e.id.value !in s.rows ==>
                  t == Tx(s, Err(EntityNotFound(ENTIDADE_NAO_ENCONTRADA))))
    ensures var a := Attach(env, e, acting);
            var t := Salvar(hooks, env, s, e, acting, now, signal);
            var b := if e.id.None? then Inclusao(hooks, s, a, now) else Alteracao(hooks, s, a);
            && (b.Ok? && hooks.validarUnicidade(s, b.value).Err? ==>
                  t == Tx(s, Err(hooks.validarUnicidade(s, b.value).error)))
            && (b.Ok? && hooks.validarUnicidade(s, b.value).Ok?
                && hooks.resolverPreDependencias(s, hooks.validarUnicidade(s, b.value).value).Err? ==>
                  t == Tx(s, Err(hooks.resolverPreDependencias(s, hooks.validarUnicidade(s, b.value).value).error)))
  {
  }

  /** Once every check has passed, a concurrent version change surfaces as
      `ENTIDADE_JA_ALTERADA` and any other store failure unchanged. */
  lemma SalvarStoreFailures(hooks: Hooks, env: Env, s: Store, e: Usuario, acting: Option<Usuario>, now: Time, signal: Signal)
    requires Prepare(hooks, s, Attach(env, e, acting), now).Ok?
    ensures signal.OptimisticLockFailure? ==>
              Salvar(hooks, env, s, e, acting, now, signal) == Tx(s, Err(Custom(ENTIDADE_JA_ALTERADA)))
    ensures signal.Failed? ==>
              Salvar(hooks, env, s, e, acting, now, signal) == Tx(s, Err(StoreFailure(signal.code)))
  {
  }

  /** The transaction boundary: when `resolverPosDependencias` throws after a
      write that succeeded, the run without the boundary has written the row,
      and `salvar` answers the error with the store it was given. */
  lemma PosDependenciasFailureRollsBack(hooks: Hooks, env: Env, s: Store, e: Usuario, acting: Option<Usuario>, now: Time, signal: Signal)
    ensures var p := Prepare(hooks, s, Attach(env, e, acting), now);
            p.Ok? && SalvarEntidade(s, p.value, now, signal).Ok? ==>
              var sv := SalvarEntidade(s, p.value, now, signal).value;
              var post := hooks.resolverPosDependencias(sv.store, p.value.WithDataAlteracao(now).(id := sv.row.id));
              post.Err? ==>
                && SalvarRaw(hooks, env, s, e, acting, now, signal).store.rows == s.rows[TargetKey(s, p.value) := sv.row]
                && Salvar(hooks, env, s, e, acting, now, signal) == Tx(s, Err(post.error))
  {
  }

  /** An instance of the rollback: a post-save hook that throws on a first
      insertion into an empty table. */
  lemma PosDependenciasFailureExample()
    ensures var hooks := Defaults.(resolverPosDependencias := (s: Store, e: Usuario) => Err(NullPointer));
            var env := Env(x => x, (x, y) => true, x => true, x => true, x => true, u => true, p => p);
            var s := Store(map[], 1);
            var e := NovoUsuario(Some("Ricardo Lima"), Some("ricardo"), Some("ricardo@gmail.com"), Some("123456"));
            && 1 in SalvarRaw(hooks, env, s, e, None, 0, Accepted).store.rows
            && Salvar(hooks, env, s, e, None, 0, Accepted) == Tx(s, Err(NullPointer))
  {
  }

  /** An update of a held row succeeds exactly when `validarAlteracao`,
      `validarUnicidade` and `resolverPreDependencias` pass in that order, the
      table's constraints accept the prepared row, the store accepts the write
      and `resolverPosDependencias` accepts the written row. */
  lemma SalvarUpdateSucceeds(hooks: Hooks, env: Env, s: Store, e: Usuario, acting: Option<Usuario>, now: Time)
    requires Valid(s) && Conforming(hooks) && e.id.Some? && e.id.value in s.rows
    ensures var a := Attach(env, e, acting);
            var k := e.id.value;
            var v := hooks.validarAlteracao(s, a);
            Salvar(hooks, env, s, e, acting, now, Accepted).result.Ok? <==>
              v.Ok? &&
              var b := v.value.WithDataInclusao(s.rows[k].pojo.dataInclusao);
              var u := hooks.validarUnicidade(s, b);
              u.Ok? &&
              var d := hooks.resolverPreDependencias(s, u.value);
              d.Ok? &&
              var w := d.value.WithAtivo(true).WithDataAlteracao(now);
              && NonNullColumns(w) && !Collides(s.rows, k, w)
              && hooks.resolverPosDependencias(Store(s.rows[k := Persisted(w)], s.nextId), w).Ok?
  {
  }

  /** A soft delete keeps the row: only its flag, deletion stamp, modification
      stamp and attached acting user change, and no key appears or disappears. */
  lemma ExcluirSoftDeletes(hooks: Hooks, env: Env, s: Store, id: int, acting: Option<Usuario>, now: Time, signal: Signal)
    requires Valid(s) && Conforming(hooks)
    requires Excluir(hooks, env, s, Some(id), acting, now, signal).result.Ok?
    ensures id in s.rows
    ensures var t := Excluir(hooks, env, s, Some(id), acting, now, signal);
            && t.store.rows == s.rows[id := Attach(env, s.rows[id], acting).WithAtivo(false).WithDataExclusao(now).WithDataAlteracao(now)]
            && t.store.rows.Keys == s.rows.Keys
            && !t.store.rows[id].pojo.ativo
            && Valid(t.store)
  {
  }

  /** The soft-deleted form of a stored row. */
  function Apagado(env: Env, row: Usuario, acting: Option<Usuario>, now: Time): Usuario {
    Attach(env, row, acting).WithAtivo(false).WithDataExclusao(now).WithDataAlteracao(now)
  }

  /** On a valid table the unchecked soft delete succeeds exactly when the id is
      held and the store accepts the write, whoever is acting. */
  lemma ExcluirSemValidacaoSucceeds(env: Env, s: Store, id: Option<int>, acting: Option<Usuario>, now: Time, signal: Signal)
    requires Valid(s)
    ensures ExcluirSemValidacao(env, s, id, acting, now, signal).result.Ok? <==>
              id.Some? && id.value in s.rows && signal.Accepted?
  {
  }

  /** On a valid table a soft delete succeeds exactly when the id is held, the
      deletion checks pass, the store accepts the write and
      `resolverPosExclusao` accepts the soft-deleted row. */
  lemma ExcluirSucceeds(hooks: Hooks, env: Env, s: Store, id: Option<int>, acting: Option<Usuario>, now: Time)
    requires Valid(s) && Conforming(hooks)
    ensures Excluir(hooks, env, s, id, acting, now, Accepted).result.Ok? <==>
              && id.Some? && id.value in s.rows
              && PreExclusao(hooks, s, Attach(env, s.rows[id.value], acting)).Ok?
              && var w := Apagado(env, s.rows[id.value], acting, now);
                 hooks.resolverPosExclusao(Store(s.rows[id.value := w], s.nextId), w).Ok?
  {
  }

  /** When `validarExclusao` or `resolverPreExclusao` refuses, neither delete
      writes anything and both report the first refusal. */
  lemma DeletionRefused(hooks: Hooks, env: Env, s: Store, id: int, acting: Option<Usuario>, now: Time, signal: Signal)
    requires id in s.rows
    requires PreExclusao(hooks, s, Attach(env, s.rows[id], acting)).Err?
    ensures var x := PreExclusao(hooks, s, Attach(env, s.rows[id], acting)).error;
            && Excluir(hooks, env, s, Some(id), acting, now, signal) == Tx(s, Err(x))
            && Deletar(hooks, env, s, Some(id), acting) == Tx(s, Err(x))
    ensures var v := hooks.validarExclusao(s, Attach(env, s.rows[id], acting));
            v.Err? ==> PreExclusao(hooks, s, Attach(env, s.rows[id], acting)) == Err(v.error)
  {
  }

  /** On a valid table a hard delete succeeds exactly when the id is held and
      both deletion checks pass. */
  lemma DeletarSucceeds(hooks: Hooks, env: Env, s: Store, id: Option<int>, acting: Option<Usuario>)
    requires Valid(s) && Conforming(hooks)
    ensures Deletar(hooks, env, s, id, acting).result.Ok? <==>
              && id.Some? && id.value in s.rows
              && PreExclusao(hooks, s, Attach(env, s.rows[id.value], acting)).Ok?
  {
  }

  /** `excluirSemValidacao` is `excluir` with every hook left at the template's
      default. */
  lemma ExcluirSemValidacaoSkipsHooks(env: Env, s: Store, id: Option<int>, acting: Option<Usuario>, now: Time, signal: Signal)
    ensures ExcluirSemValidacao(env, s, id, acting, now, signal) == Excluir(Defaults, env, s, id, acting, now, signal)
  {
  }

  /** A hard delete removes exactly the row under `id`. */
  lemma DeletarRemoves(hooks: Hooks, env: Env, s: Store, id: int, acting: Option<Usuario>)
    requires Valid(s) && Conforming(hooks)
    requires Deletar(hooks, env, s, Some(id), acting).result.Ok?
    ensures Deletar(hooks, env, s, Some(id), acting).store.rows == s.rows - {id}
    ensures Valid(Deletar(hooks, env, s, Some(id), acting).store)
  {
  }

  /** With default hooks `deletar` and `deletarSemValidacao` agree on a null id
      and on every held row; on a missing one the first fails looking it up,
      the second deleting it. */
  lemma DeletarWithoutHooks(env: Env, s: Store, id: Option<int>, acting: Option<Usuario>)
    requires Valid(s)
    ensures id.None? || id.value in s.rows ==> Deletar(Defaults, env, s, id, acting) == DeletarSemValidacao(s, id)
    ensures id.Some? && id.value !in s.rows ==>
              && Deletar(Defaults, env, s, id, acting).result == Err(NoSuchElement)
              && DeletarSemValidacao(s, id).result == Err(EmptyResult)
  {
  }
}
