/** The user service of the older `com.projeto.backend` package. It plugs into
    the same lifecycle but checks less: no field validation, and an email
    uniqueness rule over active users only, run from both validation hooks. */
module BackendUsuarioService {
  import opened Results
  import opened Errors
  import opened Models
  import opened Collaborators
  import opened Repository
  import opened Lifecycle
  import opened ProfileLists
  import Api = ApiUsuarioService

  /** `consultar`: `findById`, whatever the row's active flag. */
  function Consultar(s: Store, id: Option<int>): (r: Result<Usuario, Error>)
    ensures id.None? ==> r == Err(IllegalArgument)
    ensures id.Some? ==> (r.Ok? <==> id.value in s.rows)
    ensures r.Ok? ==> id.Some? && r.value == s.rows[id.value]
    ensures id.Some? && r.Err? ==> r.error == EntityNotFound(USUARIO_NAO_ENCONTRADO)
  {
    if id.None? then Err(IllegalArgument)
    else match FindById(s, id.value)
      case None => Err(EntityNotFound(USUARIO_NAO_ENCONTRADO))
      case Some(u) => Ok(u)
  }

  /** No active row other than the one with id `id` holds this email. */
  predicate EmailFree(s: Store, email: Option<string>, id: int) {
    forall k :: k in s.rows ==> !Counted(s.rows[k], email, true, Some(true), id)
  }

  /** `validarUnicidade`: only the email, only among active rows; a null id
      counts as 0. */
  function ValidarUnicidade(s: Store, e: Usuario): (o: Outcome<Error>)
    ensures o.Pass? <==> EmailFree(s, e.email, e.id.GetOr(0))
    ensures o.Fail? ==> o.error == Custom(EMAIL_JA_CADASTRADO)
  {
    if CountByEmailAndAtivoAndIdNot(s, e.email, true, e.id.GetOr(0)) > 0 then Fail(Custom(EMAIL_JA_CADASTRADO))
    else Pass
  }

  /** `validarInclusao`: uniqueness first, then the password against its
      confirmation, then the hash. */
  function ValidarInclusao(env: Env, s: Store, e: Usuario): (r: Result<Usuario, Error>)
    ensures r.Ok? <==> EmailFree(s, e.email, e.id.GetOr(0)) && e.senha.Some? && e.senha == e.confirmacaoSenha
    ensures !EmailFree(s, e.email, e.id.GetOr(0)) ==> r == Err(Custom(EMAIL_JA_CADASTRADO))
    ensures EmailFree(s, e.email, e.id.GetOr(0)) && e.senha.None? ==> r == Err(NullPointer)
    ensures EmailFree(s, e.email, e.id.GetOr(0)) && e.senha.Some? && e.senha != e.confirmacaoSenha ==>
              r == Err(Validation(SENHA_E_CONFIRMACAO_SENHA_DIFERENTES))
    ensures r.Ok? ==> r.value.(senha := e.senha) == e && r.value.senha == Some(env.hash(e.senha.value))
  {
    var checked :- AsHook(ValidarUnicidade(s, e), e);
    if checked.senha.None? then Err(NullPointer)
    else if checked.senha != checked.confirmacaoSenha then Err(Validation(SENHA_E_CONFIRMACAO_SENHA_DIFERENTES))
    else Ok(checked.(senha := Some(env.hash(checked.senha.value))))
  }

  /** `validarAlteracao`: the uniqueness rule again. */
  function ValidarAlteracao(s: Store, e: Usuario): (r: Result<Usuario, Error>)
    ensures r.Ok? <==> EmailFree(s, e.email, e.id.GetOr(0))
    ensures r.Ok? ==> r.value == e
    ensures r.Err? ==> r.error == Custom(EMAIL_JA_CADASTRADO)
  {
    AsHook(ValidarUnicidade(s, e), e)
  }

  /** The extension points this service fills in. */
  function BackendHooks(env: Env): (h: Hooks)
    ensures Conforming(h)
    ensures h.validarExclusao == Keep && h.resolverPosDependencias == Keep
    ensures h.resolverPreExclusao == Keep && h.resolverPosExclusao == Keep
  {
    Hooks(
      (s: Store, e: Usuario) => ValidarInclusao(env, s, e),
      (s: Store, e: Usuario) => ValidarAlteracao(s, e),
      (s: Store, e: Usuario) => AsHook(ValidarUnicidade(s, e), e),
      Keep,
      (s: Store, e: Usuario) => Ok(VincularPerfis(env, e)),
      Keep, Keep, Keep)
  }

  /** `cadastro`: save with no acting user. */
  function Cadastro(env: Env, s: Store, usuario: Usuario, now: Time, signal: Signal): (t: Tx<Usuario>)
    ensures t.result.Err? ==> t.store == s
  {
    Salvar(BackendHooks(env), env, s, usuario, None, now, signal)
  }

  /* ------------------------------------------------------------ properties */

  /** On a well-formed table the email rule sees every active row but the one
      whose key is `id`. */
  lemma EmailFreeOverValidStore(s: Store, email: Option<string>, id: int)
    requires Valid(s)
    ensures EmailFree(s, email, id) <==>
              forall k :: k in s.rows && k != id && s.rows[k].pojo.ativo ==> s.rows[k].email != email
  {
  }

  /** The uniqueness check `salvar` runs after `validarInclusao` or
      `validarAlteracao` can never fail: those already ran it on the same email
      and id. Dropping it changes nothing. */
  lemma SecondUniquenessCheckRedundant(env: Env, s: Store, e: Usuario, acting: Option<Usuario>, now: Time, signal: Signal)
    ensures Salvar(BackendHooks(env), env, s, e, acting, now, signal)
            == Salvar(BackendHooks(env).(validarUnicidade := Keep), env, s, e, acting, now, signal)
  {
  }

  /** An update whose email an active user already holds is refused as a
      duplicate even when the id names no row; the newer service, whose update
      check is empty, reports the missing row instead. */
  lemma DuplicateEmailBeforeMissingRow(env: Env, s: Store, e: Usuario, acting: Option<Usuario>, now: Time, signal: Signal)
    requires e.id.Some? && e.id.value !in s.rows
    ensures !EmailFree(s, e.email, e.id.value) ==>
              Salvar(BackendHooks(env), env, s, e, acting, now, signal) == Tx(s, Err(Custom(EMAIL_JA_CADASTRADO)))
    ensures Salvar(Api.ApiHooks(env), env, s, e, acting, now, signal) == Tx(s, Err(EntityNotFound(ENTIDADE_NAO_ENCONTRADA)))
  {
  }

  /** Registration succeeds exactly when no active user holds the email, the
      password matches its confirmation, the table's unique columns accept the
      row and the store accepts the write; the new row carries the hashed
      password and the linked profiles. */
  lemma CadastroCreates(env: Env, s: Store, e: Usuario, now: Time, signal: Signal)
    requires Valid(s) && e.id.None?
    ensures var t := Cadastro(env, s, e, now, signal);
            t.result.Ok? <==>
              && signal.Accepted?
              && EmailFree(s, e.email, 0) && e.senha.Some? && e.senha == e.confirmacaoSenha
              && NonNullColumns(e)
              && forall k :: k in s.rows ==> s.rows[k].email != e.email && s.rows[k].login != e.login
    ensures var t := Cadastro(env, s, e, now, signal);
            t.result.Ok? ==>
              var u := t.result.value;
              && u.id == Some(s.nextId)
              && t.store.rows == s.rows[s.nextId := Persisted(u)]
              && u.nome == e.nome && u.login == e.login && u.email == e.email
              && u.senha == Some(env.hash(e.senha.value))
              && u.listaPerfis == Some(Vincular(env, e.listaPerfis))
              && u.pojo == e.pojo.(ativo := true, dataInclusao := Some(now), dataAlteracao := Some(now), usuario := None)
  {
  }

  /** A login another user already holds is never reported by this service: the
      registration reaches the table, whose unique column refuses it, where the
      newer service names the duplicate login. */
  lemma DuplicateLoginReachesTable(env: Env, s: Store, e: Usuario, k: int, now: Time)
    requires Valid(s) && e.id.None?
    requires k in s.rows && s.rows[k].login == e.login
    requires Api.CamposValidos(env, e) && e.senha.Some? && e.senha == e.confirmacaoSenha
    requires forall j :: j in s.rows ==> s.rows[j].email != e.email
    ensures Cadastro(env, s, e, now, Accepted) == Tx(s, Err(ConstraintViolation))
    ensures Api.CriarUsuario(env, s, e, now, Accepted) == Tx(s, Err(Custom(LOGIN_JA_CADASTRADO)))
  {
  }

  /** The email of a soft-deleted user: the newer service refuses it as a
      duplicate, this one lets it through to the table, which refuses the row. */
  lemma SoftDeletedEmail(env: Env, s: Store, e: Usuario, k: int, now: Time)
    requires Valid(s) && e.id.None?
    requires k in s.rows && !s.rows[k].pojo.ativo && s.rows[k].email == e.email
    ensures Api.ValidarUnicidade(s, e) == Fail(Custom(EMAIL_JA_CADASTRADO))
    ensures ValidarUnicidade(s, e) == Pass
    ensures e.senha.Some? && e.senha == e.confirmacaoSenha ==>
              Cadastro(env, s, e, now, Accepted) == Tx(s, Err(ConstraintViolation))
  {
  }

  /** The lookup of this service also finds soft-deleted users; on active ones
      it agrees with the newer service. */
  lemma ConsultarIgnoresActiveFlag(s: Store, k: int)
    requires Valid(s) && k in s.rows
    ensures Consultar(s, Some(k)) == Ok(s.rows[k])
    ensures Api.Consultar(s, Some(k)) == (if s.rows[k].pojo.ativo then Ok(s.rows[k]) else Err(EntityNotFound(USUARIO_NAO_ENCONTRADO)))
  {
  }
}
