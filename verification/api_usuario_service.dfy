/** The user service of the `br.com.api` package: lookups, the checks and
    rewrites it plugs into the lifecycle, the partial update, the permission
    rule and the profile change. The acting user, which the service reads from
    the security context, is a parameter. */
module ApiUsuarioService {
  import opened Results
  import opened Errors
  import opened Models
  import opened Collaborators
  import opened Repository
  import opened Lifecycle
  import opened ProfileLists

  /* ---------------------------------------------------------------- lookups */

  /** `consultar`: the active user with this id, provided its id column is set. */
  function Consultar(s: Store, id: Option<int>): (r: Result<Usuario, Error>)
    ensures r.Ok? ==> r.value.id == id && id.Some? && r.value.pojo.ativo && r.value in s.rows.Values
    ensures Valid(s) ==> (r.Ok? <==> id.Some? && id.value in s.rows && s.rows[id.value].pojo.ativo)
    ensures Valid(s) && r.Ok? ==> r.value == s.rows[id.value]
    ensures Valid(s) && r.Err? ==> r.error == EntityNotFound(USUARIO_NAO_ENCONTRADO)
  {
    var found :- FindDistinctByIdAndAtivo(s, id, true);
    if found.Some? && found.value.id.Some? then Ok(found.value)
    else Err(EntityNotFound(USUARIO_NAO_ENCONTRADO))
  }

  /** `consultarPorLogin`: the active user with this login, provided its id
      column is set. */
  function ConsultarPorLogin(s: Store, login: Option<string>): (r: Result<Usuario, Error>)
    ensures r.Ok? ==> r.value.login == login && r.value.id.Some? && r.value.pojo.ativo && r.value in s.rows.Values
    ensures Valid(s) ==>
              (r.Ok? <==> !(forall k :: k in s.rows ==> s.rows[k].login != login || !s.rows[k].pojo.ativo))
    ensures Valid(s) && r.Err? ==> r.error == EntityNotFound(NotFoundKey.LOGIN_INVALIDO)
  {
    var found :- FindDistinctByLoginAndAtivo(s, login, true);
    if found.Some? && found.value.id.Some? then Ok(found.value)
    else Err(EntityNotFound(NotFoundKey.LOGIN_INVALIDO))
  }

  /* -------------------------------------------------------------- insertion */

  /** The three field checks of an insertion: name, login, and email (a valid
      string and a well-formed address). */
  predicate CamposValidos(env: Env, e: Usuario) {
    && CampoValido(env, e.nome)
    && CampoValido(env, e.login)
    && CampoValido(env, e.email) && env.emailValido(e.email.value)
  }

  /** `validarInclusao`: the field checks in order, then the password against its
      confirmation; on success the password is replaced by its hash. */
  function ValidarInclusao(env: Env, e: Usuario): (r: Result<Usuario, Error>)
    ensures r.Ok? <==> CamposValidos(env, e) && e.senha.Some? && e.senha == e.confirmacaoSenha
    ensures r == Err(Validation(NOME_INVALIDO)) <==> !CampoValido(env, e.nome)
    ensures r == Err(Validation(ValidationKey.LOGIN_INVALIDO)) <==>
              CampoValido(env, e.nome) && !CampoValido(env, e.login)
    ensures r == Err(Validation(EMAIL_INVALIDO)) <==>
              CampoValido(env, e.nome) && CampoValido(env, e.login) && !(CampoValido(env, e.email) && env.emailValido(e.email.value))
    ensures r == Err(NullPointer) <==> CamposValidos(env, e) && e.senha.None?
    ensures r == Err(Validation(SENHA_E_CONFIRMACAO_SENHA_DIFERENTES)) <==>
              CamposValidos(env, e) && e.senha.Some? && e.senha != e.confirmacaoSenha
    ensures r.Ok? ==> r.value.(senha := e.senha) == e && r.value.senha == Some(env.hash(e.senha.value))
    ensures r.Ok? && WellFormed(env) ==> env.matches(e.confirmacaoSenha, r.value.senha)
  {
    if !CampoValido(env, e.nome) then Err(Validation(NOME_INVALIDO))
    else if !CampoValido(env, e.login) then Err(Validation(ValidationKey.LOGIN_INVALIDO))
    else if !CampoValido(env, e.email) || !env.emailValido(e.email.value) then Err(Validation(EMAIL_INVALIDO))
    else if e.senha.None? then Err(NullPointer)
    else if e.senha != e.confirmacaoSenha then Err(Validation(SENHA_E_CONFIRMACAO_SENHA_DIFERENTES))
    else Ok(e.(senha := Some(env.hash(e.senha.value))))
  }

  /** No row other than the one with id `id` holds this value in the email
      column (when `byEmail`) or the login column, whatever its active flag. */
  predicate Free(s: Store, value: Option<string>, byEmail: bool, id: int) {
    forall k :: k in s.rows ==> !Counted(s.rows[k], value, byEmail, None, id)
  }

  /** `validarUnicidade`: a null id counts as 0; the email is checked before the
      login, over active and inactive rows alike. */
  function ValidarUnicidade(s: Store, e: Usuario): (o: Outcome<Error>)
    ensures o.Pass? <==> Free(s, e.email, true, e.id.GetOr(0)) && Free(s, e.login, false, e.id.GetOr(0))
    ensures o == Fail(Custom(EMAIL_JA_CADASTRADO)) <==> !Free(s, e.email, true, e.id.GetOr(0))
    ensures o == Fail(Custom(LOGIN_JA_CADASTRADO)) <==>
              Free(s, e.email, true, e.id.GetOr(0)) && !Free(s, e.login, false, e.id.GetOr(0))
  {
    var id := e.id.GetOr(0);
    if CountByEmailAndIdNot(s, e.email, id) > 0 then Fail(Custom(EMAIL_JA_CADASTRADO))
    else if CountByLoginAndIdNot(s, e.login, id) > 0 then Fail(Custom(LOGIN_JA_CADASTRADO))
    else Pass
  }

  /* ----------------------------------------------------------------- update */

  /** Java's `Character.isWhitespace`: the space, line and paragraph separators
      other than the non-breaking ones, and the control characters 9-13 and 28-31. */
  predicate IsWhitespace(c: char) {
    var n := c as int;
    || 9 <= n <= 13 || 28 <= n <= 32
    || n == 0x1680 || 0x2000 <= n <= 0x2006 || 0x2008 <= n <= 0x200A
    || n == 0x2028 || n == 0x2029 || n == 0x205F || n == 0x3000
  }

  /** `String.isBlank`: empty or whitespace only. */
  predicate IsBlank(s: string) {
    forall i :: 0 <= i < |s| ==> IsWhitespace(s[i])
  }

  /** `validarTrocarSenha`: the current password must match the stored hash and
      the new password its confirmation; the password then becomes the new
      password's hash. */
  function ValidarTrocarSenha(env: Env, u: Usuario, hashAtual: Option<string>): (r: Result<Usuario, Error>)
    ensures r.Ok? <==> env.matches(u.senha, hashAtual) && u.novaSenha.Some? && u.novaSenha == u.confirmacaoSenha
    ensures !env.matches(u.senha, hashAtual) ==> r == Err(Validation(SENHA_INCORRETA))
    ensures env.matches(u.senha, hashAtual) && u.novaSenha.None? ==> r == Err(NullPointer)
    ensures env.matches(u.senha, hashAtual) && u.novaSenha.Some? && u.novaSenha != u.confirmacaoSenha ==>
              r == Err(Validation(SENHA_E_CONFIRMACAO_SENHA_DIFERENTES))
    ensures r.Ok? ==> r.value.(senha := u.senha) == u && r.value.senha == Some(env.hash(u.novaSenha.value))
    ensures r.Ok? && WellFormed(env) ==> env.matches(u.novaSenha, r.value.senha)
  {
    if !env.matches(u.senha, hashAtual) then Err(Validation(SENHA_INCORRETA))
    else if u.novaSenha.None? then Err(NullPointer)
    else if u.novaSenha != u.confirmacaoSenha then Err(Validation(SENHA_E_CONFIRMACAO_SENHA_DIFERENTES))
    else Ok(u.(senha := Some(env.hash(u.novaSenha.value))))
  }

  /** A supplied name is accepted when it is a valid string; an absent one
      always is. */
  predicate NomeAceito(env: Env, nome: Option<string>) {
    nome.None? || env.campoStringValido(nome.value)
  }

  /** A supplied email is accepted when it is not blank and well formed; an
      absent one always is. */
  predicate EmailAceito(env: Env, email: Option<string>) {
    email.None? || (!IsBlank(email.value) && env.emailValido(email.value))
  }

  /** A password change is accepted when none is asked for, or when the current
      password matches the stored hash and the new one its confirmation. */
  predicate SenhaAceita(env: Env, stored: Option<string>, e: Usuario) {
    e.novaSenha.None? || (env.matches(e.senha, stored) && e.novaSenha == e.confirmacaoSenha)
  }

  /** The name a partial update leaves: the stored one when none is supplied,
      otherwise the supplied one, if valid. */
  function NovoNome(env: Env, stored: Option<string>, nome: Option<string>): (r: Result<Option<string>, Error>)
    ensures r.Ok? <==> NomeAceito(env, nome)
    ensures r.Ok? ==> r.value == (if nome.Some? then nome else stored)
    ensures r.Err? ==> r.error == Validation(NOME_INVALIDO)
  {
    if nome.None? then Ok(stored)
    else if !env.campoStringValido(nome.value) then Err(Validation(NOME_INVALIDO))
    else Ok(nome)
  }

  /** The email a partial update leaves: the stored one when none is supplied,
      otherwise the supplied one, if not blank and well formed. */
  function NovoEmail(env: Env, stored: Option<string>, email: Option<string>): (r: Result<Option<string>, Error>)
    ensures r.Ok? <==> EmailAceito(env, email)
    ensures r.Ok? ==> r.value == (if email.Some? then email else stored)
    ensures r.Err? ==> r.error == Validation(EMAIL_INVALIDO)
  {
    if email.None? then Ok(stored)
    else if IsBlank(email.value) || !env.emailValido(email.value) then Err(Validation(EMAIL_INVALIDO))
    else Ok(email)
  }

  /** The password hash a partial update leaves: the stored one unless a new
      password is supplied, in which case the change is checked against the
      stored hash. */
  function NovaSenha(env: Env, stored: Option<string>, e: Usuario): (r: Result<Option<string>, Error>)
    ensures r.Ok? <==> SenhaAceita(env, stored, e)
    ensures r.Ok? ==> r.value == (if e.novaSenha.Some? then Some(env.hash(e.novaSenha.value)) else stored)
    ensures e.novaSenha.Some? && !env.matches(e.senha, stored) ==> r == Err(Validation(SENHA_INCORRETA))
    ensures e.novaSenha.Some? && env.matches(e.senha, stored) && e.novaSenha != e.confirmacaoSenha ==>
              r == Err(Validation(SENHA_E_CONFIRMACAO_SENHA_DIFERENTES))
    ensures r.Ok? && e.novaSenha.Some? && WellFormed(env) ==> env.matches(e.novaSenha, r.value)
  {
    if e.novaSenha.None? then Ok(stored)
    else
      var changed :- ValidarTrocarSenha(env, e, stored);
      Ok(changed.senha)
  }

  /** The active stored row a partial update starts from. */
  predicate Editavel(s: Store, id: Option<int>) {
    id.Some? && id.value in s.rows && s.rows[id.value].pojo.ativo
  }

  /** `validarCamposAlterados`: the supplied name, email and new password merged,
      in that order, onto the active stored user; nothing else is taken from the
      request. */
  function ValidarCamposAlterados(env: Env, s: Store, e: Usuario): (r: Result<Usuario, Error>)
    ensures Valid(s) && !Editavel(s, e.id) ==> r == Err(EntityNotFound(USUARIO_NAO_ENCONTRADO))
    ensures Valid(s) && Editavel(s, e.id) ==>
              var stored := s.rows[e.id.value];
              && (r.Ok? <==> NomeAceito(env, e.nome) && EmailAceito(env, e.email) && SenhaAceita(env, stored.senha, e))
              && (!NomeAceito(env, e.nome) ==> r == Err(Validation(NOME_INVALIDO)))
              && (NomeAceito(env, e.nome) && !EmailAceito(env, e.email) ==> r == Err(Validation(EMAIL_INVALIDO)))
              && (NomeAceito(env, e.nome) && EmailAceito(env, e.email) && e.novaSenha.Some? ==>
                    && (!env.matches(e.senha, stored.senha) ==> r == Err(Validation(SENHA_INCORRETA)))
                    && (env.matches(e.senha, stored.senha) && e.novaSenha != e.confirmacaoSenha ==>
                          r == Err(Validation(SENHA_E_CONFIRMACAO_SENHA_DIFERENTES))))
    ensures Valid(s) && r.Ok? ==>
              var stored := s.rows[e.id.value];
              && Editavel(s, e.id)
              && r.value.(nome := stored.nome, email := stored.email, senha := stored.senha) == stored
              && r.value.nome == (if e.nome.Some? then e.nome else stored.nome)
              && r.value.email == (if e.email.Some? then e.email else stored.email)
              && (e.novaSenha.None? ==> r.value.senha == stored.senha)
              && (e.novaSenha.Some? ==>
                    && env.matches(e.senha, stored.senha)
                    && e.novaSenha == e.confirmacaoSenha
                    && r.value.senha == Some(env.hash(e.novaSenha.value)))
  {
    var found :- FindDistinctByIdAndAtivo(s, e.id, true);
    if found.None? then Err(EntityNotFound(USUARIO_NAO_ENCONTRADO))
    else
      var stored := found.value;
      var nome :- NovoNome(env, stored.nome, e.nome);
      var email :- NovoEmail(env, stored.email, e.email);
      var senha :- NovaSenha(env, stored.senha, e);
      Ok(stored.(nome := nome, email := email, senha := senha))
  }

  /* ------------------------------------------------------------ permissions */

  /** The loop over the acting user's profiles: does any carry the admin name? */
  function AnyAdmin(perfis: seq<Perfil>): (b: bool)
    ensures b <==> exists i :: 0 <= i < |perfis| && perfis[i].nome == ADMIN
  {
    if perfis == [] then false
    else if perfis[0].nome == ADMIN then true
    else
      var b := AnyAdmin(perfis[1..]);
      assert forall i :: 0 < i < |perfis| ==> perfis[i] == perfis[1..][i - 1];
      b
  }

  /** `validarPerfilUsuarioLogado`: an administrator may act on anyone, any
      other user only on themself. */
  function ValidarPerfilUsuarioLogado(usuario: Usuario, logado: Usuario): (o: Outcome<Error>)
    ensures logado.listaPerfis.None? ==> o == Fail(NullPointer)
    ensures logado.listaPerfis.Some? ==>
              (o.Pass? <==> (exists i :: 0 <= i < |logado.listaPerfis.value| && logado.listaPerfis.value[i].nome == ADMIN)
                            || (usuario.id.Some? && usuario.id == logado.id))
    ensures logado.listaPerfis.Some? && o.Fail? ==>
              o.error == (if usuario.id.None? then NullPointer else Custom(USUARIO_SEM_PERMISSAO))
  {
    if logado.listaPerfis.None? then Fail(NullPointer)
    else if AnyAdmin(logado.listaPerfis.value) then Pass
    else if usuario.id.None? then Fail(NullPointer)
    else if usuario.id == logado.id then Pass
    else Fail(Custom(USUARIO_SEM_PERMISSAO))
  }

  /** `validarExclusao`: the permission rule, applied only when a valid acting
      user is attached to the entity. */
  function ValidarExclusao(env: Env, e: Usuario): (r: Result<Usuario, Error>)
    ensures r.Ok? ==> r.value == e
    ensures !UsuarioValido(env, e.pojo.usuario) ==> r == Ok(e)
    ensures UsuarioValido(env, e.pojo.usuario) ==>
              (r.Ok? <==> ValidarPerfilUsuarioLogado(e, e.pojo.usuario.value).Pass?)
  {
    if UsuarioValido(env, e.pojo.usuario) then AsHook(ValidarPerfilUsuarioLogado(e, e.pojo.usuario.value), e)
    else Ok(e)
  }

  /* ----------------------------------------------------- lifecycle binding */

  /** The extension points this service fills in; the rest keep the template's
      bodies. */
  function ApiHooks(env: Env): (h: Hooks)
    ensures Conforming(h)
    ensures h.validarAlteracao == Keep && h.resolverPosDependencias == Keep
    ensures h.resolverPreExclusao == Keep && h.resolverPosExclusao == Keep
  {
    Hooks(
      (s: Store, e: Usuario) => ValidarInclusao(env, e),
      Keep,
      (s: Store, e: Usuario) => AsHook(ValidarUnicidade(s, e), e),
      (s: Store, e: Usuario) => ValidarExclusao(env, e),
      (s: Store, e: Usuario) => Ok(VincularPerfis(env, e)),
      Keep, Keep, Keep)
  }

  /** `criarUsuario`: save with no acting user. */
  function CriarUsuario(env: Env, s: Store, usuario: Usuario, now: Time, signal: Signal): (t: Tx<Usuario>)
    ensures t.result.Err? ==> t.store == s
  {
    Salvar(ApiHooks(env), env, s, usuario, None, now, signal)
  }

  /** `salvarUsuario`: the permission rule when a valid user is acting, the
      partial update, then the save. */
  function SalvarUsuario(env: Env, s: Store, usuario: Usuario, logado: Option<Usuario>, now: Time, signal: Signal): (t: Tx<Usuario>)
    ensures t.result.Err? ==> t.store == s
  {
    var permitted := if UsuarioValido(env, logado) then ValidarPerfilUsuarioLogado(usuario, logado.value) else Pass;
    if permitted.Fail? then Tx(s, Err(permitted.error))
    else match ValidarCamposAlterados(env, s, usuario)
      case Err(x) => Tx(s, Err(x))
      case Ok(merged) => Salvar(ApiHooks(env), env, s, merged, logado, now, signal)
  }

  /* -------------------------------------------------------- profile change */

  /** The profile-change request and response. */
  datatype AlteracaoPerfis = AlteracaoPerfis(
    idUsuario: Option<int>,
    login: Option<string>,
    perfis: Option<seq<Perfil>>,
    remocaoPerfis: bool)

  /** The target of a profile change: by id when the id is valid, by login
      otherwise. */
  function Alvo(env: Env, s: Store, req: AlteracaoPerfis): (r: Result<Usuario, Error>)
    ensures env.idValido(req.idUsuario) && r.Ok? ==>
              r.value.id == req.idUsuario && r.value.pojo.ativo && r.value in s.rows.Values
    ensures !env.idValido(req.idUsuario) ==> r == ConsultarPorLogin(s, req.login)
    ensures Valid(s) && env.idValido(req.idUsuario) ==>
              (r.Ok? <==> req.idUsuario.Some? && req.idUsuario.value in s.rows && s.rows[req.idUsuario.value].pojo.ativo)
    ensures Valid(s) && env.idValido(req.idUsuario) && r.Err? ==> r.error == EntityNotFound(USUARIO_NAO_ENCONTRADO)
  {
    if env.idValido(req.idUsuario) then
      var found :- FindDistinctByIdAndAtivo(s, req.idUsuario, true);
      if found.None? then Err(EntityNotFound(USUARIO_NAO_ENCONTRADO)) else Ok(found.value)
    else ConsultarPorLogin(s, req.login)
  }

  /** `adicionarPerfis` or `removerPerfis` on the target's list: a null request
      throws, a null list throws as soon as the request has an element. */
  function MudarPerfis(lista: Option<seq<Perfil>>, perfis: Option<seq<Perfil>>, remocao: bool): (r: Result<Option<seq<Perfil>>, Error>)
    ensures r.Err? <==> perfis.None? || (perfis.value != [] && lista.None?)
    ensures r.Err? ==> r.error == NullPointer
    ensures r.Ok? && perfis.value == [] ==> r.value == lista
    ensures r.Ok? && perfis.value != [] ==>
              r.value == Some(if remocao then Remove(lista.value, perfis.value) else Add(lista.value, perfis.value))
  {
    if perfis.None? then Err(NullPointer)
    else if perfis.value == [] then Ok(lista)
    else if lista.None? then Err(NullPointer)
    else if remocao then Ok(Some(Remove(lista.value, perfis.value)))
    else Ok(Some(Add(lista.value, perfis.value)))
  }

  /** `alterarPerfisUsuario`: find the target, refuse a change of one's own
      profiles, change the list and save it, answering with the saved id, login
      and profiles. */
  function AlterarPerfisUsuario(env: Env, s: Store, req: AlteracaoPerfis, logado: Option<Usuario>, now: Time, signal: Signal): (t: Tx<AlteracaoPerfis>)
    ensures t.result.Err? ==> t.store == s
    ensures t.result.Ok? ==> t.result.value.remocaoPerfis == req.remocaoPerfis
  {
    match Alvo(env, s, req)
    case Err(x) => Tx(s, Err(x))
    case Ok(u) =>
      if UsuarioValido(env, logado) && u.id.None? then Tx(s, Err(NullPointer))
      else if UsuarioValido(env, logado) && u.id == logado.value.id then Tx(s, Err(Custom(PROIBIDO_ALTERAR_O_PROPRIO_PERFIL)))
      else match MudarPerfis(u.listaPerfis, req.perfis, req.remocaoPerfis)
        case Err(x) => Tx(s, Err(x))
        case Ok(lista) =>
          match SalvarEntidade(s, u.(listaPerfis := lista), now, signal)
          case Err(x) => Tx(s, Err(x))
          case Ok(sv) => Tx(sv.store, Ok(req.(idUsuario := sv.row.id, login := sv.row.login, perfis := sv.row.listaPerfis)))
  }

  /* ------------------------------------------------------------ properties */

  /** On a well-formed table the uniqueness counts see every row but the one
      whose key is `id`; with the sentinel 0 of a new user, every row. */
  lemma FreeOverValidStore(s: Store, value: Option<string>, byEmail: bool, id: int)
    requires Valid(s)
    ensures Free(s, value, byEmail, id) <==>
              forall k :: k in s.rows && k != id ==> (if byEmail then s.rows[k].email else s.rows[k].login) != value
    ensures id <= 0 ==>
              (Free(s, value, byEmail, id) <==> forall k :: k in s.rows ==> (if byEmail then s.rows[k].email else s.rows[k].login) != value)
  {
  }

  /** Both lookups refuse an active row whose id column is null, as an empty
      user stored without a key would be, although the query itself finds it. */
  lemma LookupsRefuseRowWithoutId()
    ensures var vazio := Usuario(None, None, None, None, None, None, None, None, NovoPojo.(ativo := true));
            var s := Store(map[1 := vazio], 2);
            && FindDistinctByIdAndAtivo(s, None, true) == Ok(Some(vazio))
            && FindDistinctByLoginAndAtivo(s, None, true) == Ok(Some(vazio))
            && Consultar(s, None) == Err(EntityNotFound(USUARIO_NAO_ENCONTRADO))
            && ConsultarPorLogin(s, None) == Err(EntityNotFound(NotFoundKey.LOGIN_INVALIDO))
  {
    var vazio := Usuario(None, None, None, None, None, None, None, None, NovoPojo.(ativo := true));
    var s := Store(map[1 := vazio], 2);
    assert IdMatches(s, None, true) == {1};
    assert LoginMatches(s, None, true) == {1};
  }

  /** Creating a user succeeds exactly when the fields are valid, the password
      matches its confirmation, no row (active or not) holds the email or the
      login, and the store accepts the write: the service's own checks leave the
      table's unique constraints nothing to refuse. The new row carries the
      hashed password, the linked profiles and fresh stamps. */
  lemma CriarUsuarioCreates(env: Env, s: Store, e: Usuario, now: Time, signal: Signal)
    requires Valid(s) && e.id.None?
    ensures var t := CriarUsuario(env, s, e, now, signal);
            t.result.Ok? <==>
              && signal.Accepted?
              && CamposValidos(env, e) && e.senha.Some? && e.senha == e.confirmacaoSenha
              && forall k :: k in s.rows ==> s.rows[k].email != e.email && s.rows[k].login != e.login
    ensures var t := CriarUsuario(env, s, e, now, signal);
            t.result.Ok? ==>
              var u := t.result.value;
              && s.nextId !in s.rows
              && u.id == Some(s.nextId)
              && t.store.rows == s.rows[s.nextId := Persisted(u)]
              && u.nome == e.nome && u.login == e.login && u.email == e.email
              && u.senha == Some(env.hash(e.senha.value))
              && u.listaPerfis == Some(Vincular(env, e.listaPerfis))
              && u.pojo == e.pojo.(ativo := true, dataInclusao := Some(now), dataAlteracao := Some(now), usuario := None)
  {
  }

  /** When creation fails in the service's own checks, the first failing check
      names the error: the insertion checks, then the email, then the login. */
  lemma CriarUsuarioFirstFailure(env: Env, s: Store, e: Usuario, now: Time, signal: Signal)
    requires e.id.None?
    ensures ValidarInclusao(env, e).Err? ==>
              CriarUsuario(env, s, e, now, signal) == Tx(s, Err(ValidarInclusao(env, e).error))
    ensures ValidarInclusao(env, e).Ok? && !Free(s, e.email, true, 0) ==>
              CriarUsuario(env, s, e, now, signal) == Tx(s, Err(Custom(EMAIL_JA_CADASTRADO)))
    ensures ValidarInclusao(env, e).Ok? && Free(s, e.email, true, 0) && !Free(s, e.login, false, 0) ==>
              CriarUsuario(env, s, e, now, signal) == Tx(s, Err(Custom(LOGIN_JA_CADASTRADO)))
  {
  }

  /** An acting user without the admin profile may not save another user, and
      nothing is read or written past that check. */
  lemma SalvarUsuarioForbidden(env: Env, s: Store, e: Usuario, logado: Option<Usuario>, now: Time, signal: Signal)
    requires UsuarioValido(env, logado) && logado.value.listaPerfis.Some?
    requires forall i :: 0 <= i < |logado.value.listaPerfis.value| ==> logado.value.listaPerfis.value[i].nome != ADMIN
    requires e.id.Some? && e.id != logado.value.id
    ensures SalvarUsuario(env, s, e, logado, now, signal) == Tx(s, Err(Custom(USUARIO_SEM_PERMISSAO)))
  {
  }

  /** A successful partial update rewrites the user's own row only: the supplied
      name and email replace the stored ones, a new password is stored hashed,
      the login is never taken from the request, the creation stamp survives
      and the modification stamp is the clock's. */
  lemma SalvarUsuarioMerges(env: Env, s: Store, e: Usuario, logado: Option<Usuario>, now: Time, signal: Signal)
    requires Valid(s)
    requires SalvarUsuario(env, s, e, logado, now, signal).result.Ok?
    ensures e.id.Some? && e.id.value in s.rows
    ensures var t := SalvarUsuario(env, s, e, logado, now, signal);
            var u := t.result.value;
            var k := e.id.value;
            var stored := s.rows[k];
            && u.id == Some(k)
            && t.store.rows == s.rows[k := Persisted(u)]
            && t.store.rows.Keys == s.rows.Keys
            && u.login == stored.login
            && u.nome == (if e.nome.Some? then e.nome else stored.nome)
            && u.email == (if e.email.Some? then e.email else stored.email)
            && u.senha == (if e.novaSenha.Some? then Some(env.hash(e.novaSenha.value)) else stored.senha)
            && u.listaPerfis == Some(Vincular(env, stored.listaPerfis))
            && u.pojo.ativo
            && u.pojo.dataInclusao == stored.pojo.dataInclusao
            && u.pojo.dataAlteracao == Some(now)
  {
  }

  /** With a valid acting user, a soft delete succeeds exactly when that user is
      an administrator or deletes themself; otherwise it is refused with
      `USUARIO_SEM_PERMISSAO` and nothing changes. */
  lemma ExcluirPermission(env: Env, s: Store, id: int, acting: Option<Usuario>, now: Time)
    requires Valid(s) && id in s.rows
    requires UsuarioValido(env, acting) && acting.value.listaPerfis.Some?
    ensures var t := Excluir(ApiHooks(env), env, s, Some(id), acting, now, Accepted);
            && (t.result.Ok? <==>
                  (exists i :: 0 <= i < |acting.value.listaPerfis.value| && acting.value.listaPerfis.value[i].nome == ADMIN)
                  || acting.value.id == Some(id))
            && (t.result.Err? ==> t == Tx(s, Err(Custom(USUARIO_SEM_PERMISSAO))))
  {
  }

  /** Without a valid acting user the permission rule is skipped, and a soft
      delete through this service is the unchecked one. */
  lemma ExcluirWithoutActingUser(env: Env, s: Store, id: int, acting: Option<Usuario>, now: Time, signal: Signal)
    requires !UsuarioValido(env, acting)
    ensures Excluir(ApiHooks(env), env, s, Some(id), acting, now, signal) == ExcluirSemValidacao(env, s, Some(id), acting, now, signal)
  {
  }

  /** A valid acting user may not change their own profiles; the refusal comes
      before the list is touched. */
  lemma AlterarPerfisSelfBan(env: Env, s: Store, req: AlteracaoPerfis, logado: Option<Usuario>, now: Time, signal: Signal)
    requires UsuarioValido(env, logado)
    requires Alvo(env, s, req).Ok? && Alvo(env, s, req).value.id.Some?
    requires Alvo(env, s, req).value.id == logado.value.id
    ensures AlterarPerfisUsuario(env, s, req, logado, now, signal) == Tx(s, Err(Custom(PROIBIDO_ALTERAR_O_PROPRIO_PERFIL)))
  {
  }

  /** A successful profile change rewrites one active row, the target's, and in
      it only the profile list and the modification stamp; the list is the
      stored one with the request added or removed. */
  lemma AlterarPerfisChangesOnlyProfiles(env: Env, s: Store, req: AlteracaoPerfis, logado: Option<Usuario>, now: Time, signal: Signal)
    requires Valid(s)
    requires AlterarPerfisUsuario(env, s, req, logado, now, signal).result.Ok?
    ensures var r := AlterarPerfisUsuario(env, s, req, logado, now, signal).result.value;
            r.idUsuario.Some? && r.idUsuario.value in s.rows && req.perfis.Some?
    ensures var t := AlterarPerfisUsuario(env, s, req, logado, now, signal);
            var r := t.result.value;
            var k := r.idUsuario.value;
            var stored := s.rows[k];
            && stored.pojo.ativo
            && (env.idValido(req.idUsuario) ==> req.idUsuario == Some(k))
            && (!env.idValido(req.idUsuario) ==> req.login == stored.login)
            && t.store.rows == s.rows[k := stored.(listaPerfis := r.perfis, pojo := stored.pojo.(dataAlteracao := Some(now)))]
            && t.store.nextId == s.nextId
            && Valid(t.store)
            && r.login == stored.login
            && (req.perfis.value == [] ==> r.perfis == stored.listaPerfis)
            && (req.perfis.value != [] ==>
                  r.perfis == Some(if req.remocaoPerfis then Remove(stored.listaPerfis.value, req.perfis.value)
                                   else Add(stored.listaPerfis.value, req.perfis.value)))
  {
  }

  /** A partial update succeeds exactly when the acting user, if valid, may edit
      the target, the merge of the request onto the active stored row is
      accepted, and no other row holds the resulting email. The login always
      comes from the store, so it never clashes. */
  lemma SalvarUsuarioSucceeds(env: Env, s: Store, e: Usuario, logado: Option<Usuario>, now: Time)
    requires Valid(s)
    ensures SalvarUsuario(env, s, e, logado, now, Accepted).result.Ok? <==>
              && (UsuarioValido(env, logado) ==> ValidarPerfilUsuarioLogado(e, logado.value).Pass?)
              && ValidarCamposAlterados(env, s, e).Ok?
              && forall j :: j in s.rows && j != e.id.value ==> s.rows[j].email != ValidarCamposAlterados(env, s, e).value.email
  {
  }

  /** A profile change succeeds exactly when the target is found, it is not the
      valid acting user themself, and the list change is possible: the stored
      row always satisfies the table's constraints. */
  lemma AlterarPerfisSucceeds(env: Env, s: Store, req: AlteracaoPerfis, logado: Option<Usuario>, now: Time)
    requires Valid(s)
    ensures AlterarPerfisUsuario(env, s, req, logado, now, Accepted).result.Ok? <==>
              && Alvo(env, s, req).Ok?
              && !(UsuarioValido(env, logado) && Alvo(env, s, req).value.id == logado.value.id)
              && MudarPerfis(Alvo(env, s, req).value.listaPerfis, req.perfis, req.remocaoPerfis).Ok?
  {
  }
}
