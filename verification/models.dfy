/** The `Usuario` entity, its `Perfil` (profile) association and the audit fields
    every lifecycle-managed entity inherits. A Java field that may be null is an
    `Option`. */
module Models {
  import opened Results

  /** An instant read from the clock (`LocalDateTime.now()`). */
  type Time = int

  /** The profile names. `ADMIN` and `USUARIO` are the two constants the services
      name; any other member of the enumeration is an `OtherRole`. */
  datatype RoleName = ADMIN | USUARIO | OtherRole(ordinal: nat)

  /** A profile (role) record: identifier, null until the registry stores it, and name. */
  datatype Perfil = Perfil(id: Option<int>, nome: RoleName)

  /** The fields of the entity base class: the active flag, the three audit
      timestamps and the acting user attached for permission checks. */
  datatype Pojo = Pojo(
    ativo: bool,
    dataInclusao: Option<Time>,
    dataAlteracao: Option<Time>,
    dataExclusao: Option<Time>,
    usuario: Option<Usuario>)

  /** A user. `confirmacaoSenha` and `novaSenha` are transient: they exist only on
      the in-memory entity during creation and password change. */
  datatype Usuario = Usuario(
    id: Option<int>,
    nome: Option<string>,
    login: Option<string>,
    email: Option<string>,
    senha: Option<string>,
    listaPerfis: Option<seq<Perfil>>,
    confirmacaoSenha: Option<string>,
    novaSenha: Option<string>,
    pojo: Pojo)
  {
    function WithAtivo(b: bool): Usuario {
      this.(pojo := pojo.(ativo := b))
    }

    function WithDataInclusao(t: Option<Time>): Usuario {
      this.(pojo := pojo.(dataInclusao := t))
    }

    function WithDataAlteracao(t: Time): Usuario {
      this.(pojo := pojo.(dataAlteracao := Some(t)))
    }

    function WithDataExclusao(t: Time): Usuario {
      this.(pojo := pojo.(dataExclusao := Some(t)))
    }

    function WithUsuario(u: Option<Usuario>): Usuario {
      this.(pojo := pojo.(usuario := u))
    }
  }

  /** The base-class state of a freshly constructed entity: inactive, no stamps,
      no acting user. */
  const NovoPojo: Pojo := Pojo(false, None, None, None, None)

  /** The four-argument constructor: no id, so a save of it is an insertion. */
  function NovoUsuario(nome: Option<string>, login: Option<string>, email: Option<string>, senha: Option<string>): (u: Usuario)
    ensures u.id.None?
    ensures u.nome == nome && u.login == login && u.email == email && u.senha == senha
    ensures u.listaPerfis.None? && u.confirmacaoSenha.None? && u.novaSenha.None?
    ensures u.pojo == NovoPojo
  {
    Usuario(None, nome, login, email, senha, None, None, None, NovoPojo)
  }

  /** The five-argument constructor: as the four-argument one, plus the id. */
  function NovoUsuarioComId(id: Option<int>, nome: Option<string>, login: Option<string>, email: Option<string>, senha: Option<string>): (u: Usuario)
    ensures u.id == id
    ensures u.(id := None) == NovoUsuario(nome, login, email, senha)
  {
    Usuario(id, nome, login, email, senha, None, None, None, NovoPojo)
  }

  /** True when neither transient field carries a value. */
  predicate NoTransients(u: Usuario) {
    u.confirmacaoSenha.None? && u.novaSenha.None?
  }

  /** The row a store keeps for `u`: the transient fields are not columns. */
  function Persisted(u: Usuario): (r: Usuario)
    ensures NoTransients(r)
    ensures r.(confirmacaoSenha := u.confirmacaoSenha, novaSenha := u.novaSenha) == u
    ensures NoTransients(u) ==> r == u
  {
    u.(confirmacaoSenha := None, novaSenha := None)
  }

  /** The `nullable = false` columns all carry a value. */
  predicate NonNullColumns(u: Usuario) {
    u.nome.Some? && u.login.Some? && u.email.Some? && u.senha.Some?
  }

  /** Generated value equality: the declared fields only, never the base class's. */
  predicate Equals(a: Usuario, b: Usuario) {
    && a.id == b.id
    && a.nome == b.nome
    && a.login == b.login
    && a.email == b.email
    && a.senha == b.senha
    && a.listaPerfis == b.listaPerfis
    && a.confirmacaoSenha == b.confirmacaoSenha
    && a.novaSenha == b.novaSenha
  }

  /** Two users are equal exactly when they agree once their base-class fields are
      made the same; in particular the audit fields and the attached acting user
      never influence equality. */
  lemma EqualsIgnoresBaseClass(a: Usuario, b: Usuario, p: Pojo)
    ensures Equals(a, b) <==> a.(pojo := b.pojo) == b
    ensures Equals(a, b) <==> Equals(a.(pojo := p), b)
  {
  }
}
