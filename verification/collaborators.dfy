/** The collaborators whose code is outside the model, passed explicitly: the
    password hash, the field validators, and the profile registry. */
module Collaborators {
  import opened Results
  import opened Models

  datatype Env = Env(
    /** one-way password hash (BCrypt) */
    hash: string -> string,
    /** does this plaintext password match this stored hash? */
    matches: (Option<string>, Option<string>) -> bool,
    /** `isCampoStringValido` on a non-null string */
    campoStringValido: string -> bool,
    /** `isEmailValido` on a non-null string */
    emailValido: string -> bool,
    /** `isIdValido` */
    idValido: Option<int> -> bool,
    /** `isUsuarioValido` on a non-null user */
    usuarioValido: Usuario -> bool,
    /** the profile registry's find-or-create by name */
    registry: Perfil -> Perfil)

  /** What the model assumes of the collaborators: a password matches its own
      hash, and the registry answers with a profile of the requested name. */
  ghost predicate WellFormed(env: Env) {
    && (forall s :: env.matches(Some(s), Some(env.hash(s))))
    && (forall p :: env.registry(p).nome == p.nome)
  }

  /** The registry deduplicates by name: the answer depends on the name alone. */
  ghost predicate RegistryByName(env: Env) {
    forall p: Perfil, q: Perfil :: p.nome == q.nome ==> env.registry(p) == env.registry(q)
  }

  /** `isCampoStringValido`, which rejects null. */
  predicate CampoValido(env: Env, s: Option<string>) {
    s.Some? && env.campoStringValido(s.value)
  }

  /** `isUsuarioValido`, which rejects null. */
  predicate UsuarioValido(env: Env, u: Option<Usuario>) {
    u.Some? && env.usuarioValido(u.value)
  }
}
