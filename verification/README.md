# User lifecycle and user rules, in Dafny

This project models the core of a Spring service layer for user accounts.

- **The generic entity lifecycle, `ServiceGenerico`:**
  - one `salvar` that inserts an entity with a null id and updates one that has an id;
  - the soft delete `excluir`, which keeps the row inactive and stamped;
  - the hard delete `deletar`;
  - their unchecked variants;
  - the extension points ("hooks") a concrete service fills in.
- **The `br.com.api` user service.** It covers:
  - lookups by id and by login;
  - ordered field validation on insertion;
  - uniqueness of email and login;
  - the partial update with password change;
  - the admin-or-self permission rule;
  - the profile change (add or remove profiles, never on oneself);
  - the defaulting and canonicalisation of the profile list.
- **The older `com.projeto.backend` user service.** It plugs into the same lifecycle with different rules: no field validation, and an email-only uniqueness rule over active users.
- **The entity and its repository:**
  - the `Usuario` entity, with its persisted and transient fields and its constructors;
  - the derived queries of `UsuarioRepository`, as pure functions of the stored rows.

## How the system is represented

- **Data.** Everything is an immutable value. A Java field that may be null is an `Option`. Failures are a `Result` whose error is one constructor per exception the code can throw (`errors.dfy`).
- **The store** is `Store(rows: map<int, Usuario>, nextId)`. The ghost predicate `Valid` states what the table guarantees:
  - keys come from the sequence and equal the id column;
  - no row holds transient data;
  - the `nullable = false` columns are set;
  - `login` and `email` are unique over all rows, active or not.
- **Queries.** Derived queries compare columns, so a null argument matches a null column, as `IS NULL` would. `findById` looks up the key.
- **A hook** is a function `(Store, Usuario) -> Result<Usuario, Error>`. Returning `Ok` stands for the Java method returning normally, possibly after mutating the entity. The template's own hook bodies are `Keep`.
- **Outside collaborators** are fields of `Env`, passed explicitly:
  - the password hash and its matcher (BCrypt);
  - the `ValidacaoUtils` predicates;
  - the profile registry.

  `WellFormed(env)` assumes only two things: a password matches its own hash, and the registry answers with a profile of the requested name.
- **Parameters instead of global reads:**
  - the clock is one `now` per operation;
  - the acting user (the security context) is an explicit `Option<Usuario>`;
  - the store's answer to a write is a `Signal`: accepted, optimistic-lock failure, or another failure.
- **Transactions.** `Rollback` gives a transactional method all-or-nothing behaviour: when it ends in an error, the store it returns is the store it was given.

## Model

| member | source | states |
|---|---|---|
| Models.NovoUsuario | src/main/java/br/com/api/models/Usuario.java:72-77 | The four-argument constructor sets name, login, email and password. The id, profile list and transient fields stay null and the base class is fresh, so a save of it is an insertion. |
| Models.NovoUsuarioComId | src/main/java/br/com/api/models/Usuario.java:79-85 | The five-argument constructor sets the id and otherwise builds exactly what the four-argument one builds. |
| Models.Persisted | src/main/java/br/com/api/models/Usuario.java:58-62 | The stored row never holds the transient `confirmacaoSenha` or `novaSenha`. It differs from the entity in those two fields only, and it is the entity itself when they are null. |
| Models.EqualsIgnoresBaseClass | src/main/java/br/com/api/models/Usuario.java:30 | Equality compares the declared fields only. Two users are equal exactly when they agree after their base-class fields are made the same, so audit fields and the acting user never change the answer. |
| Repository.FindDistinctByIdAndAtivo | src/main/java/br/com/api/repositories/UsuarioRepository.java:13 | A returned row has the requested id and flag and is a stored row. It answers empty exactly when no row matches. On a valid table it answers the row under that key when that row has the flag. |
| Repository.FindDistinctByLoginAndAtivo | src/main/java/br/com/api/repositories/UsuarioRepository.java:12 | A returned row has the requested login and flag and is a stored row. It answers empty exactly when no row matches. On a valid table it never reports a non-unique result. |
| Repository.CountByEmailAndIdNot | src/main/java/br/com/api/repositories/UsuarioRepository.java:14 | The count is zero exactly when no row, active or not, holds the email under a set id different from the one given. |
| Repository.CountByLoginAndIdNot | src/main/java/br/com/api/repositories/UsuarioRepository.java:15 | The count is zero exactly when no row, active or not, holds the login under a set id different from the one given. |
| Repository.CountByAtivo | src/main/java/br/com/api/repositories/UsuarioRepository.java:16 | The count equals the size of `findByAtivo` for the same flag and never exceeds the number of rows. |
| Repository.FindByAtivo | src/main/java/br/com/api/repositories/UsuarioRepository.java:17 | Exactly the rows with the flag, each unchanged. |
| Repository.CountByEmailAndAtivoAndIdNot | src/main/java/com/projeto/backend/services/UsuarioService.java:106 | The count is zero exactly when no row with the flag holds the email under a set id different from the one given. |
| Repository.Save | src/main/java/br/com/api/models/Usuario.java:41-51 | An accepted write succeeds exactly when the non-null columns are set and no other row holds the login or email; otherwise it is a constraint violation. A stale version and other store failures are reported as such. The stored row is the entity without transient data under its own key, or under the next sequence value when new. A valid table stays valid. |
| Repository.DeleteById | src/main/java/br/com/api/services/base/ServiceGenerico.java:47 | A null id is an illegal argument and an id the table does not hold is an empty result. Otherwise exactly that row is removed, and validity is kept. |
| Lifecycle.Attach | src/main/java/br/com/api/services/base/ServiceGenerico.java:77 | The acting user is attached exactly when it is a valid user, otherwise null. Nothing else in the entity changes. |
| Lifecycle.SalvarEntidade | src/main/java/br/com/api/services/base/ServiceGenerico.java:101-112 | An optimistic-lock failure becomes `ENTIDADE_JA_ALTERADA`, and every other store failure passes through unchanged. On success the stored row carries the modification stamp `now`. |
| Lifecycle.Salvar | src/main/java/br/com/api/services/base/ServiceGenerico.java:75-97 | Any error leaves the store as it was. A write the store does not accept is always an error. |
| Lifecycle.SalvarUpdateSucceeds | src/main/java/br/com/api/services/base/ServiceGenerico.java:81-96 | With an accepted write, an update of a held row succeeds exactly when four things pass in order: `validarAlteracao`, `validarUnicidade` on the row carrying the stored creation stamp, `resolverPreDependencias`, and the table's constraints on the prepared row. `resolverPosDependencias` must then accept the written row. |
| Lifecycle.SalvarInsert | src/main/java/br/com/api/services/base/ServiceGenerico.java:76-97 | A null id inserts under a fresh key. The returned entity carries that key and is what was stored. It is active, its creation and modification stamps are `now`, and it carries the attached acting user. No other row changes and the table stays valid. |
| Lifecycle.SalvarUpdate | src/main/java/br/com/api/services/base/ServiceGenerico.java:81-96 | An id overwrites the row under that key and the set of keys does not change. The creation stamp is the stored one, the modification stamp is `now`, and the entity is active. |
| Lifecycle.SalvarFirstFailure | src/main/java/br/com/api/services/base/ServiceGenerico.java:77-90 | The first failing step is the error and nothing is written. The steps run in this order: `validarInclusao` on insertion or `validarAlteracao` on update, the lookup of the stored row (missing gives `ENTIDADE_NAO_ENCONTRADA`), `validarUnicidade` on the branch's result, then `resolverPreDependencias` on what uniqueness passed. |
| Lifecycle.SalvarStoreFailures | src/main/java/br/com/api/services/base/ServiceGenerico.java:101-112 | Once every check has passed, a stale version surfaces as `ENTIDADE_JA_ALTERADA`, any other store failure as itself, and the store is untouched. |
| Lifecycle.PosDependenciasFailureRollsBack | src/main/java/br/com/api/services/base/ServiceGenerico.java:75-97 | For every hook set, entity and store: when the preparation and the write succeed and `resolverPosDependencias` then throws, the run without the transaction boundary has written the row under its key. `salvar` answers that error with the store it was given. |
| Lifecycle.PosDependenciasFailureExample | src/main/java/br/com/api/services/base/ServiceGenerico.java:75-97 | An example of the rollback: a post-save hook that throws on the first insertion into an empty table leaves row 1 written without the boundary and nothing written with it. |
| Lifecycle.Carregar | src/main/java/br/com/api/services/base/ServiceGenerico.java:25-27 | `consultarPorId(id).get()`: a null id is an illegal argument, a missing row is `NoSuchElement`, and otherwise the answer is the stored row. |
| Lifecycle.Excluir | src/main/java/br/com/api/services/base/ServiceGenerico.java:51-61 | Any error leaves the store as it was. A null or missing id fails before any hook, and a write the store does not accept is an error. |
| Lifecycle.ExcluirSucceeds | src/main/java/br/com/api/services/base/ServiceGenerico.java:51-61 | On a valid table with an accepted write, a soft delete succeeds exactly when the id is held, `validarExclusao` and `resolverPreExclusao` pass, and `resolverPosExclusao` accepts the soft-deleted row. |
| Lifecycle.ExcluirSoftDeletes | src/main/java/br/com/api/services/base/ServiceGenerico.java:52-61 | A successful soft delete keeps the row under the same key. The row becomes inactive, with deletion and modification stamps `now` and the acting user attached. No key appears or disappears and the table stays valid. |
| Lifecycle.DeletionRefused | src/main/java/br/com/api/services/base/ServiceGenerico.java:36-61 | When `validarExclusao` or then `resolverPreExclusao` refuses, both the soft and the hard delete fail with the first refusal's error and change nothing. A `validarExclusao` refusal is reported before `resolverPreExclusao` runs. |
| Lifecycle.DeletarSucceeds | src/main/java/br/com/api/services/base/ServiceGenerico.java:36-42 | On a valid table a hard delete succeeds exactly when the id is non-null and held, and both `validarExclusao` and `resolverPreExclusao` accept the row with the acting user attached. |
| Lifecycle.ExcluirSemValidacao | src/main/java/br/com/api/services/base/ServiceGenerico.java:65-72 | Any error leaves the store as it was, and a null or missing id fails before the write. |
| Lifecycle.ExcluirSemValidacaoSucceeds | src/main/java/br/com/api/services/base/ServiceGenerico.java:65-72 | On a valid table the unchecked soft delete succeeds exactly when the id is set and held and the store accepts the write, whoever is acting. |
| Lifecycle.ExcluirSemValidacaoSkipsHooks | src/main/java/br/com/api/services/base/ServiceGenerico.java:65-72 | The unchecked soft delete is the soft delete with every hook at the template's default. |
| Lifecycle.Deletar | src/main/java/br/com/api/services/base/ServiceGenerico.java:35-42 | Any error leaves the store as it was, a null or missing id fails first, and success needs a held row. |
| Lifecycle.DeletarRemoves | src/main/java/br/com/api/services/base/ServiceGenerico.java:36-42 | A successful hard delete removes exactly the row under the id and keeps the table valid. |
| Lifecycle.DeletarSemValidacao | src/main/java/br/com/api/services/base/ServiceGenerico.java:46-48 | It succeeds exactly when the id is set and held, and then removes exactly that row. Otherwise it is an illegal argument or an empty result, with the store unchanged. |
| Lifecycle.DeletarWithoutHooks | src/main/java/br/com/api/services/base/ServiceGenerico.java:36-48 | With default hooks, the checked and the unchecked hard delete agree on a null id and on every held row. On a missing row the first fails looking it up and the second deleting it. |
| ProfileLists.Add | src/main/java/br/com/api/services/UsuarioService.java:122-128 | The old list is kept as a prefix, and a profile is in the result exactly when it was in the list or in the request. Everything appended was requested and absent from the list, and nothing is appended twice. |
| ProfileLists.AddAppendsFirstsOfAbsent | src/main/java/br/com/api/services/UsuarioService.java:122-128 | Adding appends exactly the request's profiles that the list does not hold, each at its first occurrence, in request order. This is stated against an independent filter-then-deduplicate definition. |
| ProfileLists.AddPresentIsNoOp | src/main/java/br/com/api/services/UsuarioService.java:122-128 | Adding profiles the list already holds leaves it unchanged. |
| ProfileLists.AddIdempotent | src/main/java/br/com/api/services/UsuarioService.java:122-128 | Adding the same request twice is adding it once. |
| ProfileLists.AddKeepsDistinct | src/main/java/br/com/api/services/UsuarioService.java:122-128 | Adding never creates a duplicate, even when the request repeats a profile. |
| ProfileLists.RemoveFirst | src/main/java/br/com/api/services/UsuarioService.java:133 | `List.remove` takes away exactly one occurrence of a present profile and leaves an absent one's list unchanged. |
| ProfileLists.Remove | src/main/java/br/com/api/services/UsuarioService.java:130-136 | The result holds only profiles from the list, and keeps every profile that was not requested. |
| ProfileLists.RemoveMultiset | src/main/java/br/com/api/services/UsuarioService.java:130-136 | Removal is multiset difference: each request takes away one occurrence of a held profile. A list holding a profile twice keeps one copy after one request for it. |
| ProfileLists.RemoveAbsentIsNoOp | src/main/java/br/com/api/services/UsuarioService.java:130-136 | Removing profiles the list does not hold leaves it unchanged. |
| ProfileLists.RemoveKeepsUnrequested | src/main/java/br/com/api/services/UsuarioService.java:130-136 | Profiles outside any set that covers the request survive a removal in their original order and number. |
| ProfileLists.RemoveDistinctIsFilter | src/main/java/br/com/api/services/UsuarioService.java:130-136 | On a list without duplicates, removal is the order-preserving filter by the requested set. |
| ProfileLists.Defaulted | src/main/java/br/com/api/services/UsuarioService.java:145-150 | A null or empty list becomes the single `USUARIO` profile; any other list is kept. |
| ProfileLists.Canonical | src/main/java/br/com/api/services/UsuarioService.java:152-158 | Canonicalisation keeps the length, and position by position holds the registry's copy of the profile. |
| ProfileLists.Vincular | src/main/java/br/com/api/services/UsuarioService.java:143-159 | The linked list has the defaulted list's length and holds, position by position, the registry's copy of each defaulted profile. |
| ProfileLists.VincularPerfis | src/main/java/br/com/api/services/UsuarioService.java:143-159 | Linking changes only the entity's profile list, which becomes non-null. |
| ProfileLists.CanonicalKeepsNames | src/main/java/br/com/api/services/UsuarioService.java:152-158 | Canonicalisation keeps every profile's name. |
| ProfileLists.VincularIdempotent | src/main/java/br/com/api/services/UsuarioService.java:143-159 | With a registry that answers by name, linking an already linked list gives it back unchanged. |
| ProfileLists.VincularDefaults | src/main/java/br/com/api/services/UsuarioService.java:143-159 | A user without profiles gets exactly the registry's `USUARIO` profile. Any other list keeps its length and names. |
| ApiUsuarioService.Consultar | src/main/java/br/com/api/services/UsuarioService.java:63-70 | A found user has the requested, non-null id and is active and stored. On a valid table it succeeds exactly when the key holds an active row, which it returns; otherwise it fails with `USUARIO_NAO_ENCONTRADO`. |
| ApiUsuarioService.ConsultarPorLogin | src/main/java/br/com/api/services/UsuarioService.java:72-79 | A found user has the requested login and a non-null id and is active and stored. On a valid table it succeeds exactly when some active row holds the login; otherwise it fails with `LOGIN_INVALIDO`. |
| ApiUsuarioService.LookupsRefuseRowWithoutId | src/test/java/br/com/api/services/UsuarioServiceTest.java:184-228 | An example on a one-row table: when the only row is active and has a null id, both queries find it, but both lookups refuse it. The id lookup reports "not found" and the login lookup "invalid login". |
| ApiUsuarioService.ValidarInclusao | src/main/java/br/com/api/services/UsuarioService.java:161-183 | It succeeds exactly when name, login and email are valid and the password equals its confirmation. The first failing check names the error, in the order name, login, email, null password, confirmation. On success only the password changes, to its hash, which the confirmation matches. |
| ApiUsuarioService.ValidarUnicidade | src/main/java/br/com/api/services/UsuarioService.java:232-246 | It passes exactly when no other row, active or not, holds the email or the login (a null id counts as 0). An email clash is reported first, and a login clash only when the email is free. |
| ApiUsuarioService.FreeOverValidStore | src/main/java/br/com/api/repositories/UsuarioRepository.java:14-15 | On a valid table the uniqueness counts see every row except the one under the given key. With the sentinel 0 they see every row. |
| ApiUsuarioService.ValidarTrocarSenha | src/main/java/br/com/api/services/UsuarioService.java:217-230 | It succeeds exactly when the current password matches the stored hash and the new password equals its confirmation. The errors come in that order. On success only the password changes, to the new password's hash, which the new password matches. |
| ApiUsuarioService.ValidarCamposAlterados | src/main/java/br/com/api/services/UsuarioService.java:185-215 | Without an active stored row it fails with `USUARIO_NAO_ENCONTRADO`. With one, it succeeds exactly when a supplied name is valid, a supplied email is non-blank and well formed, and a requested password change is allowed. The first failing check names the error: `NOME_INVALIDO`, then `EMAIL_INVALIDO`, then `SENHA_INCORRETA`, then the confirmation mismatch. On success the stored row changes only in the supplied name, the supplied email and the hashed new password. |
| ApiUsuarioService.NovoNome | src/main/java/br/com/api/services/UsuarioService.java:194-200 | An absent name keeps the stored one. A supplied name replaces it when valid and is refused with `NOME_INVALIDO` otherwise. |
| ApiUsuarioService.NovoEmail | src/main/java/br/com/api/services/UsuarioService.java:202-207 | An absent email keeps the stored one. A supplied email replaces it when neither blank nor malformed and is refused with `EMAIL_INVALIDO` otherwise. |
| ApiUsuarioService.NovaSenha | src/main/java/br/com/api/services/UsuarioService.java:209-230 | Without a new password the stored hash stays. Otherwise the change succeeds exactly when the current password matches the stored hash and the new one equals its confirmation, and the errors come in that order. The result is the new password's hash, which the new password matches. |
| ApiUsuarioService.AnyAdmin | src/main/java/br/com/api/services/UsuarioService.java:249-254 | The loop answers true exactly when some profile carries the admin name. |
| ApiUsuarioService.ValidarPerfilUsuarioLogado | src/main/java/br/com/api/services/UsuarioService.java:248-258 | It passes exactly when the acting user holds an admin profile or has the target's id. It is refused with `USUARIO_SEM_PERMISSAO`, or with a null-pointer failure for a null profile list or a null target id. |
| ApiUsuarioService.ValidarExclusao | src/main/java/br/com/api/services/UsuarioService.java:81-85 | Without a valid attached acting user it always passes. With one it passes exactly when the permission rule does, and it never changes the entity. |
| ApiUsuarioService.ApiHooks | src/main/java/br/com/api/services/UsuarioService.java:138-141 | The service's hooks never change an entity's id or base-class fields, and its deletion check only checks. The update check, the post-save hook and both deletion hooks are the template's. |
| ApiUsuarioService.CriarUsuario | src/main/java/br/com/api/services/UsuarioService.java:43-47 | A failed creation leaves the store as it was. |
| ApiUsuarioService.CriarUsuarioCreates | src/main/java/br/com/api/services/UsuarioService.java:43-47 | Creation succeeds exactly when the fields are valid, the passwords agree, no row holds the email or login, and the store accepts the write, so the table's constraints never fire. The new row has the hashed password, the linked profiles, fresh stamps and no acting user. |
| ApiUsuarioService.CriarUsuarioFirstFailure | src/test/java/br/com/api/services/UsuarioServiceTest.java:69-149 | A failed insertion check is the error of the creation. Then a taken email is reported, and then a taken login, with the store unchanged. |
| ApiUsuarioService.SalvarUsuario | src/main/java/br/com/api/services/UsuarioService.java:49-56 | A failed save leaves the store as it was. |
| ApiUsuarioService.SalvarUsuarioForbidden | src/main/java/br/com/api/services/UsuarioService.java:49-56 | A valid acting user without the admin profile saving another user is refused with `USUARIO_SEM_PERMISSAO`, and nothing changes. |
| ApiUsuarioService.SalvarUsuarioMerges | src/main/java/br/com/api/services/UsuarioService.java:49-56 | A successful partial update rewrites only the user's own row. The login always comes from the store. Name and email come from the request when supplied, and a new password is stored hashed. The profiles are relinked, the creation stamp survives and the modification stamp is `now`. |
| ApiUsuarioService.SalvarUsuarioSucceeds | src/main/java/br/com/api/services/UsuarioService.java:49-56 | With an accepted write, a partial update succeeds exactly when a valid acting user may edit the target, the merge is accepted, and no other row holds the resulting email. The login comes from the store, so it never clashes. |
| ApiUsuarioService.ExcluirPermission | src/main/java/br/com/api/services/UsuarioService.java:81-85 | With a valid acting user, a soft delete succeeds exactly when that user is an admin or deletes themself. Otherwise it fails with `USUARIO_SEM_PERMISSAO` and changes nothing. |
| ApiUsuarioService.ExcluirWithoutActingUser | src/main/java/br/com/api/services/UsuarioService.java:81-85 | Without a valid acting user, the soft delete through this service is the unchecked soft delete. |
| ApiUsuarioService.Alvo | src/main/java/br/com/api/services/UsuarioService.java:88-100 | With a valid id the target is the active row with that id, or `USUARIO_NAO_ENCONTRADO`. Otherwise the target is the lookup by login. |
| ApiUsuarioService.MudarPerfis | src/main/java/br/com/api/services/UsuarioService.java:108-111 | A null request fails, and so does a null list when the request is non-empty. An empty request leaves the list. Otherwise the request is removed from or added to the list. |
| ApiUsuarioService.AlterarPerfisUsuario | src/main/java/br/com/api/services/UsuarioService.java:87-120 | Any error leaves the store as it was, and the answer keeps the request's add/remove choice. |
| ApiUsuarioService.AlterarPerfisSelfBan | src/main/java/br/com/api/services/UsuarioService.java:103-106 | A valid acting user targeting themself is refused with `PROIBIDO_ALTERAR_O_PROPRIO_PERFIL` before anything changes. |
| ApiUsuarioService.AlterarPerfisChangesOnlyProfiles | src/main/java/br/com/api/services/UsuarioService.java:87-120 | A successful change rewrites one active row, the requested one. In that row only the profile list and the modification stamp change. The list is the stored one with the request added or removed, and the answer echoes the stored login. The sequence is untouched and the table stays valid. |
| ApiUsuarioService.AlterarPerfisSucceeds | src/main/java/br/com/api/services/UsuarioService.java:87-120 | With an accepted write, a profile change succeeds exactly when the target is found, it is not the valid acting user, and the list can be changed. The stored row always meets the table's constraints. |
| BackendUsuarioService.Consultar | src/main/java/com/projeto/backend/services/UsuarioService.java:44-53 | A null id is an illegal argument. Otherwise it succeeds exactly when the key is held, returning that row whatever its flag, or fails with `USUARIO_NAO_ENCONTRADO`. |
| BackendUsuarioService.ConsultarIgnoresActiveFlag | src/main/java/com/projeto/backend/services/UsuarioService.java:44-53 | This lookup finds soft-deleted users, which the newer service reports missing. On active users the two agree. |
| BackendUsuarioService.ValidarUnicidade | src/main/java/com/projeto/backend/services/UsuarioService.java:103-111 | It passes exactly when no other active row holds the email (a null id counts as 0). Its only error is `EMAIL_JA_CADASTRADO`, so login clashes are never reported. |
| BackendUsuarioService.EmailFreeOverValidStore | src/main/java/com/projeto/backend/services/UsuarioService.java:103-111 | On a valid table the rule sees every active row except the one under the given key. |
| BackendUsuarioService.ValidarInclusao | src/main/java/com/projeto/backend/services/UsuarioService.java:85-95 | It succeeds exactly when the email is free and the passwords agree, and uniqueness is checked before the password. On success only the password changes, to its hash. |
| BackendUsuarioService.ValidarAlteracao | src/main/java/com/projeto/backend/services/UsuarioService.java:97-101 | It passes, unchanged, exactly when the email rule does, and otherwise fails with `EMAIL_JA_CADASTRADO`. |
| BackendUsuarioService.BackendHooks | src/main/java/com/projeto/backend/services/UsuarioService.java:61-64 | The service's hooks never change an entity's id or base-class fields, and its deletion and post-save hooks are the template's. |
| BackendUsuarioService.Cadastro | src/main/java/com/projeto/backend/services/UsuarioService.java:55-59 | A failed registration leaves the store as it was. |
| BackendUsuarioService.CadastroCreates | src/main/java/com/projeto/backend/services/UsuarioService.java:55-83 | Registration succeeds exactly when no active user holds the email, the passwords agree, the table's constraints accept the row, and the store accepts the write. The new row has the hashed password and the linked profiles. |
| BackendUsuarioService.SecondUniquenessCheckRedundant | src/main/java/com/projeto/backend/services/UsuarioService.java:97-101 | The uniqueness check `salvar` runs after `validarInclusao` or `validarAlteracao` can never fail, and dropping it changes no outcome. |
| BackendUsuarioService.DuplicateEmailBeforeMissingRow | src/main/java/com/projeto/backend/services/UsuarioService.java:97-101 | An update whose email an active user holds is refused as a duplicate even when its id names no row. The newer service reports the missing row. |
| BackendUsuarioService.DuplicateLoginReachesTable | src/main/java/com/projeto/backend/services/UsuarioService.java:103-111 | A duplicate login passes this service's checks and is refused by the table, where the newer service names the duplicate login. |
| BackendUsuarioService.SoftDeletedEmail | src/main/java/com/projeto/backend/services/UsuarioService.java:103-111 | A soft-deleted user's email is refused as a duplicate by the newer service. This service lets it through to the table, which refuses the row. |

## Left out

- **Hashing.** BCrypt hashing and matching are the `Env` fields `hash` and `matches`. The model assumes only that a password matches its own hash.
- **`ValidacaoUtils`** (`isCampoStringValido`, `isEmailValido`, `isIdValido`, `isUsuarioValido`) is not part of this model. Its predicates are abstract `Env` fields, and `isCampoStringValido` and `isUsuarioValido` are taken to reject null.
- **DTO conversion.** The Dozer conversion is taken as the identity on the modelled fields, so the services take and return entities. The list converters and the two `consultarTodos` are covered only through `Repository.FindByAtivo`.
- **The clock.** Each operation reads one `now`. The code calls `LocalDateTime.now()` separately for the creation and the modification stamps, which may differ by the time between the two calls.
- **Transactions.** Spring's transaction proxy is `Rollback`. `criarUsuario`, `salvarUsuario` and `cadastro` call `salvar` on `this`, which bypasses the proxy, so in the running code those calls have no transaction of their own. Both services' post-save hooks are the template's no-op, and every other failure comes before the write, so the store ends up the same either way.
- **Optimistic locking** is the `Signal` parameter. JPA's version column and the flush timing are not modelled.
- **Managed entities.** `validarCamposAlterados` mutates the entity JPA loaded. The model builds a new value instead, because nothing observes the loaded instance before `salvar` writes.
- **The profile registry.** `PerfilService` and `PerfilRepository` are the abstract `registry` function. `Perfil` is not part of this model: its equality is taken as value equality, and its name as non-null.
- **The base entity class** (`Pojo`) is not part of this model. Its fields are taken to be the active flag, three stamps and the acting user, and a fresh instance is taken to be inactive with null stamps.
- **The older package's own classes.** `ServiceGenerico`, `Usuario`, `UsuarioRepository` and `PerfilService` of `com.projeto.backend` are not part of this model. The lifecycle, entity and constraints of `br.com.api` stand in for them.
- **Auditing** (`@Audited`), controllers, web configuration and security wiring carry no rule the model could state.
- **Stored profile lists.** `Valid` allows a stored row whose profile list is null, and on such a row `MudarPerfis` reports a null pointer. JPA always loads a non-null, possibly empty, collection, so such a row stands for no row the running code can load. Both services link the profiles on every save, so neither stores a null list.
- **Integers.** Ids are unbounded integers. A `Long` id sequence cannot overflow in practice.
