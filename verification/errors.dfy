/** The exceptions the user services and the lifecycle template can raise.
    Message constants are kept as keys: the model never needs their text. */
module Errors {

  /** Keys of `ExceptionsConstantes` carried by an `EntityNotFoundException`. */
  datatype NotFoundKey =
    | ENTIDADE_NAO_ENCONTRADA
    | USUARIO_NAO_ENCONTRADO
    | LOGIN_INVALIDO

  /** Keys of `ExceptionsConstantes` carried by a `CustomException`. */
  datatype CustomKey =
    | ENTIDADE_JA_ALTERADA
    | EMAIL_JA_CADASTRADO
    | LOGIN_JA_CADASTRADO
    | PROIBIDO_ALTERAR_O_PROPRIO_PERFIL
    | USUARIO_SEM_PERMISSAO

  /** Keys of `ValidacaoConstantes` carried by a `ValidationException`. */
  datatype ValidationKey =
    | NOME_INVALIDO
    | LOGIN_INVALIDO
    | EMAIL_INVALIDO
    | SENHA_E_CONFIRMACAO_SENHA_DIFERENTES
    | SENHA_INCORRETA

  datatype Error =
    /** `javax.persistence.EntityNotFoundException` */
    | EntityNotFound(notFound: NotFoundKey)
    /** the application's `CustomException` */
    | Custom(custom: CustomKey)
    /** the application's `ValidationException` */
    | Validation(validation: ValidationKey)
    /** `Optional.get()` on an empty `Optional` */
    | NoSuchElement
    /** a method called on a null reference */
    | NullPointer
    /** Spring Data refusing a null id */
    | IllegalArgument
    /** Spring Data's `deleteById` of an id the store does not hold */
    | EmptyResult
    /** a single-result derived query that matched several rows */
    | NonUniqueResult
    /** the store refusing a row that breaks a column constraint */
    | ConstraintViolation
    /** any other store failure, propagated unchanged */
    | StoreFailure(code: int)
}
