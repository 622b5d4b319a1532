/** Values shared by the request handlers: optional request fields and the
    outcome of a handler, in place of an HTTP status code and a JSON body. */
module Api {

  /** A request field that may be absent (`undefined` in the request body). */
  datatype Option<+T> = None | Some(value: T) {
    function GetOr(default: T): T {
      match this
      case Some(v) => v
      case None => default
    }
  }

  /** The outcome of one handler. Each error carries the message of its JSON body. */
  datatype Reply<+T> =
    | Ok(body: T)                 // 200
    | Created(body: T)            // 201
    | BadRequest(error: string)   // 400
    | Unauthorized(error: string) // 401
    | NotFound(error: string)     // 404
    | ServerError(error: string)  // 500, the handlers' catch blocks

  const ClientNotFound := "Client not found"
  const TransactionSaved := "Transaction saved"
  const InternalServerError := "Internal server error"
  const CredentialsRequired := "Nom d'utilisateur et mot de passe requis"
  const UsernameTaken := "Nom d'utilisateur d\U{e9}j\U{e0} utilis\U{e9}"
  const InvalidCredentials := "Identifiants invalides"
  const UserCreated := "Utilisateur cr\U{e9}\U{e9} avec succ\U{e8}s"
  const LoginSucceeded := "Connexion r\U{e9}ussie"

  /** JavaScript truthiness of an optional string field: absent and "" are falsy. */
  predicate Given(field: Option<string>) {
    field.Some? && field.value != ""
  }
}
