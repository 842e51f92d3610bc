/** The session data types of src/types/auth.ts and the error replies of src/lib/auth.ts. */
module AuthTypes {
  import opened Wrappers

  /** A `Date`, as milliseconds since the epoch. */
  type Timestamp = int

  datatype Role = Auditor | Technician

  datatype User = User(
    id: string,
    username: string,
    role: Role,
    name: string,
    email: Option<string>,
    createdAt: Timestamp,
    lastLogin: Option<Timestamp>)

  datatype LoginCredentials = LoginCredentials(username: string, password: string)

  /** What `register` is given. */
  datatype Registration = Registration(
    username: string,
    password: string,
    name: string,
    email: Option<string>)

  datatype AuthState = AuthState(user: Option<User>, isAuthenticated: bool, isLoading: bool)

  /** The session invariant: a session is authenticated exactly when it has a user. */
  predicate Coherent(s: AuthState) {
    s.isAuthenticated == s.user.Some?
  }

  /** One case per `error` string that `login` and `register` can return. */
  datatype AuthError =
    | TechnicianPasswordIncorrect
    | UserNotFound
    | PasswordIncorrect
    | ConnectionError
    | UsernameTaken
    | AccountCreationFailed

  /** The `{ success, error }` object that `login` and `register` resolve to. */
  datatype Reply = Success | Failure(error: AuthError)

  /**
   * The user-facing message carried by each error: a non-empty text from which the error
   * can be read back.
   */
  function Message(e: AuthError): (m: string)
    ensures |m| > 0 && ErrorOf(m) == Some(e)
  {
    match e
    case TechnicianPasswordIncorrect => "Mot de passe technicien incorrect"
    case UserNotFound => "Utilisateur non trouvé"
    case PasswordIncorrect => "Mot de passe incorrect"
    case ConnectionError => "Erreur de connexion"
    case UsernameTaken => "Nom d'utilisateur déjà utilisé"
    case AccountCreationFailed => "Erreur lors de la création du compte"
  }

  /** The error a message names, if it is one of the six messages. */
  function ErrorOf(m: string): Option<AuthError> {
    if m == "Mot de passe technicien incorrect" then Some(TechnicianPasswordIncorrect)
    else if m == "Utilisateur non trouvé" then Some(UserNotFound)
    else if m == "Mot de passe incorrect" then Some(PasswordIncorrect)
    else if m == "Erreur de connexion" then Some(ConnectionError)
    else if m == "Nom d'utilisateur déjà utilisé" then Some(UsernameTaken)
    else if m == "Erreur lors de la création du compte" then Some(AccountCreationFailed)
    else None
  }

  /** Distinct errors carry distinct messages, so a caller can tell them apart by text. */
  lemma MessagesDistinct(a: AuthError, b: AuthError)
    ensures Message(a) == Message(b) ==> a == b
  {
  }
}
