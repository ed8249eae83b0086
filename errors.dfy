/** The application's closed error taxonomy, the result type every
    repository operation returns, the three classifiers the transport layers
    use to choose a status code, and the display text of each error. */
module Errors {
  import opened Wrappers
  import Decimal

  /** One variant per kind of failure. `Database` wraps the storage
      driver's error, represented here by that error's display text. */
  datatype AppError =
    | Database(detail: string)
    | TaskNotFound(taskId: int)
    | UserNotFound(userId: int)
    | UsernameExists(username: string)
    | InvalidCredentials
    | Validation(message: string)
    | Unauthorized(reason: string)
    | Internal(message: string)

  /** `AppResult<T>`. */
  datatype Result<+T> = Ok(value: T) | Err(error: AppError)

  /** Errors reported as "not found" (404). */
  predicate IsNotFound(e: AppError) {
    e.TaskNotFound? || e.UserNotFound?
  }

  /** Errors reported as a bad request (400). */
  predicate IsValidation(e: AppError) {
    e.Validation?
  }

  /** Errors reported as unauthenticated (401). */
  predicate IsAuth(e: AppError) {
    e.InvalidCredentials? || e.Unauthorized?
  }

  /** No error falls into two of the three classes. */
  lemma ClassifiersExclusive(e: AppError)
    ensures !(IsNotFound(e) && IsValidation(e))
    ensures !(IsNotFound(e) && IsAuth(e))
    ensures !(IsValidation(e) && IsAuth(e))
  {
  }

  /** Exactly the storage, duplicate-username and internal errors are left
      unclassified, so the transport layers report them as server errors. */
  lemma UnclassifiedErrors(e: AppError)
    ensures !IsNotFound(e) && !IsValidation(e) && !IsAuth(e)
        <==> e.Database? || e.UsernameExists? || e.Internal?
  {
  }

  const TaskNotFoundPrefix := "Task not found with id: "

  /** The display text of each error. */
  function Message(e: AppError): string {
    match e
    case Database(detail) => "Database error: " + detail
    case TaskNotFound(id) => TaskNotFoundPrefix + Decimal.IntText(id)
    case UserNotFound(id) => "User not found with id: " + Decimal.IntText(id)
    case UsernameExists(name) => "Username already exists: " + name
    case InvalidCredentials => "Invalid username or password"
    case Validation(msg) => "Validation error: " + msg
    case Unauthorized(reason) => "Unauthorized: " + reason
    case Internal(msg) => "Internal server error: " + msg
  }

  /** The message of `TaskNotFound(id)` is the fixed prefix followed by text
      that reads back as exactly `id`. */
  lemma TaskNotFoundMessage(id: int)
    ensures TaskNotFoundPrefix <= Message(TaskNotFound(id))
    ensures Decimal.ParseInt(Message(TaskNotFound(id))[|TaskNotFoundPrefix|..]) == Some(id)
  {
    var m := Message(TaskNotFound(id));
    assert m[|TaskNotFoundPrefix|..] == Decimal.IntText(id);
    Decimal.IntTextRoundTrip(id);
  }

  /** Different missing tasks produce different messages. */
  lemma TaskNotFoundMessageInjective(a: int, b: int)
    ensures Message(TaskNotFound(a)) == Message(TaskNotFound(b)) ==> a == b
  {
    TaskNotFoundMessage(a);
    TaskNotFoundMessage(b);
  }
}
