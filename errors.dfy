/**
 * The errors the authentication core throws. A thrown JavaScript `Error`
 * carries a message and, when the thrower set one, a `statusCode`.
 */
module Errors {
  import opened Wrappers

  datatype Error = Error(statusCode: Option<int>, message: string)

  // Errors the service throws on purpose, each with its status and message.
  const EmailAlreadyInUse := Error(Some(409), "Email already in use")
  const UserAlreadyExists := Error(Some(409), "User already exists")
  const InvalidDeviceId := Error(Some(401), "Invalid device ID")
  const DeviceLoginNotAllowed := Error(Some(403), "Device login not allowed for this user")
  const InvalidEmailOrPassword := Error(Some(401), "Invalid email or password")
  const InvalidRefreshToken := Error(Some(401), "Invalid refresh token")

  // Errors of the token verifiers.
  const TokenExpired := Error(Some(401), "Token expired")
  const InvalidToken := Error(Some(401), "Invalid token")
  const RefreshTokenExpired := Error(Some(401), "Refresh token expired")

  // Failures of the libraries the service calls: none of them carries a status code.
  /** The database rejected a row that repeats another row's email or deviceId. */
  const UniqueConstraintFailed := Error(None, "Unique constraint failed")
  /** The database client rejected a query argument of the wrong JSON type. */
  const InvalidQueryArgument := Error(None, "Invalid query argument")
  /** bcrypt was handed a password that is not a string. */
  const IllegalHashArguments := Error(None, "Illegal arguments")

  /** The errors the service itself throws, each with a status code. */
  predicate IsDomainError(e: Error) {
    e in {EmailAlreadyInUse, UserAlreadyExists, InvalidDeviceId, DeviceLoginNotAllowed,
          InvalidEmailOrPassword, InvalidRefreshToken, RefreshTokenExpired}
  }

  /** The errors the libraries under the service throw, none with a status code. */
  predicate IsLibraryError(e: Error) {
    e in {UniqueConstraintFailed, InvalidQueryArgument, IllegalHashArguments}
  }
}
