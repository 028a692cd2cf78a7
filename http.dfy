/** The HTTP errors the handlers raise, with their status and detail text. */
module Http {

  datatype HttpError = HttpError(status: nat, detail: string)

  const EmailAlreadyRegistered := HttpError(400, "Email already registered")
  const UsernameAlreadyTaken := HttpError(400, "Username already taken")
  const IncorrectCredentials := HttpError(401, "Incorrect username/email or password")
  const NotAuthenticated := HttpError(401, "Not authenticated")
  const CouldNotValidate := HttpError(401, "Could not validate credentials")
  const InactiveUser := HttpError(400, "Inactive user")
  const TaskNotFound := HttpError(404, "Task not found")

  /** A request whose body or query fails validation. */
  const Unprocessable := HttpError(422, "Validation error")
}
