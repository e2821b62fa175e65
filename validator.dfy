/**
 * The input checks run by `register` and `changePassword`. Each check returns
 * a one-element error list for the first rule that fails and stops there, or
 * nothing when all rules pass.
 */
module Validator {
  import opened Common

  /** One entry of the error list the API hands back to the client. */
  datatype FieldError = FieldError(field: string, message: string)

  const UsernameTooShort := FieldError("username", "username must be at least 6 characters long")
  const UsernameHasAt := FieldError("username", "username cannot contain special characters")
  const InvalidEmail := FieldError("email", "invalid email")
  const PasswordTooShort := FieldError("password", "password must be at least 4 characters long")
  const NewPasswordTooShort := FieldError("newPassword", "password must be at least 4 characters long")

  /** The registration form passes every rule. */
  predicate RegisterOk(username: string, email: string, password: string) {
    6 <= |username| && '@' !in username && '@' in email && 4 <= |password|
  }

  /** Checks, in order: username length, `@` in the username, `@` in the email, password length. */
  function ValidateRegister(username: string, email: string, password: string): (r: Option<seq<FieldError>>)
    ensures r.None? <==> RegisterOk(username, email, password)
    ensures r.Some? ==> |r.value| == 1
    // the error blames the field whose rule failed first
    ensures r.Some? ==> (r.value[0].field == "username" <==> |username| <= 5 || '@' in username)
    ensures r.Some? ==> (r.value[0].field == "email" <==> 6 <= |username| && '@' !in username && '@' !in email)
    ensures r.Some? ==> (r.value[0].field == "password" <==>
                          6 <= |username| && '@' !in username && '@' in email && |password| <= 3)
    ensures r.Some? ==> r.value[0].field in {"username", "email", "password"}
    // a short username wins over every other problem
    ensures |username| <= 5 ==> r == Some([UsernameTooShort])
    // and each later rule reports its own error once the earlier ones pass
    ensures 6 <= |username| && '@' in username ==> r == Some([UsernameHasAt])
    ensures 6 <= |username| && '@' !in username && '@' !in email ==> r == Some([InvalidEmail])
    ensures 6 <= |username| && '@' !in username && '@' in email && |password| <= 3 ==> r == Some([PasswordTooShort])
  {
    if |username| <= 5 then Some([UsernameTooShort])
    else if '@' in username then Some([UsernameHasAt])
    else if '@' !in email then Some([InvalidEmail])
    else if |password| <= 3 then Some([PasswordTooShort])
    else None
  }

  /** The only rule for a new password is its length. */
  function ValidateChangePassword(newPassword: string): (r: Option<seq<FieldError>>)
    ensures r.None? <==> 4 <= |newPassword|
    ensures r.Some? ==> r.value == [NewPasswordTooShort] && r.value[0].field == "newPassword"
  {
    if |newPassword| <= 3 then Some([NewPasswordTooShort]) else None
  }
}
