/** The registration form both services accept (register.py and main.py), and the checks they make on it. */
module Registration {
  import opened Common

  /** The `User` request model of the register routes. */
  datatype UserForm = UserForm(fullName: string, email: string, password: string, retypePassword: string, agreeTerms: bool)

  /** The detail of the first check the form fails: the passwords first, then the terms. */
  function FormError(u: UserForm): (r: Option<string>)
  {
    if u.password != u.retypePassword then Some("Passwords do not match")
    else if !u.agreeTerms then Some("You must agree to the terms")
    else None
  }

  /** A form passes exactly when both checks pass; one failing both reports the passwords. */
  lemma FormErrorOrder(u: UserForm)
    ensures FormError(u).None? <==> u.password == u.retypePassword && u.agreeTerms
    ensures u.password != u.retypePassword ==> FormError(u) == Some("Passwords do not match")
    ensures u.password == u.retypePassword && !u.agreeTerms ==> FormError(u) == Some("You must agree to the terms")
  {
  }
}
