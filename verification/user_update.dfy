/** UpdateUserRequest: a partial user update. A field is present only when
    it is not null and not blank; the email's format is not checked. */
module UserUpdate {
  import opened Common
  import opened Text

  /** None stands for a null field. */
  datatype UpdateUserRequest = UpdateUserRequest(name: Option<string>, email: Option<string>)
  {
    predicate HasName() {
      name.Some? && !IsBlank(name.value)
    }

    predicate HasEmail() {
      email.Some? && !IsBlank(email.value)
    }
  }

  /** Any visible text is accepted as an email, address or not. */
  lemma AnyVisibleEmailIsPresent(u: UpdateUserRequest, i: nat)
    requires u.email.Some? && i < |u.email.value| && !IsWhitespace(u.email.value[i])
    ensures u.HasEmail()
  {
  }

  /** An email of white space only, the empty one included, is absent. */
  lemma BlankEmailIsAbsent(u: UpdateUserRequest)
    requires u.email.Some? && IsBlank(u.email.value)
    ensures !u.HasEmail()
  {
  }
}
