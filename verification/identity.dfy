/** Identity records of the user store, the session claim set carried by a
    token, and the `isAdmin` gate every admin-only handler calls. */
module Identity {
  import opened Wrappers

  /** A present, non-empty string: the truthiness test the handlers apply
      to optional text fields. */
  predicate Filled(o: Option<string>) {
    o.Some? && o.value != ""
  }

  /** `o || fallback` on an optional text field. */
  function TextOr(o: Option<string>, fallback: string): (r: string)
    ensures Filled(o) ==> r == o.value
    ensures !Filled(o) ==> r == fallback
  {
    if Filled(o) then o.value else fallback
  }

  /** A stored user document. Fields the schema may leave unset are optional. */
  datatype UserRecord = UserRecord(
    id: string,                     // the document's `_id`, as a string
    email: string,
    firstName: Option<string>,
    lastName: Option<string>,
    password: string,               // a password digest, opaque here
    role: Option<string>,
    phone: Option<string>,
    isBlock: Option<bool>,
    isEmailVerified: Option<bool>,
    image: Option<string>)

  /** The user collection, looked up by exact email. */
  type Users = map<string, UserRecord>

  /** Every record is filed under its own email. */
  predicate KeyedByEmail(users: Users) {
    forall e :: e in users ==> users[e].email == e
  }

  /** The decoded payload of a session token, as attached to the request.
      Every claim is optional: tokens from different issuers carry
      different subsets. */
  datatype Claims = Claims(
    userId: Option<string>,
    id: Option<string>,
    docId: Option<string>,          // the `_id` claim
    email: Option<string>,
    firstName: Option<string>,
    lastName: Option<string>,
    name: Option<string>,
    role: Option<string>,
    isBlock: Option<bool>,
    isEmailVerified: Option<bool>,
    image: Option<string>)

  /** A claim set holding only an email, the shape the older issuers sign. */
  function EmailOnly(email: string): Claims {
    Claims(None, None, None, Some(email), None, None, None, None, None, None, None)
  }

  /** `isAdmin(req)`: no claims means no admin; otherwise the role must be
      exactly "admin" (so "superadmin" is refused). */
  predicate IsAdmin(user: Option<Claims>) {
    user.Some? && user.value.role == Some("admin")
  }
}
