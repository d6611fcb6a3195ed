/** Account handlers: self-service signup, admin provisioning, password
    login, federated (Google) login, the profile read, and the admin list and
    delete. Password hashing and comparison, token signing and the Google
    userinfo call are collaborators: a digest arrives computed, comparison is
    the parameter `matches`, and the handlers return the claims to be signed. */
module Accounts {
  import opened Wrappers
  import opened Identity
  import opened AuthGate

  /** The signup body. */
  datatype SignupRequest = SignupRequest(
    firstName: Option<string>, lastName: Option<string>, email: string,
    password: string, phone: Option<string>)

  /** A write to the user store: status, whether a record was saved, and
      the store afterwards. */
  datatype Write = Write(status: int, saved: bool, users: Users)

  /** The store gained exactly `u` under its email and lost nothing. */
  predicate AddedOnly(before: Users, after: Users, u: UserRecord) {
    && u.email !in before
    && after.Keys == before.Keys + {u.email}
    && after[u.email] == u
    && forall e :: e in before ==> after[e] == before[e]
  }

  /** `createUser`: the record always gets role "customer" whatever the body
      says, and phone "Not Given" when none is sent. A duplicate email is
      refused by the store; the reply is 200 either way, only its message
      differs. `digest` is the hash of `req.password`. */
  function CreateUser(users: Users, req: SignupRequest, freshId: string, digest: string): (w: Write)
    requires KeyedByEmail(users)
    ensures w.status == 200
    ensures KeyedByEmail(w.users)
    ensures w.saved <==> req.email !in users
    ensures !w.saved ==> w.users == users
    ensures w.saved ==> req.email in w.users
    ensures w.saved ==> AddedOnly(users, w.users, w.users[req.email])
    ensures w.saved ==> var u := w.users[req.email];
      && u.role == Some("customer")
      && u.password == digest
      && u.phone == Some(if Filled(req.phone) then req.phone.value else "Not Given")
      && u.firstName == req.firstName && u.lastName == req.lastName
  {
    if req.email in users then Write(200, false, users)
    else
      var phone := TextOr(req.phone, "Not Given");
      var u := UserRecord(freshId, req.email, req.firstName, req.lastName, digest,
                          Some("customer"), Some(phone), None, None, None);
      Write(200, true, users[req.email := u])
  }

  /** `createAdmin`: a fixed "Admin User" record with role "admin", phone
      "Not Given" and a verified email; `digest` is the hash of the fixed
      default password. A duplicate email is a 500. */
  function CreateAdmin(users: Users, email: string, freshId: string, digest: string): (w: Write)
    requires KeyedByEmail(users)
    ensures KeyedByEmail(w.users)
    ensures w.saved <==> email !in users
    ensures w.status == (if w.saved then 200 else 500)
    ensures !w.saved ==> w.users == users
    ensures w.saved ==> email in w.users
    ensures w.saved ==> AddedOnly(users, w.users, w.users[email])
    ensures w.saved ==> var u := w.users[email];
      u.role == Some("admin") && u.isEmailVerified == Some(true) && u.phone == Some("Not Given")
  {
    if email in users then Write(500, false, users)
    else
      var u := UserRecord(freshId, email, Some("Admin"), Some("User"), digest,
                          Some("admin"), Some("Not Given"), None, Some(true), None);
      Write(200, true, users[email := u])
  }

  /** The payload signed at login. Password login signs no image, Google
      login does; neither signs a durable id. */
  function TokenClaims(u: UserRecord, withImage: bool): Claims {
    Claims(None, None, None, Some(u.email), u.firstName, u.lastName, None,
           u.role, u.isBlock, u.isEmailVerified, if withImage then u.image else None)
  }

  /** A login reply: status, the claims to sign, the role echoed to the client. */
  datatype LoginReply = LoginReply(status: int, claims: Option<Claims>, role: Option<string>)

  /** `LoginUser`: unknown email is 404, a password that does not match the
      stored digest is 403, otherwise the claims are the record's email,
      names, role and flags, with no durable id, and the reply echoes the
      stored role. The block flag is never consulted. */
  function Login(users: Users, email: string, password: string,
                 matches: (string, string) -> bool): (r: LoginReply)
    ensures email !in users <==> r.status == 404
    ensures email in users && !matches(password, users[email].password) <==> r.status == 403
    ensures r.status == 200 || r.status == 403 || r.status == 404
    ensures r.status == 200 <==> r.claims.Some?
    ensures r.status == 200 ==>
      var u := users[email];
      && r.claims.value == Claims(None, None, None, Some(u.email), u.firstName, u.lastName, None,
                                  u.role, u.isBlock, u.isEmailVerified, None)
      && r.role == u.role
  {
    if email !in users then LoginReply(404, None, None)
    else
      var u := users[email];
      if matches(password, u.password) then LoginReply(200, Some(TokenClaims(u, false)), u.role)
      else LoginReply(403, None, None)
  }

  /** Blocking an account changes nothing about whether it can log in. */
  lemma LoginIgnoresBlock(users: Users, email: string, password: string,
                          matches: (string, string) -> bool, flag: Option<bool>)
    requires email in users
    ensures Login(users[email := users[email].(isBlock := flag)], email, password, matches).status
         == Login(users, email, password, matches).status
  {
  }

  /** A password-login token never carries a durable id, so every request
      that presents it is re-resolved by email: the middleware attaches the
      record's id and its current role. */
  lemma LoginThenAuthenticate(users: Users, email: string, password: string,
                              matches: (string, string) -> bool,
                              header: string, verify: string -> Verified)
    requires KeyedByEmail(users) && email != ""
    requires Login(users, email, password, matches).status == 200
    requires header != ""
    requires verify(BearerToken(header)) == Valid(Login(users, email, password, matches).claims.value)
    ensures var g := Authenticate("GET", Some(header), verify, StoreLookup(users));
      && g.Next? && g.user.Some?
      && g.user.value.userId == Some(users[email].id)
      && g.user.value.role == users[email].role
      && IsAdmin(g.user) == (users[email].role == Some("admin"))
  {
    var c := Login(users, email, password, matches).claims.value;
    assert c == TokenClaims(users[email], false);
    assert Filled(c.email) && !Filled(c.userId);
    assert StoreLookup(users)(email) == Found(users[email]);
  }

  /** What the Google userinfo endpoint reports. */
  datatype GoogleInfo = GoogleInfo(email: string, givenName: Option<string>,
                                   familyName: Option<string>, picture: Option<string>)

  /** A federated-login reply and the store afterwards. */
  datatype GoogleReply = GoogleReply(status: int, claims: Option<Claims>, role: Option<string>, users: Users)

  /** `googleLogin`. `info` is `None` when the userinfo call fails (500).
      A known email logs in as stored; an unknown one is created as a
      verified "customer" with the Google names and picture and the fixed
      placeholder password "123", stored unhashed. */
  function GoogleLogin(users: Users, info: Option<GoogleInfo>, freshId: string): (r: GoogleReply)
    requires KeyedByEmail(users)
    ensures KeyedByEmail(r.users)
    ensures info.None? ==> r.status == 500 && r.users == users
    ensures info.Some? ==> r.status == 200 && info.value.email in r.users
    ensures info.Some? && info.value.email in users ==>
      r.users == users && r.claims == Some(TokenClaims(users[info.value.email], true))
    ensures info.Some? && info.value.email !in users ==>
      && AddedOnly(users, r.users, r.users[info.value.email])
      && r.users[info.value.email].role == Some("customer")
      && r.users[info.value.email].isEmailVerified == Some(true)
      && r.users[info.value.email].image == info.value.picture
    ensures r.status == 200 ==> r.claims.Some? && r.role == r.claims.value.role
  {
    match info
    case None => GoogleReply(500, None, None, users)
    case Some(g) =>
      if g.email in users then
        var u := users[g.email];
        GoogleReply(200, Some(TokenClaims(u, true)), u.role, users)
      else
        var u := UserRecord(freshId, g.email, g.givenName, g.familyName, "123",
                            Some("customer"), None, None, Some(true), g.picture);
        GoogleReply(200, Some(TokenClaims(u, true)), u.role, users[g.email := u])
  }

  /** The profile returned to the caller; absent fields are filled in. */
  datatype Profile = Profile(
    firstName: string, lastName: string, email: string, phone: string,
    role: string, isEmailVerified: bool, isBlock: bool, image: Option<string>)

  datatype ProfileReply = ProfileReply(status: int, profile: Option<Profile>)

  /** The profile shown for a stored record: each text field is the stored
      value when it is a non-empty string and its default otherwise. */
  function ProfileOf(u: UserRecord): (p: Profile)
    ensures Filled(u.firstName) ==> p.firstName == u.firstName.value
    ensures !Filled(u.firstName) ==> p.firstName == "Not Provided"
    ensures Filled(u.lastName) ==> p.lastName == u.lastName.value
    ensures !Filled(u.lastName) ==> p.lastName == "Not Provided"
    ensures p.email == if u.email != "" then u.email else "Not Provided"
    ensures Filled(u.phone) ==> p.phone == u.phone.value
    ensures !Filled(u.phone) ==> p.phone == "Not Provided"
    ensures Filled(u.role) ==> p.role == u.role.value
    ensures !Filled(u.role) ==> p.role == "customer"
    ensures p.isBlock <==> u.isBlock == Some(true)
    ensures p.isEmailVerified <==> u.isEmailVerified == Some(true)
    ensures p.image.Some? <==> Filled(u.image)
    ensures p.image.Some? ==> p.image == u.image
  {
    Profile(
      TextOr(u.firstName, "Not Provided"),
      TextOr(u.lastName, "Not Provided"),
      TextOr(Some(u.email), "Not Provided"),
      TextOr(u.phone, "Not Provided"),
      TextOr(u.role, "customer"),
      u.isEmailVerified == Some(true),
      u.isBlock == Some(true),
      if Filled(u.image) then u.image else None)
  }

  /** `getUser`: no claims or no email in them is 401, an unknown email 404;
      otherwise every text field of the profile is non-empty ("Not Provided"
      when unset, role "customer"), the flags are false unless set true, and
      an empty image becomes null. */
  function GetUser(user: Option<Claims>, users: Users): (r: ProfileReply)
    ensures user.None? || !Filled(user.value.email) <==> r.status == 401
    ensures r.status == 404 <==> user.Some? && Filled(user.value.email) && user.value.email.value !in users
    ensures r.status == 200 <==> r.profile.Some?
    ensures r.status == 200 ==>
      var p := r.profile.value;
      var u := users[user.value.email.value];
      && p.firstName != "" && p.lastName != "" && p.email != "" && p.phone != "" && p.role != ""
      && (p.role == "customer" || u.role == Some(p.role))
      && (p.isBlock ==> u.isBlock == Some(true))
      && (p.isEmailVerified ==> u.isEmailVerified == Some(true))
      && (p.image.Some? ==> p.image == u.image && p.image.value != "")
    ensures r.status == 200 ==> r.profile == Some(ProfileOf(users[user.value.email.value]))
  {
    if user.None? || !Filled(user.value.email) then ProfileReply(401, None)
    else if user.value.email.value !in users then ProfileReply(404, None)
    else ProfileReply(200, Some(ProfileOf(users[user.value.email.value])))
  }

  /** A fully filled-in record is shown exactly as stored. */
  lemma ProfileOfCompleteRecord(u: UserRecord)
    requires u.email != "" && Filled(u.firstName) && Filled(u.lastName) && Filled(u.phone) && Filled(u.role)
    requires u.isBlock.Some? && u.isEmailVerified.Some? && Filled(u.image)
    ensures ProfileOf(u) == Profile(u.firstName.value, u.lastName.value, u.email, u.phone.value,
                                    u.role.value, u.isEmailVerified.value, u.isBlock.value, u.image)
  {
  }

  /** A fresh signup reads back through `getUser` as a customer with its own
      names (or "Not Provided"), its phone or "Not Given", both flags false
      and no image. */
  lemma SignupThenProfile(users: Users, req: SignupRequest, freshId: string, digest: string,
                          user: Claims)
    requires KeyedByEmail(users) && req.email !in users && req.email != ""
    requires user.email == Some(req.email)
    ensures var after := CreateUser(users, req, freshId, digest).users;
      var r := GetUser(Some(user), after);
      && r.status == 200
      && r.profile.value == Profile(TextOr(req.firstName, "Not Provided"), TextOr(req.lastName, "Not Provided"),
                                    req.email, TextOr(req.phone, "Not Given"), "customer", false, false, None)
  {
  }

  /** `getAdmins`: every record whose role is "admin", and nothing else.
      The route carries no guard. */
  function Admins(users: Users): (r: set<UserRecord>)
    ensures forall u :: u in r <==> u in users.Values && u.role == Some("admin")
  {
    set e | e in users && users[e].role == Some("admin") :: users[e]
  }

  /** `deleteAdmin`: removes the record with that email only if its role is
      "admin", otherwise 404 and nothing changes. The route carries no guard. */
  function DeleteAdmin(users: Users, email: string): (w: Write)
    ensures w.status == 200 <==> email in users && users[email].role == Some("admin")
    ensures w.status == 200 ==> w.users.Keys == users.Keys - {email}
    ensures w.status != 200 ==> w.status == 404 && w.users == users
    ensures forall e :: e in w.users ==> e in users && w.users[e] == users[e]
  {
    if email in users && users[email].role == Some("admin") then Write(200, false, users - {email})
    else Write(404, false, users)
  }
}
