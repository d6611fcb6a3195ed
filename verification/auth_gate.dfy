/** The global request middleware: it turns the Authorization header into
    the claim set attached to the request, or stops the request. Token
    verification and the user-store lookup are collaborators passed in. */
module AuthGate {
  import opened Wrappers
  import opened Strings
  import opened Identity

  /** What token verification reports. */
  datatype Verified = Valid(claims: Claims) | Invalid

  /** What the lookup of a user by email reports; `LookupFailed` is a store error. */
  datatype Lookup = Found(user: UserRecord) | NotFound | LookupFailed

  /** Either the request goes on, with or without claims, or it is answered
      here with an error status. */
  datatype Gate = Next(user: Option<Claims>) | Reject(status: int)

  /** The lookup the middleware performs against an in-memory user store. */
  function StoreLookup(users: Users): string -> Lookup {
    e => if e in users then Found(users[e]) else NotFound
  }

  /** The token handed to verification: the header with its first
      "Bearer " removed, wherever it occurs. */
  function BearerToken(header: string): (t: string)
    ensures (forall m: nat :: !OccursAt(header, "Bearer ", m)) ==> t == header
    ensures forall k: nat :: FirstOccurrence(header, "Bearer ", k) ==> t == header[..k] + header[k + 7..]
  {
    ReplaceFirst(header, "Bearer ", "")
  }

  /** The usual header shape: "Bearer " followed by the token itself. */
  lemma BearerPrefix(token: string)
    ensures BearerToken("Bearer " + token) == token
  {
    ReplaceLeadingPattern("Bearer ", token);
  }

  /** The claim refresh after a successful lookup: the durable id is
      injected, each of role, block flag, verified flag and image prefers the
      stored value when it is set, and every other claim is kept. */
  function Refresh(c: Claims, u: UserRecord): (r: Claims)
    ensures r.userId == Some(u.id)
    ensures r.role == (if u.role.Some? then u.role else c.role)
    ensures r.isBlock == (if u.isBlock.Some? then u.isBlock else c.isBlock)
    ensures r.isEmailVerified == (if u.isEmailVerified.Some? then u.isEmailVerified else c.isEmailVerified)
    ensures r.image == (if u.image.Some? then u.image else c.image)
    ensures r.(userId := c.userId, role := c.role, isBlock := c.isBlock,
               isEmailVerified := c.isEmailVerified, image := c.image) == c
  {
    c.(userId := Some(u.id),
       role := u.role.OrElse(c.role),
       isBlock := u.isBlock.OrElse(c.isBlock),
       isEmailVerified := u.isEmailVerified.OrElse(c.isEmailVerified),
       image := u.image.OrElse(c.image))
  }

  /** The claim-resolution step for claims that verified. */
  function Resolve(c: Claims, lookup: string -> Lookup): Gate {
    if !Filled(c.userId) && Filled(c.email) then
      match lookup(c.email.value)
      case NotFound => Reject(401)
      case LookupFailed => Reject(500)
      case Found(u) => Next(Some(Refresh(c, u)))
    else Next(Some(c))
  }

  /** The middleware. OPTIONS requests and requests without a (non-empty)
      header go on anonymously; a token that fails verification is a 401;
      a verified token is resolved as in `Resolve`. */
  function Authenticate(verb: string, header: Option<string>,
                        verify: string -> Verified, lookup: string -> Lookup): (g: Gate)
    ensures verb == "OPTIONS" ==> g == Next(None)
    ensures verb != "OPTIONS" && !Filled(header) ==> g == Next(None)
    ensures verb != "OPTIONS" && Filled(header) && verify(BearerToken(header.value)).Invalid? ==>
              g == Reject(401)
    ensures g.Reject? ==> g.status == 401 || g.status == 500
    // never silently downgraded to anonymous
    ensures g == Next(None) ==> verb == "OPTIONS" || !Filled(header)
    // whoever goes on with an email in the claims goes on with a durable id
    ensures g.Next? && g.user.Some? && Filled(g.user.value.email) ==> g.user.value.userId.Some?
  {
    if verb == "OPTIONS" then Next(None)
    else if !Filled(header) then Next(None)
    else match verify(BearerToken(header.value))
      case Invalid => Reject(401)
      case Valid(c) => Resolve(c, lookup)
  }

  /** The outcomes for a verified claim set without a durable id but with
      an email: no user is 401, a failing lookup is 500, a found user yields
      the refreshed claims. */
  lemma LookupOutcomes(verb: string, header: string, verify: string -> Verified,
                       lookup: string -> Lookup, c: Claims)
    requires verb != "OPTIONS" && header != ""
    requires verify(BearerToken(header)) == Valid(c)
    requires !Filled(c.userId) && Filled(c.email)
    ensures lookup(c.email.value) == NotFound ==> Authenticate(verb, Some(header), verify, lookup) == Reject(401)
    ensures lookup(c.email.value) == LookupFailed ==> Authenticate(verb, Some(header), verify, lookup) == Reject(500)
    ensures forall u :: lookup(c.email.value) == Found(u) ==>
              Authenticate(verb, Some(header), verify, lookup) == Next(Some(Refresh(c, u)))
  {
  }

  /** Claims that already carry a durable id, or carry no email, are attached
      unchanged, whatever the user store would have answered. */
  lemma NoLookupNeeded(verb: string, header: string, verify: string -> Verified,
                       lookup: string -> Lookup, c: Claims)
    requires verb != "OPTIONS" && header != ""
    requires verify(BearerToken(header)) == Valid(c)
    requires Filled(c.userId) || !Filled(c.email)
    ensures Authenticate(verb, Some(header), verify, lookup) == Next(Some(c))
  {
  }
}
