/** The review routes and their guards. `requireAuth` refuses a request
    without claims; `requireAdmin` admits the roles "admin" and
    "superadmin". The handlers behind the guards apply their own checks, and
    for the admin listing the handler's `isAdmin` is stricter than the
    router's guard. */
module ReviewRouter {
  import opened Wrappers
  import opened Js
  import opened Identity
  import opened Reviews

  /** A guard's verdict: continue to the next handler, or answer now. */
  datatype Verdict = Next | Refuse(status: int)

  /** `requireAuth`. */
  function RequireAuth(user: Option<Claims>): (v: Verdict)
    ensures v == Next <==> user.Some?
    ensures v.Refuse? ==> v.status == 401
  {
    if user.None? then Refuse(401) else Next
  }

  /** The roles the router's admin guard admits. */
  predicate AdminRole(user: Option<Claims>) {
    user.Some? && (user.value.role == Some("admin") || user.value.role == Some("superadmin"))
  }

  /** `requireAdmin`. */
  function RequireAdmin(user: Option<Claims>): (v: Verdict)
    ensures v == Next <==> AdminRole(user)
    ensures v.Refuse? ==> v.status == 403
  {
    if AdminRole(user) then Next else Refuse(403)
  }

  /** The requests the router serves. */
  datatype Request =
    | List(productId: Option<string>)   // GET /?productId=
    | ListAll                           // GET /all
    | Post(body: Submission)            // POST /
    | Delete(id: string)                // DELETE /:id

  /** The handler-specific inputs the routes need: number parsing and
      formatting, and the `_id` a new review would receive. */
  datatype Env = Env(parse: string -> Numeric, show: Numeric -> string, freshId: string)

  /** A route's answer: status, any reviews listed or written, and the
      collection afterwards. */
  datatype Response = Response(status: int, reviews: seq<Review>, store: Store)

  /** The guards of each route, run in order, then its handler. */
  function Route(req: Request, user: Option<Claims>, store: Store, env: Env): (r: Response)
    ensures req.List? ==> r.store == store && r.status == ListReviews(store, req.productId).status
    ensures !req.List? && user.None? ==> r == Response(401, [], store)
    ensures req.ListAll? && user.Some? && !AdminRole(user) ==> r == Response(403, [], store)
    ensures req.ListAll? ==> r.store == store && (r.status == 200 <==> IsAdmin(user))
    ensures req.Post? && user.Some? ==>
      var s := Submit(user, req.body, store, env.parse, env.show, env.freshId);
      r.status == s.status && r.store == s.store
    ensures req.Delete? && user.Some? ==>
      var d := DeleteReview(user, req.id, store);
      r.status == d.status && r.store == d.store
  {
    match req
    case List(productId) =>
      var l := ListReviews(store, productId);
      Response(l.status, l.reviews, store)
    case ListAll =>
      if RequireAuth(user).Refuse? then Response(RequireAuth(user).status, [], store)
      else if RequireAdmin(user).Refuse? then Response(RequireAdmin(user).status, [], store)
      else
        var l := GetAllReviews(user, store);
        Response(l.status, l.reviews, store)
    case Post(body) =>
      if RequireAuth(user).Refuse? then Response(RequireAuth(user).status, [], store)
      else
        var s := Submit(user, body, store, env.parse, env.show, env.freshId);
        Response(s.status, if s.review.Some? then [s.review.value] else [], s.store)
    case Delete(id) =>
      if RequireAuth(user).Refuse? then Response(RequireAuth(user).status, [], store)
      else
        var d := DeleteReview(user, id, store);
        Response(d.status, if d.review.Some? then [d.review.value] else [], d.store)
  }

  /** The product listing is public: who asks makes no difference. */
  lemma ListingIsPublic(productId: Option<string>, a: Option<Claims>, b: Option<Claims>, store: Store, env: Env)
    ensures Route(List(productId), a, store, env) == Route(List(productId), b, store, env)
  {
  }

  /** An unauthenticated caller of the admin listing gets 401 before any
      role is looked at. */
  lemma AllReviewsNeedsLoginFirst(store: Store, env: Env)
    ensures Route(ListAll, None, store, env).status == 401
  {
  }

  /** The admin listing answers 200 exactly for the role "admin": a
      "superadmin" passes the router's guard and is then refused by the
      handler, whose `isAdmin` admits "admin" only. */
  lemma AllReviewsOnlyForAdmin(user: Option<Claims>, store: Store, env: Env)
    ensures Route(ListAll, user, store, env).status == 200 <==> IsAdmin(user)
    ensures user.Some? && user.value.role == Some("superadmin") ==>
      RequireAdmin(user) == Next && Route(ListAll, user, store, env).status == 403
  {
  }
}
