/** Product reviews: the public listing for one product, the admin listing of
    every review, the create-or-update submission keyed by (product, user),
    and deletion by the owner or an admin. The collection carries a unique
    index on (productId, userId), which every operation here preserves. */
module Reviews {
  import opened Wrappers
  import opened Strings
  import opened Js
  import opened Identity
  import opened Seqs

  /** A stored review; `id` is the document's `_id`. */
  datatype Review = Review(
    id: string,
    productId: string,
    userId: string,
    userName: string,
    rating: real,
    comment: string)

  /** The review collection in creation order. `createdAt` is written on
      insert only, so this is also ascending `createdAt` order. */
  type Store = seq<Review>

  /** The longest comment accepted, in characters. */
  const MaxComment: nat := 1000

  // ---------------------------------------------------------------- listing

  /** A sequence of reviews, newest first. */
  function NewestFirst(rs: seq<Review>): (r: seq<Review>)
    ensures |r| == |rs| && forall k :: 0 <= k < |rs| ==> r[k] == rs[|rs| - 1 - k]
    ensures forall x :: x in r <==> x in rs
  {
    if |rs| == 0 then []
    else
      var r := [rs[|rs| - 1]] + NewestFirst(rs[..|rs| - 1]);
      assert rs == rs[..|rs| - 1] + [rs[|rs| - 1]];
      r
  }

  /** Whether a review belongs to a product. */
  predicate Of(productId: string, x: Review) {
    x.productId == productId
  }

  /** `find({ productId })`: the reviews of one product, in store order. */
  function OfProduct(store: Store, productId: string): (r: seq<Review>)
    ensures forall x :: x in r <==> x in store && x.productId == productId
  {
    Keep(store, x => Of(productId, x))
  }

  /** A review added to the store is added at the end of its product's
      reviews, and changes no other product's. */
  lemma OfProductAppend(store: Store, x: Review, productId: string)
    ensures OfProduct(store + [x], productId)
         == OfProduct(store, productId) + (if x.productId == productId then [x] else [])
  {
    KeepConcat(store, [x], y => Of(productId, y));
    KeepSingle(x, y => Of(productId, y));
  }

  /** A listing reply: status and the reviews returned. */
  datatype Listed = Listed(status: int, reviews: seq<Review>)

  /** `listReviews`: a missing or empty `productId` is 400; otherwise the
      product's reviews, newest first. */
  function ListReviews(store: Store, productId: Option<string>): (r: Listed)
    ensures r.status == 400 <==> !Filled(productId)
    ensures r.status == 400 || r.status == 200
    ensures r.status == 200 ==>
      && |r.reviews| == |OfProduct(store, productId.value)|
      && forall x :: x in r.reviews <==> x in store && x.productId == productId.value
    ensures r.status == 200 ==> r.reviews == NewestFirst(OfProduct(store, productId.value))
  {
    if !Filled(productId) then Listed(400, [])
    else Listed(200, NewestFirst(OfProduct(store, productId.value)))
  }

  /** Adding a review puts it in front of the reverse. */
  lemma NewestFirstSnoc(rs: seq<Review>, x: Review)
    ensures NewestFirst(rs + [x]) == [x] + NewestFirst(rs)
  {
    var a, b := NewestFirst(rs + [x]), [x] + NewestFirst(rs);
    assert |a| == |b|;
    forall k | 0 <= k < |a| ensures a[k] == b[k] {
      if k > 0 {
        assert a[k] == (rs + [x])[|rs| - k];
      }
    }
  }

  /** A review created for the product goes to the front of its listing,
      ahead of every older one; one created for another product leaves the
      listing as it was. So the listing is in descending creation order. */
  lemma ListReviewsAfterCreate(store: Store, x: Review, productId: string)
    requires productId != ""
    ensures var before := ListReviews(store, Some(productId));
      var after := ListReviews(store + [x], Some(productId));
      after.status == 200 &&
      after.reviews == (if x.productId == productId then [x] else []) + before.reviews
  {
    OfProductAppend(store, x, productId);
    if x.productId == productId {
      NewestFirstSnoc(OfProduct(store, productId), x);
    } else {
      assert OfProduct(store, productId) + [] == OfProduct(store, productId);
    }
  }

  /** The review created last heads its product's listing. */
  lemma NewestReviewListedFirst(store: Store, x: Review)
    requires x.productId != ""
    ensures var r := ListReviews(store + [x], Some(x.productId));
      r.status == 200 && |r.reviews| > 0 && r.reviews[0] == x
  {
    ListReviewsAfterCreate(store, x, x.productId);
  }

  /** `getAllReviews`: 403 to anyone but an admin, otherwise the whole
      collection newest first. */
  function GetAllReviews(user: Option<Claims>, store: Store): (r: Listed)
    ensures r.status == 403 <==> !IsAdmin(user)
    ensures r.status == 403 || r.status == 200
    ensures r.status == 200 ==>
      |r.reviews| == |store| && forall k :: 0 <= k < |store| ==> r.reviews[k] == store[|store| - 1 - k]
  {
    if !IsAdmin(user) then Listed(403, []) else Listed(200, NewestFirst(store))
  }

  // ---------------------------------------------------------------- submission

  /** `String(v)`. Number formatting is the parameter `show`; an array prints
      its elements joined by commas, null and undefined elements printing
      empty. */
  function Text(v: Value, show: Numeric -> string): string {
    match v
    case Undefined => "undefined"
    case Null => "null"
    case Bool(b) => if b then "true" else "false"
    case Num(n) => show(n)
    case Str(s) => s
    case Obj => "[object Object]"
    case Arr(xs) =>
      if |xs| == 0 then ""
      else Join(seq(|xs|, i requires 0 <= i < |xs| =>
        if xs[i].Undefined? || xs[i].Null? then "" else Text(xs[i], show)), ',')
  }

  /** `req.user?.userId || req.user?.id || req.user?._id`, as text. */
  function RequesterId(user: Option<Claims>): (r: Option<string>)
    ensures r.Some? <==> user.Some? && (Filled(user.value.userId) || Filled(user.value.id) || Filled(user.value.docId))
    ensures r.Some? ==> r.value != ""
    ensures r.Some? && Filled(user.value.userId) ==> r.value == user.value.userId.value
  {
    if user.None? then None
    else if Filled(user.value.userId) then user.value.userId
    else if Filled(user.value.id) then user.value.id
    else if Filled(user.value.docId) then user.value.docId
    else None
  }

  /** `Number(rating)` when it is finite and within 1..5 (not necessarily an
      integer). */
  function Rating(v: Value, parse: string -> Numeric): (r: Option<real>)
    ensures r.Some? <==> ToNumber(v, parse).Fin? && 1.0 <= ToNumber(v, parse).r <= 5.0
    ensures r.Some? ==> r.value == ToNumber(v, parse).r
  {
    var n := ToNumber(v, parse);
    if IsFinite(n) && 1.0 <= n.r <= 5.0 then Some(n.r) else None
  }

  /** `String(comment || "").trim()`. */
  function CleanComment(v: Value, show: Numeric -> string): (c: string)
    ensures c == [] || (!IsSpace(c[0]) && !IsSpace(c[|c| - 1]))
    ensures !Truthy(v) ==> c == []
    ensures Truthy(v) ==> c == Trim(Text(v, show))
  {
    Trim(Text(if Truthy(v) then v else Str(""), show))
  }

  /** The text before the first "@" of `email || ""`. */
  function LocalPart(email: Option<string>): (r: string)
    ensures '@' !in r
    ensures |r| <= |TextOr(email, "")| && r == TextOr(email, "")[..|r|]
    ensures |r| == |TextOr(email, "")| || TextOr(email, "")[|r|] == '@'
  {
    SplitHeadPrefix(TextOr(email, ""), '@');
    Split(TextOr(email, ""), '@')[0]
  }

  /** The display name stored with a review: the `name` claim; failing that
      the trimmed "first last" when either part is present; failing that the
      local part of the email; and "User" when the chosen text is empty. */
  function UserName(c: Claims): (name: string)
    ensures name != ""
    ensures Filled(c.name) ==> name == c.name.value
    ensures !Filled(c.name) && (Filled(c.firstName) || Filled(c.lastName)) ==>
      name == (var full := Trim(TextOr(c.firstName, "") + " " + TextOr(c.lastName, ""));
               if full == "" then "User" else full)
    ensures !Filled(c.name) && !Filled(c.firstName) && !Filled(c.lastName) ==>
      name == (if LocalPart(c.email) == "" then "User" else LocalPart(c.email))
  {
    if Filled(c.name) then c.name.value
    else
      var chosen :=
        if Filled(c.firstName) || Filled(c.lastName)
        then Trim(TextOr(c.firstName, "") + " " + TextOr(c.lastName, ""))
        else LocalPart(c.email);
      if chosen == "" then "User" else chosen
  }

  /** The review of a given product by a given user. */
  predicate HasKey(x: Review, productId: string, userId: string) {
    x.productId == productId && x.userId == userId
  }

  /** The unique index on (productId, userId). */
  predicate UniqueKeys(store: Store) {
    forall i, j :: 0 <= i < j < |store| ==> !HasKey(store[j], store[i].productId, store[i].userId)
  }

  /** The position of the first review with the given key, if any: the
      document `findOneAndUpdate` matches. */
  function FindKey(store: Store, productId: string, userId: string): (r: Option<nat>)
    ensures r.Some? ==> r.value < |store| && HasKey(store[r.value], productId, userId)
    ensures r.Some? ==> forall k :: 0 <= k < r.value ==> !HasKey(store[k], productId, userId)
    ensures r.None? <==> forall k :: 0 <= k < |store| ==> !HasKey(store[k], productId, userId)
  {
    if |store| == 0 then None
    else if HasKey(store[0], productId, userId) then Some(0)
    else match FindKey(store[1..], productId, userId)
      case None => None
      case Some(k) => Some(k + 1)
  }

  /** The body of a review submission. */
  datatype Submission = Submission(productId: Value, rating: Value, comment: Value)

  /** Why a submission was refused, in the order the checks run. */
  datatype Refusal = Unauthorized | NoProduct | BadRating | NoComment | LongComment

  /** A submission reply: the status, the refusal if any, the stored review
      on success, and the collection afterwards. */
  datatype Submitted = Submitted(status: int, refusal: Option<Refusal>, review: Option<Review>, store: Store)

  /** The first check a submission fails, if any. */
  function Check(user: Option<Claims>, body: Submission, parse: string -> Numeric, show: Numeric -> string)
    : (r: Option<Refusal>)
    ensures r == Some(Unauthorized) <==> RequesterId(user).None?
    ensures r.None? <==>
      && RequesterId(user).Some?
      && Truthy(body.productId)
      && Rating(body.rating, parse).Some?
      && CleanComment(body.comment, show) != []
      && |CleanComment(body.comment, show)| <= MaxComment
  {
    if RequesterId(user).None? then Some(Unauthorized)
    else if !Truthy(body.productId) then Some(NoProduct)
    else if Rating(body.rating, parse).None? then Some(BadRating)
    else if CleanComment(body.comment, show) == [] then Some(NoComment)
    else if |CleanComment(body.comment, show)| > MaxComment then Some(LongComment)
    else None
  }

  /** The review as written: an existing review for the same key keeps its
      `_id`. */
  function Stored(store: Store, x: Review): (y: Review)
    ensures y == x.(id := y.id)
    ensures FindKey(store, x.productId, x.userId).None? ==> y == x
    ensures FindKey(store, x.productId, x.userId).Some? ==>
      y.id == store[FindKey(store, x.productId, x.userId).value].id
  {
    match FindKey(store, x.productId, x.userId)
    case Some(i) => x.(id := store[i].id)
    case None => x
  }

  /** `findOneAndUpdate(key, { $set }, { upsert: true })`: overwrite the
      review with `x`'s key in place, or append `x` when there is none. The
      written review is in the result, every review of another key is kept,
      and nothing else is added. */
  function Upsert(store: Store, x: Review): (s: Store)
    ensures Stored(store, x) in s
    ensures forall z :: z in s && z != Stored(store, x) ==> z in store
    ensures UniqueKeys(store) ==> forall z :: z in s && z != Stored(store, x) ==> !HasKey(z, x.productId, x.userId)
    ensures forall z :: z in store && !HasKey(z, x.productId, x.userId) ==> z in s
    ensures |s| == if FindKey(store, x.productId, x.userId).Some? then |store| else |store| + 1
  {
    var y := Stored(store, x);
    match FindKey(store, x.productId, x.userId)
    case Some(i) =>
      var s := store[i := y];
      assert s[i] == y;
      forall z | z in s && z != y ensures z in store {
        var k :| 0 <= k < |s| && s[k] == z;
        assert k != i;
      }
      assert UniqueKeys(store) ==> forall z :: z in s && z != y ==> !HasKey(z, x.productId, x.userId) by {
        if UniqueKeys(store) {
          forall z | z in s && z != y ensures !HasKey(z, x.productId, x.userId) {
            var k :| 0 <= k < |s| && s[k] == z;
            assert k != i && z == store[k];
            if k > i {
              assert !HasKey(store[k], store[i].productId, store[i].userId);
            }
          }
        }
      }
      forall z | z in store && !HasKey(z, x.productId, x.userId) ensures z in s {
        var k :| 0 <= k < |store| && store[k] == z;
        assert s[k] == z;
      }
      s
    case None => store + [x]
  }

  /** `createOrUpdateReview`. A requester without an id is 401; a falsy
      product id, a rating that is not a finite number in 1..5, and a comment
      that is empty after trimming or longer than 1000 characters are 400.
      Otherwise the review for (product, requester) is written with the new
      rating, trimmed comment and display name: in place when one exists,
      keeping its `_id`, and appended under `freshId` when none does. The
      reply is 201 either way. */
  function Submit(user: Option<Claims>, body: Submission, store: Store,
                  parse: string -> Numeric, show: Numeric -> string, freshId: string): (r: Submitted)
    ensures r.refusal == Check(user, body, parse, show)
    ensures r.refusal == Some(Unauthorized) ==> r.status == 401
    ensures r.refusal.Some? && r.refusal != Some(Unauthorized) ==> r.status == 400
    ensures r.refusal.Some? ==> r.review.None? && r.store == store
    ensures r.refusal.None? ==> r.status == 201 && r.review.Some?
    ensures r.refusal.None? ==> (
      var x := r.review.value;
      && x.productId == Text(body.productId, show)
      && x.userId == RequesterId(user).value
      && x.rating == Rating(body.rating, parse).value
      && x.comment == CleanComment(body.comment, show)
      && x.userName == UserName(user.value)
      && (FindKey(store, x.productId, x.userId).None? ==> x.id == freshId)
      && (FindKey(store, x.productId, x.userId).Some? ==>
            x.id == store[FindKey(store, x.productId, x.userId).value].id)
      && x in r.store
      && (forall y :: y in r.store && y != x ==> y in store)
      && (UniqueKeys(store) ==> forall y :: y in r.store && y != x ==> !HasKey(y, x.productId, x.userId))
      && (forall y :: y in store && !HasKey(y, x.productId, x.userId) ==> y in r.store))
  {
    var refusal := Check(user, body, parse, show);
    match refusal
    case Some(Unauthorized) => Submitted(401, refusal, None, store)
    case Some(_) => Submitted(400, refusal, None, store)
    case None =>
      var x := Candidate(user, body, parse, show, freshId);
      Submitted(201, None, Some(Stored(store, x)), Upsert(store, x))
  }

  /** The review an accepted submission writes, before the key lookup
      decides its `_id`. */
  function Candidate(user: Option<Claims>, body: Submission, parse: string -> Numeric,
                     show: Numeric -> string, freshId: string): Review
    requires Check(user, body, parse, show).None?
  {
    Review(freshId, Text(body.productId, show), RequesterId(user).value, UserName(user.value),
           Rating(body.rating, parse).value, CleanComment(body.comment, show))
  }

  lemma SubmitIsUpsert(user: Option<Claims>, body: Submission, store: Store,
                       parse: string -> Numeric, show: Numeric -> string, freshId: string)
    requires Check(user, body, parse, show).None?
    ensures var r := Submit(user, body, store, parse, show, freshId);
      var x := Candidate(user, body, parse, show, freshId);
      r.store == Upsert(store, x) && r.review == Some(Stored(store, x))
  {
  }

  /** Upserting twice under one key writes the same document twice. */
  lemma UpsertAgain(store: Store, x1: Review, x2: Review)
    requires HasKey(x2, x1.productId, x1.userId)
    ensures var s1 := Upsert(store, x1);
      |Upsert(s1, x2)| == |s1| && Stored(s1, x2).id == Stored(store, x1).id
  {
    var s1 := Upsert(store, x1);
    match FindKey(store, x1.productId, x1.userId)
    case Some(i) =>
      assert s1 == store[i := Stored(store, x1)];
      assert FindKey(s1, x1.productId, x1.userId) == Some(i) by {
        FindKeyFirst(s1, x1.productId, x1.userId, i);
      }
    case None =>
      assert s1 == store + [x1];
      FindKeyFirst(s1, x1.productId, x1.userId, |store|);
  }

  /** `FindKey` returns a position when that position holds the key and no
      earlier one does. */
  lemma {:induction false} FindKeyFirst(store: Store, productId: string, userId: string, i: nat)
    requires i < |store| && HasKey(store[i], productId, userId)
    requires forall k :: 0 <= k < i ==> !HasKey(store[k], productId, userId)
    ensures FindKey(store, productId, userId) == Some(i)
  {
    if i > 0 {
      FindKeyFirst(store[1..], productId, userId, i - 1);
    }
  }

  /** An upsert keeps the collection free of duplicate keys. */
  lemma UpsertKeepsUniqueKeys(store: Store, x: Review)
    requires UniqueKeys(store)
    ensures UniqueKeys(Upsert(store, x))
  {
    var s := Upsert(store, x);
    var y := Stored(store, x);
    match FindKey(store, x.productId, x.userId)
    case Some(i) =>
      assert s == store[i := y];
      forall a, b | 0 <= a < b < |s| ensures !HasKey(s[b], s[a].productId, s[a].userId) {
        if a != i && b != i {
          assert s[a] == store[a] && s[b] == store[b];
        } else if a == i {
          assert s[b] == store[b];
        } else {
          assert s[a] == store[a];
        }
      }
    case None =>
      assert s == store + [x];
      forall a, b | 0 <= a < b < |s| ensures !HasKey(s[b], s[a].productId, s[a].userId) {
        if b < |store| {
          assert s[a] == store[a] && s[b] == store[b];
        } else {
          assert s[a] == store[a];
        }
      }
  }

  /** A successful submission keeps the collection free of duplicate keys. */
  lemma SubmitKeepsUniqueKeys(user: Option<Claims>, body: Submission, store: Store,
                              parse: string -> Numeric, show: Numeric -> string, freshId: string)
    requires UniqueKeys(store)
    ensures UniqueKeys(Submit(user, body, store, parse, show, freshId).store)
  {
    if Check(user, body, parse, show).None? {
      SubmitIsUpsert(user, body, store, parse, show, freshId);
      UpsertKeepsUniqueKeys(store, Candidate(user, body, parse, show, freshId));
    }
  }

  /** Resubmitting for a key that already has a review keeps the collection's
      size and the review's `_id`, and replaces its rating and comment. */
  lemma ResubmitOverwrites(user: Option<Claims>, first: Submission, second: Submission, store: Store,
                           parse: string -> Numeric, show: Numeric -> string, id1: string, id2: string)
    requires Text(first.productId, show) == Text(second.productId, show)
    ensures var r1 := Submit(user, first, store, parse, show, id1);
      var r2 := Submit(user, second, r1.store, parse, show, id2);
      r1.status == 201 && r2.status == 201 ==>
        && |r2.store| == |r1.store|
        && r2.review.value.id == r1.review.value.id
        && r2.review.value.rating == Rating(second.rating, parse).value
        && r2.review.value.comment == CleanComment(second.comment, show)
  {
    var r1 := Submit(user, first, store, parse, show, id1);
    var r2 := Submit(user, second, r1.store, parse, show, id2);
    if r1.status == 201 && r2.status == 201 {
      var x1 := Candidate(user, first, parse, show, id1);
      var x2 := Candidate(user, second, parse, show, id2);
      SubmitIsUpsert(user, first, store, parse, show, id1);
      SubmitIsUpsert(user, second, r1.store, parse, show, id2);
      UpsertAgain(store, x1, x2);
    }
  }

  // ---------------------------------------------------------------- deletion

  /** `findById(id)`: the first review with that `_id`. */
  function FindReview(store: Store, id: string): (r: Option<nat>)
    ensures r.Some? ==> r.value < |store| && store[r.value].id == id
    ensures r.Some? ==> forall k :: 0 <= k < r.value ==> store[k].id != id
    ensures r.None? <==> forall k :: 0 <= k < |store| ==> store[k].id != id
  {
    if |store| == 0 then None
    else if store[0].id == id then Some(0)
    else match FindReview(store[1..], id)
      case None => None
      case Some(k) => Some(k + 1)
  }

  /** The requester owns the review: a non-empty requester id equal to the
      review's `userId`. */
  predicate IsOwner(user: Option<Claims>, x: Review) {
    RequesterId(user).Some? && RequesterId(user).value == x.userId
  }

  /** A deletion reply: status, the deleted review, the collection after. */
  datatype Deleted = Deleted(status: int, review: Option<Review>, store: Store)

  /** `deleteReview`: an unknown id is 404; the owner or an admin deletes
      the review (200, returning it); anybody else gets 403 and the review
      stays. */
  function DeleteReview(user: Option<Claims>, id: string, store: Store): (r: Deleted)
    ensures FindReview(store, id).None? ==> r == Deleted(404, None, store)
    ensures r.status == 200 <==>
      FindReview(store, id).Some? && (IsOwner(user, store[FindReview(store, id).value]) || IsAdmin(user))
    ensures r.status in {200, 403, 404}
    ensures r.status != 200 ==> r.store == store && r.review.None?
    ensures r.status == 200 ==>
      var i := FindReview(store, id).value;
      && r.review == Some(store[i])
      && |r.store| == |store| - 1
      && (forall k :: 0 <= k < i ==> r.store[k] == store[k])
      && (forall k :: i <= k < |r.store| ==> r.store[k] == store[k + 1])
  {
    match FindReview(store, id)
    case None => Deleted(404, None, store)
    case Some(i) =>
      if !IsOwner(user, store[i]) && !IsAdmin(user) then Deleted(403, None, store)
      else Deleted(200, Some(store[i]), store[..i] + store[i + 1..])
  }

  /** With unique `_id`s, a deleted review is gone and every other review
      stays. */
  lemma DeleteRemovesOnlyTarget(user: Option<Claims>, id: string, store: Store)
    requires forall a, b :: 0 <= a < b < |store| ==> store[a].id != store[b].id
    ensures var r := DeleteReview(user, id, store);
      r.status == 200 ==>
        && (forall y :: y in r.store ==> y.id != id)
        && (forall y :: y in store && y.id != id ==> y in r.store)
  {
    var r := DeleteReview(user, id, store);
    if r.status == 200 {
      var i := FindReview(store, id).value;
      forall y | y in r.store ensures y.id != id {
        var k :| 0 <= k < |r.store| && r.store[k] == y;
        if k >= i {
          assert y == store[k + 1];
        }
      }
      forall y | y in store && y.id != id ensures y in r.store {
        var k :| 0 <= k < |store| && store[k] == y;
        if k < i {
          assert r.store[k] == y;
        } else {
          assert k != i;
          assert r.store[k - 1] == y;
        }
      }
    }
  }

  /** A non-admin cannot delete somebody else's review. */
  lemma StrangerCannotDelete(user: Option<Claims>, id: string, store: Store)
    requires !IsAdmin(user)
    requires FindReview(store, id).Some?
    requires !IsOwner(user, store[FindReview(store, id).value])
    ensures DeleteReview(user, id, store) == Deleted(403, None, store)
  {
  }
}
