/** Per-user shopping carts: caller resolution, the quantity-accumulating
    merge with its zero floor, and the three cart handlers. */
module Cart {
  import opened Wrappers
  import opened Js
  import opened Identity
  import opened AuthGate

  datatype CartLine = CartLine(productId: string, name: string, price: real, image: string, quantity: real)

  /** The cart collection: one item list per user id. */
  type Carts = map<string, seq<CartLine>>

  /** The cart invariant: one line per product, every quantity positive. */
  predicate WellFormed(items: seq<CartLine>) {
    && (forall i, j :: 0 <= i < j < |items| ==> items[i].productId != items[j].productId)
    && (forall i :: 0 <= i < |items| ==> items[i].quantity > 0.0)
  }

  /** `resolveUserId`: the `userId` claim when set; otherwise the id of the
      user stored under the `email` claim; otherwise nobody. */
  function ResolveUserId(user: Option<Claims>, users: Users): (r: Option<string>)
    ensures r.Some? ==> r.value != ""
    ensures user.Some? && Filled(user.value.userId) ==> r == user.value.userId
    ensures user.Some? && !Filled(user.value.userId) && Filled(user.value.email) ==>
              r == (if user.value.email.value in users && users[user.value.email.value].id != ""
                    then Some(users[user.value.email.value].id) else None)
    ensures user.None? || (!Filled(user.value.userId) && !Filled(user.value.email)) ==> r.None?
  {
    if user.None? then None
    else if Filled(user.value.userId) then user.value.userId
    else if Filled(user.value.email) then
      var e := user.value.email.value;
      if e in users && users[e].id != "" then Some(users[e].id) else None
    else None
  }

  /** Behind the middleware, a token that verified to claims without a
      durable id but with a stored email resolves to that record's id: the
      middleware has already injected it, and the cart's own email fallback
      would name the same user. */
  lemma ResolveAfterAuthenticate(verb: string, header: string, verify: string -> Verified,
                                 users: Users, c: Claims)
    requires verb != "OPTIONS" && header != ""
    requires verify(BearerToken(header)) == Valid(c)
    requires !Filled(c.userId) && Filled(c.email) && c.email.value in users
    requires users[c.email.value].id != ""
    ensures var g := Authenticate(verb, Some(header), verify, StoreLookup(users));
      && g.Next? && g.user.Some?
      && ResolveUserId(g.user, users) == Some(users[c.email.value].id)
      && ResolveUserId(g.user, users) == ResolveUserId(Some(c), users)
  {
  }

  /** The `item` of a POST /cart body; `None` is a missing or falsy item. */
  datatype ItemPayload = ItemPayload(productId: Option<string>, name: Option<string>, price: Value, image: Option<string>)

  datatype CartRequest = CartRequest(item: Option<ItemPayload>, quantity: Value)

  /** The payload check: an item with a product id, name and image, a
      numeric price, and a numeric quantity. */
  predicate ValidPayload(req: CartRequest) {
    && req.item.Some?
    && req.quantity.Num? && req.quantity.n.Fin?
    && Filled(req.item.value.productId)
    && Filled(req.item.value.name)
    && req.item.value.price.Num? && req.item.value.price.n.Fin?
    && Filled(req.item.value.image)
  }

  /** `i` is the first line for product `pid` (what `findIndex` returns). */
  predicate FirstLine(items: seq<CartLine>, pid: string, i: int) {
    0 <= i < |items| && items[i].productId == pid && forall k :: 0 <= k < i ==> items[k].productId != pid
  }

  predicate NoLine(items: seq<CartLine>, pid: string) {
    forall k :: 0 <= k < |items| ==> items[k].productId != pid
  }

  function FindLine(items: seq<CartLine>, pid: string): (r: Option<nat>)
    ensures r.Some? ==> FirstLine(items, pid, r.value)
    ensures r.None? ==> NoLine(items, pid)
  {
    if |items| == 0 then None
    else if items[0].productId == pid then Some(0)
    else match FindLine(items[1..], pid)
      case None => None
      case Some(i) => Some(i + 1)
  }

  /** The merge: an existing line for the product gains `delta` and is
      dropped once it reaches zero or below, keeping its stored name, price and
      image; otherwise a positive `delta` appends a new line built from
      `offer` and a non-positive one changes nothing. */
  function Merge(items: seq<CartLine>, offer: CartLine, delta: real): (r: seq<CartLine>)
    ensures forall i :: FirstLine(items, offer.productId, i) && items[i].quantity + delta <= 0.0 ==>
              r == items[..i] + items[i + 1..]
    ensures forall i :: FirstLine(items, offer.productId, i) && items[i].quantity + delta > 0.0 ==>
              r == items[i := items[i].(quantity := items[i].quantity + delta)]
    ensures NoLine(items, offer.productId) && delta > 0.0 ==> r == items + [offer.(quantity := delta)]
    ensures NoLine(items, offer.productId) && delta <= 0.0 ==> r == items
  {
    match FindLine(items, offer.productId)
    case Some(i) =>
      assert forall j :: FirstLine(items, offer.productId, j) ==> j == i by {
        forall j | FirstLine(items, offer.productId, j) ensures j == i {
          assert !(j < i);
          assert !(i < j);
        }
      }
      var q := items[i].quantity + delta;
      if q <= 0.0 then items[..i] + items[i + 1..] else items[i := items[i].(quantity := q)]
    case None =>
      if delta > 0.0 then items + [offer.(quantity := delta)] else items
  }

  /** The quantity of a product in a cart: its line's quantity, or 0. */
  function QuantityOf(items: seq<CartLine>, pid: string): real {
    match FindLine(items, pid)
    case Some(i) => items[i].quantity
    case None => 0.0
  }

  /** The merge keeps the cart invariant. */
  lemma MergeKeepsWellFormed(items: seq<CartLine>, offer: CartLine, delta: real)
    requires WellFormed(items)
    ensures WellFormed(Merge(items, offer, delta))
  {
    match FindLine(items, offer.productId)
    case Some(i) =>
      if items[i].quantity + delta <= 0.0 {
        RemoveKeepsWellFormed(items, i);
      } else {
        UpdateKeepsWellFormed(items, i, items[i].quantity + delta);
      }
    case None =>
      if delta > 0.0 {
        AppendKeepsWellFormed(items, offer.(quantity := delta));
      }
  }

  lemma RemoveKeepsWellFormed(items: seq<CartLine>, i: nat)
    requires WellFormed(items) && i < |items|
    ensures WellFormed(items[..i] + items[i + 1..])
  {
    var r := items[..i] + items[i + 1..];
    forall a | 0 <= a < |r| ensures r[a] == items[if a < i then a else a + 1] {
    }
  }

  lemma UpdateKeepsWellFormed(items: seq<CartLine>, i: nat, q: real)
    requires WellFormed(items) && i < |items| && q > 0.0
    ensures WellFormed(items[i := items[i].(quantity := q)])
  {
  }

  lemma AppendKeepsWellFormed(items: seq<CartLine>, line: CartLine)
    requires WellFormed(items) && NoLine(items, line.productId) && line.quantity > 0.0
    ensures WellFormed(items + [line])
  {
  }

  /** The merge as accounting: in a well-formed cart the product's quantity
      moves by `delta` with a floor at zero, and every other product's
      quantity stays what it was. */
  lemma MergeQuantities(items: seq<CartLine>, offer: CartLine, delta: real, other: string)
    requires WellFormed(items)
    ensures var before := QuantityOf(items, offer.productId);
      QuantityOf(Merge(items, offer, delta), offer.productId) == if before + delta > 0.0 then before + delta else 0.0
    ensures other != offer.productId ==> QuantityOf(Merge(items, offer, delta), other) == QuantityOf(items, other)
  {
    var pid := offer.productId;
    var r := Merge(items, offer, delta);
    match FindLine(items, pid)
    case Some(i) =>
      if items[i].quantity + delta <= 0.0 {
        assert r == items[..i] + items[i + 1..];
        assert NoLine(r, pid) by {
          forall k | 0 <= k < |r| ensures r[k].productId != pid {
            assert r[k] == items[if k < i then k else k + 1];
          }
        }
        if other != pid {
          SameLinesElsewhere(items, r, i, other);
        }
      } else {
        assert FirstLine(r, pid, i);
        if other != pid {
          SameFirstLineAfterUpdate(items, r, i, other);
        }
      }
    case None =>
      if delta > 0.0 {
        assert FirstLine(r, pid, |items|);
        if other != pid {
          AppendedElsewhere(items, offer.(quantity := delta), other);
        }
      }
  }

  lemma SameLinesElsewhere(items: seq<CartLine>, r: seq<CartLine>, i: nat, other: string)
    requires i < |items| && r == items[..i] + items[i + 1..]
    requires items[i].productId != other
    ensures QuantityOf(r, other) == QuantityOf(items, other)
  {
    match FindLine(items, other)
    case Some(j) =>
      var j' := if j < i then j else j - 1;
      assert r[j'] == items[j];
      assert FirstLine(r, other, j') by {
        forall k | 0 <= k < j' ensures r[k].productId != other {
          assert r[k] == items[if k < i then k else k + 1];
        }
      }
    case None =>
      assert NoLine(r, other) by {
        forall k | 0 <= k < |r| ensures r[k].productId != other {
          assert r[k] == items[if k < i then k else k + 1];
        }
      }
  }

  lemma SameFirstLineAfterUpdate(items: seq<CartLine>, r: seq<CartLine>, i: nat, other: string)
    requires i < |items| && |r| == |items|
    requires forall k :: 0 <= k < |items| ==> r[k].productId == items[k].productId
    requires forall k :: 0 <= k < |items| && k != i ==> r[k] == items[k]
    requires items[i].productId != other
    ensures QuantityOf(r, other) == QuantityOf(items, other)
  {
    match FindLine(items, other)
    case Some(j) =>
      assert FirstLine(r, other, j);
    case None =>
      assert NoLine(r, other);
  }

  lemma AppendedElsewhere(items: seq<CartLine>, line: CartLine, other: string)
    requires line.productId != other
    ensures QuantityOf(items + [line], other) == QuantityOf(items, other)
  {
    var r := items + [line];
    match FindLine(items, other)
    case Some(j) =>
      assert FirstLine(r, other, j);
    case None =>
      assert NoLine(r, other);
  }

  /** Adding `n` of a product not in the cart and then taking `n` away
      gives back the original item list. */
  lemma AddThenRemoveRestores(items: seq<CartLine>, offer: CartLine, again: CartLine, n: real)
    requires NoLine(items, offer.productId) && again.productId == offer.productId
    requires n > 0.0
    ensures Merge(Merge(items, offer, n), again, -n) == items
  {
    var mid := Merge(items, offer, n);
    assert mid == items + [offer.(quantity := n)];
    assert FirstLine(mid, again.productId, |items|);
    assert mid[..|items|] == items;
  }

  /** A cart reply: status, the items returned, and the carts afterwards. */
  datatype CartReply = CartReply(status: int, items: seq<CartLine>, carts: Carts)

  /** `getCart`: the caller's items, or `[]` when the caller has no cart. */
  function GetCart(user: Option<Claims>, users: Users, carts: Carts): (r: CartReply)
    ensures r.carts == carts
    ensures ResolveUserId(user, users).None? <==> r.status == 401
    ensures r.status == 401 ==> r.items == []
    ensures r.status != 401 ==>
      var uid := ResolveUserId(user, users).value;
      r.status == 200 && r.items == (if uid in carts then carts[uid] else [])
  {
    match ResolveUserId(user, users)
    case None => CartReply(401, [], carts)
    case Some(uid) => CartReply(200, if uid in carts then carts[uid] else [], carts)
  }

  /** `addToCart`: 401 without a caller, 400 for a bad payload (nothing
      changes in either case); otherwise the caller's cart, created empty if
      missing, is merged and saved, and only that cart changes. */
  function AddToCart(user: Option<Claims>, users: Users, carts: Carts, req: CartRequest): (r: CartReply)
    ensures ResolveUserId(user, users).None? ==> r.status == 401 && r.carts == carts
    ensures ResolveUserId(user, users).Some? && !ValidPayload(req) ==> r.status == 400 && r.carts == carts
    ensures r.status == 200 <==> ResolveUserId(user, users).Some? && ValidPayload(req)
    ensures r.status == 200 ==>
      var uid := ResolveUserId(user, users).value;
      var it := req.item.value;
      var before := if uid in carts then carts[uid] else [];
      && r.carts == carts[uid := r.items]
      && r.items == Merge(before, CartLine(it.productId.value, it.name.value, it.price.n.r, it.image.value, 0.0), req.quantity.n.r)
  {
    match ResolveUserId(user, users)
    case None => CartReply(401, [], carts)
    case Some(uid) =>
      if !ValidPayload(req) then CartReply(400, [], carts)
      else
        var it := req.item.value;
        var before := if uid in carts then carts[uid] else [];
        var offer := CartLine(it.productId.value, it.name.value, it.price.n.r, it.image.value, 0.0);
        var after := Merge(before, offer, req.quantity.n.r);
        CartReply(200, after, carts[uid := after])
  }

  /** `clearCart`: the caller's cart is deleted; nothing else changes. */
  function ClearCart(user: Option<Claims>, users: Users, carts: Carts): (r: CartReply)
    ensures ResolveUserId(user, users).None? <==> r.status == 401
    ensures r.status == 401 ==> r.carts == carts
    ensures r.status != 401 ==>
      r.status == 200 && r.carts == carts - {ResolveUserId(user, users).value}
  {
    match ResolveUserId(user, users)
    case None => CartReply(401, [], carts)
    case Some(uid) => CartReply(200, [], carts - {uid})
  }

  /** Every cart in the store keeps the invariant across any `addToCart`. */
  lemma AddToCartKeepsCartsWellFormed(user: Option<Claims>, users: Users, carts: Carts, req: CartRequest)
    requires forall u :: u in carts ==> WellFormed(carts[u])
    ensures var r := AddToCart(user, users, carts, req);
      forall u :: u in r.carts ==> WellFormed(r.carts[u])
  {
    var r := AddToCart(user, users, carts, req);
    if r.status == 200 {
      var uid := ResolveUserId(user, users).value;
      var it := req.item.value;
      var before := if uid in carts then carts[uid] else [];
      MergeKeepsWellFormed(before, CartLine(it.productId.value, it.name.value, it.price.n.r, it.image.value, 0.0), req.quantity.n.r);
    }
  }

  /** After a clear, the same caller reads an empty cart. */
  lemma ClearThenGetIsEmpty(user: Option<Claims>, users: Users, carts: Carts)
    requires ResolveUserId(user, users).Some?
    ensures GetCart(user, users, ClearCart(user, users, carts).carts).items == []
  {
  }
}
