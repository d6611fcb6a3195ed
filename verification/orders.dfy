/** Orders: creation with catalog snapshots and a running total, the
    newest-first paginated listing, and the admin status/notes update. The
    order collection is a sequence in creation order, so the latest order is
    the last one. */
module Orders {
  import opened Wrappers
  import opened Strings
  import opened Identity
  import opened OrderIds
  import opened Products

  /** An order line: what the catalog said about the product when the order
      was placed, and the quantity asked for. */
  datatype OrderLine = OrderLine(productId: string, productName: string, image: Option<string>,
                                 price: real, qty: real)

  datatype Order = Order(
    orderId: string, email: Option<string>, name: string,
    address: Option<string>, phone: Option<string>,
    items: seq<OrderLine>, total: real,
    status: Option<string>, notes: Option<string>)

  /** One requested item. */
  datatype ItemRequest = ItemRequest(productId: string, qty: real)

  /** The `items` field of the body: absent or null, present but not an
      array, or an array of requested items. */
  datatype ItemsField = NoItems | NotAnArray | Items(list: seq<ItemRequest>)

  datatype OrderRequest = OrderRequest(items: ItemsField, address: Option<string>, phone: Option<string>)

  /** `Product.findOne({ productId })`: the first catalog entry with that id. */
  function FindProduct(catalog: seq<Product>, pid: string): (r: Option<Product>)
    ensures r.Some? ==> r.value in catalog && r.value.productId == pid
    ensures r.None? <==> forall p :: p in catalog ==> p.productId != pid
  {
    if |catalog| == 0 then None
    else if catalog[0].productId == pid then Some(catalog[0])
    else
      assert forall p :: p in catalog <==> p == catalog[0] || p in catalog[1..];
      FindProduct(catalog[1..], pid)
  }

  /** Every requested product id is in the catalog. */
  predicate Known(catalog: seq<Product>, list: seq<ItemRequest>) {
    forall i :: 0 <= i < |list| ==> FindProduct(catalog, list[i].productId).Some?
  }

  /** The line recorded for `qty` units of catalog product `p`: its id, name,
      first image (none when it has no image) and current price. */
  function Snapshot(p: Product, qty: real): OrderLine {
    OrderLine(p.productId, p.name, if |p.images| > 0 then Some(p.images[0]) else None, p.price, qty)
  }

  /** The sum of price times quantity over the lines. */
  function Total(lines: seq<OrderLine>): real {
    if |lines| == 0 then 0.0
    else Total(lines[..|lines| - 1]) + lines[|lines| - 1].price * lines[|lines| - 1].qty
  }

  /** The reference total of a request: catalog price times requested
      quantity, summed over the requested items. */
  function RequestTotal(catalog: seq<Product>, list: seq<ItemRequest>): real
    requires Known(catalog, list)
  {
    if |list| == 0 then 0.0
    else
      var last := list[|list| - 1];
      RequestTotal(catalog, list[..|list| - 1]) + FindProduct(catalog, last.productId).value.price * last.qty
  }

  /** The identifier of the latest order, if any. */
  function LatestId(orders: seq<Order>): Option<string> {
    if |orders| == 0 then None else Some(orders[|orders| - 1].orderId)
  }

  /** A name part as JavaScript string concatenation renders it. */
  function JsText(o: Option<string>): string {
    if o.Some? then o.value else "undefined"
  }

  /** `firstName + " " + lastName` over the claims. */
  function FullName(c: Claims): string {
    JsText(c.firstName) + " " + JsText(c.lastName)
  }

  /** The lines recorded for a fully known request, in request order. */
  predicate Snapshots(catalog: seq<Product>, list: seq<ItemRequest>, lines: seq<OrderLine>)
    requires Known(catalog, list)
  {
    && |lines| == |list|
    && forall i :: 0 <= i < |list| ==> lines[i] == Snapshot(FindProduct(catalog, list[i].productId).value, list[i].qty)
  }

  /** The recorded lines add up to the reference total of the request. */
  lemma {:induction false} SnapshotTotal(catalog: seq<Product>, list: seq<ItemRequest>, lines: seq<OrderLine>)
    requires Known(catalog, list) && Snapshots(catalog, list, lines)
    ensures Total(lines) == RequestTotal(catalog, list)
  {
    if |list| > 0 {
      var n := |list| - 1;
      assert Known(catalog, list[..n]);
      assert Snapshots(catalog, list[..n], lines[..n]);
      SnapshotTotal(catalog, list[..n], lines[..n]);
    }
  }

  lemma TotalAppend(lines: seq<OrderLine>, line: OrderLine)
    ensures Total(lines + [line]) == Total(lines) + line.price * line.qty
  {
    assert (lines + [line])[..|lines|] == lines;
  }

  /** One more requested item found in the catalog extends the snapshot. */
  lemma SnapshotsExtend(catalog: seq<Product>, list: seq<ItemRequest>, i: nat, lines: seq<OrderLine>)
    requires i < |list| && Known(catalog, list[..i]) && Snapshots(catalog, list[..i], lines)
    requires FindProduct(catalog, list[i].productId).Some?
    ensures Known(catalog, list[..i + 1])
    ensures Snapshots(catalog, list[..i + 1], lines + [Snapshot(FindProduct(catalog, list[i].productId).value, list[i].qty)])
  {
    assert forall k :: 0 <= k < i ==> list[..i + 1][k] == list[..i][k];
  }

  /** The loop of `createOrder`: the snapshot of every requested item and
      the running total, or nothing as soon as an item is not in the catalog. */
  method CollectLines(catalog: seq<Product>, list: seq<ItemRequest>) returns (lines: Option<seq<OrderLine>>, total: real)
    ensures lines.Some? <==> Known(catalog, list)
    ensures lines.Some? ==> Snapshots(catalog, list, lines.value) && total == Total(lines.value)
  {
    var acc: seq<OrderLine> := [];
    total := 0.0;
    var i := 0;
    while i < |list|
      invariant 0 <= i <= |list|
      invariant Known(catalog, list[..i])
      invariant Snapshots(catalog, list[..i], acc)
      invariant total == Total(acc)
    {
      var found := FindProduct(catalog, list[i].productId);
      if found.None? {
        assert !Known(catalog, list) by { assert FindProduct(catalog, list[i].productId).None?; }
        return None, total;
      }
      SnapshotsExtend(catalog, list, i, acc);
      var line := Snapshot(found.value, list[i].qty);
      TotalAppend(acc, line);
      acc := acc + [line];
      total := total + line.price * line.qty;
      i := i + 1;
    }
    assert list[..i] == list;
    return Some(acc), total;
  }

  /** The outcome of `createOrder`: status, the saved order, the collection. */
  datatype Created = Created(status: int, order: Option<Order>, orders: seq<Order>)

  /** `createOrder`. Without claims it is 404; an `items` field that is not
      an array, or an item whose product is not in the catalog, is 400; in
      each case nothing is saved. Otherwise one order is appended: its id is
      the successor of the latest id, its lines are the catalog snapshots in
      request order, its total is their sum, and it carries the caller's
      email and name and the request's address and phone. */
  method CreateOrder(user: Option<Claims>, orders: seq<Order>, catalog: seq<Product>, req: OrderRequest)
    returns (r: Created)
    ensures user.None? ==> r.status == 404
    ensures r.status == 200 <==> user.Some? && req.items.Items? && Known(catalog, req.items.list)
    ensures r.status != 200 ==> r.order.None? && r.orders == orders && (r.status == 404 || r.status == 400)
    ensures r.status == 200 ==> r.order.Some? && r.orders == orders + [r.order.value]
    ensures r.status == 200 ==>
      var o := r.order.value;
      && o.orderId == NextOrderId(LatestId(orders))
      && Snapshots(catalog, req.items.list, o.items)
      && o.total == Total(o.items)
      && o.email == user.value.email && o.name == FullName(user.value)
      && o.address == req.address && o.phone == req.phone
      && o.status.None? && o.notes.None?
  {
    if user.None? {
      return Created(404, None, orders);
    }
    var orderId := NextOrderId(LatestId(orders));
    if !req.items.Items? {
      return Created(400, None, orders);
    }
    var lines, total := CollectLines(catalog, req.items.list);
    if lines.None? {
      return Created(400, None, orders);
    }
    var o := Order(orderId, user.value.email, FullName(user.value), req.address, req.phone,
                   lines.value, total, None, None);
    return Created(200, Some(o), orders + [o]);
  }

  /** An accepted order's total is the catalog price times quantity, summed
      over the request. */
  lemma CreatedTotal(catalog: seq<Product>, list: seq<ItemRequest>, o: Order)
    requires Known(catalog, list) && Snapshots(catalog, list, o.items) && o.total == Total(o.items)
    ensures o.total == RequestTotal(catalog, list)
  {
    SnapshotTotal(catalog, list, o.items);
  }

  /** The order identifiers in collection order. */
  function Ids(orders: seq<Order>): (ids: seq<string>)
    ensures |ids| == |orders| && forall i :: 0 <= i < |orders| ==> ids[i] == orders[i].orderId
  {
    if |orders| == 0 then [] else Ids(orders[..|orders| - 1]) + [orders[|orders| - 1].orderId]
  }

  /** Appending the order `createOrder` numbers keeps a canonically
      numbered collection canonical, so by `CanonicalDistinct` its
      identifiers never repeat. */
  lemma CreationKeepsCanonical(orders: seq<Order>, o: Order)
    requires Canonical(Ids(orders))
    requires o.orderId == NextOrderId(LatestId(orders))
    ensures Canonical(Ids(orders + [o]))
  {
    var ids := Ids(orders);
    assert Ids(orders + [o]) == ids + [o.orderId];
    assert LatestId(orders) == LastOf(ids);
    CanonicalAppend(ids);
  }

  /** A `page` or `limit` parameter: `parseInt(text) || default`. */
  function PageParam(text: Option<string>, default: int): (v: int)
    requires default != 0
    ensures v != 0
    ensures text.Some? && ParseInt(text.value).Some? && ParseInt(text.value).value != 0 ==>
              v == ParseInt(text.value).value
    ensures text.None? || ParseInt(text.value).None? || ParseInt(text.value) == Some(0) ==> v == default
  {
    if text.None? then default
    else match ParseInt(text.value)
      case None => default
      case Some(k) => if k == 0 then default else k
  }

  function Abs(x: int): nat {
    if x < 0 then -x else x
  }

  function Min(a: int, b: int): int {
    if a <= b then a else b
  }

  /** `Math.ceil(count / limit)`. */
  function CeilDiv(count: nat, limit: int): (pages: int)
    requires limit != 0
    ensures limit > 0 ==> (pages - 1) * limit < count <= pages * limit
    ensures limit < 0 ==> pages <= 0 && pages * limit <= count < (pages - 1) * limit
  {
    if limit > 0 then
      var q := (count + limit - 1) / limit;
      assert q * limit + (count + limit - 1) % limit == count + limit - 1;
      q
    else
      var q := count / -limit;
      assert q * -limit + count % -limit == count;
      -q
  }

  /** The collection newest first. */
  function Newest(orders: seq<Order>): (r: seq<Order>)
    ensures |r| == |orders| && forall k :: 0 <= k < |orders| ==> r[k] == orders[|orders| - 1 - k]
  {
    if |orders| == 0 then [] else [orders[|orders| - 1]] + Newest(orders[..|orders| - 1])
  }

  /** A listing reply: status, the window of orders, the page count. */
  datatype Listing = Listing(status: int, orders: seq<Order>, totalPages: int)

  /** The number of orders a listing skips. */
  function Skip(page: Option<string>, limit: Option<string>): int {
    (PageParam(page, 1) - 1) * PageParam(limit, 10)
  }

  /** The newest-first window the store returns for a non-negative skip and
      a limit, whose magnitude bounds the window. */
  function Window(orders: seq<Order>, skip: nat, limit: int): (w: seq<Order>)
    ensures |w| == if skip >= |orders| then 0 else Min(Abs(limit), |orders| - skip)
    ensures forall k :: 0 <= k < |w| ==> w[k] == orders[|orders| - 1 - (skip + k)]
  {
    var newest := Newest(orders);
    if skip >= |newest| then [] else newest[skip..Min(|newest|, skip + Abs(limit))]
  }

  /** A successful listing that skips `skip` orders of the newest-first
      collection and holds at most `|size|` of them, with
      `ceil(count / size)` pages. */
  function Served(orders: seq<Order>, skip: nat, size: int): (r: Listing)
    requires size != 0
    ensures r.status == 200
    ensures |r.orders| == if skip >= |orders| then 0 else Min(Abs(size), |orders| - skip)
    ensures forall k :: 0 <= k < |r.orders| ==> r.orders[k] == orders[|orders| - 1 - (skip + k)]
    ensures size > 0 ==> (r.totalPages - 1) * size < |orders| <= r.totalPages * size
  {
    Listing(200, Window(orders, skip, size), CeilDiv(|orders|, size))
  }

  /** `getOrders`. Without claims it is 404. `page` and `limit` default to
      1 and 10 when they do not parse or parse to 0. A negative skip is
      refused by the store (500). Otherwise the reply is the window
      `Served` describes for the skip `(page - 1) * limit` and the limit.
      Admins and everybody else get the same answer. */
  function GetOrders(user: Option<Claims>, orders: seq<Order>, page: Option<string>, limit: Option<string>)
    : (r: Listing)
    ensures user.None? <==> r.status == 404
    ensures user.Some? && Skip(page, limit) < 0 <==> r.status == 500
    ensures r.status == 200 || r.status == 404 || r.status == 500
    ensures r.status == 200 ==> Skip(page, limit) >= 0 && r == Served(orders, Skip(page, limit), PageParam(limit, 10))
  {
    if user.None? then Listing(404, [], 0)
    else
      var size := PageParam(limit, 10);
      var skip := Skip(page, limit);
      if skip < 0 then Listing(500, [], 0)
      else if IsAdmin(user) then Served(orders, skip, size)
      else Served(orders, skip, size)
  }

  /** The listing does not depend on who asks, only on whether anybody does. */
  lemma ListingIgnoresRole(a: Claims, b: Claims, orders: seq<Order>, page: Option<string>, limit: Option<string>)
    ensures GetOrders(Some(a), orders, page, limit) == GetOrders(Some(b), orders, page, limit)
  {
  }

  /** With a positive limit every order is listed exactly where paging
      puts it: the order at newest-first position `m` is entry `m % size` of
      page `m / size + 1`, and that page is within the reported page count. */
  lemma EveryOrderOnItsPage(orders: seq<Order>, size: int, m: nat)
    requires size > 0 && m < |orders|
    ensures var page := m / size + 1;
      var w := Window(orders, (page - 1) * size, size);
      && m % size < |w|
      && w[m % size] == Newest(orders)[m]
      && page <= CeilDiv(|orders|, size)
  {
    var q := m / size;
    var r := m % size;
    assert m == q * size + r;
    var pages := CeilDiv(|orders|, size);
    if pages < q + 1 {
      assert pages * size <= q * size by {
        assert pages <= q;
        MulMonotone(pages, q, size);
      }
      assert false;
    }
  }

  lemma MulMonotone(a: int, b: int, c: nat)
    requires a <= b
    ensures a * c <= b * c
  {
  }

  /** The outcome of `updateOrder`. */
  datatype Updated = Updated(status: int, order: Option<Order>, orders: seq<Order>)

  /** The first position holding order `id`. */
  predicate FirstOrder(orders: seq<Order>, id: string, i: int) {
    0 <= i < |orders| && orders[i].orderId == id && forall j :: 0 <= j < i ==> orders[j].orderId != id
  }

  function FindOrder(orders: seq<Order>, id: string): (r: Option<nat>)
    ensures r.Some? ==> FirstOrder(orders, id, r.value)
    ensures r.None? <==> forall j :: 0 <= j < |orders| ==> orders[j].orderId != id
  {
    if |orders| == 0 then None
    else if orders[0].orderId == id then Some(0)
    else match FindOrder(orders[1..], id)
      case None => None
      case Some(j) => Some(j + 1)
  }

  /** The fields an update names; an absent one (`undefined`) is dropped
      from the update and leaves the stored value alone. */
  function Apply(o: Order, status: Option<string>, notes: Option<string>): Order {
    o.(status := status.OrElse(o.status), notes := notes.OrElse(o.notes))
  }

  /** `updateOrder`: a non-admin gets 403, an unknown id 404, and in both
      cases nothing changes; otherwise the first order with that id gets the
      sent status and notes, and nothing else in the collection changes. */
  function UpdateOrder(user: Option<Claims>, orders: seq<Order>, id: string,
                       status: Option<string>, notes: Option<string>): (r: Updated)
    ensures !IsAdmin(user) ==> r.status == 403 && r.orders == orders
    ensures IsAdmin(user) && (forall j :: 0 <= j < |orders| ==> orders[j].orderId != id) ==>
              r.status == 404 && r.orders == orders
    ensures r.status == 200 <==> IsAdmin(user) && exists j :: 0 <= j < |orders| && orders[j].orderId == id
    ensures r.status == 200 ==> r.order.Some? && FindOrder(orders, id).Some?
    ensures r.status == 200 ==>
      var i := FindOrder(orders, id).value;
      && FirstOrder(orders, id, i)
      && r.orders == orders[i := r.order.value]
      && r.order.value == orders[i].(status := r.order.value.status, notes := r.order.value.notes)
      && (status.Some? ==> r.order.value.status == status)
      && (notes.Some? ==> r.order.value.notes == notes)
      && (status.None? ==> r.order.value.status == orders[i].status)
      && (notes.None? ==> r.order.value.notes == orders[i].notes)
  {
    if !IsAdmin(user) then Updated(403, None, orders)
    else match FindOrder(orders, id)
      case None => Updated(404, None, orders)
      case Some(i) =>
        var o := Apply(orders[i], status, notes);
        Updated(200, Some(o), orders[i := o])
  }

  /** Sending the same update twice leaves the collection as sending it once. */
  lemma UpdateIdempotent(user: Option<Claims>, orders: seq<Order>, id: string,
                         status: Option<string>, notes: Option<string>)
    ensures var once := UpdateOrder(user, orders, id, status, notes);
      UpdateOrder(user, once.orders, id, status, notes).orders == once.orders
  {
    var once := UpdateOrder(user, orders, id, status, notes);
    if once.status == 200 {
      var i := FindOrder(orders, id).value;
      var o := once.order.value;
      FirstAfterReplace(orders, id, i, o);
      assert Apply(o, status, notes) == o;
    }
  }

  /** Replacing the first order with some id by one with the same id keeps
      it the first. */
  lemma FirstAfterReplace(orders: seq<Order>, id: string, i: nat, o: Order)
    requires FirstOrder(orders, id, i) && o.orderId == id
    ensures FindOrder(orders[i := o], id) == Some(i)
  {
    var after := orders[i := o];
    assert after[i].orderId == id;
    var k := FindOrder(after, id);
    assert k.Some?;
    assert !(k.value < i);
    assert !(i < k.value);
  }

  /** An update keeps every identifier, so a canonical collection stays
      canonical. */
  lemma UpdateKeepsIds(user: Option<Claims>, orders: seq<Order>, id: string,
                       status: Option<string>, notes: Option<string>)
    ensures Ids(UpdateOrder(user, orders, id, status, notes).orders) == Ids(orders)
  {
  }
}
