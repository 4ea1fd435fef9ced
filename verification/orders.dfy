/** The order handlers: creating an order from a cart, settling payment
    (stock decrement line by line, then the paid flag) and marking delivery,
    plus the paged order listings. */
module Orders {
  import opened Results
  import opened Models
  import Pricing
  import Paging
  import Seqs

  /** The two collections the order handlers read and write. */
  datatype Store = Store(products: map<ProductId, Product>, orders: map<OrderId, Order>)

  /** One requested cart line as the client sends it. `price` is the client's
      own figure, which the handler never reads. */
  datatype CartItem = CartItem(id: ProductId, name: string, image: string, qty: nat, price: nat)

  /** The create-order request body. `orderItems` may be missing altogether;
      `claimedPrices` stands for any totals the client adds to the body. */
  datatype OrderRequest = OrderRequest(
    orderItems: Option<seq<CartItem>>,
    shippingAddress: ShippingAddress,
    paymentMethod: string,
    claimedPrices: Prices)

  datatype OrderError =
    | NoOrderItems
    | ProductNotFound(id: ProductId)
    | NotEnoughStock(name: string, countInStock: int)
    | OrderNotFound
    | AlreadyPaid
    | InsufficientStock(name: string, available: int, requested: nat)
    | LineProductMissing(name: string)
    | PayerMissing

  // ---------------------------------------------------------------- creation

  /** Why a cart line cannot be ordered: its product is unknown, or it asks
      for more than the product's `countInStock`. */
  function ItemProblem(catalog: map<ProductId, Product>, item: CartItem): Option<OrderError> {
    if item.id !in catalog then Some(ProductNotFound(item.id))
    else if item.qty > catalog[item.id].countInStock then
      Some(NotEnoughStock(catalog[item.id].name, catalog[item.id].countInStock))
    else None
  }

  /** Position of the first cart line that cannot be ordered; `|items|` when every line can. */
  function FirstProblem(catalog: map<ProductId, Product>, items: seq<CartItem>): (k: nat)
    ensures k <= |items|
    ensures forall i :: 0 <= i < k ==> ItemProblem(catalog, items[i]).None?
    ensures k < |items| ==> ItemProblem(catalog, items[k]).Some?
  {
    if |items| == 0 || ItemProblem(catalog, items[0]).Some? then 0
    else 1 + FirstProblem(catalog, items[1..])
  }

  /** The stored line for an acceptable cart line: the client's product
      reference, name, image and quantity with the catalog's price. */
  function LineFor(item: CartItem, p: Product): LineItem {
    LineItem(item.id, item.name, item.image, item.qty, p.price)
  }

  /** Walks the cart in request order and builds the stored lines, stopping
      at the first line that cannot be ordered and reporting its problem. */
  function BuildLines(catalog: map<ProductId, Product>, items: seq<CartItem>): (r: Result<seq<LineItem>, OrderError>)
    ensures r.Err? <==> FirstProblem(catalog, items) < |items|
    ensures r.Err? ==> Some(r.error) == ItemProblem(catalog, items[FirstProblem(catalog, items)])
    ensures r.Ok? ==> |r.value| == |items|
    ensures r.Ok? ==> forall i :: 0 <= i < |items| ==>
      && items[i].id in catalog
      && items[i].qty <= catalog[items[i].id].countInStock
      && r.value[i] == LineFor(items[i], catalog[items[i].id])
  {
    if |items| == 0 then Ok([])
    else
      match ItemProblem(catalog, items[0])
      case Some(e) => Err(e)
      case None =>
        match BuildLines(catalog, items[1..])
        case Err(e) => Err(e)
        case Ok(rest) => Ok([LineFor(items[0], catalog[items[0].id])] + rest)
  }

  /** A fresh order: unpaid, undelivered, with no payment record. */
  predicate Fresh(o: Order) {
    !o.isPaid && o.paidAt.None? && o.paymentResult.None? && !o.isDelivered && o.deliveredAt.None?
  }

  /** `createOrder`. An absent or empty cart fails before any lookup. Otherwise
      the lines are checked in request order and the first unknown product or
      short stock fails the request; no order is stored on failure. On success
      one order is stored under the new id, owned by the requester, with every
      line at the catalog's price and the amounts computed from those lines;
      the client's prices are ignored and no product's stock changes. */
  function CreateOrder(s: Store, newId: OrderId, user: UserId, req: OrderRequest): (r: Response<Store, Order, OrderError>)
    requires newId !in s.orders
    ensures req.orderItems.None? || req.orderItems.value == [] ==> r == Response(s, Err(NoOrderItems))
    ensures r.state.products == s.products
    ensures r.reply.Err? ==> r.state == s
    ensures r.reply.Ok? <==>
      req.orderItems.Some? && req.orderItems.value != [] &&
      FirstProblem(s.products, req.orderItems.value) == |req.orderItems.value|
    ensures r.reply.Err? && req.orderItems.Some? && req.orderItems.value != [] ==>
      var items := req.orderItems.value;
      Some(r.reply.error) == ItemProblem(s.products, items[FirstProblem(s.products, items)])
    ensures r.reply.Ok? ==> r.state.orders == s.orders[newId := r.reply.value]
    ensures r.reply.Ok? ==>
      var o := r.reply.value;
      var items := req.orderItems.value;
      && o.user == user
      && Fresh(o)
      && o.shippingAddress == req.shippingAddress
      && o.paymentMethod == req.paymentMethod
      && |o.orderItems| == |items|
      && (forall i :: 0 <= i < |items| ==>
            && o.orderItems[i].product == items[i].id
            && o.orderItems[i].qty == items[i].qty
            && items[i].id in s.products
            && o.orderItems[i].price == s.products[items[i].id].price)
      && o.prices == Pricing.CalcPrices(o.orderItems)
  {
    if req.orderItems.None? || req.orderItems.value == [] then Response(s, Err(NoOrderItems))
    else
      match BuildLines(s.products, req.orderItems.value)
      case Err(e) => Response(s, Err(e))
      case Ok(lines) =>
        var o := Order(user, lines, req.shippingAddress, req.paymentMethod, Pricing.CalcPrices(lines),
                       false, None, None, false, None);
        Response(s.(orders := s.orders[newId := o]), Ok(o))
  }

  /** Two cart lines for the same product are each checked against the full
      `countInStock`, not against what the other line leaves: a cart asking
      for the whole stock twice is accepted. */
  lemma CreateOrderChecksLinesSeparately(s: Store, newId: OrderId, user: UserId, id: ProductId, req: OrderRequest)
    requires newId !in s.orders
    requires id in s.products && s.products[id].countInStock > 0
    requires req.orderItems == Some([CartItem(id, "", "", s.products[id].countInStock as nat, 0),
                                     CartItem(id, "", "", s.products[id].countInStock as nat, 0)])
    ensures CreateOrder(s, newId, user, req).reply.Ok?
  {
    var items := req.orderItems.value;
    assert ItemProblem(s.products, items[0]).None?;
    assert ItemProblem(s.products, items[1]).None?;
    assert FirstProblem(s.products, items[1..]) == 1;
  }

  // ----------------------------------------------------------------- payment

  /** A product whose two stock counters are not negative. */
  predicate Stocked(p: Product) {
    p.quantity >= 0 && p.countInStock >= 0
  }

  /** Both stock counters lowered by `qty`. */
  function Take(p: Product, qty: int): (q: Product)
    ensures q.quantity == p.quantity - qty && q.countInStock == p.countInStock - qty
    ensures q.(quantity := p.quantity, countInStock := p.countInStock) == p
  {
    p.(quantity := p.quantity - qty, countInStock := p.countInStock - qty)
  }

  /** Total quantity the lines ask of product `id`. */
  function QtyFor(lines: seq<LineItem>, id: ProductId): nat {
    if |lines| == 0 then 0
    else (if lines[0].product == id then lines[0].qty else 0) + QtyFor(lines[1..], id)
  }

  /** The products the lines refer to. */
  function Refs(lines: seq<LineItem>): set<ProductId> {
    set i | 0 <= i < |lines| :: lines[i].product
  }

  /** Why one line cannot be settled against the current products: its product
      is gone, or either stock counter is below the line's quantity. */
  function LineProblem(ps: map<ProductId, Product>, line: LineItem): Option<OrderError> {
    if line.product !in ps then Some(LineProductMissing(line.name))
    else
      var p := ps[line.product];
      if p.quantity < line.qty || p.countInStock < line.qty then
        Some(InsufficientStock(p.name, p.countInStock, line.qty))
      else None
  }

  /** The products after the settlement walk, and the problem it stopped at, if any. */
  datatype Settlement = Settlement(products: map<ProductId, Product>, failure: Option<OrderError>)

  /** The settlement walk: line by line, in order, check the line against the
      products as they stand now and, if it passes, lower both counters and
      save the product at once; stop at the first line that fails, keeping
      every earlier decrement. Products no line refers to never change, and
      counters that were not negative stay so. */
  function Settle(ps: map<ProductId, Product>, lines: seq<LineItem>): (r: Settlement)
    ensures r.products.Keys == ps.Keys
    ensures forall id :: id in ps && id !in Refs(lines) ==> r.products[id] == ps[id]
    ensures (forall id :: id in ps ==> Stocked(ps[id])) ==> forall id :: id in r.products ==> Stocked(r.products[id])
    ensures r.failure.Some? ==> r.failure.value.LineProductMissing? || r.failure.value.InsufficientStock?
    decreases |lines|
  {
    if |lines| == 0 then Settlement(ps, None)
    else
      var line := lines[0];
      RefsCons(lines);
      match LineProblem(ps, line)
      case Some(e) => Settlement(ps, Some(e))
      case None => Settle(ps[line.product := Take(ps[line.product], line.qty)], lines[1..])
  }

  lemma RefsCons(lines: seq<LineItem>)
    requires |lines| > 0
    ensures Refs(lines) == {lines[0].product} + Refs(lines[1..])
  {
    forall id | id in Refs(lines[1..]) ensures id in Refs(lines) {
      var i :| 0 <= i < |lines[1..]| && lines[1..][i].product == id;
      assert lines[i + 1].product == id;
    }
  }

  /** Lines that never mention a product ask nothing of it. */
  lemma {:induction false} QtyForUnreferenced(lines: seq<LineItem>, id: ProductId)
    requires id !in Refs(lines)
    ensures QtyFor(lines, id) == 0
    decreases |lines|
  {
    if |lines| > 0 {
      RefsCons(lines);
      QtyForUnreferenced(lines[1..], id);
    }
  }

  /** The walk gets through every line exactly when every product the lines
      refer to exists and the lines together ask of it no more than either of
      its counters holds. */
  lemma {:induction false} SettleSucceedsIff(ps: map<ProductId, Product>, lines: seq<LineItem>)
    ensures Settle(ps, lines).failure.None? <==>
      forall id :: id in Refs(lines) ==>
        id in ps && QtyFor(lines, id) <= ps[id].quantity && QtyFor(lines, id) <= ps[id].countInStock
    decreases |lines|
  {
    if |lines| > 0 {
      var line := lines[0];
      var rest := lines[1..];
      RefsCons(lines);
      if LineProblem(ps, line).None? {
        var ps' := ps[line.product := Take(ps[line.product], line.qty)];
        assert Settle(ps, lines) == Settle(ps', rest);
        SettleSucceedsIff(ps', rest);
        if line.product !in Refs(rest) {
          QtyForUnreferenced(rest, line.product);
        }
        forall id | id in Refs(lines)
          ensures (id in ps && QtyFor(lines, id) <= ps[id].quantity && QtyFor(lines, id) <= ps[id].countInStock)
              <==> (id in Refs(rest) ==> id in ps' && QtyFor(rest, id) <= ps'[id].quantity && QtyFor(rest, id) <= ps'[id].countInStock)
        {
          assert QtyFor(lines, id) == (if line.product == id then line.qty else 0) + QtyFor(rest, id);
        }
      } else {
        assert Settle(ps, lines).failure.Some?;
        assert line.product in Refs(lines);
        if line.product in ps {
          assert QtyFor(lines, line.product) == line.qty + QtyFor(rest, line.product);
        }
      }
    }
  }

  /** When the walk gets through, each product has lost, from both counters,
      the total quantity the lines ask of it. */
  lemma {:induction false} SettleSuccessEffect(ps: map<ProductId, Product>, lines: seq<LineItem>)
    requires Settle(ps, lines).failure.None?
    ensures forall id :: id in ps ==> Settle(ps, lines).products[id] == Take(ps[id], QtyFor(lines, id))
    decreases |lines|
  {
    if |lines| > 0 {
      var line := lines[0];
      var rest := lines[1..];
      var ps' := ps[line.product := Take(ps[line.product], line.qty)];
      assert Settle(ps, lines) == Settle(ps', rest);
      SettleSuccessEffect(ps', rest);
      forall id | id in ps ensures Take(ps'[id], QtyFor(rest, id)) == Take(ps[id], QtyFor(lines, id)) {
        TakeAfterFirstLine(ps, lines, id);
      }
    } else {
      forall id | id in ps ensures Take(ps[id], 0) == ps[id] { }
    }
  }

  /** Taking the first line's quantity and then what the other lines ask is
      taking what all the lines ask. */
  lemma TakeAfterFirstLine(ps: map<ProductId, Product>, lines: seq<LineItem>, id: ProductId)
    requires |lines| > 0 && id in ps && lines[0].product in ps
    ensures var ps' := ps[lines[0].product := Take(ps[lines[0].product], lines[0].qty)];
      Take(ps'[id], QtyFor(lines[1..], id)) == Take(ps[id], QtyFor(lines, id))
  {
  }

  /** A walk over the first `k + 1` lines whose first line passes is the walk
      over the next `k` lines from the products after that first line. */
  lemma SettlePrefixStep(ps: map<ProductId, Product>, lines: seq<LineItem>, k: nat)
    requires k < |lines| && LineProblem(ps, lines[0]).None?
    ensures Settle(ps, lines[..k + 1])
      == Settle(ps[lines[0].product := Take(ps[lines[0].product], lines[0].qty)], lines[1..][..k])
  {
    var prefix := lines[..k + 1];
    assert prefix[0] == lines[0];
    assert prefix[1..] == lines[1..][..k];
  }

  /** When the walk stops at line `k`, the products are exactly what a
      successful walk over lines `0 .. k-1` leaves: those decrements persist,
      and line `k` is the one that fails against them. */
  lemma {:induction false} SettleFailureKeepsPrefix(ps: map<ProductId, Product>, lines: seq<LineItem>)
    requires Settle(ps, lines).failure.Some?
    ensures exists k :: (0 <= k < |lines|
      && Settle(ps, lines[..k]) == Settlement(Settle(ps, lines).products, None)
      && LineProblem(Settle(ps, lines).products, lines[k]) == Settle(ps, lines).failure)
    decreases |lines|
  {
    var line := lines[0];
    var r := Settle(ps, lines);
    if LineProblem(ps, line).Some? {
      assert lines[..0] == [];
      assert Settle(ps, lines[..0]) == Settlement(r.products, None);
    } else {
      var ps' := ps[line.product := Take(ps[line.product], line.qty)];
      var rest := lines[1..];
      SettleFailureKeepsPrefix(ps', rest);
      assert r == Settle(ps', rest);
      var k :| 0 <= k < |rest|
        && Settle(ps', rest[..k]) == Settlement(r.products, None)
        && LineProblem(r.products, rest[k]) == r.failure;
      SettlePrefixStep(ps, lines, k);
      assert lines[k + 1] == rest[k];
    }
  }

  /** Everything of an order except its payment fields. */
  predicate SameButPayment(a: Order, b: Order) {
    && a.user == b.user && a.orderItems == b.orderItems
    && a.shippingAddress == b.shippingAddress && a.paymentMethod == b.paymentMethod
    && a.prices == b.prices && a.isDelivered == b.isDelivered && a.deliveredAt == b.deliveredAt
  }

  /** The payment provider's report as the request body carries it. `payer`
      (its `email_address`) may be missing from the body. */
  datatype PaymentBody = PaymentBody(id: string, status: string, updateTime: string, payer: Option<string>)

  /** The settlement gets through: the order exists, is unpaid, and every
      product it refers to exists with both counters at least the total asked. */
  predicate CanSettle(s: Store, id: OrderId) {
    && id in s.orders && !s.orders[id].isPaid
    && forall p :: p in Refs(s.orders[id].orderItems) ==>
         && p in s.products
         && QtyFor(s.orders[id].orderItems, p) <= s.products[p].quantity
         && QtyFor(s.orders[id].orderItems, p) <= s.products[p].countInStock
  }

  /** The settlement of an unpaid order, then the read of the payer: the
      walk's stop, the missing payer, or the paid order. */
  function PayUnpaid(s: Store, id: OrderId, body: PaymentBody, now: Time): (r: Response<Store, Order, OrderError>)
    requires id in s.orders && !s.orders[id].isPaid
    ensures r.state.products.Keys == s.products.Keys
    ensures r.reply.Err? ==> r.state.orders == s.orders
    ensures r.reply.Ok? <==> CanSettle(s, id) && body.payer.Some?
    ensures r.reply == Err(PayerMissing) <==> CanSettle(s, id) && body.payer.None?
    ensures CanSettle(s, id) ==>
      forall p :: p in s.products ==> r.state.products[p] == Take(s.products[p], QtyFor(s.orders[id].orderItems, p))
    ensures r.reply.Ok? ==>
      && r.state.orders == s.orders[id := r.reply.value]
      && r.reply.value == s.orders[id].(isPaid := true, paidAt := Some(now),
           paymentResult := Some(PaymentResult(body.id, body.status, body.updateTime, body.payer.value)))
    ensures (forall p :: p in s.products ==> Stocked(s.products[p])) ==>
      forall p :: p in r.state.products ==> Stocked(r.state.products[p])
  {
    var o := s.orders[id];
    var st := Settle(s.products, o.orderItems);
    SettleSucceedsIff(s.products, o.orderItems);
    match st.failure
    case Some(e) =>
      Response(s.(products := st.products), Err(e))
    case None =>
      SettleSuccessEffect(s.products, o.orderItems);
      match body.payer
      case None => Response(s.(products := st.products), Err(PayerMissing))
      case Some(email) =>
        var paid := o.(isPaid := true, paidAt := Some(now),
                       paymentResult := Some(PaymentResult(body.id, body.status, body.updateTime, email)));
        Response(Store(st.products, s.orders[id := paid]), Ok(paid))
  }

  /** `markOrderAsPaid`. An unknown order or an order already paid is refused
      and nothing changes. Otherwise the settlement walk runs over the order's
      lines; if it stops, its decrements stay and the order stays unpaid. If it
      gets through, every product has lost the total quantity the order asks
      of it. Only then is `payer.email_address` read: when the body has no
      payer that read throws (answered with 500), so the decrements stay and
      the order stays unpaid; otherwise the order alone becomes paid, at
      `now`, with the reported payment. */
  function MarkOrderAsPaid(s: Store, id: OrderId, body: PaymentBody, now: Time): (r: Response<Store, Order, OrderError>)
    ensures id !in s.orders ==> r == Response(s, Err(OrderNotFound))
    ensures id in s.orders && s.orders[id].isPaid ==> r == Response(s, Err(AlreadyPaid))
    ensures r.state.products.Keys == s.products.Keys
    ensures r.state.orders.Keys == s.orders.Keys
    ensures forall o :: o in s.orders && o != id ==> r.state.orders[o] == s.orders[o]
    ensures r.reply.Err? ==> r.state.orders == s.orders
    ensures r.reply.Ok? <==> CanSettle(s, id) && body.payer.Some?
    ensures r.reply == Err(PayerMissing) <==> CanSettle(s, id) && body.payer.None?
    ensures CanSettle(s, id) ==>
      forall p :: p in s.products ==> r.state.products[p] == Take(s.products[p], QtyFor(s.orders[id].orderItems, p))
    ensures r.reply.Ok? ==>
      && r.state.orders[id] == r.reply.value
      && r.reply.value.isPaid && r.reply.value.paidAt == Some(now)
      && r.reply.value.paymentResult == Some(PaymentResult(body.id, body.status, body.updateTime, body.payer.value))
      && SameButPayment(r.reply.value, s.orders[id])
    ensures (forall p :: p in s.products ==> Stocked(s.products[p])) ==>
      forall p :: p in r.state.products ==> Stocked(r.state.products[p])
  {
    if id !in s.orders then Response(s, Err(OrderNotFound))
    else if s.orders[id].isPaid then Response(s, Err(AlreadyPaid))
    else PayUnpaid(s, id, body, now)
  }

  /** A body without `payer` is refused only after the stock was lowered, and
      the order stays unpaid: a retry with the payer lowers the stock a
      second time. */
  lemma PayerMissingRetryTakesTwice(s: Store, id: OrderId, b1: PaymentBody, b2: PaymentBody, t1: Time, t2: Time)
    requires MarkOrderAsPaid(s, id, b1, t1).reply == Err(PayerMissing)
    requires MarkOrderAsPaid(MarkOrderAsPaid(s, id, b1, t1).state, id, b2, t2).reply.Ok?
    ensures var s2 := MarkOrderAsPaid(MarkOrderAsPaid(s, id, b1, t1).state, id, b2, t2).state;
      var lines := s.orders[id].orderItems;
      forall p :: p in s.products ==> s2.products[p] == Take(Take(s.products[p], QtyFor(lines, p)), QtyFor(lines, p))
  {
    var s1 := MarkOrderAsPaid(s, id, b1, t1).state;
    assert s1.orders == s.orders;
  }

  /** A payment that fails partway leaves the order unpaid and the products
      as a successful settlement of the lines before the failing one leaves them. */
  lemma PayFailureKeepsEarlierDecrements(s: Store, id: OrderId, payment: PaymentBody, now: Time)
    requires id in s.orders && !s.orders[id].isPaid
    requires MarkOrderAsPaid(s, id, payment, now).reply.Err?
    requires MarkOrderAsPaid(s, id, payment, now).reply.error != PayerMissing
    ensures var r := MarkOrderAsPaid(s, id, payment, now);
      var lines := s.orders[id].orderItems;
      && !r.state.orders[id].isPaid
      && exists k :: (0 <= k < |lines|
           && Settle(s.products, lines[..k]) == Settlement(r.state.products, None)
           && LineProblem(r.state.products, lines[k]) == Some(r.reply.error))
  {
    SettleFailureKeepsPrefix(s.products, s.orders[id].orderItems);
  }

  /** Settlement is at most once: paying an order again after a successful
      payment is refused and changes nothing. */
  lemma PayTwiceRefused(s: Store, id: OrderId, p1: PaymentBody, p2: PaymentBody, t1: Time, t2: Time)
    requires MarkOrderAsPaid(s, id, p1, t1).reply.Ok?
    ensures var s1 := MarkOrderAsPaid(s, id, p1, t1).state;
      MarkOrderAsPaid(s1, id, p2, t2) == Response(s1, Err(AlreadyPaid))
  {
  }

  // ---------------------------------------------------------------- delivery

  /** `markOrderAsDelivered`. An unknown order is refused and nothing changes.
      Otherwise the order is marked delivered at `now` whether or not it is
      paid or already delivered; nothing else about it, and no other order or
      product, changes. */
  function MarkOrderAsDelivered(s: Store, id: OrderId, now: Time): (r: Response<Store, Order, OrderError>)
    ensures id !in s.orders ==> r == Response(s, Err(OrderNotFound))
    ensures id in s.orders ==> r.reply.Ok?
    ensures r.state.products == s.products
    ensures r.state.orders.Keys == s.orders.Keys
    ensures forall o :: o in s.orders && o != id ==> r.state.orders[o] == s.orders[o]
    ensures r.reply.Ok? ==>
      var o := r.reply.value;
      && r.state.orders[id] == o
      && o.isDelivered && o.deliveredAt == Some(now)
      && o.isPaid == s.orders[id].isPaid && o.paidAt == s.orders[id].paidAt
      && o.paymentResult == s.orders[id].paymentResult
      && o.orderItems == s.orders[id].orderItems && o.prices == s.orders[id].prices
      && o.user == s.orders[id].user && o.shippingAddress == s.orders[id].shippingAddress
      && o.paymentMethod == s.orders[id].paymentMethod
  {
    if id !in s.orders then Response(s, Err(OrderNotFound))
    else
      var o := s.orders[id].(isDelivered := true, deliveredAt := Some(now));
      Response(s.(orders := s.orders[id := o]), Ok(o))
  }

  /** Delivery does not wait for payment: a freshly created order can be
      delivered and is then delivered but unpaid. */
  lemma DeliveryBeforePayment(s: Store, newId: OrderId, user: UserId, req: OrderRequest, now: Time)
    requires newId !in s.orders
    requires CreateOrder(s, newId, user, req).reply.Ok?
    ensures var s1 := CreateOrder(s, newId, user, req).state;
      var r := MarkOrderAsDelivered(s1, newId, now);
      r.reply.Ok? && r.reply.value.isDelivered && !r.reply.value.isPaid
  {
  }

  // ---------------------------------------------------------------- listings

  const OrdersPageSize: nat := 10

  /** `getAllOrders`: page `Number(page) || 1` of the orders (given newest
      first), ten to a page: a page below 1 is refused; otherwise the orders
      that follow the earlier pages, up to ten, the page number asked for, the
      number of pages, and whether orders remain after this page. */
  function ListOrders(newestFirst: seq<Order>, param: Paging.PageParam): (r: Result<Paging.Page<Order>, Paging.PagingError>)
    ensures r.Err? <==> Paging.RequestedPage(param) < 1
    ensures r.Ok? ==> r.value.page == Paging.RequestedPage(param) && r.value.page >= 1
    ensures r.Ok? ==> r.value.items == Paging.Window(newestFirst, OrdersPageSize * (r.value.page - 1), OrdersPageSize)
    ensures r.Ok? ==> r.value.pages == Paging.CeilDiv(|newestFirst|, OrdersPageSize)
    ensures r.Ok? ==> (r.value.hasMore <==> |newestFirst| > OrdersPageSize * r.value.page)
  {
    Paging.Paginate(newestFirst, param, OrdersPageSize)
  }

  /** The orders placed by `user`, in their order in `newestFirst`. */
  function OrdersOf(newestFirst: seq<Order>, user: UserId): (r: seq<Order>)
    ensures forall o :: o in r <==> o in newestFirst && o.user == user
    ensures Seqs.IsSubsequence(r, newestFirst)
    ensures forall o :: multiset(r)[o] == if o.user == user then multiset(newestFirst)[o] else 0
  {
    Seqs.FilterIsSubsequence(newestFirst, (o: Order) => o.user == user);
    Seqs.Filter(newestFirst, (o: Order) => o.user == user)
  }

  /** `getUserOrders`: the same paging, ten to a page, over the requester's
      own orders only, newest first; the page count covers only those orders. */
  function ListUserOrders(newestFirst: seq<Order>, user: UserId, param: Paging.PageParam): (r: Result<Paging.Page<Order>, Paging.PagingError>)
    ensures r.Err? <==> Paging.RequestedPage(param) < 1
    ensures r.Ok? ==> r.value.page == Paging.RequestedPage(param) && r.value.page >= 1
    ensures r.Ok? ==> r.value.items == Paging.Window(OrdersOf(newestFirst, user), OrdersPageSize * (r.value.page - 1), OrdersPageSize)
    ensures r.Ok? ==> r.value.pages == Paging.CeilDiv(|OrdersOf(newestFirst, user)|, OrdersPageSize)
    ensures r.Ok? ==> (r.value.hasMore <==> |OrdersOf(newestFirst, user)| > OrdersPageSize * r.value.page)
    ensures r.Ok? ==> forall o :: o in r.value.items ==> o in newestFirst && o.user == user
  {
    var mine := OrdersOf(newestFirst, user);
    Paging.PageWithin(mine, param, OrdersPageSize);
    ListOrders(mine, param)
  }

  /** A user's order list is the paging of their orders alone, page by
      page, so reading its pages from 1 up to the page count it reports gives
      every order of that user once each, newest first. */
  lemma UserPagesCoverAll(newestFirst: seq<Order>, user: UserId)
    ensures var mine := OrdersOf(newestFirst, user);
      forall k: nat :: ListUserOrders(newestFirst, user, Paging.Number(k)) == Paging.Paginate(mine, Paging.Number(k), OrdersPageSize)
    ensures var mine := OrdersOf(newestFirst, user);
      Paging.Loaded(mine, OrdersPageSize, ListUserOrders(newestFirst, user, Paging.Absent).value.pages) == mine
  {
    var mine := OrdersOf(newestFirst, user);
    Paging.PagesCoverAll(mine, OrdersPageSize);
  }
}
