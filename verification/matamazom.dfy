/**
 * The warehouse layer: one amount set of products as the stock, one amount set
 * per open order, and a counter handing out order ids. Products are keyed by
 * their id inside every amount set.
 */
module Warehouse {
  import opened AmountSets

  // ---------------------------------------------------------------------------
  // Values
  // ---------------------------------------------------------------------------

  /** The granularity a product is sold in. */
  datatype AmountType = IntegerAmount | HalfIntegerAmount | AnyAmount

  /**
   * A product as stored in an amount set. The caller's custom data and its copy,
   * free and price callbacks only travel with the product and are not modelled.
   */
  datatype Product = Product(id: nat, name: string, amountType: AmountType, sales: real)

  datatype MatamazomResult =
    | Success
    | NullArgument
    | OutOfMemory
    | InvalidName
    | InvalidAmount
    | ProductAlreadyExist
    | ProductNotExist
    | OrderNotExist
    | InsufficientAmount

  /** The key every product amount set is ordered by. */
  function ProductKey(p: Product): int
  {
    p.id
  }

  /** compareProduct: the sign of the id difference (the int overflow is not modelled). */
  function CompareProduct(p1: Product, p2: Product): (c: int)
    ensures c < 0 <==> ProductKey(p1) < ProductKey(p2)
    ensures c == 0 <==> ProductKey(p1) == ProductKey(p2)
    ensures c > 0 <==> ProductKey(p1) > ProductKey(p2)
  {
    p1.id as int - p2.id as int
  }

  // ---------------------------------------------------------------------------
  // Name and amount checks
  // ---------------------------------------------------------------------------

  /** The `n` consecutive characters starting at `first`. */
  function CharRange(first: char, n: nat): (r: seq<char>)
    requires first as int + n <= 0xD800
    ensures |r| == n
  {
    seq(n, i requires 0 <= i < n => (first as int + i) as char)
  }

  lemma InCharRange(c: char, first: char, n: nat)
    requires first as int + n <= 0xD800
    ensures c in CharRange(first, n) <==> first as int <= c as int < first as int + n
  {
    var r := CharRange(first, n);
    if first as int <= c as int < first as int + n {
      assert r[c as int - first as int] == c;
    }
  }

  /** The 62 ASCII letters and digits, listed independently of the range tests below. */
  function AsciiAlphanumerics(): seq<char>
  {
    CharRange('0', 10) + CharRange('A', 26) + CharRange('a', 26)
  }

  /**
   * nameValid: a name is valid exactly when it starts with one of the ASCII letters
   * and digits; the empty name (a lone NUL in the source) is refused.
   */
  function NameValid(name: string): (b: bool)
    ensures b <==> |name| > 0 && name[0] in AsciiAlphanumerics()
  {
    if |name| == 0 then false
    else
      var c := name[0];
      InCharRange(c, '0', 10);
      InCharRange(c, 'A', 26);
      InCharRange(c, 'a', 26);
      assert c in AsciiAlphanumerics() <==>
        c in CharRange('0', 10) || c in CharRange('A', 26) || c in CharRange('a', 26);
      ('a' <= c <= 'z') || ('A' <= c <= 'Z') || ('0' <= c <= '9')
  }

  /** absDouble: the magnitude of `x`. */
  function Abs(x: real): (r: real)
    ensures r >= 0.0 && (r == x || r == -x)
  {
    if x < 0.0 then -x else x
  }

  /** round(), rounding to the nearest integer (ties are irrelevant below the 0.001 tolerance). */
  function Round(x: real): int
  {
    (x + 0.5).Floor
  }

  ghost predicate NearInteger(x: real, n: int)
  {
    Abs(n as real - x) < 0.001
  }

  ghost predicate NearHalfInteger(x: real, n: int)
  {
    Abs(n as real / 2.0 - x) < 0.001
  }

  /** Rounding finds any integer closer than one half. */
  lemma RoundNearest(x: real, n: int)
    requires Abs(n as real - x) < 0.5
    ensures Round(x) == n
  {
    var f := (x + 0.5).Floor;
    assert f as real <= x + 0.5 < f as real + 1.0;
  }

  /** The integer test passes exactly when `x` lies within 0.001 of some integer. */
  lemma IntegerAmountAccepted(x: real)
    ensures Abs(Round(x) as real - x) < 0.001 <==> exists n: int :: NearInteger(x, n)
  {
    if exists n: int :: NearInteger(x, n) {
      var n: int :| NearInteger(x, n);
      RoundNearest(x, n);
    } else {
      assert !NearInteger(x, Round(x));
    }
  }

  /** The half-integer test passes exactly when `x` lies within 0.001 of a multiple of 1/2. */
  lemma HalfIntegerAmountAccepted(x: real)
    ensures Abs(Round(x * 2.0) as real / 2.0 - x) < 0.001 <==> exists n: int :: NearHalfInteger(x, n)
  {
    if exists n: int :: NearHalfInteger(x, n) {
      var n: int :| NearHalfInteger(x, n);
      RoundNearest(x * 2.0, n);
    } else {
      assert !NearHalfInteger(x, Round(x * 2.0));
    }
  }

  /**
   * checkAmountType: an integer amount must lie within 0.001 of an integer, a
   * half-integer amount within 0.001 of a multiple of 1/2, and any other amount passes.
   */
  function CheckAmountType(amount: real, t: AmountType): (b: bool)
    ensures t == IntegerAmount ==> (b <==> exists n: int :: NearInteger(amount, n))
    ensures t == HalfIntegerAmount ==> (b <==> exists n: int :: NearHalfInteger(amount, n))
    ensures t == AnyAmount ==> b
  {
    match t
    case IntegerAmount =>
      IntegerAmountAccepted(amount);
      Abs(Round(amount) as real - amount) < 0.001
    case HalfIntegerAmount =>
      HalfIntegerAmountAccepted(amount);
      Abs(Round(amount * 2.0) as real / 2.0 - amount) < 0.001
    case AnyAmount => true
  }

  /** Every amount accepted for an integer product is accepted for a half-integer one. */
  lemma IntegerAmountIsHalfInteger(x: real)
    requires CheckAmountType(x, IntegerAmount)
    ensures CheckAmountType(x, HalfIntegerAmount)
  {
    var n: int :| NearInteger(x, n);
    assert NearHalfInteger(x, 2 * n);
  }

  // ---------------------------------------------------------------------------
  // Stock and order lines as values
  // ---------------------------------------------------------------------------

  /** The product stored under `id`. */
  function ProductOf(stock: seq<Entry<Product>>, id: nat): (p: Product)
    requires id in Amounts(stock, ProductKey)
  {
    stock[IndexOf(stock, ProductKey, id)].elem
  }

  /** A new product registered into `stock` and then given its initial amount. */
  function AddProduct(stock: seq<Entry<Product>>, p: Product, amount: real): (r: seq<Entry<Product>>)
    requires p.id !in Amounts(stock, ProductKey)
  {
    InsertAmounts(stock, ProductKey, p);
    ChangeAt(Insert(stock, ProductKey, p), ProductKey, p.id, amount)
  }

  /** After a product is added, its id maps to its initial amount and stores the product itself. */
  lemma AddProductStock(stock: seq<Entry<Product>>, p: Product, amount: real)
    requires p.id !in Amounts(stock, ProductKey)
    ensures Amounts(AddProduct(stock, p, amount), ProductKey) == Amounts(stock, ProductKey)[p.id := amount]
    ensures p.id in Amounts(AddProduct(stock, p, amount), ProductKey)
    ensures ProductOf(AddProduct(stock, p, amount), p.id) == p
  {
    var s1 := Insert(stock, ProductKey, p);
    InsertAmounts(stock, ProductKey, p);
    InsertFind(stock, ProductKey, p);
    ChangeAtAmounts(s1, ProductKey, p.id, amount);
    ChangeAtFind(s1, ProductKey, p.id, amount);
  }

  /**
   * The order-line rule: an amount for a product already in the order is added to
   * its line, and the line is deleted when that would take it below zero; a product
   * not yet in the order is registered at 0 and then given the amount, which a
   * negative amount cannot do. So every other product keeps its line; the product's
   * line is gone exactly when it existed and the amount would take it below zero,
   * and otherwise holds the old amount plus the change, or for a new line the
   * amount, or 0 when that amount is negative.
   */
  function OrderLineChange(lines: seq<Entry<Product>>, p: Product, amount: real): (r: seq<Entry<Product>>)
    ensures var before := Amounts(lines, ProductKey);
      var after := Amounts(r, ProductKey);
      after - {p.id} == before - {p.id} &&
      (p.id !in after <==> p.id in before && before[p.id] + amount < 0.0) &&
      (p.id in after && p.id in before ==> after[p.id] == before[p.id] + amount) &&
      (p.id in after && p.id !in before ==> after[p.id] == if amount < 0.0 then 0.0 else amount)
  {
    var before := Amounts(lines, ProductKey);
    if p.id in before then
      if before[p.id] + amount < 0.0 then
        RemoveAmounts(lines, ProductKey, p.id);
        Remove(lines, ProductKey, p.id)
      else
        ChangeAtAmounts(lines, ProductKey, p.id, amount);
        ChangeAt(lines, ProductKey, p.id, amount)
    else
      InsertAmounts(lines, ProductKey, p);
      if amount < 0.0 then Insert(lines, ProductKey, p)
      else
        ChangeAtAmounts(Insert(lines, ProductKey, p), ProductKey, p.id, amount);
        ChangeAt(Insert(lines, ProductKey, p), ProductKey, p.id, amount)
  }

  /** The order-line rule keeps an order's set sorted, unique and non-negative. */
  lemma OrderLineChangeKeepsInvariant(lines: seq<Entry<Product>>, p: Product, amount: real)
    requires Ascending(lines, ProductKey) && NonNegative(lines)
    ensures Ascending(OrderLineChange(lines, p, amount), ProductKey)
    ensures NonNegative(OrderLineChange(lines, p, amount))
  {
    if p.id in Amounts(lines, ProductKey) {
      if Amounts(lines, ProductKey)[p.id] + amount < 0.0 {
        RemoveKeepsInvariant(lines, ProductKey, p.id);
      } else {
        ChangeAtKeepsInvariant(lines, ProductKey, p.id, amount);
      }
    } else {
      InsertKeepsInvariant(lines, ProductKey, p);
      InsertAmounts(lines, ProductKey, p);
      if amount >= 0.0 {
        ChangeAtKeepsInvariant(Insert(lines, ProductKey, p), ProductKey, p.id, amount);
      }
    }
  }

  // ---------------------------------------------------------------------------
  // Orders and the warehouse
  // ---------------------------------------------------------------------------

  /** An open order: its id and the amount set of its lines. */
  class Order {
    const id: nat
    const products: AmountSet<Product>

    constructor (id: nat)
      ensures this.id == id && fresh(products)
      ensures products.Valid() && products.key == ProductKey && products.entries == []
    {
      this.id := id;
      products := new AmountSet(ProductKey);
    }
  }

  predicate HasOrder(orders: seq<Order>, id: nat)
  {
    exists i :: 0 <= i < |orders| && orders[i].id == id
  }

  /** findOrder: the order carrying `id`, walking the whole collection. */
  method FindOrder(orders: seq<Order>, id: nat) returns (o: Order?)
    ensures o == null <==> !HasOrder(orders, id)
    ensures o != null ==> o in orders && o.id == id
  {
    var i := 0;
    while i < |orders|
      invariant 0 <= i <= |orders|
      invariant forall j :: 0 <= j < i ==> orders[j].id != id
    {
      if orders[i].id == id {
        return orders[i];
      }
      i := i + 1;
    }
    return null;
  }

  /** findOrder as written: the walk returns after looking at the first order only. */
  method FindOrderAsWritten(orders: seq<Order>, id: nat) returns (o: Order?)
    ensures o != null <==> |orders| > 0 && orders[0].id == id
    ensures o != null ==> o == orders[0]
  {
    if |orders| == 0 {
      return null;
    }
    if orders[0].id == id {
      return orders[0];
    }
    return null;
  }

  /** With two orders, the written lookup misses the second one, which the intended lookup finds. */
  method SecondOrderLookup(orders: seq<Order>) returns (asWritten: Order?, intended: Order?)
    requires |orders| >= 2 && orders[0].id != orders[1].id
    ensures asWritten == null
    ensures intended != null && intended.id == orders[1].id
  {
    asWritten := FindOrderAsWritten(orders, orders[1].id);
    intended := FindOrder(orders, orders[1].id);
  }

  /** findProduct: the product stored under `id`; a set that was never created holds none. */
  method FindProduct(storage: AmountSet?<Product>, id: nat) returns (p: Option<Product>)
    ensures p.Some? <==> storage != null && id in Amounts(storage.entries, ProductKey)
    ensures p.Some? ==> storage != null && p.value == ProductOf(storage.entries, id)
  {
    if storage == null {
      return None;
    }
    var i := 0;
    while i < |storage.entries|
      invariant 0 <= i <= |storage.entries|
      invariant forall j :: 0 <= j < i ==> storage.entries[j].elem.id != id
    {
      if storage.entries[i].elem.id == id {
        AmountsDomain(storage.entries, ProductKey, id);
        return Some(storage.entries[i].elem);
      }
      i := i + 1;
    }
    AmountsDomain(storage.entries, ProductKey, id);
    return None;
  }

  /**
   * The tail of mtmNewProduct: register the product in the stock and give it its
   * initial amount, refusing a duplicate id.
   */
  method StockNewProduct(stock: AmountSet<Product>, p: Product, amount: real) returns (r: MatamazomResult)
    requires stock.Valid() && stock.key == ProductKey && amount >= 0.0
    modifies stock
    ensures stock.Valid()
    ensures p.id in Amounts(old(stock.entries), ProductKey) ==>
      r == ProductAlreadyExist && stock.entries == old(stock.entries)
    ensures p.id !in Amounts(old(stock.entries), ProductKey) ==>
      r == Success && stock.entries == AddProduct(old(stock.entries), p, amount)
  {
    var registered := stock.Register(Some(p));
    if registered == AsItemAlreadyExists {
      return ProductAlreadyExist;
    }
    InsertAmounts(old(stock.entries), ProductKey, p);
    var changed := stock.ChangeAmount(Some(p), amount);
    r := Success;
  }

  /**
   * The body of the order-line rule on an order's set: register the product, and
   * either adjust the line it already had, deleting it when the adjustment is refused
   * as insufficient, or give the new line the amount.
   */
  method ChangeLine(lines: AmountSet<Product>, p: Product, amount: real)
    requires lines.Valid() && lines.key == ProductKey
    modifies lines
    ensures lines.Valid()
    ensures lines.entries == OrderLineChange(old(lines.entries), p, amount)
  {
    var registered := lines.Register(Some(p));
    if registered == AsItemAlreadyExists {
      var changed := lines.ChangeAmount(Some(p), amount);
      if changed == AsInsufficientAmount {
        var deleted := lines.Delete(Some(p));
      }
    } else {
      InsertAmounts(old(lines.entries), ProductKey, p);
      var changed := lines.ChangeAmount(Some(p), amount);
    }
  }

  /**
   * The warehouse: `storage` is created by the first product, `orders` holds the
   * open orders in creation order, `numberOfOrders` counts every order ever created.
   */
  class Matamazom {
    var storage: AmountSet?<Product>
    var orders: seq<Order>
    var numberOfOrders: nat
    ghost var Repr: set<object>

    ghost predicate OrderValid(o: Order)
      reads this, Repr
    {
      o.products in Repr && o.products != storage && o.products.key == ProductKey &&
      o.products.Valid() && 1 <= o.id <= numberOfOrders
    }

    /**
     * Every amount set is keyed by product id and keeps its own invariant; no two
     * orders, and no order and the stock, share a set; order ids ascend and never
     * exceed the counter.
     */
    ghost predicate Valid()
      reads this, Repr
    {
      this in Repr &&
      (storage != null ==> storage in Repr && storage.key == ProductKey && storage.Valid()) &&
      (forall i :: 0 <= i < |orders| ==> OrderValid(orders[i])) &&
      (forall i, j :: 0 <= i < j < |orders| ==>
        orders[i].id < orders[j].id && orders[i].products != orders[j].products)
    }

    /** The stock as entries; a stock that was never created is empty. */
    ghost function Stock(): seq<Entry<Product>>
      reads this, storage
    {
      if storage == null then [] else storage.entries
    }

    /** matamazomCreate: no stock yet, no orders, the counter at 0. */
    constructor ()
      ensures Valid() && fresh(Repr)
      ensures storage == null && orders == [] && numberOfOrders == 0
    {
      storage := null;
      orders := [];
      numberOfOrders := 0;
      Repr := {this};
    }

    /**
     * mtmNewProduct. `name` is None for a NULL name and `callbacksGiven` is false
     * when any of the custom data or its callbacks is NULL. Past the NULL checks the
     * stock is created if it was not, even when a later check fails.
     */
    method NewProduct(id: nat, name: Option<string>, amount: real, amountType: AmountType,
                      callbacksGiven: bool) returns (r: MatamazomResult)
      requires Valid()
      modifies this, storage
      ensures Valid() && fresh(Repr - old(Repr))
      ensures orders == old(orders) && numberOfOrders == old(numberOfOrders)
      ensures name.None? || !callbacksGiven ==> r == NullArgument && storage == old(storage)
      ensures name.Some? && callbacksGiven ==>
        storage != null && (old(storage) != null ==> storage == old(storage)) &&
        r == (if !NameValid(name.value) then InvalidName
              else if amount < 0.0 || !CheckAmountType(amount, amountType) then InvalidAmount
              else if id in Amounts(old(Stock()), ProductKey) then ProductAlreadyExist
              else Success)
      ensures r != Success ==> Stock() == old(Stock())
      ensures r == Success ==>
        name.Some? && id !in Amounts(old(Stock()), ProductKey) &&
        Stock() == AddProduct(old(Stock()), Product(id, name.value, amountType, 0.0), amount)
    {
      if name.None? || !callbacksGiven {
        return NullArgument;
      }
      if storage == null {
        storage := new AmountSet(ProductKey);
        Repr := Repr + {storage};
      }
      if !NameValid(name.value) {
        return InvalidName;
      }
      if amount < 0.0 || !CheckAmountType(amount, amountType) {
        return InvalidAmount;
      }
      r := StockNewProduct(storage, Product(id, name.value, amountType, 0.0), amount);
    }

    /**
     * mtmChangeProductAmount: adds `amount` (of either sign) to the stock of a product,
     * after checking it against the product's granularity.
     */
    method ChangeProductAmount(id: nat, amount: real) returns (r: MatamazomResult)
      requires Valid()
      modifies storage
      ensures Valid()
      ensures id !in Amounts(old(Stock()), ProductKey) ==> r == ProductNotExist && Stock() == old(Stock())
      ensures id in Amounts(old(Stock()), ProductKey) ==>
        if !CheckAmountType(amount, ProductOf(old(Stock()), id).amountType) then
          r == InvalidAmount && Stock() == old(Stock())
        else if Amounts(old(Stock()), ProductKey)[id] + amount < 0.0 then
          r == InsufficientAmount && Stock() == old(Stock())
        else
          r == Success && Stock() == ChangeAt(old(Stock()), ProductKey, id, amount)
    {
      if storage == null {
        return ProductNotExist;
      }
      var found := FindProduct(storage, id);
      if found.None? {
        return ProductNotExist;
      }
      if !CheckAmountType(amount, found.value.amountType) {
        return InvalidAmount;
      }
      var changed := storage.ChangeAmount(found, amount);
      if changed == AsInsufficientAmount {
        return InsufficientAmount;
      }
      r := Success;
    }

    /**
     * mtmClearProduct: removes a product from the stock. A stock that was never
     * created reports success; open orders keep their lines for the product.
     */
    method ClearProduct(id: nat) returns (r: MatamazomResult)
      requires Valid()
      modifies storage
      ensures Valid()
      ensures old(storage) == null ==> r == Success
      ensures old(storage) != null && id !in Amounts(old(Stock()), ProductKey) ==>
        r == ProductNotExist && Stock() == old(Stock())
      ensures old(storage) != null && id in Amounts(old(Stock()), ProductKey) ==>
        r == Success && Stock() == Remove(old(Stock()), ProductKey, id)
    {
      if storage == null {
        return Success;
      }
      var found := FindProduct(storage, id);
      if found.None? {
        return ProductNotExist;
      }
      var deleted := storage.Delete(found);
      r := Success;
    }

    /**
     * mtmCreateNewOrder: the counter moves on by one and a new empty order with that
     * id is appended, so ids run 1, 2, 3, ... and none is handed out twice.
     */
    method CreateNewOrder() returns (id: nat)
      requires Valid()
      modifies this
      ensures Valid() && fresh(Repr - old(Repr))
      ensures id == old(numberOfOrders) + 1 && numberOfOrders == id
      ensures storage == old(storage)
      ensures |orders| == |old(orders)| + 1 && orders[..|old(orders)|] == old(orders)
      ensures orders[|orders| - 1].id == id && fresh(orders[|orders| - 1].products)
      ensures orders[|orders| - 1].products.entries == []
    {
      numberOfOrders := numberOfOrders + 1;
      var o := new Order(numberOfOrders);
      orders := orders + [o];
      Repr := Repr + {o.products};
      id := numberOfOrders;
    }

    /**
     * mtmCreateNewOrder as written: the order collection is created anew on every
     * call, so only the order just created remains.
     */
    method CreateNewOrderAsWritten() returns (id: nat)
      requires Valid()
      modifies this
      ensures Valid() && fresh(Repr - old(Repr))
      ensures id == old(numberOfOrders) + 1 && numberOfOrders == id
      ensures storage == old(storage)
      ensures |orders| == 1 && orders[0].id == id && fresh(orders[0].products)
    {
      numberOfOrders := numberOfOrders + 1;
      var o := new Order(numberOfOrders);
      orders := [o];
      Repr := Repr + {o.products};
      id := numberOfOrders;
    }

    /**
     * mtmChangeProductAmountInOrder: after the order, the product and the granularity
     * are checked, a zero amount changes nothing, and any other amount changes the
     * order's line for the product by the order-line rule. No other order and not the
     * stock change.
     */
    method ChangeProductAmountInOrder(orderId: nat, productId: nat, amount: real)
      returns (r: MatamazomResult)
      requires Valid()
      modifies set o | o in orders :: o.products
      ensures Valid()
      ensures Stock() == old(Stock())
      ensures !HasOrder(orders, orderId) ==> r == OrderNotExist
      ensures HasOrder(orders, orderId) && productId !in Amounts(Stock(), ProductKey) ==> r == ProductNotExist
      ensures HasOrder(orders, orderId) && productId in Amounts(Stock(), ProductKey) ==>
        r == if CheckAmountType(amount, ProductOf(Stock(), productId).amountType) then Success else InvalidAmount
      ensures forall i :: 0 <= i < |orders| ==>
        orders[i].products.entries ==
          if r == Success && orders[i].id == orderId && amount != 0.0 then
            OrderLineChange(old(orders[i].products.entries), ProductOf(Stock(), productId), amount)
          else
            old(orders[i].products.entries)
    {
      var order := FindOrder(orders, orderId);
      if order == null {
        return OrderNotExist;
      }
      var product := FindProduct(storage, productId);
      if product.None? {
        return ProductNotExist;
      }
      if !CheckAmountType(amount, product.value.amountType) {
        return InvalidAmount;
      }
      if amount == 0.0 {
        return Success;
      }
      ChangeOrderLine(order, product.value, amount);
      r := Success;
    }

    /** The order-line rule applied to one open order; every other order and the stock stay. */
    method ChangeOrderLine(order: Order, p: Product, amount: real)
      requires Valid() && order in orders
      modifies order.products
      ensures Valid()
      ensures Stock() == old(Stock())
      ensures forall i :: 0 <= i < |orders| ==>
        orders[i].products.entries ==
          if orders[i].id == order.id then OrderLineChange(old(orders[i].products.entries), p, amount)
          else old(orders[i].products.entries)
    {
      ChangeLine(order.products, p, amount);
    }
  }

  /**
   * Two orders created in a row: with the collection recreated on every call only
   * the second survives, while the intended version keeps both.
   */
  method TwoNewOrders() returns (asWritten: seq<Order>, intended: seq<Order>)
    ensures !HasOrder(asWritten, 1) && HasOrder(asWritten, 2)
    ensures HasOrder(intended, 1) && HasOrder(intended, 2)
  {
    var w := new Matamazom();
    var a1 := w.CreateNewOrderAsWritten();
    var a2 := w.CreateNewOrderAsWritten();
    asWritten := w.orders;
    assert asWritten[0].id == 2;
    var m := new Matamazom();
    var b1 := m.CreateNewOrder();
    var b2 := m.CreateNewOrder();
    intended := m.orders;
    assert intended[0].id == 1 && intended[1].id == 2;
  }
}
