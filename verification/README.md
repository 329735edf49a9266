# Matamazom warehouse — a Dafny model

This project models the two core layers of the Matamazom warehouse program.

**The sorted amount set (`amount_set.dfy`, module `AmountSets`).**
- A container of (element, amount) pairs.
- Elements are unique under an injected comparator and kept in ascending comparator order.
- Every new entry starts at amount 0.
- An amount changes only through an explicit change, which is refused when it would take the amount below zero.
- The set is a class over a sequence of entries:
  - `entries` stands for the linked list hanging off the head node;
  - `size` is the separately kept counter;
  - the comparator is a key projection `key: E -> int`, where two elements compare equal when their keys are equal.
- Register, delete and change-amount are proved against specification functions on sequences: `Insert`, `Remove` and `ChangeAt`. Clear is specified by the empty sequence. Copy is specified by the source's entries, and the copy as written by the same entries at amount 0 (`ZeroAmounts`).
- Lemmas give those functions their meaning on the contents map `Amounts` (key to amount) and prove that they keep the set invariant: sorted, unique keys, non-negative amounts, size bookkeeping.

**The warehouse (`matamazom.dfy`, module `Warehouse`).**
- It holds one amount set of products as the stock. The stock is created by the first `mtmNewProduct` call that gets past the NULL checks, even when that call then fails.
- It holds one amount set per open order, plus a counter that hands out order ids.
- Products are keyed by id.
- The warehouse checks product names, and checks amounts against each product's granularity (integer, half-integer, any).
- It creates, adjusts and removes stock, opens orders, and applies the order-line rule:
  - a new product is registered in the order and then given the amount;
  - an existing line is adjusted;
  - the line is deleted when the adjustment would take it below zero.

**Where the source is unfinished, the model follows what it evidently means.** The comments at each member point out these places:
- `asCreate` returns NULL unless all three callbacks are NULL, because its test is inverted. The test also names an undeclared variable (amount_set.c:32).
- `asCreate` builds a dummy head node from a NULL element (amount_set.c:46).
- `asDelete`'s tail branch clears the link before freeing through it (amount_set.c:69-75).
- `asClear` neither relinks the head nor updates the size (amount_set.c:92-107).
- matamazom.c:277-289 is a stray fragment outside any function.

**Behaviours of the code that the model keeps as they are:**
- An order line is deleted only when the change would take it strictly below zero. A change to exactly zero keeps the line at amount 0.
- A new order line given a negative amount stays registered at 0.
- Clearing a product from the stock leaves the lines of open orders for that product in place.
- `mtmNewProduct` creates the stock as soon as the NULL checks pass, even when a later check fails.

## Model

| member | source | states |
|---|---|---|
| AmountSets.AmountsDomain | amount_set.c:168-178 | a key is in the contents exactly when some entry's element compares equal to it |
| AmountSets.IndexOf | amount_set.c:168-178 | the lookup stops at the first entry comparing equal; that entry holds the key's amount and no earlier entry matches |
| AmountSets.Insert | amount_set.c:180-188 | registration as a value: the result has exactly one more entry (its effect on the contents is stated by InsertAmounts, its position by InsertSplice) |
| AmountSets.Remove | amount_set.c:50-90 | deletion as a value: the result has no more entries than the input (its effect on the contents is stated by RemoveAmounts, its shape by RemoveSplice) |
| AmountSets.ChangeAt | amount_set.c:159-164 | an amount change as a value: the number of entries is unchanged (its effect on the contents is stated by ChangeAtAmounts, its position by ChangeAtIndex) |
| AmountSets.InsertAmounts | amount_set.c:180-188 | registering adds the new key with amount 0 and leaves every other key's amount as it was |
| AmountSets.InsertFind | amount_set.c:180-188 | after registering, a lookup of the key finds the element itself at amount 0 |
| AmountSets.RemoveAmounts | amount_set.c:50-90 | deleting removes exactly that key from the contents |
| AmountSets.ChangeAtAmounts | amount_set.c:159-164 | an amount change moves that key's amount by the delta and no other key's amount |
| AmountSets.ChangeAtFind | amount_set.c:163 | an amount change keeps the stored element and adds the delta to its amount |
| AmountSets.InsertKeepsInvariant | product.h:15-16 | registering a new key keeps the entries strictly ascending and non-negative |
| AmountSets.InsertSplice | product.h:15-16 | on a sorted set, the new entry goes right after the smaller keys and before the first larger one |
| AmountSets.RemoveKeepsInvariant | amount_set.c:58-88 | deleting keeps the entries strictly ascending and non-negative |
| AmountSets.RemoveSplice | amount_set.c:58-88 | on a sorted set, deleting a present key unlinks exactly the matching entry and the count drops by one |
| AmountSets.ChangeAtIndex | amount_set.c:155-164 | an amount change rewrites only the first entry holding the key, the one the lookup finds |
| AmountSets.ChangeAtKeepsInvariant | amount_set.c:159-164 | a change that stays non-negative keeps the order and the non-negativity |
| AmountSets.RemoveInsert | amount_set.c:50-90 | registering a new element and then deleting it gives back the original set |
| AmountSets.RemoveChangeAt | amount_set.c:163-164 | an amount change leaves every other entry untouched |
| AmountSets.PrefixBelow | amount_set.c:117-130 | copying a sorted set in order appends each entry, and setting its amount reproduces the original prefix |
| AmountSets.CopyAsWrittenLosesAmounts | amount_set.c:121-129 | a set with a non-zero amount is not reproduced by the written copy |
| AmountSets.AmountSet.constructor | amount_set.c:29-48 | a new set is empty, valid and uses the given comparator |
| AmountSets.AmountSet.Contains | amount_set.c:55 | contained means some entry compares equal |
| AmountSets.AmountSet.FindElement | amount_set.c:168-178 | finds the first matching entry, or reports that none matches |
| AmountSets.AmountSet.Register | amount_set.c:180-188 | a missing element is a null argument and a duplicate key is refused with the set unchanged; otherwise a new entry with amount 0 goes in sorted position |
| AmountSets.AmountSet.Delete | amount_set.c:50-90 | a missing element is a null argument; an absent element leaves the set unchanged; a present one is no longer contained, the size drops by one and the other entries keep their order and amounts |
| AmountSets.AmountSet.Clear | amount_set.c:92-107 | afterwards the size is 0 and nothing is contained |
| AmountSets.AmountSet.GetAmount | amount_set.c:139-149 | reports null argument, not found, or exactly the stored amount, changing nothing |
| AmountSets.AmountSet.ChangeAmount | amount_set.c:151-165 | a change that would go below zero is refused with nothing changed; otherwise only that entry's amount moves by the delta |
| AmountSets.GetSize | amount_set.c:132-137 | -1 for a NULL set, otherwise the number of entries |
| AmountSets.Copy | amount_set.c:117-130 | NULL for NULL; otherwise a fresh set with the same comparator and the same entries and amounts |
| AmountSets.CopyAsWritten | amount_set.c:117-130 | the written copy holds the same elements, each at amount 0 |
| Warehouse.CompareProduct | matamazom.c:324-328 | the comparison's sign agrees with the order of the product ids |
| Warehouse.NameValid | matamazom.c:291-296 | a name is valid exactly when it is non-empty and starts with one of the 62 ASCII letters and digits |
| Warehouse.Abs | matamazom.c:297-303 | the result is non-negative and equals the argument or its negation |
| Warehouse.RoundNearest | matamazom.c:308 | rounding returns any integer closer than one half |
| Warehouse.IntegerAmountAccepted | matamazom.c:308 | the rounding test of the integer branch passes exactly when the amount is within 0.001 of some integer |
| Warehouse.HalfIntegerAmountAccepted | matamazom.c:311 | the rounding test of the half-integer branch passes exactly when the amount is within 0.001 of a multiple of one half |
| Warehouse.CheckAmountType | matamazom.c:304-317 | an integer-typed amount is accepted exactly when it is within 0.001 of an integer, a half-integer-typed one exactly when it is within 0.001 of a multiple of one half, and any other type accepts every amount |
| Warehouse.IntegerAmountIsHalfInteger | matamazom.c:304-317 | an amount accepted as an integer is also accepted as a half-integer |
| Warehouse.AddProductStock | matamazom.c:164-174 | a new product ends up in the stock with the given amount and sales 0, and no other product changes |
| Warehouse.OrderLineChange | matamazom.c:259-272 | other lines stay; the product's line is gone exactly when it existed and would go below zero; otherwise it holds the old amount plus the change, a new line holds the amount, or 0 for a negative amount |
| Warehouse.OrderLineChangeKeepsInvariant | matamazom.c:259-272 | the order-line rule keeps an order's set sorted, unique and non-negative |
| Warehouse.Order.constructor | matamazom.c:224-225 | a new order carries its id and a fresh empty product set |
| Warehouse.FindOrder | matamazom.c:364-375 | an order is found exactly when one carries the id, and it is that order |
| Warehouse.FindOrderAsWritten | matamazom.c:364-375 | the written lookup finds an order only when it is the first one |
| Warehouse.SecondOrderLookup | matamazom.c:368-373 | the written lookup misses the second of two orders, which the intended lookup finds |
| Warehouse.FindProduct | matamazom.c:377-384 | a product is found exactly when the stock exists and holds its id, and it is the stored product |
| Warehouse.StockNewProduct | matamazom.c:164-174 | a duplicate id is refused with the stock unchanged; otherwise the product is registered and given its initial amount |
| Warehouse.ChangeLine | matamazom.c:259-272 | the order's set becomes the result of the order-line rule and stays valid |
| Warehouse.Matamazom.constructor | matamazom.c:92-101 | a new warehouse has no stock, no orders and the counter at 0 |
| Warehouse.Matamazom.NewProduct | matamazom.c:129-175 | checks in order: NULL arguments, then name, then amount and granularity, then duplicate id; only success changes the stock, adding the product with its amount and sales 0 |
| Warehouse.Matamazom.ChangeProductAmount | matamazom.c:177-196 | an unknown id, including with no stock at all, is not found; a granularity violation and a change that would go below zero leave the stock unchanged; otherwise the product's stock moves by the change |
| Warehouse.Matamazom.ClearProduct | matamazom.c:198-212 | succeeds with no stock; an unknown id is not found; otherwise the product leaves the stock |
| Warehouse.Matamazom.CreateNewOrder | matamazom.c:214-231 | returns the old counter plus one, appends an empty order with that id and keeps all earlier orders |
| Warehouse.Matamazom.CreateNewOrderAsWritten | matamazom.c:214-231 | the written version leaves only the new order in the collection |
| Warehouse.Matamazom.ChangeProductAmountInOrder | matamazom.c:233-275 | checks order, then product, then granularity; a zero amount changes nothing; otherwise only that order's line changes, by the order-line rule, and the stock stays |
| Warehouse.Matamazom.ChangeOrderLine | matamazom.c:259-272 | the rule changes the one order's lines and no other order and not the stock |
| Warehouse.TwoNewOrders | matamazom.c:219 | after two creations the written version has lost order 1, while the intended one holds orders 1 and 2 |

## Left out

- Memory management is not modelled: `malloc`/`free`, the element copy and free callbacks, `freeData`/`copyData`, `asDestroy` and `matamazomDestroy`. Elements are values.
- Allocation never fails in the model, so no operation returns an out-of-memory result, and `mtmCreateNewOrder` never returns 0.
- A NULL set or warehouse appears only where it is observable through a value: `GetSize`, `Copy` and the not-yet-created stock. Other operations are methods on an existing object, so their NULL-receiver results are not modelled.
- AmountSets.AmountSet.Clear: returns no result code, so the NULL-set result of `asClear` is not modelled.
- The source does not show the bodies of `asRegister` and `asContains`. The model gives `Register` a linear scan that refuses a duplicate key and otherwise inserts at amount 0 in sorted position. It gives `Contains` a test for some entry comparing equal. Any other behaviour of the unseen bodies is not modelled.
- The internal iterator (`asGetFirst`, `asGetNext`, `AS_FOREACH`) is not modelled. Lookups walk the entry sequence, whose ascending order is the iteration order.
- The `List` library is not modelled. The order collection is a sequence of orders.
- The caller's custom product data and the `prodPrice` callback are not modelled. `sales` is kept and is 0 for every product.
- Warehouse.CompareProduct: does not model the overflow of the `int` subtraction of two unsigned ids.
- Product ids and the order counter are unbounded naturals, so the wrap-around of `unsigned int` is not modelled.
- Amounts are exact reals, not IEEE doubles. `round` is modelled as the floor of x + 1/2. It differs from the C function only at exact halves, which the 0.001 tolerance rejects either way.
- The dead code in comments (matamazom.c:36-69, 86-90, 102-118, 392-401) and the stray fragment at matamazom.c:277-289 are not modelled.
- order.c, product.c and product.h hold declarations and documentation only, and have no logic to model.

## Findings

| source | as written | input that shows it | evidently intended | confidence | as-written member | corrected member |
|---|---|---|---|---|---|---|
| amount_set.c:121-129 | the copy re-registers each element, and registration starts every entry at 0, so all amounts are lost | a set holding one element at amount 5 | the copy holds the same entries with the same amounts | not executed | AmountSets.CopyAsWritten, AmountSets.CopyAsWrittenLosesAmounts | AmountSets.Copy |
| matamazom.c:368-373 | the lookup returns NULL as soon as the first order does not match | orders 1 and 2, looking up order 2 | every order is examined | not executed | Warehouse.FindOrderAsWritten, Warehouse.SecondOrderLookup | Warehouse.FindOrder |
| matamazom.c:219 | the order list is created anew on every new order, dropping all earlier orders | two new orders in a row; order 1 is no longer found | the list is created once and each new order is appended | not executed | Warehouse.Matamazom.CreateNewOrderAsWritten, Warehouse.TwoNewOrders | Warehouse.Matamazom.CreateNewOrder |
