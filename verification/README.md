# Orders, stock and tracing, verified

A Dafny model of the order and stock services, the cart, the client stream tracer, the metadata map and paging, with
proofs of what they promise. `dafny verify dfyconfig.toml` checks everything.

Creating an order is a distributed transaction over two databases and a message broker. The order service sends a half
message that means "give the stock back", sells the stock by a remote call, writes the order and sends a delayed timeout
message, and then tells the broker to drop the half message or to deliver it. If that verdict is lost the broker asks
back. The timeout consumer closes unpaid orders and sends another "give back" message, and the stock service returns
stock once per order, guarded by a ledger row.

| file | content |
|---|---|
| Common | option and consumer-result datatypes, and the rows of the stock ledger |
| Quantities | order lines, their totals, and what selling or returning a list does to stock |
| SaleOrder | when the order of a sale's lines matters |
| StockService | the stock server's calls, one at a time |
| RowLocks | sales, returns and stock additions of many service instances, interleaved row by row under row locks |
| RowVerdicts | when an interleaved transaction gives up, and what one that runs alone can commit |
| BackStockConsumer | the "give back" consumer, at-least-once delivery, and batches |
| Checkout | what checkout makes of a cart and a catalogue reply, for carts that come from the cart table |
| OrderService | the transaction listener, CreateOrder, ChangeOrderStatus and the timeout consumer, one call at a time |
| OrderOutcome | when an order comes about, what stock it takes and what it costs |
| Saga | the whole protocol as a state machine with crashes, lost replies and duplicates |
| SagaSafety | stock conservation and consistency over every run |
| SagaProgress | every run ends at rest once faults stop; the check-back verdict |
| SagaLimits | each environment condition is needed wherever it applies; the one on status changes is exact |
| SagaRefinement | tables, queues and ledger represent a state of Saga, and the handlers' contracts simulate its runs |
| Services | the services and the broker run from empty tables, handler by handler, and the saga's state behind each world |
| ServiceRuns | every such run is a run of Saga, and what follows for tables and queues |
| ShopCart | the cart table and its calls, one at a time |
| CartRaces | cart calls and checkouts that overlap, as a state machine |
| OverlappingAdds | what overlapping adds leave: serial runs, second rows and lost adds |
| CheckoutRaces | what overlapping checkouts order and clear |
| ClientStream | the race to finish a client stream's span |
| StreamOutcome | what the span holds in the end, happening by happening |
| Metadata | the lower-casing metadata writer, its reader, and span injection |
| Paging | 32-bit page offsets and windows |

## What the proofs found

* A `Sell` that commits but whose reply is lost leaves stock sold for an order that does not exist, exactly when the
  broker takes the executor's own Rollback verdict (`QuietOrdersAreConsistent`, `LostReplyLosesStock`). The check-back
  would have given it back (`CheckBackIsInterchangeable`), so the worry noted at order.go:200 is unfounded: a needless
  "give back" finds no sold ledger row.
* A payment is only safe before any timeout handler has read the order as unpaid or sent its stock back, even if no
  handler is running and the order is not closed (`UnsafeChangeCanBreak`, `PaymentAfterCrashedTimeout`).
* Two concurrent deliveries of one "give back" message return the stock once only because the driver counts changed rows,
  not matched ones (`SerializableIffChangedRowsCount`); the connection string does not ask for matched rows.
* `CreateOrder` answers most refusals with a reply whose id is 0, not with an error.
* `UpdateShopCartItem` never saves the row it changes, so an accepted update is lost; adding a product with the id of
  another row erases that row. Among calls that do not overlap these are the only ones that do not do what they ask for
  (`ActsAsAskedIff`).
* Calls that overlap do more harm, because `AddShopCartItem` saves what it looked up without a lock and there is no
  unique index. Two adds can leave two rows for one product (`OverlappingAddsLeaveTwoRows`), exactly when a save meets a
  row of its product beside the id it writes (`SaveDoublesIff`), and two adds to one row can leave the quantity of one
  (`OverlappingAddsLoseOne`), exactly when the quantity is no longer the one found (`AddIsKeptIff`).
* A checkout orders the rows it read and clears the rows that are checked when it deletes. These are the same if and only
  if the account's checked rows are as read (`CheckoutIsSerialIff`). A second overlapping checkout creates an order if and
  only if something is checked again between the deletes (`SecondCheckoutOrdersIff`); then the first rows are ordered
  twice and the new one is cleared without an order (`OverlappingCheckoutsOrderTwice`). Otherwise it writes nothing, and
  its Commit verdict gives its stock back.
* `BackStock` returns only the last quantity of a product listed twice. Checkout orders only the last of two cart rows of
  a product; the cart service keeps two only when adds overlap (`ServedCartsGiveFaithfulOrders`,
  `UndoubledCartsGiveFaithfulOrders`). A product missing from the catalogue's reply is cleared from the cart without being
  ordered (`MissingProductIsNotOrdered`).
* `SetStock` and `BackStock` read without a lock. They are serializable if and only if the rows they write still hold
  what they read (`SaveIsSerializableIffCurrent`), and can overwrite a concurrent sale (`SetStockCanLoseASale`).
* The sign of a quantity is not checked, so the order of a sale's lines can decide the verdict: never if and only if no
  product has both a positive and a negative line (`OrderIndependentIffOneSign`).
* The consumers acknowledge batches they have not finished: the back-stock consumer looks at the first message only, the
  timeout consumer stops at a missing order. `SuccessMeansAllHandledIff` of each module says exactly when nothing is
  lost, `SecondSaleIsForgotten` and `MissingOrderHidesTheNext` show what is; batches of one message lose nothing. A
  timeout message repeated in a batch sends "give back" again, which the ledger makes harmless.
* An undecodable half message whose verdict is lost is the only thing that can stay unresolved for ever
  (`OnlyUndecodableGetsStuck`, `MaximalFaultlessRunsRest`).

## How the code is read

* Pointers that are nil where a query or decoder writes are read as allocated; the listener's account is the request's.
* Nothing in the repository writes the `HasSell` ledger row, and `SellItem` has no order number. In Saga, SagaRefinement
  and RowLocks the sale's transaction also inserts the ledger row of its order.
* The timeout handler never commits and saves the decoded message body. It is read as closing the stored order and
  committing after its message was sent.
* A return without `Rollback` abandons its transaction: nothing becomes visible. A checkout's delete locks the rows it
  deletes until its transaction ends, so CartRaces takes delete and commit as one step.
* The consumer's stock update is keyed by the product id, the deletes and lookups by the given account and product, and
  `item.Id` is the product's id.
* Rows affected are counted as the driver counts them by default (changed rows), except where RowLocks takes both ways.
* A query's offset that is not positive is no offset. Keys of the metadata map are ASCII.

ShopCart, StockService and OrderService are about calls that run alone; CartRaces, CheckoutRaces, RowLocks and Saga are about
calls that overlap.

Assumptions on the environment: order numbers are unique; a local commit does not fail silently; quantities are not
negative (SaleOrder and the StockService contracts do without this) and additions outside the saga stay in 32 bits
(`StockStaysInRange` shows the saga's stock does); one stock row per product, stock rows are not deleted, and in the saga
a restock is atomic. The consistency results of SagaSafety also assume that the broker checks back, and delivers the
timeout message, only after the executor has returned or is gone and its Sell call is over; a check-back may overtake
the returned verdict. `EarlyCheckBackBreaks` and `EarlyTimeoutForgets` show that both are needed in every state they
apply to. Conservation needs neither. Prices are exact numbers.

## Model

| member | source | states |
|---|---|---|
| SagaSafety.StockIsConserved | mic_part4/cartorder_srv/biz/order.go:99-183 | in every run, with any crashes, lost replies, duplicates and broker timing, each product's stock plus what the ledger still holds as sold is what was ever supplied, and no stock is negative |
| SagaSafety.StockStaysInRange | microservice_part3/biz/stock.go:61-68 | a stock column never exceeds the supply, so it cannot overflow while the supply fits |
| SagaSafety.ReturnsAreFinal | microservice_part3/main.go:85-113 | over every further run a returned ledger row stays returned, a sold one is never forgotten, and its lines do not change |
| SagaSafety.QuietOrdersAreConsistent | mic_part4/cartorder_srv/biz/order.go:99-205 | an order at rest is paid with its stock held, or closed or missing with none held, if and only if it is not a lost-reply sale whose Rollback verdict the broker took; check-backs may overtake a returned verdict |
| SagaSafety.NoUnpaidOrderIsForgotten | mic_part4/cartorder_srv/biz/order.go:169-179 | a committed order neither paid nor closed always has a timeout message queued or being handled |
| SagaSafety.PaidOrdersKeepTheirStock | mic_part4/cartorder_srv/main.go:132-141 | a paid order's stock is held and no handler or message will give it back |
| SagaSafety.RestingStockIsSupplyLessPaid | mic_part4/cartorder_srv/main.go:121-146 | when everything is at rest and nothing leaked, stock is exactly supply less the paid orders |
| SagaProgress.DrainingIsBounded | mic_part4/cartorder_srv/biz/order.go:169-204 | a run in which no fault puts work back, executor failures and crashes included, is no longer than the work in its first state |
| SagaProgress.OnlyUndecodableGetsStuck | mic_part4/cartorder_srv/biz/order.go:187-193 | a reachable order not at rest has a step without any fault to make if and only if it is not an undecodable half message without executor |
| SagaProgress.MaximalFaultlessRunsRest | mic_part4/cartorder_srv/main.go:118-146 | every run without faults is finite, and it cannot go on if and only if every order is at rest except those already stuck when it began |
| SagaProgress.EverythingCanComeToRest | microservice_part3/main.go:85-113 | from every reachable state with nothing stuck, and for any contents of the carts still to be read, a run without faults brings every order to rest |
| SagaProgress.CheckBackIsInterchangeable | mic_part4/cartorder_srv/biz/order.go:187-205 | replacing the executor's verdict by the check-back's leads to the same stock if and only if no committed sale's reply was lost; a check-back that overtakes the verdict does what it does after a crash |
| SagaLimits.UnsafeChangeCanBreak | mic_part4/cartorder_srv/biz/order.go:305-315 | every status change outside the guard has a continuation to an inconsistent order at rest, so the guard of QuietOrdersAreConsistent is exact |
| SagaLimits.LostReplyLosesStock | mic_part4/cartorder_srv/biz/order.go:99-105 | the exception does occur: a reachable resting state with stock sold and no order |
| SagaLimits.EarlyCheckBackBreaks | mic_part4/cartorder_srv/biz/order.go:199-202 | in every reachable state whose executor can still sell or commit, a check-back now has a continuation that keeps to all rules and ends at rest and inconsistent |
| SagaLimits.EarlyTimeoutForgets | mic_part4/cartorder_srv/main.go:125-130 | from every reachable state whose executor can still commit, timeout messages that overtake the commit let the order end unpaid at rest |
| SagaLimits.PaymentAfterCrashedTimeout | mic_part4/cartorder_srv/main.go:132-140 | an unpaid order with no handler running can already be unsafe to pay |
| SagaRefinement.ExecuteSimulatesSaga | mic_part4/cartorder_srv/biz/order.go:34-184 | whatever the contract of ExecuteLocalTransaction allows is a run of the saga between the represented states, ends with the verdict told to the broker, and touches no other order |
| SagaRefinement.RestingTablesAgree | mic_part4/cartorder_srv/biz/order.go:99-205 | order table and stock ledger agree on every order at rest whose status changes were safe, if and only if its sale did not leak |
| SagaRefinement.StatusChangeSimulatesSaga | mic_part4/cartorder_srv/biz/order.go:305-315 | with unique order numbers ChangeOrderStatus is the saga's status change when it finds the order, and nothing otherwise |
| SagaRefinement.CheckBackSimulatesSaga | mic_part4/cartorder_srv/biz/order.go:187-205 | the answer of CheckLocalTransaction, applied by the broker, is the saga's check-back |
| SagaRefinement.TimeoutSimulatesSaga | mic_part4/cartorder_srv/main.go:121-142 | whatever the contract of HandleTimeout allows for a queued message is a run of the saga between the represented states |
| SagaRefinement.ConsumerSimulatesSaga | microservice_part3/main.go:85-113 | a queued "give back" message answered with success changes queue, ledger and stock as the saga's step does |
| SagaRefinement.VerdictSimulatesSaga | mic_part4/cartorder_srv/biz/order.go:234-240 | the executor's verdict, taken by the broker, is the saga's verdict delivery |
| ServiceRuns.EveryRunIsASagaRun | mic_part4/cartorder_srv/biz/order.go:34-315 | every state reached from empty tables by CreateOrder, executions, verdicts, check-backs, timeouts, status changes, deliveries, repeats and crashes between handlers is represented by a state the saga reaches under a timely broker |
| ServiceRuns.ServicesAgreeAtRest | mic_part4/cartorder_srv/main.go:118-147 | in every such state order table and stock ledger agree on each order at rest with safe status changes, if and only if its sale did not leak |
| ServiceRuns.UnpaidOrdersHaveATimeout | mic_part4/cartorder_srv/biz/order.go:169-179 | in every such state a stored order neither paid nor closed has a timeout message in the queue |
| ServiceRuns.NothingIsStray | microservice_part3/main.go:85-113 | in every such state rows, messages and ledger entries belong to sent half messages, no stock is negative, and no delivery asks to be repeated |
| RowLocks.CommitsAreSerializable | microservice_part3/biz/stock.go:21-90 | after any row-by-row interleaving in which no addition committed over a row changed since it was read, committed stock and ledger are what the committed operations give run alone in commit order |
| RowLocks.SaveIsSerializableIffCurrent | microservice_part3/biz/stock.go:75-90 | the commit of a SetStock or BackStock keeps this if and only if the rows it writes still hold the quantities it last read |
| RowLocks.SerializableIffChangedRowsCount | microservice_part3/main.go:105-112 | all interleavings without such a stale addition are serializable if and only if affected rows count changes and not matches |
| RowLocks.ConcurrentReturnsHappenOnce | microservice_part3/main.go:85-113 | concurrent deliveries commit at most one return per order, whatever else runs |
| RowLocks.VersionGuardNeverMisses | microservice_part3/biz/stock.go:53-68 | the guarded update always matches the row read in the same iteration, which still holds the quantity read |
| RowVerdicts.LockEndsIff | microservice_part3/biz/stock.go:51-61 | whatever else runs, a sale gives up at a row if and only if committed stock cannot serve that position after the ones before it, and otherwise reads what they left |
| RowVerdicts.UpdateTakes | microservice_part3/biz/stock.go:61-68 | the update that follows never gives up and leaves of the row what the positions up to this one leave, and no other row changes |
| RowVerdicts.MissingRowsEnd | microservice_part3/main.go:96-104 | a return or addition gives up at a row if and only if there is none |
| RowVerdicts.FlipEndsIff | microservice_part3/main.go:105-111 | a return that reaches the ledger gives up if and only if a return of its order has already committed |
| RowVerdicts.SaleAloneCommitsIff | microservice_part3/biz/stock.go:47-72 | a sale that runs while nobody else holds a row can reach its commit if and only if committed stock serves its list |
| RowVerdicts.SaleAloneTakes | microservice_part3/biz/stock.go:61-71 | such a commit subtracts the list's totals, records the order as sold and changes nothing else |
| RowVerdicts.ReturnAloneCommitsIff | microservice_part3/main.go:85-113 | a return that runs while nobody else holds its rows can reach its commit if and only if every product it gives back has a row and, with changed rows counted, its order has not been given back since it began |
| RowVerdicts.ReturnAloneAdds | microservice_part3/main.go:96-112 | such a commit adds the sold totals, marks the order as given back and changes nothing else |
| RowVerdicts.AdditionAloneCommitsIff | microservice_part3/biz/stock.go:75-90 | an addition that runs while nobody else holds a row can reach its commit if and only if every product has a row |
| RowVerdicts.SaveAloneAdds | microservice_part3/biz/stock.go:75-90 | such a commit adds each product's last listed quantity |
| RowLocks.ReturnedTwice | microservice_part3/main.go:85-113 | with matched rows counted, a run that returns one sold piece twice |
| RowLocks.SetStockCanLoseASale | microservice_part3/biz/stock.go:21-37 | a run in which SetStock or BackStock reads, a sale commits, and the write-back erases the sale |
| StockService.StockServer.Sell | microservice_part3/biz/stock.go:47-72 | succeeds exactly when every position can be served and then subtracts the totals; otherwise changes nothing and reports the first failing position's error |
| StockService.StockServer.BackStock | microservice_part3/biz/stock.go:75-90 | succeeds exactly when all products exist and then adds each product's last listed quantity |
| StockService.StockServer.SetStock | microservice_part3/biz/stock.go:21-37 | adds to an existing row only, refuses a missing one |
| StockService.BackUndoesSellIffDistinct | microservice_part3/biz/stock.go:47-90 | BackStock of a sold list restores the stock if and only if no product is listed twice |
| Quantities.SellableMeansTotals | microservice_part3/biz/stock.go:51-62 | the position-by-position check succeeds if and only if every product exists and its total is in stock |
| Quantities.SaleIgnoresOrder | microservice_part3/biz/stock.go:51-71 | permuting the list changes neither verdict nor result |
| SaleOrder.OrderIndependentIffOneSign | microservice_part3/biz/stock.go:51-71 | for lists of any length, every arrangement of the lines has the same verdict on every stock if and only if no product has both a positive and a negative line |
| SaleOrder.OneSignMeansTotals | microservice_part3/biz/stock.go:51-62 | for such lists the position-by-position check is the check of totals |
| BackStockConsumer.Consumer.Handle | microservice_part3/main.go:76-116 | commits stock and ledger together or changes nothing; asks for redelivery exactly when a sold order's stock row is missing |
| BackStockConsumer.SuccessMeansAllHandledIff | microservice_part3/main.go:77-116 | a batch answered with success has been handled completely if and only if every later message was not pending or repeats the first |
| BackStockConsumer.SecondSaleIsForgotten | microservice_part3/main.go:77-114 | a batch of two sold orders is acknowledged and the second stays sold through all further deliveries that do not start with it |
| BackStockConsumer.GivenBackExactlyOnce | microservice_part3/main.go:85-113 | for every sequence of delivery attempts, each sold order with a successful attempt is returned once and nothing else changes |
| BackStockConsumer.DeliveryOrderIsIrrelevant | microservice_part3/main.go:85-113 | two arrangements of deliveries that serve the same orders end in the same database |
| BackStockConsumer.AttemptGivesBackIff | microservice_part3/main.go:85-113 | an attempt gives a sold order back, with its totals, if and only if it completes, names the order first, and every product of the order has a row |
| BackStockConsumer.RetriedIff | microservice_part3/main.go:77-104 | redelivery is asked for if and only if the first message names a sold order of which some product has no row |
| Checkout.FaithfulIffOneRowPerProduct | mic_part4/cartorder_srv/biz/order.go:57-97 | given a complete catalogue reply, order and cart agree product by product if and only if no product has two checked rows |
| Checkout.FaithfulIffRepliedTotals | mic_part4/cartorder_srv/biz/order.go:57-97 | for any catalogue reply, order and cart agree product by product if and only if each cart product's last quantity, as often as the reply lists it, is its total |
| Checkout.MissingProductIsNotOrdered | mic_part4/cartorder_srv/biz/order.go:63-97 | a cart product that the reply lacks is not ordered, so the order is not for what the cart asks |
| Checkout.CostIsWorth | mic_part4/cartorder_srv/biz/order.go:75-97 | the amount of recorded rows is the sum over the replied products of price times the line's quantity |
| Checkout.CompleteOrdersCostTheirTotals | mic_part4/cartorder_srv/biz/order.go:63-97 | for a complete reply the amount is the sum over distinct products of price times the order's total, and, without repeated cart products, times the cart's total |
| Checkout.ServedCartsGiveFaithfulOrders | mic_part4/cartorder_srv/biz/shopcart.go:35-60 | any cart that calls one after another can leave has distinct checked products, and so orders for exactly what it asks |
| Checkout.ClearingIsCheckout | mic_part4/cartorder_srv/biz/order.go:142-146 | what a checkout running alone leaves of the listed rows lists the table that the cart's checkout leaves |
| Checkout.TakenOrLeft | mic_part4/cartorder_srv/biz/order.go:142-152 | a checkout running alone splits the cart rows without losing or repeating one |
| Checkout.OnlyCheckedAreTaken | mic_part4/cartorder_srv/biz/order.go:142-152 | exactly the account's checked rows are taken |
| OrderService.OrderListener.ExecuteLocalTransaction | mic_part4/cartorder_srv/biz/order.go:34-184 | takes stock exactly when sold, creates the order exactly when all later steps succeed and else leaves all tables alone, and asks for the stock back exactly when it was taken for an order that is not there, unless the reply was lost |
| OrderService.OrderListener.WriteOrder | mic_part4/cartorder_srv/biz/order.go:107-184 | on success the order, its rows, the cleared cart and the timeout message appear together and the amount is the cost of the rows; on failure no table changes |
| OrderService.OrderListener.CheckLocalTransaction | mic_part4/cartorder_srv/biz/order.go:187-205 | answers from the stored order alone: dropped if and only if an order with the number is stored, unknown if and only if the body does not decode |
| OrderOutcome.StoredIff | mic_part4/cartorder_srv/biz/order.go:34-184 | a new number is stored as unpaid if and only if the body decodes, the account has a checked row, the catalogue answers the checked rows' product ids with a non-empty list, no call fails, and every replied product has a stock row holding its last checked quantity as often as it is replied |
| OrderOutcome.StockFallsIff | mic_part4/cartorder_srv/biz/order.go:63-105 | stock falls if and only if body, rows, catalogue, request and stock allow the sale, whatever fails later, by exactly that quantity for each product; it is asked back if and only if it fell, the reply arrived and the order is not stored |
| OrderOutcome.StoredOrderCosts | mic_part4/cartorder_srv/biz/order.go:75-118 | the stored order comes last, under the next id, and its amount is the sum over the replied products of price times last checked quantity |
| OrderOutcome.TimeoutQueuedIff | mic_part4/cartorder_srv/biz/order.go:107-180 | a timeout message is queued if and only if the sale and the writes before it went through and the broker takes it; the caller is told of a failure if and only if they did and sending it failed |
| OrderService.CollectCart | mic_part4/cartorder_srv/biz/order.go:57-61 | the quantity map holds each product's last row |
| OrderService.Assemble | mic_part4/cartorder_srv/biz/order.go:75-97 | sale list and order rows agree line by line with the reply and the map, and the amount is their cost: the sum of price times quantity |
| OrderService.CartOrderServer.CreateOrder | mic_part4/cartorder_srv/biz/order.go:208-256 | a non-zero id in the reply means exactly that the order was created; an error means exactly a set-up failure or an unsendable timeout message |
| OrderService.CartOrderServer.ChangeOrderStatus | mic_part4/cartorder_srv/biz/order.go:305-315 | sets the status of the matching order whatever it was, and reports whether there is one |
| OrderService.CartOrderServer.HandleTimeout | mic_part4/cartorder_srv/main.go:121-142 | closes the order and sends its stock back together, unless it is paid, missing or the send fails |
| OrderService.CartOrderServer.HandleTimeouts | mic_part4/cartorder_srv/main.go:118-147 | handles the batch up to the first message whose order is missing or whose send fails: exactly the orders named before it are closed unless paid, with one "give back" each message, and the answer tells which of the two it was |
| OrderService.BatchSettles | mic_part4/cartorder_srv/main.go:132-141 | orders are only ever closed, paid ones are left alone, and every order the handled part names is paid or closed |
| OrderService.SuccessMeansAllHandledIff | mic_part4/cartorder_srv/main.go:120-146 | a batch answered with success has been handled completely if and only if no message after a missing order names an unsettled order that was not handled earlier |
| OrderService.MissingOrderHidesTheNext | mic_part4/cartorder_srv/main.go:128-130 | behind a message for a missing order an unpaid order is acknowledged, left unpaid, and nothing is sent |
| ShopCart.CartServer.AddShopCartItem | mic_part4/cartorder_srv/biz/shopcart.go:35-49 | adds to the account's row for the product or saves a new one, under the given id if there is one, and keeps one row per product |
| ShopCart.CartServer.UpdateShopCartItem | mic_part4/cartorder_srv/biz/shopcart.go:62-77 | refuses a missing row and then a quantity below one, and never changes the table |
| ShopCart.CartServer.DeleteShopCart | mic_part4/cartorder_srv/biz/shopcart.go:51-60 | removes the account's row for the product and no other |
| ShopCart.RunsKeepOneRowPerProduct | mic_part4/cartorder_srv/biz/shopcart.go:35-60 | every run of calls one after another keeps at most one row per account and product, whatever ids the adds carry |
| ShopCart.ActsAsAskedIff | mic_part4/cartorder_srv/biz/shopcart.go:35-105 | a call does at every cart entry what it asks for if and only if it neither saves a new product under a live row's id nor is an accepted update that changes the entry |
| ShopCart.EntryIsAsAskedIff | mic_part4/cartorder_srv/biz/shopcart.go:35-105 | the same for one entry: only the overwritten row's entry and the updated one are lost |
| ShopCart.TableHoldsTheCart | mic_part4/cartorder_srv/biz/shopcart.go:35-77 | over every run of calls one after another without such a call at an entry the table holds for it exactly what was asked for |
| ShopCart.QuantityIsSumOfAdds | mic_part4/cartorder_srv/biz/shopcart.go:41-46 | as long as the table has a row and calls come one after another, its quantity is the sum of the adds since it had none |
| ShopCart.TableHoldsTheCartUntilLost | mic_part4/cartorder_srv/biz/shopcart.go:35-77 | for calls one after another, up to the first that erases the entry or ignores a change of it the table holds what was asked for, and the step that follows loses it if and only if it is such a call |
| OverlappingAdds.UndisturbedRunsAreSerial | mic_part4/cartorder_srv/biz/shopcart.go:35-60 | over every interleaving of lookups, saves, deletes and checkouts in which each write found what its call had read, the table is what the calls leave one after another, and each order is for the rows its checkout clears |
| OverlappingAdds.SaveIsSerialIff | mic_part4/cartorder_srv/biz/shopcart.go:37-47 | a save keeps this if and only if the id it writes and the quantity under it are those the lookup found |
| OverlappingAdds.OneRowPerProductUntilDoubled | mic_part4/cartorder_srv/biz/shopcart.go:35-49 | every interleaving keeps one row per account and product until a save of a second one |
| OverlappingAdds.SaveDoublesIff | mic_part4/cartorder_srv/biz/shopcart.go:41-47 | a save keeps one row per account and product if and only if every row of its account and product has the id it writes |
| OverlappingAdds.UndoubledCartsGiveFaithfulOrders | mic_part4/cartorder_srv/biz/order.go:47-97 | until then any cart orders for exactly what its checked rows ask |
| OverlappingAdds.AddIsKeptIff | mic_part4/cartorder_srv/biz/shopcart.go:43-47 | a save that writes no second row adds what was asked if and only if the quantity is still the one found |
| OverlappingAdds.SaveAtOnceIsSerial | mic_part4/cartorder_srv/biz/shopcart.go:35-49 | a save right after its lookup is the whole call |
| OverlappingAdds.OverlappingAddsLeaveTwoRows | mic_part4/cartorder_srv/biz/shopcart.go:37-47 | a run of two overlapping adds that leaves two rows for one product |
| OverlappingAdds.TwoRowsAreOrderedAsOne | mic_part4/cartorder_srv/biz/order.go:57-97 | a checkout of those rows is not for what they ask |
| OverlappingAdds.OverlappingAddsLoseOne | mic_part4/cartorder_srv/biz/shopcart.go:43-47 | a run of three adds of one piece that leaves a row of two |
| CheckoutRaces.CheckoutIsSerialIff | mic_part4/cartorder_srv/biz/order.go:47-152 | a checkout that deletes something orders what it clears, as it would alone, if and only if the account's checked rows are those it read |
| CheckoutRaces.UntouchedCheckoutOrdersWhatItClears | mic_part4/cartorder_srv/biz/order.go:47-152 | a checkout during which nothing else writes to the account's rows orders exactly what it clears |
| CheckoutRaces.SecondCheckoutOrdersIff | mic_part4/cartorder_srv/biz/order.go:142-152 | of two overlapping checkouts the second to delete creates an order if and only if it finds a checked row, which needs a save of one since the first delete |
| CheckoutRaces.OverlappingCheckoutsOrderTwice | mic_part4/cartorder_srv/biz/order.go:47-152 | wherever two checkouts of an account have sold what they read, an add between their deletes makes both create orders and is cleared without one |
| CheckoutRaces.OneRowOrderedTwice | mic_part4/cartorder_srv/biz/order.go:47-152 | a run from the empty cart in which this happens |
| ClientStream.SpanIsFinishedOnce | mic_part4/util/otgrpc/client.go:145-193 | over all interleavings the channel closes at most once and the span holds one caller's events in order with at most one Finish |
| ClientStream.NothingFollowsFinish | mic_part4/util/otgrpc/client.go:155-166 | Finish is the span's last event and an error tag names an error that ended the stream |
| ClientStream.OnlyTheWinnerTouchesTheSpan | mic_part4/util/otgrpc/client.go:150-167 | at most one goroutine is ever past the compare-and-swap |
| ClientStream.FinishedIffTerminated | mic_part4/util/otgrpc/client.go:168-238 | when all goroutines have run, the span is finished if and only if a terminating event happened |
| ClientStream.WatcherAlwaysLeaves | mic_part4/util/otgrpc/client.go:168-176 | after a finish the watcher can leave by either branch without any effect |
| ClientStream.FirstTerminationIsTheCause | mic_part4/util/otgrpc/client.go:201-238 | for calls one after another the span is finished if and only if something terminating happened, with the first such cause |
| ClientStream.SequentialRunsFinishWithTheFirstCause | mic_part4/util/otgrpc/client.go:145-238 | in every run of the goroutines in which all have run before the next call, the span at rest is one finished with that first cause, or empty |
| StreamOutcome.FinishedIffOver | mic_part4/util/otgrpc/client.go:168-238 | when all goroutines have run, the span ends in Finish if and only if a header, send, receive or close failed, the stream ended, a single reply came, the context ended or the stream was collected; else it is empty |
| StreamOutcome.TagsAreReported | mic_part4/util/otgrpc/client.go:155-166 | at every moment an error in the span is one that a call failed with, the end of stream in a receive excepted, or that the context ended with |
| StreamOutcome.SpanTellsWhatHappened | mic_part4/util/otgrpc/client.go:145-193 | over all interleavings without a panicking span call the span at rest is empty, or the whole record (log, tag, decoration, Finish) of one error that was reported, or of a clean end that happened |
| StreamOutcome.FirstEndDecides | mic_part4/util/otgrpc/client.go:201-238 | for calls one after another the first that ends the stream decides: its error is recorded, or none for a clean end, and none before |
| StreamOutcome.SequentialSpansTellTheFirstEnd | mic_part4/util/otgrpc/client.go:145-238 | in every run in which all goroutines have run before the next call, the span at rest tells exactly that first end |
| StreamOutcome.GoroutinesComeToRest | mic_part4/util/otgrpc/client.go:145-193 | from every state the goroutines can run to rest without a panic and without anything more from outside |
| ClientStream.OpenTracingClientStream.OnHeader | mic_part4/util/otgrpc/client.go:201-207 | finishes on any error |
| ClientStream.OpenTracingClientStream.OnSendMsg | mic_part4/util/otgrpc/client.go:209-215 | finishes on any error, an end of stream included |
| ClientStream.OpenTracingClientStream.OnRecvMsg | mic_part4/util/otgrpc/client.go:217-230 | finishes cleanly at the end of the stream or on the only reply, and with the error otherwise |
| ClientStream.OpenTracingClientStream.OnCloseSend | mic_part4/util/otgrpc/client.go:232-238 | finishes on any error |
| Metadata.MetadataReaderWriter.Set | mic_part4/util/otgrpc/shared.go:22-30 | appends the value under the lower-cased key and changes no other key |
| Metadata.ToLowerAgreesIff | mic_part4/util/otgrpc/shared.go:28 | two keys are written as one if and only if they differ in the case of letters only |
| Metadata.SetIsFoundUnderEverySpelling | mic_part4/util/otgrpc/shared.go:22-30 | a value set is found under every spelling of its key and under no other key; other values stay |
| Metadata.MetadataReaderWriter.ForeachKey | mic_part4/util/otgrpc/shared.go:32-42 | visits exactly the map's pairs, each key's values in order, and stops at the first failure |
| Metadata.InjectSpanContext | mic_part4/util/otgrpc/client.go:240-254 | the caller's shared map object is unchanged; the new context has an object of its own with the caller's values followed by the written ones, key by key, and new keys are lower-case |
| Metadata.ReadBackWhatWasWritten | mic_part4/util/otgrpc/shared.go:22-42 | reading back visits exactly the original pairs and the lower-cased written ones, with multiplicity |
| Paging.Pager.Apply | mic_part4/internal/db.go:52-65 | clamps page and size, gives the 32-bit offset and limit, and gives them again when applied again |
| Paging.OffsetIsExactIffItFits | mic_part4/internal/db.go:63 | the offset is exact if and only if it fits 32 bits |
| Paging.OffsetIsCongruent | mic_part4/internal/db.go:63 | the 32-bit offset differs from the exact one by a multiple of 2 to the 32nd |
| Paging.ExactUpTo | mic_part4/internal/db.go:56-63 | every page up to 21,474,837 has a fitting offset and the next one, at size 100, has not |
| Paging.OverflowShowsFirstPage | mic_part4/internal/db.go:63-65 | page 21,474,838 at size 100 shows the first page again |
| Paging.LowPagesAreTheFirst | mic_part4/internal/db.go:53-55 | pages numbered zero or below show the first page |
| Paging.PagesPartitionTheResult | mic_part4/internal/db.go:52-66 | the pages from 1 to the last one are the whole result in order, each with 1 to 100 rows |

## Left out

- RowLocks: the in-process mutex around Sell is not modelled; the results hold for the interleavings it forbids as well. Lock waits and deadlocks appear as aborts. SetStock's branch for a row without an id is in StockService only.
- SagaProgress.MaximalFaultlessRunsRest: status changes, restocks and new orders, which come from outside, are not part of such a run; that a scheduler goes on as long as it can is not modelled.
- ServiceRuns.EveryRunIsASagaRun: handlers run to their end before the next event; crashes inside a handler are steps of Saga only, and carts that change during a checkout are in CheckoutRaces only.
- OverlappingAdds.UndisturbedRunsAreSerial: the sale of a checkout is a step without stock, and an update that is never saved is a step without effect; other columns of a row are not modelled.
- Paging.PagesPartitionTheResult: for results of up to 2,147,483,647 rows, the most a table with 32-bit ids can hold.
- Metadata.MetadataReaderWriter.Set: only ASCII letters are lower-cased; the map is a shared object, but its value lists are values, so sharing of a list's memory between copies is not modelled.
- ShopCart.CartServer.AddShopCartItem: soft-deleted rows are not in the table, so saving under the id of one is an insert; 32-bit addition of quantities is taken to stay in range.
- OrderService.CartOrderServer.ChangeOrderStatus: matches id and order number both; leaving one of them out is not modelled.
- OrderService.CartOrderServer.HandleTimeout: message bodies that do not decode are not modelled, since only decoded ones are sent.
- The listing calls, the detail calls, and the converters between rows and messages: field copying.
- The unary and server interceptors, error classes and options: one-branch facts.
- JWT, registration, configuration, logging, HTTP handlers, the product, brand, category and advertise services, and the demos.
- Message texts such as the listener's Detail field, real time, and rounding of 32-bit floats.
