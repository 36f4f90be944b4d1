/** The values that buyers, broker and server exchange: orders, their lines, and
    the labels that the matching engine and the database attach to them. */
module Orders {

  datatype Option<+T> = None | Some(value: T)

  const INT32_SPAN := 0x1_0000_0000
  const INT32_MIN := -0x8000_0000
  const INT32_MAX := 0x7FFF_FFFF

  predicate IsInt32(x: int) {
    INT32_MIN <= x <= INT32_MAX
  }

  /** Go's conversion `int32(x)` of a 64-bit integer: it keeps the low 32 bits. */
  function ToInt32(x: int): (r: int)
    ensures IsInt32(r)
    ensures (x - r) % INT32_SPAN == 0
    ensures IsInt32(x) ==> r == x
  {
    (x - INT32_MIN) % INT32_SPAN + INT32_MIN
  }

  function Min(x: int, y: int): int {
    if x < y then x else y
  }

  function Max(x: int, y: int): int {
    if x < y then y else x
  }

  /** Labels of one order line. */
  datatype ItemStatus = Pending | Fulfilled | PartiallyFulfilled | Skipped | Rejected

  /** Labels of a whole order. `Unlisted` stands for any text that the CHECK
      constraint on `buy_order.status` refuses. */
  datatype OrderStatus =
    | Awaiting
    | Processing
    | Processed
    | PartiallyProcessed
    | OrderFailed
    | OrderRejected
    | Unlisted(text: string)

  /** One bread of an order: `data.Bread` as far as matching reads it. */
  datatype Line = Line(breadId: int, quantity: int, price: real)

  /** `data.BuyOrder`; `matchedBids` are the bid prices of its `MatchedItems`. */
  datatype Order = Order(
    id: int,
    customerId: int,
    uuid: string,
    lines: seq<Line>,
    sequence: int,
    bid: real,
    matchedBids: seq<real>,
    allowPartial: bool,
    skipUnavailable: bool)

  /** No line loses value in the 32-bit wire format. */
  predicate FitsWire(lines: seq<Line>) {
    forall l <- lines :: IsInt32(l.breadId) && IsInt32(l.quantity)
  }

  predicate DistinctBreads(lines: seq<Line>) {
    forall i, j :: 0 <= i < j < |lines| ==> lines[i].breadId != lines[j].breadId
  }

  /** The outcome of one line as the broker reports it. */
  datatype LineResult = LineResult(breadId: int, requested: int, fulfilled: int, status: ItemStatus)

  /** The outcome of one order as the broker reports it. */
  datatype OrderResult = OrderResult(uuid: string, status: OrderStatus, items: seq<LineResult>, cost: real)

  /** What a quantity costs. */
  function LineCost(quantity: int, price: real): real {
    quantity as real * price
  }

  /** The order-level label that both the matching engine and the single-transaction
      path compute from their running totals. */
  function StatusOf(rejected: bool, allowPartial: bool, fulfilled: int, requested: int): OrderStatus {
    if rejected && !allowPartial then OrderRejected
    else if fulfilled == requested && requested > 0 then Processed
    else if fulfilled > 0 then PartiallyProcessed
    else OrderFailed
  }

  /** The 64-bit sum of the first `n` quantities a buyer asked for, whatever their sign. */
  function TotalQuantity(lines: seq<Line>, n: nat): int
    requires n <= |lines|
  {
    if n == 0 then 0 else TotalQuantity(lines, n - 1) + lines[n - 1].quantity
  }
}
