/** The order-line table the dashboard works on: one record per line item,
    already parsed (a date that did not parse is absent). */
module Records {
  import opened Calendar
  import opened Collections

  datatype Option<T> = None | Some(value: T)

  type OrderId = int
  type CustomerId = int

  /** A monetary amount in cents. */
  type Cents = int

  datatype OrderLine = OrderLine(
    orderId: OrderId,
    customerId: CustomerId,
    productName: Option<string>,
    quantity: nat,
    totalPrice: Cents,
    orderDate: Option<Timestamp>,
    deliveryDate: Option<Timestamp>,
    gender: Option<string>,
    ageGroup: Option<string>,
    state: Option<string>)

  /** A line together with its (present) order timestamp: the lines that
      date-bucketed aggregations see. */
  datatype Dated = Dated(line: OrderLine, at: Timestamp)

  // Column accessors, used as grouping keys and aggregated values.
  function OrderOf(l: OrderLine): OrderId { l.orderId }
  function CustomerOf(l: OrderLine): CustomerId { l.customerId }
  function Price(l: OrderLine): int { l.totalPrice }
  function Quantity(l: OrderLine): int { l.quantity }
  function ProductOf(l: OrderLine): Option<string> { l.productName }
  function GenderOf(l: OrderLine): Option<string> { l.gender }
  function AgeGroupOf(l: OrderLine): Option<string> { l.ageGroup }
  function StateOf(l: OrderLine): Option<string> { l.state }
  function One<T>(x: T): int { 1 }

  function DatedOrder(d: Dated): OrderId { d.line.orderId }
  function DatedCustomer(d: Dated): CustomerId { d.line.customerId }
  function DatedPrice(d: Dated): int { d.line.totalPrice }
  function LineOf(d: Dated): OrderLine { d.line }

  /** Calendar day of the order (day-line position). */
  function Day(d: Dated): int { DayNumber(d.at.date) }

  /** Calendar month of the order (month ordinal). */
  function Month(d: Dated): int { MonthIndex(d.at.date) }

  predicate HasDate(l: OrderLine) { l.orderDate.Some? }

  predicate AllDated(rows: seq<OrderLine>)
  {
    forall i :: 0 <= i < |rows| ==> rows[i].orderDate.Some?
  }

  /** The lines whose order date is present, in table order, with that date. */
  function DatedLines(rows: seq<OrderLine>): (ds: seq<Dated>)
    ensures forall i :: 0 <= i < |ds| ==> ds[i].line in rows && ds[i].line.orderDate == Some(ds[i].at)
    ensures forall i :: 0 <= i < |rows| && rows[i].orderDate.Some? ==> Dated(rows[i], rows[i].orderDate.value) in ds
    ensures |ds| <= |rows|
  {
    if rows == [] then []
    else
      var rest := DatedLines(rows[1..]);
      assert forall i :: 1 <= i < |rows| ==> rows[i] == rows[1..][i - 1];
      match rows[0].orderDate
      case Some(t) => [Dated(rows[0], t)] + rest
      case None => rest
  }

  /** Date bucketing sees nothing exactly when no line carries an order date. */
  lemma {:induction false} NoDatedLines(rows: seq<OrderLine>)
    ensures DatedLines(rows) == [] <==> forall i :: 0 <= i < |rows| ==> rows[i].orderDate.None?
  {
    if rows != [] {
      NoDatedLines(rows[1..]);
      assert forall i :: 1 <= i < |rows| ==> rows[i] == rows[1..][i - 1];
    }
  }

  /** Total of the `total_price` column. */
  function Revenue(rows: seq<OrderLine>): int
  {
    Sum(rows, Price)
  }

  /** The distinct customers of a table. */
  function CustomerSet(rows: seq<OrderLine>): set<CustomerId>
  {
    Image(rows, CustomerOf)
  }

  /** The distinct orders of a table. */
  function OrderSet(rows: seq<OrderLine>): set<OrderId>
  {
    Image(rows, OrderOf)
  }

  /** A customer's distinct orders. */
  function OrdersOfCustomer(rows: seq<OrderLine>, c: CustomerId): set<OrderId>
  {
    ImageWhere(rows, CustomerOf, c, OrderOf)
  }

  /** When every line is dated, bucketing by date drops nothing. */
  lemma {:induction false} AllDatedKeepsRevenue(rows: seq<OrderLine>)
    requires AllDated(rows)
    ensures Sum(DatedLines(rows), DatedPrice) == Revenue(rows)
  {
    if rows != [] {
      assert AllDated(rows[1..]) by {
        forall i | 0 <= i < |rows[1..]| ensures rows[1..][i].orderDate.Some? {
          assert rows[1..][i] == rows[i + 1];
        }
      }
      AllDatedKeepsRevenue(rows[1..]);
    }
  }
}
