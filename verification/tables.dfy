/**
  The billing tables as values.  Rows are never deleted, so a row's identifier is its
  position counted from one.
 */
module Tables {
  import opened Options
  import opened Text

  datatype Error =
    | NotFound | Conflict | InvalidArgument | InvalidState
    | InsufficientBalance | Unauthorized | Forbidden

  datatype Result<+T> = Ok(value: T) | Err(error: Error)

  const MAX_INT64 := 0x7FFF_FFFF_FFFF_FFFF
  const MIN_INT64 := -0x8000_0000_0000_0000

  type Int64 = x: int | MIN_INT64 <= x <= MAX_INT64

  /** Two's complement wrap-around of Go's int64 arithmetic. */
  function Wrap64(x: int): (r: Int64)
    ensures MIN_INT64 <= x <= MAX_INT64 ==> r == x
    ensures MAX_INT64 < x <= 2 * MAX_INT64 ==> r == x - 0x1_0000_0000_0000_0000
    ensures 2 * MIN_INT64 <= x < MIN_INT64 ==> r == x + 0x1_0000_0000_0000_0000
  {
    (x - MIN_INT64) % 0x1_0000_0000_0000_0000 + MIN_INT64
  }

  const BALANCE := "balance"
  const EXTERNAL := "external"
  const PURCHASE := "purchase"
  const REFUND := "refund"

  datatype OrderStatus =
    | PendingPayment | Paid | PaymentFailed | Cancelled | PartiallyRefunded | Refunded

  datatype PayStatus = PayPending | PaySucceeded | PayFailed

  datatype Order = Order(
    number: string,
    user: nat,
    key: Option<string>,
    status: OrderStatus,
    payMethod: string,
    payStatus: PayStatus,
    total: Int64,
    currency: string,
    refunded: Int64,
    refundedAt: Option<int>,
    paidAt: Option<int>,
    cancelledAt: Option<int>,
    payReference: string,
    failureCode: string,
    failureReason: string)

  datatype Payment = Payment(
    order: nat,
    provider: string,
    status: PayStatus,
    amount: Int64,
    reference: string,
    failureCode: string,
    failureMessage: string)

  datatype RefundRow = RefundRow(order: nat, amount: Int64, reference: string)

  datatype Wallet = Wallet(balance: Int64, currency: string, last: nat)

  /** A row of the append-only wallet ledger. */
  datatype Entry = Entry(
    user: nat,
    kind: string,
    amount: Int64,
    currency: string,
    after: Int64,
    reference: string)

  datatype Db = Db(
    orders: seq<Order>,
    payments: seq<Payment>,
    refunds: seq<RefundRow>,
    wallets: map<nat, Wallet>,
    ledger: seq<Entry>)

  const EMPTY_DB := Db([], [], [], map[], [])

  predicate HasOrder(db: Db, id: nat) { 1 <= id <= |db.orders| }

  predicate HasPayment(db: Db, id: nat) { 1 <= id <= |db.payments| }

  predicate PaysFromBalance(o: Order) { EqualFold(o.payMethod, BALANCE) }

  /** The ledger reference of an order; the prefix can be read back, so it is injective. */
  function OrderRef(number: string): (r: string)
    ensures IsOrderRef(r) && r[6..] == number
  {
    "order:" + number
  }

  predicate IsOrderRef(r: string) { "order:" <= r }

  lemma OrderRefIsInjective(a: string, b: string)
    ensures OrderRef(a) == OrderRef(b) ==> a == b
  {
  }

  // What a row of the ledger contributes to a total.
  datatype Selector =
    | UserAmount(user: nat)
    | OutsideAmount(user: nat)
    | OrderAmount(number: string)
    | OrderRows(number: string)
    | Purchases(number: string)
    | RefundAmount(number: string)

  function Weight(e: Entry, s: Selector): int {
    match s
    case UserAmount(u) => if e.user == u then e.amount else 0
    case OutsideAmount(u) => if e.user == u && !IsOrderRef(e.reference) then e.amount else 0
    case OrderAmount(n) => if e.reference == OrderRef(n) then e.amount else 0
    case OrderRows(n) => if e.reference == OrderRef(n) then 1 else 0
    case Purchases(n) => if e.reference == OrderRef(n) && e.kind == PURCHASE then 1 else 0
    case RefundAmount(n) => if e.reference == OrderRef(n) && e.kind == REFUND then e.amount else 0
  }

  function Total(l: seq<Entry>, s: Selector): int {
    if l == [] then 0 else Total(l[..|l| - 1], s) + Weight(l[|l| - 1], s)
  }

  lemma TotalAppend(l: seq<Entry>, e: Entry, s: Selector)
    ensures Total(l + [e], s) == Total(l, s) + Weight(e, s)
  {
  }

  /** A selector that picks none of the rows totals zero. */
  lemma {:induction false} TotalOfNone(l: seq<Entry>, s: Selector)
    requires forall k | 0 <= k < |l| :: Weight(l[k], s) == 0
    ensures Total(l, s) == 0
  {
    if l == [] {
    } else {
      TotalOfNone(l[..|l| - 1], s);
    }
  }

  /** Row counts are non-negative, and an order's purchases are among its rows. */
  lemma {:induction false} CountsAreOrdered(l: seq<Entry>, n: string)
    ensures 0 <= Total(l, Purchases(n)) <= Total(l, OrderRows(n))
  {
    if l == [] {
    } else {
      CountsAreOrdered(l[..|l| - 1], n);
    }
  }

  function RefundSum(rows: seq<RefundRow>, order: nat): int {
    if rows == [] then 0
    else
      var last := rows[|rows| - 1];
      RefundSum(rows[..|rows| - 1], order) + if last.order == order then last.amount else 0
  }

  lemma RefundSumAppend(rows: seq<RefundRow>, r: RefundRow, order: nat)
    ensures RefundSum(rows + [r], order) == RefundSum(rows, order) + if r.order == order then r.amount else 0
  {
  }

  lemma {:induction false} RefundSumOfNone(rows: seq<RefundRow>, order: nat)
    requires forall k | 0 <= k < |rows| :: rows[k].order != order
    ensures RefundSum(rows, order) == 0
  {
    if rows == [] {
    } else {
      RefundSumOfNone(rows[..|rows| - 1], order);
    }
  }
}
