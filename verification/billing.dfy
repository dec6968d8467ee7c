/**
  The billing requests as specifications.  A request is an unlocked read, which answers at
  once or leaves a flight holding what was read, followed by one transaction.  Each commit
  function gives the net effect of a whole transaction: one change of the tables, or an
  error and the tables as they were.
 */
module Billing {
  import opened Options
  import opened Text
  import opened Tables
  import opened Ledger

  datatype Caller = Anonymous | LoggedIn(id: nat, admin: bool)

  datatype Plan = Plan(visible: bool, status: string, price: Int64, currency: string)

  datatype CreateReq = CreateReq(
    caller: Caller,
    planId: nat,
    plan: Option<Plan>, // what the plan table holds under planId
    quantity: int,
    payMethod: string,
    channel: string,
    key: string,
    number: string,     // generated from the clock
    now: int)

  datatype MarkPaidReq = MarkPaidReq(
    caller: Caller,
    id: nat,
    payMethod: string,
    charge: bool,
    reference: string,
    paidAt: Option<int>,
    now: int)

  datatype RefundReq = RefundReq(caller: Caller, id: nat, amount: Int64, now: int)

  datatype CallbackReq = CallbackReq(
    id: nat,
    paymentId: nat,
    status: string,
    reference: string,
    failureCode: string,
    failureMessage: string,
    paidAt: Option<int>,
    now: int)

  datatype CancelReq = CancelReq(caller: Caller, byAdmin: bool, id: nat, cancelledAt: Option<int>, now: int)

  datatype Request =
    | Create(create: CreateReq)
    | MarkPaid(mark: MarkPaidReq)
    | Refund(refund: RefundReq)
    | Callback(callback: CallbackReq)
    | Cancel(cancel: CancelReq)
    | Adjust(user: nat, movement: Movement) // a wallet movement that belongs to no order

  /** A create that passed its checks: normalised fields and the computed total. */
  datatype Draft = Draft(
    user: nat,
    key: Option<string>,
    fromBalance: bool,
    channel: string,
    total: Int64,
    currency: string,   // the plan's, possibly blank
    number: string,
    now: int)

  datatype Mark = Mark(id: nat, charge: bool, payMethod: string, reference: Option<string>, at: int)

  datatype Credit = Credit(id: nat, amount: Int64, at: int)

  datatype Notice = Notice(
    id: nat,
    paymentId: nat,
    status: PayStatus,
    reference: Option<string>,
    failureCode: Option<string>,
    failureMessage: Option<string>,
    at: int)

  /** A request between its read and its transaction, with the order it read. */
  datatype Flight =
    | Creating(draft: Draft)
    | Recovering(draft: Draft)
    | Marking(mark: Mark, snap: Order)
    | Refunding(credit: Credit, snap: Order)
    | Calling(notice: Notice)
    | Cancelling(id: nat, at: int)
    | Adjusting(user: nat, movement: Movement)

  datatype Outcome = Reply(result: Result<nat>) | Continue(flight: Flight)

  function NonBlank(s: string): Option<string> {
    if TrimSpace(s) == "" then None else Some(TrimSpace(s))
  }

  /** A given text column is trimmed before it is written. */
  function Written(given: Option<string>, before: string): string {
    if given.Some? then TrimSpace(given.value) else before
  }

  /** A client-supplied Unix time counts only when it is positive. */
  function PickTime(given: Option<int>, now: int): int {
    if given.Some? && given.value > 0 then given.value else now
  }

  // ---------- creating an order ----------

  function CreateMethod(q: CreateReq): string {
    var m := TrimSpace(ToLower(q.payMethod));
    if m == "" then BALANCE else m
  }

  function Channel(q: CreateReq): string { TrimSpace(ToLower(q.channel)) }

  function Clamp(quantity: int): (r: int)
    ensures quantity <= 0 ==> r == 1
    ensures 1 <= quantity <= 10 ==> r == quantity
    ensures quantity > 10 ==> r == 10
  {
    if quantity <= 0 then 1 else if quantity > 10 then 10 else quantity
  }

  /** The prices the totals are meant for: ten units still fit an int64. */
  predicate PriceOk(plan: Plan) { 0 <= plan.price <= MAX_INT64 / 10 }

  /** The total of one to ten units: none or fewer count as one, more as ten. */
  predicate TotalIs(total: int, price: int, quantity: int) {
    && (quantity <= 0 ==> total == price)
    && (1 <= quantity <= 10 ==> total == price * quantity)
    && (quantity > 10 ==> total == price * 10)
  }

  function OrderTotal(plan: Plan, quantity: int): (r: Int64)
    ensures PriceOk(plan) ==> 0 <= r && TotalIs(r, plan.price, quantity)
  {
    assert PriceOk(plan) ==> 0 <= plan.price * Clamp(quantity) <= plan.price * 10;
    Wrap64(plan.price * Clamp(quantity))
  }

  /** The first order of a user that carries an idempotency key. */
  function FindKey(orders: seq<Order>, user: nat, key: string): (r: Option<nat>)
    ensures r.Some? ==> 1 <= r.value <= |orders|
                        && orders[r.value - 1].user == user && orders[r.value - 1].key == Some(key)
    ensures r.None? ==> forall i | 0 <= i < |orders| :: !(orders[i].user == user && orders[i].key == Some(key))
  {
    if orders == [] then None
    else
      var last := |orders| - 1;
      var r := FindKey(orders[..last], user, key);
      if r.Some? then r
      else if orders[last].user == user && orders[last].key == Some(key) then Some(last + 1)
      else None
  }

  predicate NumberTaken(orders: seq<Order>, number: string) {
    exists i | 0 <= i < |orders| :: orders[i].number == number
  }

  /** The two unique indexes an insert into orders must respect. */
  predicate Conflicts(orders: seq<Order>, o: Order) {
    || NumberTaken(orders, o.number)
    || (o.key.Some? && FindKey(orders, o.user, o.key.value).Some?)
  }

  function ReadCreate(db: Db, q: CreateReq): Outcome {
    var m := CreateMethod(q);
    var key := NonBlank(q.key);
    if m != BALANCE && m != EXTERNAL then Reply(Err(InvalidArgument))
    else if q.caller.Anonymous? then Reply(Err(Unauthorized))
    else if key.Some? && q.caller.id == 0 then Reply(Err(InvalidArgument))
    else if key.Some? && FindKey(db.orders, q.caller.id, key.value).Some? then
      Reply(Ok(FindKey(db.orders, q.caller.id, key.value).value))
    else if q.planId == 0 then Reply(Err(InvalidArgument))
    else if q.plan.None? then Reply(Err(NotFound))
    else if !q.plan.value.visible || !EqualFold(q.plan.value.status, "active") then Reply(Err(InvalidArgument))
    else
      var total := OrderTotal(q.plan.value, q.quantity);
      if m == EXTERNAL && total > 0 && Channel(q) == "" then Reply(Err(InvalidArgument))
      else
        var currency := TrimSpace(q.plan.value.currency);
        Continue(Creating(Draft(q.caller.id, key, m == BALANCE, Channel(q), total, currency, q.number, q.now)))
  }

  function CurrencyFor(db: Db, d: Draft): string {
    var held := if d.user in db.wallets then db.wallets[d.user].currency else "CNY";
    FirstNonEmpty(d.currency, TrimSpace(held))
  }

  function NewOrder(db: Db, d: Draft): Order {
    var settled := d.total == 0 || d.fromBalance;
    Order(d.number, d.user, d.key,
          if settled then Paid else PendingPayment,
          if d.fromBalance then BALANCE else EXTERNAL,
          if settled then PaySucceeded else PayPending,
          d.total, CurrencyFor(db, d), 0, None,
          if settled then Some(d.now) else None,
          None, "", "", "")
  }

  function DebitFor(o: Order): Movement
    requires 0 <= o.total
  {
    Movement(PURCHASE, -o.total, o.currency, OrderRef(o.number))
  }

  /** An order is paid from the wallet as it is created. */
  predicate DebitsNow(d: Draft) { d.total > 0 && d.fromBalance }

  /** An order that waits for a gateway gets one payment row. */
  predicate AwaitsGateway(d: Draft) { d.total > 0 && !d.fromBalance }

  function Insert(db: Db, d: Draft, o: Order): Db {
    var payment := Payment(|db.orders| + 1, d.channel, PayPending, d.total, "", "", "");
    db.(orders := db.orders + [o],
        payments := if AwaitsGateway(d) then db.payments + [payment] else db.payments)
  }

  function CommitCreate(db: Db, d: Draft): (Db, Result<nat>)
    requires 0 <= d.total
  {
    var o := NewOrder(db, d);
    if DebitsNow(d) && !Accepts(db, o.user, DebitFor(o)) then (db, Err(InsufficientBalance))
    else if Conflicts(db.orders, o) then (db, Err(Conflict))
    else
      var paid := if DebitsNow(d) then Append(db, RowFor(db, o.user, DebitFor(o))) else db;
      (Insert(paid, d, o), Ok(|db.orders| + 1))
  }

  /** After a conflict the loser looks its key up again. */
  function Recover(db: Db, d: Draft): Result<nat>
    requires d.key.Some?
  {
    var found := FindKey(db.orders, d.user, d.key.value);
    if found.Some? then Ok(found.value) else Err(Conflict)
  }

  // ---------- marking an order paid by hand ----------

  function AdminGuard(c: Caller): Option<Error> {
    if c.Anonymous? then Some(Unauthorized) else if !c.admin then Some(Forbidden) else None
  }

  function ReadMarkPaid(db: Db, q: MarkPaidReq): Outcome {
    if AdminGuard(q.caller).Some? then Reply(Err(AdminGuard(q.caller).value))
    else if !HasOrder(db, q.id) then Reply(Err(NotFound))
    else
      var o := db.orders[q.id - 1];
      if o.status == Paid then Reply(Ok(q.id))
      else if o.status != PendingPayment then Reply(Err(InvalidArgument))
      else Continue(Marking(MarkOf(q), o))
  }

  /** A balance charge overrides the method the administrator names. */
  function MarkOf(q: MarkPaidReq): (m: Mark)
    ensures m.id == q.id && m.charge == q.charge
    ensures q.charge ==> m.payMethod == BALANCE
  {
    Mark(q.id, q.charge, if q.charge then BALANCE else TrimSpace(q.payMethod),
         NonBlank(q.reference), PickTime(q.paidAt, q.now))
  }

  function MarkedPaid(o: Order, m: Mark): Order {
    o.(payStatus := PaySucceeded,
       status := Paid,
       paidAt := Some(m.at),
       payReference := Written(m.reference, o.payReference),
       payMethod := if m.payMethod != "" && !EqualFold(o.payMethod, m.payMethod) then m.payMethod else o.payMethod)
  }

  /** The charge is sized and addressed by the order as it was read. */
  function ChargeFor(snap: Order): Movement
    requires 0 <= snap.total
  {
    DebitFor(snap.(currency := if TrimSpace(snap.currency) == "" then "CNY" else snap.currency))
  }

  predicate Charges(m: Mark, snap: Order) { m.charge && snap.total > 0 }

  function SetOrder(db: Db, id: nat, o: Order): Db
    requires HasOrder(db, id)
  {
    db.(orders := db.orders[id - 1 := o])
  }

  function CommitMarkPaid(db: Db, m: Mark, snap: Order): (Db, Result<nat>) {
    if Charges(m, snap) && !Accepts(db, snap.user, ChargeFor(snap)) then (db, Err(InsufficientBalance))
    else if !HasOrder(db, m.id) then (db, Err(NotFound))
    else
      var charged := if Charges(m, snap) then Append(db, RowFor(db, snap.user, ChargeFor(snap))) else db;
      (SetOrder(charged, m.id, MarkedPaid(db.orders[m.id - 1], m)), Ok(m.id))
  }

  // ---------- refunding ----------

  function ReadRefund(db: Db, q: RefundReq): Outcome {
    if AdminGuard(q.caller).Some? then Reply(Err(AdminGuard(q.caller).value))
    else if q.amount <= 0 then Reply(Err(InvalidArgument))
    else if !HasOrder(db, q.id) then Reply(Err(NotFound))
    else
      var o := db.orders[q.id - 1];
      var remaining := Wrap64(o.total - o.refunded);
      if o.total <= 0 || !PaysFromBalance(o) || remaining <= 0 || q.amount > remaining then
        Reply(Err(InvalidArgument))
      else Continue(Refunding(Credit(q.id, q.amount, q.now), o))
  }

  function CreditFor(c: Credit, snap: Order): Movement {
    Movement(REFUND, c.amount, snap.currency, OrderRef(snap.number))
  }

  /** The locked re-check: the amount must still fit what is left of the order. */
  predicate Refundable(o: Order, amount: int) {
    0 < o.total - o.refunded && amount <= o.total - o.refunded
  }

  function RefundedOrder(o: Order, c: Credit, snap: Order): Order
    requires 0 <= o.refunded <= o.total && 0 < c.amount && Refundable(o, c.amount)
  {
    var refunded := o.refunded + c.amount;
    o.(refunded := refunded,
       refundedAt := Some(c.at),
       status := if refunded < snap.total then PartiallyRefunded else Tables.Refunded)
  }

  function CommitRefund(db: Db, c: Credit, snap: Order): (Db, Result<nat>)
    requires 0 < c.amount
    requires HasOrder(db, c.id) ==> 0 <= db.orders[c.id - 1].refunded <= db.orders[c.id - 1].total
  {
    if !Accepts(db, snap.user, CreditFor(c, snap)) then (db, Err(InsufficientBalance))
    else if !HasOrder(db, c.id) then (db, Err(NotFound))
    else if !Refundable(db.orders[c.id - 1], c.amount) then (db, Err(InvalidArgument))
    else
      var row := RefundRow(c.id, c.amount, OrderRef(snap.number));
      var credited := Append(db, RowFor(db, snap.user, CreditFor(c, snap))).(refunds := db.refunds + [row]);
      (SetOrder(credited, c.id, RefundedOrder(db.orders[c.id - 1], c, snap)), Ok(c.id))
  }

  // ---------- gateway callbacks ----------

  /** The final payment status a callback announces, if it is a known one. */
  function CallbackStatus(q: CallbackReq): (r: Option<PayStatus>)
    ensures r.Some? ==> r.value != PayPending
  {
    var s := TrimSpace(ToLower(q.status));
    if s == "succeeded" then Some(PaySucceeded) else if s == "failed" then Some(PayFailed) else None
  }

  function ReadCallback(db: Db, q: CallbackReq): Outcome {
    if q.id == 0 || q.paymentId == 0 || CallbackStatus(q).None? then Reply(Err(InvalidArgument))
    else if !HasOrder(db, q.id) then Reply(Err(NotFound))
    else if !HasPayment(db, q.paymentId) || db.payments[q.paymentId - 1].order != q.id then Reply(Err(NotFound))
    else
      var status := db.payments[q.paymentId - 1].status;
      if status == CallbackStatus(q).value then Reply(Ok(q.id))
      else if status == PaySucceeded then Reply(Err(InvalidState))
      else Continue(Calling(NoticeOf(q, CallbackStatus(q).value)))
  }

  function NoticeOf(q: CallbackReq, status: PayStatus): Notice {
    Notice(q.id, q.paymentId, status, NonBlank(q.reference),
           NonBlank(q.failureCode), NonBlank(q.failureMessage), PickTime(q.paidAt, q.now))
  }

  function CalledPayment(p: Payment, n: Notice): Payment {
    p.(status := n.status,
       reference := Written(n.reference, p.reference),
       failureCode := Written(n.failureCode, p.failureCode),
       failureMessage := Written(n.failureMessage, p.failureMessage))
  }

  /** Success settles the order whatever state it is in; anything else fails it. */
  function CalledOrder(o: Order, n: Notice): Order {
    if n.status == PaySucceeded then
      o.(payStatus := n.status,
         status := Paid,
         paidAt := Some(n.at),
         payReference := Written(n.reference, o.payReference))
    else
      o.(payStatus := n.status,
         status := PaymentFailed,
         failureCode := Written(n.failureCode, o.failureCode),
         failureReason := Written(n.failureMessage, o.failureReason))
  }

  function CommitCallback(db: Db, n: Notice): (Db, Result<nat>) {
    if !HasPayment(db, n.paymentId) || !HasOrder(db, n.id) then (db, Err(NotFound))
    else
      var p := CalledPayment(db.payments[n.paymentId - 1], n);
      var o := CalledOrder(db.orders[n.id - 1], n);
      (SetOrder(db, n.id, o).(payments := db.payments[n.paymentId - 1 := p]), Ok(n.id))
  }

  // ---------- cancelling ----------

  function ReadCancel(db: Db, q: CancelReq): Outcome {
    var guard := if q.byAdmin then AdminGuard(q.caller)
                 else if q.caller.Anonymous? then Some(Unauthorized) else None;
    if guard.Some? then Reply(Err(guard.value))
    else if !HasOrder(db, q.id) then Reply(Err(NotFound))
    else
      var o := db.orders[q.id - 1];
      var settled := if q.byAdmin then o.total <= 0 || o.refunded >= o.total else o.total == 0;
      if !q.byAdmin && o.user != q.caller.id then Reply(Err(Forbidden))
      else if o.status == Cancelled then Reply(Ok(q.id))
      else if o.status == PendingPayment || (o.status == Paid && settled) then
        Continue(Cancelling(q.id, if q.byAdmin then PickTime(q.cancelledAt, q.now) else q.now))
      else Reply(Err(InvalidArgument))
  }

  function CancelledOrder(o: Order, at: int): Order {
    o.(status := Cancelled, cancelledAt := Some(at))
  }

  function CommitCancel(db: Db, id: nat, at: int): (Db, Result<nat>) {
    if !HasOrder(db, id) then (db, Err(NotFound))
    else (SetOrder(db, id, CancelledOrder(db.orders[id - 1], at)), Ok(id))
  }

  // ---------- the two halves of any request ----------

  function Read(db: Db, req: Request): Outcome {
    match req
    case Create(q) => ReadCreate(db, q)
    case MarkPaid(q) => ReadMarkPaid(db, q)
    case Refund(q) => ReadRefund(db, q)
    case Callback(q) => ReadCallback(db, q)
    case Cancel(q) => ReadCancel(db, q)
    case Adjust(user, m) => Continue(Adjusting(user, m))
  }

  /** What a flight needs for its transaction to be defined; every read ensures it. */
  predicate Launched(db: Db, f: Flight) {
    match f
    case Creating(d) => 0 <= d.total
    case Recovering(d) => d.key.Some?
    case Refunding(c, _) =>
      0 < c.amount && (HasOrder(db, c.id) ==> 0 <= db.orders[c.id - 1].refunded <= db.orders[c.id - 1].total)
    case _ => true
  }

  function Commit(db: Db, f: Flight): (Db, Outcome)
    requires Launched(db, f)
  {
    match f
    case Creating(d) =>
      var (db', r) := CommitCreate(db, d);
      (db', if r == Err(Conflict) && d.key.Some? then Continue(Recovering(d)) else Reply(r))
    case Recovering(d) => (db, Reply(Recover(db, d)))
    case Marking(m, snap) => var (db', r) := CommitMarkPaid(db, m, snap); (db', Reply(r))
    case Refunding(c, snap) => var (db', r) := CommitRefund(db, c, snap); (db', Reply(r))
    case Calling(n) => var (db', r) := CommitCallback(db, n); (db', Reply(r))
    case Cancelling(id, at) => var (db', r) := CommitCancel(db, id, at); (db', Reply(r))
    case Adjusting(user, m) => var (db', r) := Post(db, user, m); (db', Reply(r))
  }

  /** What the surrounding system promises about requests. */
  predicate Assumed(req: Request) {
    match req
    case Create(q) => q.plan.Some? ==> PriceOk(q.plan.value)
    case MarkPaid(q) => q.charge || !EqualFold(TrimSpace(q.payMethod), BALANCE)
    case Adjust(_, m) => !IsOrderRef(m.reference)
    case _ => true
  }
}
