/** The wallet ledger: what one posting does, stated over exact integers. */
module Ledger {
  import opened Options
  import opened Tables

  datatype Movement = Movement(kind: string, amount: Int64, currency: string, reference: string)

  function BalanceOf(db: Db, user: nat): Int64 {
    if user in db.wallets then db.wallets[user].balance else 0
  }

  function FirstNonEmpty(a: string, b: string): string {
    if a != "" then a else if b != "" then b else "CNY"
  }

  function CurrencyOf(db: Db, user: nat, offered: string): string {
    FirstNonEmpty(if user in db.wallets then db.wallets[user].currency else "", offered)
  }

  predicate Accepts(db: Db, user: nat, m: Movement) {
    m.amount != 0 && 0 <= BalanceOf(db, user) + m.amount <= MAX_INT64
  }

  /** The ledger row an accepted movement adds. */
  function RowFor(db: Db, user: nat, m: Movement): (row: Entry)
    requires Accepts(db, user, m)
    ensures row.user == user && row.currency != ""
  {
    var currency := CurrencyOf(db, user, m.currency);
    Entry(user, m.kind, m.amount, currency, BalanceOf(db, user) + m.amount, m.reference)
  }

  /** Appends a row and points its user's wallet at it. */
  function Append(db: Db, row: Entry): Db {
    var wallet := Wallet(row.after, row.currency, |db.ledger| + 1);
    db.(ledger := db.ledger + [row], wallets := db.wallets[row.user := wallet])
  }

  /** Posts one movement: the new ledger row and wallet, or an error and no change. */
  function Post(db: Db, user: nat, m: Movement): (Db, Result<nat>) {
    if m.amount == 0 then (db, Err(InvalidArgument))
    else if !Accepts(db, user, m) then (db, Err(InsufficientBalance))
    else (Append(db, RowFor(db, user, m)), Ok(|db.ledger| + 1))
  }

  /** A row carries the exact sum of its user's rows up to and including itself. */
  ghost predicate RowOk(l: seq<Entry>, k: nat)
    requires k < |l|
  {
    0 <= l[k].after == Total(l[..k + 1], UserAmount(l[k].user))
  }

  /** A wallet agrees with its user's last row, and with every row on the currency. */
  ghost predicate WalletOk(w: Wallet, user: nat, l: seq<Entry>) {
    && w.currency != ""
    && 0 <= w.balance == Total(l, UserAmount(user))
    && 1 <= w.last <= |l|
    && l[w.last - 1].user == user
    && l[w.last - 1].after == w.balance
    && (forall k | w.last <= k < |l| :: l[k].user != user)
    && (forall k | 0 <= k < |l| && l[k].user == user :: l[k].currency == w.currency)
  }

  ghost predicate LedgerOk(wallets: map<nat, Wallet>, l: seq<Entry>) {
    && (forall k | 0 <= k < |l| :: RowOk(l, k) && l[k].user in wallets)
    && (forall u | u in wallets :: WalletOk(wallets[u], u, l))
  }

  /** With a non-negative balance, one sign test on the wrapped sum is the exact range test. */
  lemma SignTestIsExact(balance: Int64, amount: Int64)
    requires 0 <= balance
    ensures Wrap64(balance + amount) >= 0 <==> 0 <= balance + amount <= MAX_INT64
  {
  }

  /** The stored balance of any user, with or without a wallet row, is the sum of the user's rows. */
  lemma BalanceIsLedgerSum(db: Db, user: nat)
    requires LedgerOk(db.wallets, db.ledger)
    ensures BalanceOf(db, user) == Total(db.ledger, UserAmount(user))
  {
    if user in db.wallets {
      assert WalletOk(db.wallets[user], user, db.ledger);
    } else {
      TotalOfNone(db.ledger, UserAmount(user));
    }
  }

  /** Earlier rows stay right when a row is added, and the new one is right if it continues the sum. */
  lemma RowsStayOk(l: seq<Entry>, row: Entry, k: nat)
    requires k <= |l| && (k < |l| ==> RowOk(l, k))
    requires 0 <= row.after == Total(l, UserAmount(row.user)) + row.amount
    ensures RowOk(l + [row], k)
  {
    if k < |l| {
      assert (l + [row])[..k + 1] == l[..k + 1];
    } else {
      assert (l + [row])[..k + 1] == l + [row];
      TotalAppend(l, row, UserAmount(row.user));
    }
  }

  /** The wallet a row creates or moves agrees with the longer ledger. */
  lemma MovedWalletOk(l: seq<Entry>, row: Entry)
    requires 0 <= row.after == Total(l, UserAmount(row.user)) + row.amount && row.currency != ""
    requires forall k | 0 <= k < |l| && l[k].user == row.user :: l[k].currency == row.currency
    ensures WalletOk(Wallet(row.after, row.currency, |l| + 1), row.user, l + [row])
  {
    hide Total;
    TotalAppend(l, row, UserAmount(row.user));
  }

  lemma OtherWalletOk(w: Wallet, user: nat, l: seq<Entry>, row: Entry)
    requires WalletOk(w, user, l) && row.user != user
    ensures WalletOk(w, user, l + [row])
  {
  }

  /** An accepted movement carries on its user's sum and currency. */
  lemma RowContinues(db: Db, user: nat, m: Movement)
    requires LedgerOk(db.wallets, db.ledger) && Accepts(db, user, m)
    ensures var row := RowFor(db, user, m);
            && 0 <= row.after == Total(db.ledger, UserAmount(user)) + row.amount
            && forall k | 0 <= k < |db.ledger| && db.ledger[k].user == user :: db.ledger[k].currency == row.currency
  {
    BalanceIsLedgerSum(db, user);
    if user in db.wallets { assert WalletOk(db.wallets[user], user, db.ledger); }
  }

  lemma AppendKeepsLedger(wallets: map<nat, Wallet>, l: seq<Entry>, row: Entry)
    requires LedgerOk(wallets, l)
    requires 0 <= row.after == Total(l, UserAmount(row.user)) + row.amount && row.currency != ""
    requires forall k | 0 <= k < |l| && l[k].user == row.user :: l[k].currency == row.currency
    ensures LedgerOk(wallets[row.user := Wallet(row.after, row.currency, |l| + 1)], l + [row])
  {
    hide RowOk, WalletOk;
    var wallets' := wallets[row.user := Wallet(row.after, row.currency, |l| + 1)];
    forall k | 0 <= k < |l + [row]| ensures RowOk(l + [row], k) && (l + [row])[k].user in wallets' {
      RowsStayOk(l, row, k);
    }
    forall u | u in wallets' ensures WalletOk(wallets'[u], u, l + [row]) {
      if u == row.user { MovedWalletOk(l, row); } else { OtherWalletOk(wallets[u], u, l, row); }
    }
  }

  /** Every posting, accepted or refused, keeps wallets and ledger in agreement. */
  lemma PostKeepsLedger(db: Db, user: nat, m: Movement)
    requires LedgerOk(db.wallets, db.ledger)
    ensures var db' := Post(db, user, m).0; LedgerOk(db'.wallets, db'.ledger)
  {
    if Accepts(db, user, m) {
      RowContinues(db, user, m);
      hide LedgerOk;
      AppendKeepsLedger(db.wallets, db.ledger, RowFor(db, user, m));
    }
  }

  /** At every point of the ledger's history a user's running sum is in the int64 range and not negative. */
  lemma {:induction false} EveryPrefixIsSolvent(db: Db, user: nat, p: nat)
    requires LedgerOk(db.wallets, db.ledger) && p <= |db.ledger|
    ensures 0 <= Total(db.ledger[..p], UserAmount(user)) <= MAX_INT64
  {
    if p == 0 {
    } else {
      assert db.ledger[..p][..p - 1] == db.ledger[..p - 1];
      assert RowOk(db.ledger, p - 1);
      EveryPrefixIsSolvent(db, user, p - 1);
    }
  }

  // ---------- one posting, column by column ----------

  /** A user's wallet keeps its currency; the first posting brings one, or it is CNY. */
  predicate CurrencyIs(currency: string, db: Db, user: nat, offered: string) {
    if user in db.wallets && db.wallets[user].currency != "" then currency == db.wallets[user].currency
    else currency == if offered != "" then offered else "CNY"
  }

  /** One row more, carrying the new balance, and one wallet pointing at it; every other wallet as it was. */
  ghost predicate Posted(db: Db, db': Db, user: nat, kind: string, amount: int, offered: string, reference: string) {
    && |db'.ledger| == |db.ledger| + 1
    && db'.ledger[..|db.ledger|] == db.ledger
    && var row := db'.ledger[|db.ledger|];
    && row.user == user && row.kind == kind && row.amount == amount && row.reference == reference
    && row.after == (if user in db.wallets then db.wallets[user].balance as int else 0) + amount
    && CurrencyIs(row.currency, db, user, offered)
    && db'.wallets == db.wallets[user := Wallet(row.after, row.currency, |db'.ledger|)]
  }

  /** A posting of nothing is refused, so is one the wallet cannot bear or hold; any other is posted as it came. */
  lemma PostedIff(db: Db, user: nat, m: Movement)
    ensures var (db', r) := Post(db, user, m);
            var balance := if user in db.wallets then db.wallets[user].balance as int else 0;
            && (r == Err(InvalidArgument) <==> m.amount == 0)
            && (r == Err(InsufficientBalance) <==>
                m.amount != 0 && (balance + m.amount < 0 || balance + m.amount > MAX_INT64))
            && (r.Err? ==> db' == db && r.error in {InvalidArgument, InsufficientBalance})
            && (r.Ok? ==> r.value == |db'.ledger| && Posted(db, db', user, m.kind, m.amount, m.currency, m.reference)
                          && db' == db.(ledger := db'.ledger, wallets := db'.wallets))
  {
  }

  lemma AppendPosts(db: Db, user: nat, m: Movement)
    requires Accepts(db, user, m)
    ensures var db' := Append(db, RowFor(db, user, m));
            && Posted(db, db', user, m.kind, m.amount, m.currency, m.reference)
            && db' == db.(ledger := db'.ledger, wallets := db'.wallets)
  {
  }
}
