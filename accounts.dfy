/**
 * The account ledger of the accounts API: the accounts table, the handlers
 * that read and change it, and the invariant they keep (ids and creation
 * times increase along the table, and every balance stays within 0 and the
 * largest DECIMAL(15, 2)).
 *
 * Each handler is specified by a step function on the table as a sequence of
 * rows in insertion order; the `Ledger` class updates its rows in place and
 * is proved to agree with those functions.
 */
module Accounts {
  import opened Wrappers
  import opened Json
  import opened Http
  import Sequences
  import opened AccountRoutes

  /** The largest DECIMAL(15, 2), in cents. */
  const MaxBalance: int := 999_999_999_999_999

  /** The largest value a SERIAL column hands out. */
  const MaxSerial: int := 0x7FFF_FFFF

  datatype Status = Active | Suspended | Closed

  /** One row of the accounts table; `balance` is in cents and `createdAt` is a clock reading. */
  datatype Account = Account(
    id: int, userId: int, number: string, kind: string,
    balance: int, currency: string, status: Status, createdAt: nat)

  /** The table after a handler ran, and what the handler answered. */
  datatype Step<T> = Step(rows: seq<Account>, reply: Reply<T>)

  /** The payload of GET /:accountId/balance. */
  datatype BalanceView = BalanceView(balance: int, currency: string)

  const StatusNames: seq<string> := ["active", "suspended", "closed"]

  function StatusName(st: Status): string
  {
    match st
    case Active => "active"
    case Suspended => "suspended"
    case Closed => "closed"
  }

  /** The controller's `includes(status)` test: strict equality, so only a JSON string passes. */
  function ParseStatus(v: Value): (r: Option<Status>)
    ensures r.Some? <==> v.Text? && v.s in StatusNames
    ensures r.Some? ==> StatusName(r.value) == v.s
  {
    if v == Text("active") then Some(Active)
    else if v == Text("suspended") then Some(Suspended)
    else if v == Text("closed") then Some(Closed)
    else None
  }

  /** Every status is accepted under its own name, and under no other. */
  lemma StatusRoundTrip(st: Status, v: Value)
    ensures ParseStatus(Text(StatusName(st))) == Some(st)
    ensures ParseStatus(v) == Some(st) ==> v == Text(StatusName(st))
  {
  }

  /** The table invariant. */
  ghost predicate WellFormed(rows: seq<Account>)
  {
    (forall i, j :: 0 <= i < j < |rows| ==>
      rows[i].id < rows[j].id && rows[i].createdAt < rows[j].createdAt && rows[i].number != rows[j].number)
    && (forall k :: 0 <= k < |rows| ==>
      1 <= rows[k].id <= MaxSerial && 0 <= rows[k].balance <= MaxBalance)
  }

  /** The money held by the whole table. */
  function Total(rows: seq<Account>): int
  {
    if rows == [] then 0 else Total(rows[..|rows| - 1]) + rows[|rows| - 1].balance
  }

  /** Changing one row's balance changes the total by the same amount. */
  lemma {:induction false} TotalPointUpdate(rows: seq<Account>, k: nat, a: Account)
    requires k < |rows|
    ensures Total(rows[k := a]) == Total(rows) - rows[k].balance + a.balance
    decreases |rows|
  {
    var n := |rows| - 1;
    var updated := rows[k := a];
    assert updated[..n] == if k == n then rows[..n] else rows[..n][k := a];
    if k < n {
      TotalPointUpdate(rows[..n], k, a);
    }
  }

  /** The position of the row with primary key `id`, if there is one. */
  function Find(rows: seq<Account>, id: int): (r: Option<nat>)
    ensures r.Some? ==> r.value < |rows| && rows[r.value].id == id
    ensures r.None? <==> forall k :: 0 <= k < |rows| ==> rows[k].id != id
  {
    if rows == [] then None
    else if rows[0].id == id then Some(0)
    else match Find(rows[1..], id)
      case None => None
      case Some(k) => Some(k + 1)
  }

  /** In a well-formed table the primary key names exactly one row. */
  lemma FindAt(rows: seq<Account>, k: nat)
    requires WellFormed(rows) && k < |rows|
    ensures Find(rows, rows[k].id) == Some(k)
  {
    assert forall j :: 0 <= j < |rows| && j != k ==> rows[j].id != rows[k].id;
  }

  /** Replacing a row by one with the same key, number and creation time and a balance in range keeps the invariant. */
  lemma PointUpdateKeepsWellFormed(rows: seq<Account>, k: nat, a: Account)
    requires WellFormed(rows) && k < |rows|
    requires a.id == rows[k].id && a.createdAt == rows[k].createdAt && a.number == rows[k].number
    requires 0 <= a.balance <= MaxBalance
    ensures WellFormed(rows[k := a])
  {
  }

  // ---------------------------------------------------------------- writes

  /**
   * POST /:accountId/deposit: the amount is validated, then the balance of
   * the account with that id is raised if the account is active, whoever
   * owns it. A sum past DECIMAL(15, 2) and an id Postgres cannot read as an
   * INTEGER are database errors, answered with 500.
   */
  function DepositStep(rows: seq<Account>, id: int, amount: Value): (s: Step<Account>)
    ensures s.reply.Fail? ==> s.rows == rows
    ensures s.reply.Ok? ==> s.reply.status == 200 && amount.Number? && |s.rows| == |rows|
    ensures s.reply.Ok? ==> Find(rows, id).Some? && s.rows == rows[Find(rows, id).value := s.reply.value]
    ensures s.reply.Fail? && s.reply.body.FieldErrors? <==> AmountErrors(amount) != []
    ensures AmountErrors(amount) != [] ==> s.reply == Fail(400, FieldErrors(AmountErrors(amount)))
    ensures AmountErrors(amount) == [] && !InInt4(id) ==> s.reply == Fail(500, Message("Deposit failed"))
    ensures AmountErrors(amount) == [] && InInt4(id) && Find(rows, id).None? ==>
      s.reply == Fail(404, Message("Account not found or inactive"))
  {
    var errs := AmountErrors(amount);
    if errs != [] then Step(rows, Fail(400, FieldErrors(errs)))
    else if !InInt4(id) then Step(rows, Fail(500, Message("Deposit failed")))
    else match Find(rows, id)
      case None => Step(rows, Fail(404, Message("Account not found or inactive")))
      case Some(k) =>
        var a := rows[k];
        if a.status != Active then Step(rows, Fail(404, Message("Account not found or inactive")))
        else if a.balance + amount.hundredths > MaxBalance then Step(rows, Fail(500, Message("Deposit failed")))
        else
          var b := a.(balance := a.balance + amount.hundredths);
          Step(rows[k := b], Ok(200, b))
  }

  /**
   * POST /:accountId/withdraw: the amount is validated, the account must be
   * the caller's and active, and its balance must cover the amount; then the
   * balance is lowered by exactly the amount.
   */
  function WithdrawStep(rows: seq<Account>, caller: int, id: int, amount: Value): (s: Step<Account>)
    ensures s.reply.Fail? ==> s.rows == rows
    ensures s.reply.Ok? ==> s.reply.status == 200 && amount.Number? && |s.rows| == |rows|
    ensures s.reply.Ok? ==> Find(rows, id).Some? && s.rows == rows[Find(rows, id).value := s.reply.value]
    ensures s.reply.Fail? && s.reply.body.FieldErrors? <==> AmountErrors(amount) != []
    ensures AmountErrors(amount) != [] ==> s.reply == Fail(400, FieldErrors(AmountErrors(amount)))
    ensures AmountErrors(amount) == [] && !InInt4(id) ==> s.reply == Fail(500, Message("Withdrawal failed"))
    ensures AmountErrors(amount) == [] && InInt4(id) && Find(rows, id).None? ==>
      s.reply == Fail(404, Message("Account not found or inactive"))
  {
    var errs := AmountErrors(amount);
    if errs != [] then Step(rows, Fail(400, FieldErrors(errs)))
    else if !InInt4(id) then Step(rows, Fail(500, Message("Withdrawal failed")))
    else match Find(rows, id)
      case None => Step(rows, Fail(404, Message("Account not found or inactive")))
      case Some(k) =>
        var a := rows[k];
        if a.userId != caller || a.status != Active then Step(rows, Fail(404, Message("Account not found or inactive")))
        else if a.balance < amount.hundredths then Step(rows, Fail(400, Message("Insufficient funds")))
        else
          var b := a.(balance := a.balance - amount.hundredths);
          Step(rows[k := b], Ok(200, b))
  }

  /**
   * PATCH /:accountId/status: the status is checked in the controller (the
   * route has no validator), then the caller's account gets the new status.
   */
  function StatusStep(rows: seq<Account>, caller: int, id: int, status: Value): (s: Step<Account>)
    ensures s.reply.Fail? ==> s.rows == rows
    ensures ParseStatus(status).None? ==> s.reply == Fail(400, Message("Invalid status"))
    ensures s.reply.Ok? ==> s.reply.value.status == ParseStatus(status).value
    ensures s.reply.Ok? ==> Find(rows, id).Some? && s.rows == rows[Find(rows, id).value := s.reply.value]
    ensures !(s.reply.Fail? && s.reply.body.FieldErrors?)
    ensures ParseStatus(status).Some? && !InInt4(id) ==> s.reply == Fail(500, Message("Failed to update status"))
    ensures ParseStatus(status).Some? && InInt4(id) && Find(rows, id).None? ==>
      s.reply == Fail(404, Message("Account not found"))
  {
    match ParseStatus(status)
    case None => Step(rows, Fail(400, Message("Invalid status")))
    case Some(st) =>
      if !InInt4(id) then Step(rows, Fail(500, Message("Failed to update status")))
      else match Find(rows, id)
        case None => Step(rows, Fail(404, Message("Account not found")))
        case Some(k) =>
          if rows[k].userId != caller then Step(rows, Fail(404, Message("Account not found")))
          else
            var b := rows[k].(status := st);
            Step(rows[k := b], Ok(200, b))
  }

  /** The currency an account is opened in: the one given, else the default "USD". */
  function CurrencyOf(v: Value): (c: string)
    ensures v.Absent? ==> c == "USD"
    ensures !v.Absent? ==> c == ToStr(v)
  {
    if v.Absent? then "USD" else ToStr(v)
  }

  /** Whether a row already has that account number (the UNIQUE constraint on the column). */
  predicate NumberTaken(rows: seq<Account>, number: string)
  {
    exists k :: 0 <= k < |rows| && rows[k].number == number
  }

  /**
   * POST /: a validated body opens a new account for the caller, with the
   * column defaults for balance (0.00) and status ('active'). `id` is the
   * next SERIAL value, `number` the generated account number and `now` the
   * clock reading; an exhausted SERIAL or an account number already taken
   * makes the INSERT fail.
   */
  function CreateStep(rows: seq<Account>, caller: int, body: CreateAccountBody, id: int, number: string, now: nat)
    : (s: Step<Account>)
    ensures s.reply.Fail? ==> s.rows == rows
    ensures s.reply.Ok? ==> s.reply.status == 201 && s.rows == rows + [s.reply.value]
    ensures CreateAccountErrors(body) != [] ==> s.reply == Fail(400, FieldErrors(CreateAccountErrors(body)))
    ensures CreateAccountErrors(body) == [] && s.reply.Fail? ==> s.reply == Fail(500, Message("Failed to create account"))
  {
    var errs := CreateAccountErrors(body);
    if errs != [] then Step(rows, Fail(400, FieldErrors(errs)))
    else if id > MaxSerial || NumberTaken(rows, number) then
      Step(rows, Fail(500, Message("Failed to create account")))
    else
      var a := Account(id, caller, number, ToStr(body.accountType), 0, CurrencyOf(body.currency), Active, now);
      Step(rows + [a], Ok(201, a))
  }

  /**
   * A deposit into an existing row succeeds exactly when the amount is valid,
   * the account is active (whoever owns it) and the sum fits.
   */
  lemma DepositAt(rows: seq<Account>, k: nat, amount: Value)
    requires WellFormed(rows) && k < |rows|
    ensures var a, s := rows[k], DepositStep(rows, rows[k].id, amount);
      (s.reply.Ok? <==> amount.Number? && amount.hundredths >= 1 && a.status == Active
                        && a.balance + amount.hundredths <= MaxBalance)
      && (AmountErrors(amount) == [] && a.status != Active ==>
            s.reply == Fail(404, Message("Account not found or inactive")))
  {
    FindAt(rows, k);
    assert InInt4(rows[k].id);
  }

  /**
   * A deposit that succeeds raises that row's balance, and the ledger's total,
   * by exactly the amount, changes nothing else, and keeps the invariant.
   */
  lemma DepositCredits(rows: seq<Account>, k: nat, amount: Value)
    requires WellFormed(rows) && k < |rows|
    requires amount.Number? && amount.hundredths >= 1 && rows[k].status == Active
    requires rows[k].balance + amount.hundredths <= MaxBalance
    ensures var a, s := rows[k], DepositStep(rows, rows[k].id, amount);
      s.reply.Ok? && s.reply.status == 200 && s.reply.value == a.(balance := a.balance + amount.hundredths)
      && s.rows == rows[k := s.reply.value]
      && Total(s.rows) == Total(rows) + amount.hundredths && WellFormed(s.rows)
  {
    FindAt(rows, k);
    assert InInt4(rows[k].id);
    var s := DepositStep(rows, rows[k].id, amount);
    TotalPointUpdate(rows, k, s.reply.value);
    PointUpdateKeepsWellFormed(rows, k, s.reply.value);
  }

  /**
   * A withdrawal from an existing row succeeds exactly when the amount is
   * valid, the account is the caller's and active, and the balance covers the
   * amount; a row of someone else, or an inactive one, reads as missing.
   */
  lemma WithdrawAt(rows: seq<Account>, caller: int, k: nat, amount: Value)
    requires WellFormed(rows) && k < |rows|
    ensures var a, s := rows[k], WithdrawStep(rows, caller, rows[k].id, amount);
      (s.reply.Ok? <==> amount.Number? && amount.hundredths >= 1 && a.userId == caller && a.status == Active
                        && a.balance >= amount.hundredths)
      && (AmountErrors(amount) == [] && (a.userId != caller || a.status != Active) ==>
            s.reply == Fail(404, Message("Account not found or inactive")))
      && (AmountErrors(amount) == [] && a.userId == caller && a.status == Active && a.balance < amount.hundredths ==>
            s.reply == Fail(400, Message("Insufficient funds")))
  {
    FindAt(rows, k);
    assert InInt4(rows[k].id);
  }

  /**
   * A withdrawal that succeeds lowers that row's balance, and the total, by
   * exactly the amount and changes nothing else; since the balance covered
   * the amount, the invariant (no negative balance) still holds.
   */
  lemma WithdrawDebits(rows: seq<Account>, caller: int, k: nat, amount: Value)
    requires WellFormed(rows) && k < |rows|
    requires amount.Number? && amount.hundredths >= 1
    requires rows[k].userId == caller && rows[k].status == Active && rows[k].balance >= amount.hundredths
    ensures var a, s := rows[k], WithdrawStep(rows, caller, rows[k].id, amount);
      s.reply.Ok? && s.reply.status == 200 && s.reply.value == a.(balance := a.balance - amount.hundredths)
      && s.rows == rows[k := s.reply.value]
      && Total(s.rows) == Total(rows) - amount.hundredths && WellFormed(s.rows)
  {
    FindAt(rows, k);
    assert InInt4(rows[k].id);
    var s := WithdrawStep(rows, caller, rows[k].id, amount);
    TotalPointUpdate(rows, k, s.reply.value);
    PointUpdateKeepsWellFormed(rows, k, s.reply.value);
  }

  /**
   * A status change reaches an existing row exactly when the status is one of
   * the three names and the account is the caller's.
   */
  lemma StatusAt(rows: seq<Account>, caller: int, k: nat, status: Value)
    requires WellFormed(rows) && k < |rows|
    ensures var s := StatusStep(rows, caller, rows[k].id, status);
      (s.reply.Ok? <==> ParseStatus(status).Some? && rows[k].userId == caller)
      && (ParseStatus(status).Some? && rows[k].userId != caller ==> s.reply == Fail(404, Message("Account not found")))
  {
    FindAt(rows, k);
  }

  /** A status change that succeeds sets that one field of that one row, and touches no balance. */
  lemma StatusSets(rows: seq<Account>, caller: int, k: nat, status: Value)
    requires WellFormed(rows) && k < |rows|
    requires ParseStatus(status).Some? && rows[k].userId == caller
    ensures var s := StatusStep(rows, caller, rows[k].id, status);
      s.reply.Ok? && s.reply.value == rows[k].(status := ParseStatus(status).value)
      && s.rows == rows[k := s.reply.value] && Total(s.rows) == Total(rows) && WellFormed(s.rows)
  {
    FindAt(rows, k);
    var b := rows[k].(status := ParseStatus(status).value);
    assert StatusStep(rows, caller, rows[k].id, status) == Step(rows[k := b], Ok(200, b));
    TotalPointUpdate(rows, k, b);
    PointUpdateKeepsWellFormed(rows, k, b);
  }

  /**
   * What a withdrawal that went through did, named by the account id: the
   * caller's active row with that id covered the amount and lost exactly it.
   */
  lemma WithdrawSucceeded(rows: seq<Account>, caller: int, id: int, amount: Value)
    requires WellFormed(rows) && WithdrawStep(rows, caller, id, amount).reply.Ok?
    ensures Find(rows, id).Some? && amount.Number?
    ensures var k, s := Find(rows, id).value, WithdrawStep(rows, caller, id, amount);
      rows[k].userId == caller && rows[k].status == Active && 1 <= amount.hundredths <= rows[k].balance
      && s.reply.value == rows[k].(balance := rows[k].balance - amount.hundredths)
      && s.rows == rows[k := s.reply.value]
      && Total(s.rows) == Total(rows) - amount.hundredths && WellFormed(s.rows)
  {
    var k := Find(rows, id).value;
    WithdrawAt(rows, caller, k, amount);
    WithdrawDebits(rows, caller, k, amount);
  }

  /**
   * What a deposit that went through did, named by the account id: the active
   * row with that id gained exactly the amount.
   */
  lemma DepositSucceeded(rows: seq<Account>, id: int, amount: Value)
    requires WellFormed(rows) && DepositStep(rows, id, amount).reply.Ok?
    ensures Find(rows, id).Some? && amount.Number?
    ensures var k, s := Find(rows, id).value, DepositStep(rows, id, amount);
      rows[k].status == Active && 1 <= amount.hundredths && rows[k].balance + amount.hundredths <= MaxBalance
      && s.reply.value == rows[k].(balance := rows[k].balance + amount.hundredths)
      && s.rows == rows[k := s.reply.value]
      && Total(s.rows) == Total(rows) + amount.hundredths && WellFormed(s.rows)
  {
    var k := Find(rows, id).value;
    DepositAt(rows, k, amount);
    DepositCredits(rows, k, amount);
  }

  /**
   * Depositing back what was just withdrawn from the same account always
   * goes through and restores the table exactly.
   */
  lemma RefundUndoesWithdraw(rows: seq<Account>, caller: int, id: int, amount: Value)
    requires WellFormed(rows) && WithdrawStep(rows, caller, id, amount).reply.Ok?
    ensures var refund := DepositStep(WithdrawStep(rows, caller, id, amount).rows, id, amount);
      refund.reply.Ok? && refund.rows == rows
  {
    WithdrawSucceeded(rows, caller, id, amount);
    var k := Find(rows, id).value;
    var debited := WithdrawStep(rows, caller, id, amount).rows;
    FindAt(debited, k);
    DepositAt(debited, k, amount);
    DepositCredits(debited, k, amount);
    var refund := DepositStep(debited, id, amount);
    assert refund.reply.value == rows[k];
    assert refund.rows == debited[k := rows[k]];
    assert debited[k := rows[k]] == rows;
  }

  /**
   * Opening an account adds one empty, active account owned by the caller,
   * with the requested type, the given currency ("USD" unless one is given,
   * three characters either way), the generated number and the clock
   * reading, and keeps the table well formed when `id` and `now` are fresh.
   */
  lemma CreateOpensAccount(rows: seq<Account>, caller: int, body: CreateAccountBody, id: int, number: string, now: nat)
    requires WellFormed(rows) && 1 <= id
    requires forall k :: 0 <= k < |rows| ==> rows[k].id < id && rows[k].createdAt < now
    ensures var s := CreateStep(rows, caller, body, id, number, now);
      (s.reply.Ok? <==> CreateAccountErrors(body) == [] && id <= MaxSerial
                        && forall k :: 0 <= k < |rows| ==> rows[k].number != number)
      && (s.reply.Ok? ==>
            var a := s.reply.value;
            a.id == id && a.userId == caller && a.balance == 0 && a.status == Active
            && a.kind == ToStr(body.accountType) && a.kind in AccountTypes
            && a.currency == CurrencyOf(body.currency) && |a.currency| == 3
            && (body.currency.Absent? ==> a.currency == "USD")
            && a.number == number && a.createdAt == now
            && Total(s.rows) == Total(rows) && WellFormed(s.rows))
  {
    var s := CreateStep(rows, caller, body, id, number, now);
    if s.reply.Ok? {
      assert s.rows[..|rows|] == rows;
    }
  }

  // ----------------------------------------------------------------- reads

  /** The caller's rows, in table order. */
  function Owned(rows: seq<Account>, caller: int): (r: seq<Account>)
    ensures forall a :: a in r <==> a in rows && a.userId == caller
    ensures |r| <= |rows|
  {
    if rows == [] then []
    else
      var rest := Owned(rows[..|rows| - 1], caller);
      assert rows == rows[..|rows| - 1] + [rows[|rows| - 1]];
      if rows[|rows| - 1].userId == caller then rest + [rows[|rows| - 1]] else rest
  }

  // OldestFirst, NewestFirst and ReverseNewestFirst are the same order on
  // creation times as in TransactionLog, stated here for account rows.

  /** Creation times increase along `s`. */
  ghost predicate OldestFirst(s: seq<Account>)
  {
    forall i, j :: 0 <= i < j < |s| ==> s[i].createdAt < s[j].createdAt
  }

  /** Creation times decrease along `s`. */
  ghost predicate NewestFirst(s: seq<Account>)
  {
    forall i, j :: 0 <= i < j < |s| ==> s[i].createdAt > s[j].createdAt
  }

  /** A subsequence of a well-formed table keeps creation times increasing. */
  lemma {:induction false} OwnedIncreasing(rows: seq<Account>, caller: int)
    requires WellFormed(rows)
    ensures OldestFirst(Owned(rows, caller))
    decreases |rows|
  {
    if rows != [] {
      var n := |rows| - 1;
      OwnedIncreasing(rows[..n], caller);
      var rest, r := Owned(rows[..n], caller), Owned(rows, caller);
      if rows[n].userId == caller {
        assert r == rest + [rows[n]];
        forall i, j | 0 <= i < j < |r| ensures r[i].createdAt < r[j].createdAt {
          assert r[i] == rest[i];
          if j == |rest| {
            assert r[j] == rows[n];
            assert rest[i] in rows[..n];
            var m :| 0 <= m < n && rows[..n][m] == rest[i];
            assert rows[m].createdAt < rows[n].createdAt;
          } else {
            assert r[j] == rest[j];
          }
        }
      } else {
        assert r == rest;
      }
    }
  }

  /** GET /: the caller's accounts, newest first. */
  function OwnAccounts(rows: seq<Account>, caller: int): (r: seq<Account>)
    ensures forall a :: a in r <==> a in rows && a.userId == caller
  {
    var own := Owned(rows, caller);
    var r := Sequences.Reverse(own);
    assert forall a :: a in r <==> a in own by {
      assert multiset(r) == multiset(own);
      forall a ensures (a in r <==> a in multiset(r)) && (a in own <==> a in multiset(own)) { }
    }
    r
  }

  /** The listing is ordered by creation time, newest first. */
  lemma OwnAccountsNewestFirst(rows: seq<Account>, caller: int)
    requires WellFormed(rows)
    ensures NewestFirst(OwnAccounts(rows, caller))
  {
    OwnedIncreasing(rows, caller);
    ReverseNewestFirst(Owned(rows, caller));
  }

  lemma ReverseNewestFirst(s: seq<Account>)
    requires OldestFirst(s)
    ensures NewestFirst(Sequences.Reverse(s))
  {
    var r := Sequences.Reverse(s);
    forall i, j | 0 <= i < j < |r| ensures r[i].createdAt > r[j].createdAt {
      assert r[i] == s[|s| - 1 - i] && r[j] == s[|s| - 1 - j];
    }
  }

  /** GET /:accountId: the caller's account with that id, whatever its status. */
  function GetAccountById(rows: seq<Account>, caller: int, id: int): (r: Reply<Account>)
    ensures r.Ok? ==> r.value in rows && r.value.userId == caller && r.value.id == id
    ensures !InInt4(id) ==> r == Fail(500, Message("Failed to retrieve account"))
    ensures InInt4(id) && Find(rows, id).None? ==> r == Fail(404, Message("Account not found"))
    ensures InInt4(id) && r.Fail? ==> r == Fail(404, Message("Account not found"))
  {
    if !InInt4(id) then Fail(500, Message("Failed to retrieve account"))
    else match Find(rows, id)
      case None => Fail(404, Message("Account not found"))
      case Some(k) =>
        if rows[k].userId == caller then Ok(200, rows[k]) else Fail(404, Message("Account not found"))
  }

  /** GET /:accountId/balance: balance and currency of the caller's account with that id. */
  function GetBalance(rows: seq<Account>, caller: int, id: int): (r: Reply<BalanceView>)
    ensures r.Ok? <==> GetAccountById(rows, caller, id).Ok?
    ensures r.Ok? ==> var a := GetAccountById(rows, caller, id).value;
      r.value == BalanceView(a.balance, a.currency)
    ensures !InInt4(id) ==> r == Fail(500, Message("Failed to retrieve balance"))
    ensures InInt4(id) && r.Fail? ==> r == Fail(404, Message("Account not found"))
  {
    match GetAccountById(rows, caller, id)
    case Ok(_, a) => Ok(200, BalanceView(a.balance, a.currency))
    case Fail(status, _) =>
      if status == 500 then Fail(500, Message("Failed to retrieve balance")) else Fail(404, Message("Account not found"))
  }

  /** The lookups answer 404 for an account of another user, exactly as for a missing one. */
  lemma LookupsAreOwnerScoped(rows: seq<Account>, caller: int, k: nat)
    requires WellFormed(rows) && k < |rows|
    ensures GetAccountById(rows, caller, rows[k].id).Ok? <==> rows[k].userId == caller
    ensures rows[k].userId != caller ==>
      GetAccountById(rows, caller, rows[k].id) == Fail(404, Message("Account not found"))
      && GetBalance(rows, caller, rows[k].id) == Fail(404, Message("Account not found"))
  {
    FindAt(rows, k);
  }

  // ---------------------------------------------------------------- routes

  /** The account routes; `number` is the freshly generated account number. */
  datatype AccountRequest =
    | PostAccount(body: CreateAccountBody, number: string)
    | GetAccounts
    | GetAccount(id: int)
    | PostDeposit(id: int, amount: Value)
    | PostWithdraw(id: int, amount: Value)
    | GetBalanceOf(id: int)
    | PatchStatus(id: int, status: Value)

  datatype AccountPayload = OneAccount(account: Account) | AccountList(accounts: seq<Account>) | BalanceOnly(view: BalanceView)

  function AsOne(s: Step<Account>): (t: Step<AccountPayload>)
    ensures t.rows == s.rows && t.reply.Ok? == s.reply.Ok?
  {
    match s.reply
    case Ok(status, a) => Step(s.rows, Ok(status, OneAccount(a)))
    case Fail(status, body) => Step(s.rows, Fail(status, body))
  }

  /** Whether a route may change the table. */
  predicate Writes(req: AccountRequest)
  {
    req.PostAccount? || req.PostDeposit? || req.PostWithdraw? || req.PatchStatus?
  }

  /**
   * The router: the authenticate middleware runs before any validator or
   * controller, so a refused caller gets the middleware's answer and the
   * table is untouched; reads never change the table; deposit and withdraw
   * run the same amount validator, and the status route none.
   */
  function Serve(rows: seq<Account>, nextId: int, clock: nat, auth: Auth, req: AccountRequest)
    : (s: Step<AccountPayload>)
    ensures auth.Denied? ==> s == Step(rows, Fail(auth.status, Message(auth.message)))
    ensures !Writes(req) ==> s.rows == rows
    ensures auth.Authenticated? && (req.PostDeposit? || req.PostWithdraw?) ==>
      (s.reply.Fail? && s.reply.body.FieldErrors? <==> AmountErrors(req.amount) != [])
    ensures req.PatchStatus? ==> !(s.reply.Fail? && s.reply.body.FieldErrors?)
  {
    match auth
    case Denied(status, message) => Step(rows, Fail(status, Message(message)))
    case Authenticated(caller) =>
      match req
      case PostAccount(body, number) => AsOne(CreateStep(rows, caller, body, nextId, number, clock))
      case GetAccounts => Step(rows, Ok(200, AccountList(OwnAccounts(rows, caller))))
      case GetAccount(id) => AsOne(Step(rows, GetAccountById(rows, caller, id)))
      case PostDeposit(id, amount) => AsOne(DepositStep(rows, id, amount))
      case PostWithdraw(id, amount) => AsOne(WithdrawStep(rows, caller, id, amount))
      case GetBalanceOf(id) =>
        (match GetBalance(rows, caller, id)
         case Ok(status, v) => Step(rows, Ok(status, BalanceOnly(v)))
         case Fail(status, body) => Step(rows, Fail(status, body)))
      case PatchStatus(id, status) => AsOne(StatusStep(rows, caller, id, status))
  }

  // ---------------------------------------------------------------- ledger

  /**
   * The accounts table as the accounts API holds it. `nextId` is the next
   * SERIAL value and `clock` the next CURRENT_TIMESTAMP reading; both move
   * only when a row is inserted.
   */
  class Ledger {
    var rows: seq<Account>
    var nextId: int
    var clock: nat

    ghost predicate Valid()
      reads this
    {
      WellFormed(rows) && 1 <= nextId
      && forall k :: 0 <= k < |rows| ==> rows[k].id < nextId && rows[k].createdAt < clock
    }

    /** A row replaced by one with the same key and creation time keeps the counters ahead of the table. */
    static lemma KeepsKeys(rows: seq<Account>, k: nat, b: Account)
      requires k < |rows| && b.id == rows[k].id && b.createdAt == rows[k].createdAt
      ensures forall j :: 0 <= j < |rows| ==> rows[k := b][j].id == rows[j].id && rows[k := b][j].createdAt == rows[j].createdAt
    {
    }

    /** The UPDATE of one row: row `k` becomes `b`, which keeps its key, number and creation time. */
    method Put(k: nat, b: Account)
      requires Valid() && k < |rows|
      requires b.id == rows[k].id && b.number == rows[k].number && b.createdAt == rows[k].createdAt
      requires 0 <= b.balance <= MaxBalance
      modifies this
      ensures Valid() && rows == old(rows)[k := b] && nextId == old(nextId) && clock == old(clock)
    {
      PointUpdateKeepsWellFormed(rows, k, b);
      KeepsKeys(rows, k, b);
      rows := rows[k := b];
    }

    constructor()
      ensures Valid() && rows == [] && nextId == 1 && clock == 0
    {
      rows := [];
      nextId := 1;
      clock := 0;
    }

    /** createAccount: INSERT one row with the column defaults. */
    method CreateAccount(caller: int, body: CreateAccountBody, number: string) returns (r: Reply<Account>)
      requires Valid()
      modifies this
      ensures Valid()
      ensures Step(rows, r) == CreateStep(old(rows), caller, body, old(nextId), number, old(clock))
      ensures r.Ok? ==> nextId == old(nextId) + 1 && clock == old(clock) + 1
      ensures r.Fail? ==> nextId == old(nextId) && clock == old(clock)
    {
      var errs := CreateAccountErrors(body);
      if errs != [] {
        return Fail(400, FieldErrors(errs));
      }
      if nextId > MaxSerial || NumberTaken(rows, number) {
        return Fail(500, Message("Failed to create account"));
      }
      var a := Account(nextId, caller, number, ToStr(body.accountType), 0, CurrencyOf(body.currency), Active, clock);
      CreateOpensAccount(rows, caller, body, nextId, number, clock);
      rows := rows + [a];
      nextId := nextId + 1;
      clock := clock + 1;
      r := Ok(201, a);
    }

    /** deposit: UPDATE the balance of the active row with that id. */
    method Deposit(id: int, amount: Value) returns (r: Reply<Account>)
      requires Valid()
      modifies this
      ensures Valid() && nextId == old(nextId) && clock == old(clock)
      ensures Step(rows, r) == DepositStep(old(rows), id, amount)
    {
      var errs := AmountErrors(amount);
      if errs != [] {
        return Fail(400, FieldErrors(errs));
      }
      if !InInt4(id) {
        return Fail(500, Message("Deposit failed"));
      }
      var found := Find(rows, id);
      if found.None? || rows[found.value].status != Active {
        return Fail(404, Message("Account not found or inactive"));
      }
      var k := found.value;
      if rows[k].balance + amount.hundredths > MaxBalance {
        return Fail(500, Message("Deposit failed"));
      }
      DepositCredits(rows, k, amount);
      var b := rows[k].(balance := rows[k].balance + amount.hundredths);
      Put(k, b);
      r := Ok(200, b);
    }

    /** withdraw: check the caller's active row covers the amount, then UPDATE its balance. */
    method Withdraw(caller: int, id: int, amount: Value) returns (r: Reply<Account>)
      requires Valid()
      modifies this
      ensures Valid() && nextId == old(nextId) && clock == old(clock)
      ensures Step(rows, r) == WithdrawStep(old(rows), caller, id, amount)
    {
      var errs := AmountErrors(amount);
      if errs != [] {
        return Fail(400, FieldErrors(errs));
      }
      if !InInt4(id) {
        return Fail(500, Message("Withdrawal failed"));
      }
      var found := Find(rows, id);
      if found.None? || rows[found.value].userId != caller || rows[found.value].status != Active {
        return Fail(404, Message("Account not found or inactive"));
      }
      var k := found.value;
      if rows[k].balance < amount.hundredths {
        return Fail(400, Message("Insufficient funds"));
      }
      WithdrawDebits(rows, caller, k, amount);
      var b := rows[k].(balance := rows[k].balance - amount.hundredths);
      Put(k, b);
      r := Ok(200, b);
    }

    /** updateStatus: set the status of the caller's row with that id. */
    method UpdateStatus(caller: int, id: int, status: Value) returns (r: Reply<Account>)
      requires Valid()
      modifies this
      ensures Valid() && nextId == old(nextId) && clock == old(clock)
      ensures Step(rows, r) == StatusStep(old(rows), caller, id, status)
    {
      var st := ParseStatus(status);
      if st.None? {
        return Fail(400, Message("Invalid status"));
      }
      if !InInt4(id) {
        return Fail(500, Message("Failed to update status"));
      }
      var found := Find(rows, id);
      if found.None? || rows[found.value].userId != caller {
        return Fail(404, Message("Account not found"));
      }
      var k := found.value;
      StatusSets(rows, caller, k, status);
      var b := rows[k].(status := st.value);
      Put(k, b);
      r := Ok(200, b);
    }

    /** One request through the account routes. */
    method Handle(auth: Auth, req: AccountRequest) returns (r: Reply<AccountPayload>)
      requires Valid()
      modifies this
      ensures Valid()
      ensures Step(rows, r) == Serve(old(rows), old(nextId), old(clock), auth, req)
      ensures !Writes(req) || auth.Denied? ==> rows == old(rows) && nextId == old(nextId) && clock == old(clock)
      ensures auth.Authenticated? && req.PostAccount? && r.Ok? ==> nextId == old(nextId) + 1 && clock == old(clock) + 1
      ensures !(auth.Authenticated? && req.PostAccount? && r.Ok?) ==> nextId == old(nextId) && clock == old(clock)
    {
      if auth.Denied? {
        return Fail(auth.status, Message(auth.message));
      }
      var caller := auth.userId;
      match req {
        case PostAccount(body, number) =>
          var a := CreateAccount(caller, body, number);
          r := AsOne(Step(rows, a)).reply;
        case GetAccounts =>
          r := Ok(200, AccountList(OwnAccounts(rows, caller)));
        case GetAccount(id) =>
          r := AsOne(Step(rows, GetAccountById(rows, caller, id))).reply;
        case PostDeposit(id, amount) =>
          var a := Deposit(id, amount);
          r := AsOne(Step(rows, a)).reply;
        case PostWithdraw(id, amount) =>
          var a := Withdraw(caller, id, amount);
          r := AsOne(Step(rows, a)).reply;
        case GetBalanceOf(id) =>
          r := Serve(rows, nextId, clock, auth, req).reply;
        case PatchStatus(id, status) =>
          var a := UpdateStatus(caller, id, status);
          r := AsOne(Step(rows, a)).reply;
      }
    }
  }
}
