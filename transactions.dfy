/**
 * The transactions API as a service object: it owns the transactions table
 * and its counters and drives the accounts table through the ledger. Its
 * methods run the handlers step by step and are proved to agree with the
 * specification functions of the `Saga` and `TransactionLog` modules.
 */
module Transactions {
  import opened Wrappers
  import opened Json
  import opened Http
  import opened Accounts
  import opened TransactionRoutes
  import opened TransactionLog
  import opened Saga

  /** The five routes of the transactions API, with what each reads from the request. */
  datatype TxnRequest =
    | PostTransfer(transfer: TransferBody)
    | PostPayment(payment: PaymentBody)
    | GetTransactions(limit: Param, offset: Param)
    | GetTransaction(txnId: string)
    | GetAccountTransactions(accountId: int, limit: Param, offset: Param)

  datatype TxnPayload = OneTxn(txn: Txn) | TxnList(txns: seq<Txn>)

  /** Everything one request leaves behind: both tables, the answer and the calls made to the accounts API. */
  datatype Outcome = Outcome(rows: seq<Account>, log: seq<Txn>, reply: Reply<TxnPayload>, calls: seq<LedgerCall>)

  function AsOneTxn(r: Reply<Txn>): (p: Reply<TxnPayload>)
    ensures p.Ok? == r.Ok? && p.status == r.status
  {
    match r
    case Ok(status, t) => Ok(status, OneTxn(t))
    case Fail(status, body) => Fail(status, body)
  }

  function AsTxnList(r: Reply<seq<Txn>>): (p: Reply<TxnPayload>)
    ensures p.Ok? == r.Ok? && p.status == r.status
  {
    match r
    case Ok(status, ts) => Ok(status, TxnList(ts))
    case Fail(status, body) => Fail(status, body)
  }

  /** The table after an attempt: one more row when it committed one. */
  function Commit(log: seq<Txn>, row: Option<Txn>): (r: seq<Txn>)
    ensures row.None? ==> r == log
    ensures row.Some? ==> r == log + [row.value]
  {
    match row
    case None => log
    case Some(t) => log + [t]
  }

  /** Whether a route may call the accounts API or write a row. */
  predicate Writes(req: TxnRequest)
  {
    req.PostTransfer? || req.PostPayment?
  }

  /**
   * The router: every route runs the authenticate middleware first, then
   * its validators and its controller. `serial` and `now` are the next
   * SERIAL value and clock reading, `txnId` the generated correlation id and
   * `faults` what happens to each call made to the accounts API.
   */
  function Route(rows: seq<Account>, log: seq<Txn>, serial: int, now: nat, header: Option<string>, verify: VerifyReply,
                 req: TxnRequest, txnId: string, faults: Faults): (o: Outcome)
    ensures Authenticate(header, verify).Denied? ==>
      o.rows == rows && o.log == log && o.calls == [] && o.reply.Fail? && o.reply.status in {401, 500}
    ensures !Writes(req) ==> o.rows == rows && o.log == log && o.calls == []
    ensures o.log == log || (|o.log| == |log| + 1 && o.log[..|log|] == log && o.reply.Ok? && o.reply.status == 201)
  {
    match Authenticate(header, verify)
    case Denied(status, message) => Outcome(rows, log, Fail(status, Message(message)), [])
    case Authenticated(caller) =>
      match req
      case PostTransfer(body) =>
        var a := TransferSpec(rows, log, serial, now, caller, body, txnId, faults);
        assert Commit(log, a.row)[..|log|] == log;
        Outcome(a.rows, Commit(log, a.row), AsOneTxn(a.reply), a.calls)
      case PostPayment(body) =>
        var a := PaymentSpec(rows, log, serial, now, caller, body, txnId, faults.debit);
        assert Commit(log, a.row)[..|log|] == log;
        Outcome(a.rows, Commit(log, a.row), AsOneTxn(a.reply), a.calls)
      case GetTransactions(limit, offset) =>
        Outcome(rows, log, AsTxnList(ListTransactions(log, caller, limit, offset)), [])
      case GetTransaction(id) =>
        Outcome(rows, log, AsOneTxn(GetTransactionById(log, caller, id)), [])
      case GetAccountTransactions(accountId, limit, offset) =>
        Outcome(rows, log, AsTxnList(ListAccountTransactions(log, caller, accountId, limit, offset)), [])
  }

  /** A row appended at the counters keeps the counters ahead of the table once they move on. */
  lemma AppendStaysFresh(log: seq<Txn>, t: Txn)
    requires FreshFor(log, t.id, t.createdAt)
    ensures FreshFor(log + [t], t.id + 1, t.createdAt + 1)
  {
    var r := log + [t];
    forall k | 0 <= k < |r| ensures r[k].id < t.id + 1 && r[k].createdAt < t.createdAt + 1 {
      if k < |log| { assert r[k] == log[k]; }
    }
  }

  /**
   * The transactions API. `nextSerial` is the next SERIAL value and `clock`
   * the next CURRENT_TIMESTAMP reading; both move only when a row is
   * committed.
   */
  class TransactionService {
    const ledger: Ledger
    var log: seq<Txn>
    var nextSerial: int
    var clock: nat

    /**
     * Both tables are well formed; in particular every row of the
     * transactions table is completed, since a failed attempt never commits.
     */
    ghost predicate Valid()
      reads this, ledger
    {
      ledger.Valid() && WellFormedLog(log) && 1 <= nextSerial && FreshFor(log, nextSerial, clock)
    }

    constructor(ledger: Ledger)
      requires ledger.Valid()
      ensures Valid() && this.ledger == ledger && log == [] && nextSerial == 1 && clock == 0
    {
      this.ledger := ledger;
      log := [];
      nextSerial := 1;
      clock := 0;
    }

    /** One axios call to the accounts API under its delivery. */
    method Call(caller: int, call: LedgerCall, d: Delivery) returns (result: CallResult)
      requires ledger.Valid()
      modifies ledger
      ensures ledger.Valid() && ledger.nextId == old(ledger.nextId) && ledger.clock == old(ledger.clock)
      ensures Leg(ledger.rows, result) == Deliver(old(ledger.rows), caller, call, d)
    {
      if d.Unreachable? {
        return Rejected("", d.reason);
      }
      if d.Refused? {
        return Rejected(d.error, AxiosStatusMessage(d.status));
      }
      var reply: Reply<Account>;
      match call {
        case WithdrawCall(id, amount) => reply := ledger.Withdraw(caller, id, amount);
        case DepositCall(id, amount) => reply := ledger.Deposit(id, amount);
      }
      if d.ReplyLost? {
        return Rejected("", d.reason);
      }
      result := Settle(reply);
    }

    /** The INSERT of a completed row, committed. */
    method Insert(row: Txn)
      requires Valid() && WellFormedRow(row) && row.id == nextSerial && row.createdAt == clock
      requires forall k :: 0 <= k < |log| ==> log[k].txnId != row.txnId
      modifies this
      ensures Valid() && log == old(log) + [row] && nextSerial == old(nextSerial) + 1 && clock == old(clock) + 1
    {
      AppendKeepsLogWellFormed(log, row);
      AppendStaysFresh(log, row);
      log := log + [row];
      nextSerial := nextSerial + 1;
      clock := clock + 1;
    }

    /** The INSERT of a completed row at the counters, after ledger calls that left `rows` behind. */
    method Store(row: Txn, ghost rows: seq<Account>, ghost calls: seq<LedgerCall>) returns (r: Reply<Txn>)
      requires Valid() && WellFormedRow(row) && row.id == nextSerial && row.createdAt == clock
      modifies this
      ensures Valid()
      ensures var a := Record(rows, calls, old(log), row);
        r == a.reply && log == Commit(old(log), a.row)
        && (a.row.Some? ==> nextSerial == old(nextSerial) + 1 && clock == old(clock) + 1)
        && (a.row.None? ==> nextSerial == old(nextSerial) && clock == old(clock))
    {
      if InsertFails(log, nextSerial, row.txnId) {
        return Fail(500, Message(InsertError(log, nextSerial, row.txnId)));
      }
      Insert(row);
      r := Ok(201, row);
    }

    /**
     * The two legs of a transfer and the compensation, as the handler runs
     * them: withdraw, then the credit legs when the withdrawal went through.
     */
    method Legs(caller: int, from: int, to: int, amount: Value, faults: Faults)
      returns (phase: Phase, error: string, calls: seq<LedgerCall>)
      requires ledger.Valid()
      modifies ledger
      ensures ledger.Valid() && ledger.nextId == old(ledger.nextId) && ledger.clock == old(ledger.clock)
      ensures var s := RunTransfer(old(ledger.rows), caller, from, to, amount, faults);
        ledger.rows == s.rows && phase == s.phase && error == s.error && calls == s.calls
    {
      var debit := Call(caller, WithdrawCall(from, amount), faults.debit);
      if debit.Rejected? {
        return DebitFailed, OrElse(OrElse(debit.dataError, "Withdrawal failed"), "Transfer failed"), [WithdrawCall(from, amount)];
      }
      var rest;
      phase, error, rest := Credit(caller, from, to, amount, faults);
      calls := [WithdrawCall(from, amount)] + rest;
    }

    /** The deposit to the destination and, when it fails, one deposit back to the source. */
    method Credit(caller: int, from: int, to: int, amount: Value, faults: Faults)
      returns (phase: Phase, error: string, calls: seq<LedgerCall>)
      requires ledger.Valid()
      modifies ledger
      ensures ledger.Valid() && ledger.nextId == old(ledger.nextId) && ledger.clock == old(ledger.clock)
      ensures var s := CreditLegs(old(ledger.rows), caller, from, to, amount, faults);
        ledger.rows == s.rows && phase == s.phase && error == s.error && calls == s.calls
    {
      var credit := Call(caller, DepositCall(to, amount), faults.credit);
      if credit.Resolved? {
        return Credited, "", [DepositCall(to, amount)];
      }
      var back := Call(caller, DepositCall(from, amount), faults.refund);
      calls := [DepositCall(to, amount), DepositCall(from, amount)];
      if back.Resolved? {
        phase, error := Compensated, OrElse(OrElse(credit.dataError, "Deposit failed"), "Transfer failed");
      } else {
        phase, error := Unreconciled, OrElse(back.message, "Transfer failed");
      }
    }

    /** The transfer handler past validation, between two different accounts. */
    method RecordTransfer(caller: int, from: int, to: int, amount: Value, description: Option<string>,
                          txnId: string, faults: Faults)
      returns (r: Reply<Txn>, calls: seq<LedgerCall>)
      requires Valid() && from != to
      modifies this, ledger
      ensures Valid() && ledger.nextId == old(ledger.nextId) && ledger.clock == old(ledger.clock)
      ensures var a := TransferStep(old(ledger.rows), old(log), old(nextSerial), old(clock), caller, from, to, amount,
                                    description, txnId, faults);
        ledger.rows == a.rows && r == a.reply && calls == a.calls && log == Commit(old(log), a.row)
        && (a.row.Some? ==> nextSerial == old(nextSerial) + 1 && clock == old(clock) + 1)
        && (a.row.None? ==> nextSerial == old(nextSerial) && clock == old(clock))
    {
      ghost var rows0 := ledger.rows;
      var phase, error;
      phase, error, calls := Legs(caller, from, to, amount, faults);
      if phase != Credited {
        return Fail(500, Message(error)), calls;
      }
      var row := Txn(nextSerial, txnId, caller, Some(from), Some(to), Kind.Transfer, amount.hundredths, "USD",
                     Completed, description, clock, Some(clock));
      BothLegsMoveMoney(rows0, caller, from, to, amount, faults);
      assert WellFormedRow(row);
      r := Store(row, ledger.rows, calls);
    }

    /** POST /transfer, past authentication. */
    method Transfer(caller: int, body: TransferBody, txnId: string, faults: Faults)
      returns (r: Reply<Txn>, calls: seq<LedgerCall>)
      requires Valid()
      modifies this, ledger
      ensures Valid() && ledger.nextId == old(ledger.nextId) && ledger.clock == old(ledger.clock)
      ensures var a := TransferSpec(old(ledger.rows), old(log), old(nextSerial), old(clock), caller, body, txnId, faults);
        ledger.rows == a.rows && r == a.reply && calls == a.calls && log == Commit(old(log), a.row)
        && (a.row.Some? ==> nextSerial == old(nextSerial) + 1 && clock == old(clock) + 1)
        && (a.row.None? ==> nextSerial == old(nextSerial) && clock == old(clock))
    {
      var errs := TransferErrors(body);
      if errs != [] {
        return Fail(400, FieldErrors(errs)), [];
      }
      if SameAccount(body) {
        return Fail(400, Message("Cannot transfer to the same account")), [];
      }
      r, calls := RecordTransfer(caller, IntValue(body.fromAccount), IntValue(body.toAccount), body.amount,
                                 Description(body.description), txnId, faults);
    }

    /** The payment handler past validation: the debit of `account`, then the INSERT. */
    method RecordPayment(caller: int, account: int, amount: Value, description: string, txnId: string, debit: Delivery)
      returns (r: Reply<Txn>, calls: seq<LedgerCall>)
      requires Valid()
      modifies this, ledger
      ensures Valid() && ledger.nextId == old(ledger.nextId) && ledger.clock == old(ledger.clock)
      ensures var a := PaymentStep(old(ledger.rows), old(log), old(nextSerial), old(clock), caller, account, amount,
                                   description, txnId, debit);
        ledger.rows == a.rows && r == a.reply && calls == a.calls && log == Commit(old(log), a.row)
        && (a.row.Some? ==> nextSerial == old(nextSerial) + 1 && clock == old(clock) + 1)
        && (a.row.None? ==> nextSerial == old(nextSerial) && clock == old(clock))
    {
      ghost var rows0 := ledger.rows;
      var leg := Call(caller, WithdrawCall(account, amount), debit);
      calls := [WithdrawCall(account, amount)];
      if leg.Rejected? {
        return Fail(500, Message(OrElse(OrElse(leg.dataError, "Payment failed"), "Payment failed"))), calls;
      }
      var row := Txn(nextSerial, txnId, caller, Some(account), None, Kind.Payment, amount.hundredths, "USD",
                     Completed, Some(description), clock, Some(clock));
      WithdrawSucceeded(rows0, caller, account, amount);
      r := Store(row, ledger.rows, calls);
    }

    /** POST /payment, past authentication. */
    method Payment(caller: int, body: PaymentBody, txnId: string, debit: Delivery)
      returns (r: Reply<Txn>, calls: seq<LedgerCall>)
      requires Valid()
      modifies this, ledger
      ensures Valid() && ledger.nextId == old(ledger.nextId) && ledger.clock == old(ledger.clock)
      ensures var a := PaymentSpec(old(ledger.rows), old(log), old(nextSerial), old(clock), caller, body, txnId, debit);
        ledger.rows == a.rows && r == a.reply && calls == a.calls && log == Commit(old(log), a.row)
        && (a.row.Some? ==> nextSerial == old(nextSerial) + 1 && clock == old(clock) + 1)
        && (a.row.None? ==> nextSerial == old(nextSerial) && clock == old(clock))
    {
      var errs := PaymentErrors(body);
      if errs != [] {
        return Fail(400, FieldErrors(errs)), [];
      }
      r, calls := RecordPayment(caller, IntValue(body.account), body.amount, PaymentDescription(body), txnId, debit);
    }

    /** One request through the transaction routes. */
    method Handle(header: Option<string>, verify: VerifyReply, req: TxnRequest, txnId: string, faults: Faults)
      returns (r: Reply<TxnPayload>, calls: seq<LedgerCall>)
      requires Valid()
      modifies this, ledger
      ensures Valid()
      ensures var o := Route(old(ledger.rows), old(log), old(nextSerial), old(clock), header, verify, req, txnId, faults);
        ledger.rows == o.rows && log == o.log && r == o.reply && calls == o.calls
      ensures ledger.nextId == old(ledger.nextId) && ledger.clock == old(ledger.clock)
      ensures log == old(log) ==> nextSerial == old(nextSerial) && clock == old(clock)
      ensures log != old(log) ==> nextSerial == old(nextSerial) + 1 && clock == old(clock) + 1
    {
      var auth := Authenticate(header, verify);
      if auth.Denied? {
        return Fail(auth.status, Message(auth.message)), [];
      }
      var caller := auth.userId;
      match req {
        case PostTransfer(body) =>
          var t;
          t, calls := Transfer(caller, body, txnId, faults);
          r := AsOneTxn(t);
        case PostPayment(body) =>
          var t;
          t, calls := Payment(caller, body, txnId, faults.debit);
          r := AsOneTxn(t);
        case GetTransactions(limit, offset) =>
          r, calls := AsTxnList(ListTransactions(log, caller, limit, offset)), [];
        case GetTransaction(id) =>
          r, calls := AsOneTxn(GetTransactionById(log, caller, id)), [];
        case GetAccountTransactions(accountId, limit, offset) =>
          r, calls := AsTxnList(ListAccountTransactions(log, caller, accountId, limit, offset)), [];
      }
    }
  }
}
