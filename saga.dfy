/**
 * The transfer and payment handlers of the transactions API, as functions
 * of the accounts table, the transactions table and what happened to each
 * call the handler made to the accounts API.
 *
 * A transfer is a two-step saga: withdraw from the source, deposit to the
 * destination, and when the deposit fails, one compensating deposit back to
 * the source. The local INSERT of the completed row is committed only when
 * both legs went through; every other path rolls it back, so the only trace
 * a failed attempt leaves is in the accounts table.
 */
module Saga {
  import opened Wrappers
  import opened Json
  import opened Http
  import opened Accounts
  import opened TransactionRoutes
  import opened TransactionLog

  /**
   * How one call to the accounts API went. `Delivered`: the accounts API
   * handled it and its answer came back. `Unreachable`: it never got there.
   * `ReplyLost`: it was handled but the answer did not come back (a timeout,
   * a dropped connection), which the caller cannot tell from `Unreachable`.
   * `Refused`: a non-2xx answer with body `{ error }` ("" when it has none)
   * given before the ledger handler ran, by a gateway or by authentication;
   * its `status` is never 2xx, since axios resolves on those.
   */
  datatype Delivery =
    | Delivered
    | Unreachable(reason: string)
    | ReplyLost(reason: string)
    | Refused(status: nat, error: string)

  /** One delivery per call the handler may make, in the order it makes them. */
  datatype Faults = Faults(debit: Delivery, credit: Delivery, refund: Delivery)

  /** A call to the accounts API: POST /:accountId/withdraw or POST /:accountId/deposit with `{ amount }`. */
  datatype LedgerCall = WithdrawCall(accountId: int, amount: Value) | DepositCall(accountId: int, amount: Value)

  /**
   * How the axios promise settled: resolved, or rejected with
   * `err.response?.data?.error` ("" when absent) and `err.message`.
   */
  datatype CallResult = Resolved | Rejected(dataError: string, message: string)

  datatype Leg = Leg(rows: seq<Account>, result: CallResult)

  /**
   * Where an attempt ended: refused before any call (`Invalid`), on the
   * failed debit, with both legs through (`Credited`, then `Recorded` or
   * `NotRecorded` by the INSERT), or after the compensating deposit went
   * through (`Compensated`) or did not (`Unreconciled`).
   */
  datatype Phase = Invalid | DebitFailed | Credited | Compensated | Unreconciled | Recorded | NotRecorded

  /** The ledger side of a transfer: where it ended, the table, the calls made and the error text. */
  datatype Saga = Saga(phase: Phase, rows: seq<Account>, calls: seq<LedgerCall>, error: string)

  /** A whole attempt: the table after it, the row it committed, its answer and the calls it made. */
  datatype Attempt = Attempt(phase: Phase, rows: seq<Account>, row: Option<Txn>, reply: Reply<Txn>, calls: seq<LedgerCall>)

  /** The ledger handler a call reaches. */
  function Perform(rows: seq<Account>, caller: int, call: LedgerCall): Step<Account>
  {
    match call
    case WithdrawCall(id, amount) => WithdrawStep(rows, caller, id, amount)
    case DepositCall(id, amount) => DepositStep(rows, id, amount)
  }

  /** An answer as axios settles it: 2xx resolves, anything else rejects. */
  function Settle(reply: Reply<Account>): (c: CallResult)
    ensures c.Resolved? <==> reply.Ok?
    ensures reply.Fail? ==>
      c == Rejected(if reply.body.Message? then reply.body.text else "", AxiosStatusMessage(reply.status))
  {
    match reply
    case Ok(_, _) => Resolved
    case Fail(status, body) => Rejected(if body.Message? then body.text else "", AxiosStatusMessage(status))
  }

  /** One call under its delivery: what the table becomes and what the caller sees. */
  function Deliver(rows: seq<Account>, caller: int, call: LedgerCall, d: Delivery): (leg: Leg)
    ensures leg.result.Resolved? <==> d.Delivered? && Perform(rows, caller, call).reply.Ok?
    ensures leg.rows == if d.Delivered? || d.ReplyLost? then Perform(rows, caller, call).rows else rows
    ensures d.Delivered? && Perform(rows, caller, call).reply.Fail? ==>
      leg.result == Settle(Perform(rows, caller, call).reply)
    ensures d.Unreachable? || d.ReplyLost? ==> leg.result == Rejected("", d.reason)
    ensures d.Refused? ==> leg.result == Rejected(d.error, AxiosStatusMessage(d.status))
  {
    match d
    case Delivered =>
      var s := Perform(rows, caller, call);
      Leg(s.rows, Settle(s.reply))
    case ReplyLost(reason) => Leg(Perform(rows, caller, call).rows, Rejected("", reason))
    case Unreachable(reason) => Leg(rows, Rejected("", reason))
    case Refused(status, error) => Leg(rows, Rejected(error, AxiosStatusMessage(status)))
  }

  /**
   * The two legs of a transfer and the compensation. A failed debit throws
   * with the ledger's error text or "Withdrawal failed"; after a debit that
   * went through, the credit and the compensation run as `CreditLegs` says.
   */
  function RunTransfer(rows: seq<Account>, caller: int, from: int, to: int, amount: Value, faults: Faults): (s: Saga)
    ensures s.phase in {DebitFailed, Credited, Compensated, Unreconciled}
    ensures s.phase != Credited ==> s.error != ""
    ensures s.calls == match s.phase
      case DebitFailed => [WithdrawCall(from, amount)]
      case Credited => [WithdrawCall(from, amount), DepositCall(to, amount)]
      case _ => [WithdrawCall(from, amount), DepositCall(to, amount), DepositCall(from, amount)]
  {
    var withdraw := WithdrawCall(from, amount);
    var debit := Deliver(rows, caller, withdraw, faults.debit);
    match debit.result
    case Rejected(debitError, _) =>
      Saga(DebitFailed, debit.rows, [withdraw], OrElse(OrElse(debitError, "Withdrawal failed"), "Transfer failed"))
    case Resolved =>
      var rest := CreditLegs(debit.rows, caller, from, to, amount, faults);
      rest.(calls := [withdraw] + rest.calls)
  }

  /**
   * The credit and the compensation, after a debit that went through. A
   * failed credit triggers one deposit back to the source, after which the
   * credit's error text (or "Deposit failed") is thrown; when that deposit
   * fails too, its own axios error is what propagates. The catch answers
   * `error.message || 'Transfer failed'`.
   */
  function CreditLegs(rows: seq<Account>, caller: int, from: int, to: int, amount: Value, faults: Faults): (s: Saga)
    ensures s.phase in {Credited, Compensated, Unreconciled}
    ensures s.phase != Credited ==> s.error != ""
    ensures s.calls == if s.phase == Credited then [DepositCall(to, amount)]
                       else [DepositCall(to, amount), DepositCall(from, amount)]
  {
    var deposit := DepositCall(to, amount);
    var credit := Deliver(rows, caller, deposit, faults.credit);
    match credit.result
    case Resolved => Saga(Credited, credit.rows, [deposit], "")
    case Rejected(creditError, _) =>
      var refund := DepositCall(from, amount);
      var back := Deliver(credit.rows, caller, refund, faults.refund);
      match back.result
      case Resolved =>
        Saga(Compensated, back.rows, [deposit, refund], OrElse(OrElse(creditError, "Deposit failed"), "Transfer failed"))
      case Rejected(_, message) =>
        Saga(Unreconciled, back.rows, [deposit, refund], OrElse(message, "Transfer failed"))
  }

  /** Whether the INSERT of the completed row fails: the SERIAL is exhausted or the correlation id is taken. */
  predicate InsertFails(log: seq<Txn>, serial: int, txnId: string)
  {
    serial > MaxSerial || exists k :: 0 <= k < |log| && log[k].txnId == txnId
  }

  /** The database's message for a failed INSERT. */
  function InsertError(log: seq<Txn>, serial: int, txnId: string): string
  {
    if serial > MaxSerial then "nextval: reached maximum value of sequence \"transactions_id_seq\" (2147483647)"
    else "duplicate key value violates unique constraint \"transactions_transaction_id_key\""
  }

  /**
   * What the transfer handler does past validation, between the accounts
   * `from` and `to`: the saga, then the INSERT of the completed row when
   * both legs went through. `serial` and `now` are the next SERIAL value and
   * the transaction's CURRENT_TIMESTAMP, `txnId` the generated correlation id.
   */
  function TransferStep(rows: seq<Account>, log: seq<Txn>, serial: int, now: nat, caller: int, from: int, to: int,
                        amount: Value, description: Option<string>, txnId: string, faults: Faults): (a: Attempt)
    ensures a.row.Some? <==> a.phase == Recorded
    ensures a.reply.Ok? <==> a.phase == Recorded
    ensures a.row.Some? ==> a.reply == Ok(201, a.row.value)
  {
    var saga := RunTransfer(rows, caller, from, to, amount, faults);
    if saga.phase != Credited then Attempt(saga.phase, saga.rows, None, Fail(500, Message(saga.error)), saga.calls)
    else Record(saga.rows, saga.calls, log, Txn(serial, txnId, caller, Some(from), Some(to), Transfer, amount.hundredths,
                                                "USD", Completed, description, now, Some(now)))
  }

  /**
   * The INSERT of the completed row `t` once the ledger calls have left
   * `rows` behind: the row is recorded and answered with 201, or the
   * database's error is answered with 500.
   */
  function Record(rows: seq<Account>, calls: seq<LedgerCall>, log: seq<Txn>, t: Txn): (a: Attempt)
    ensures a.rows == rows && a.calls == calls
    ensures a.phase == Recorded <==> !InsertFails(log, t.id, t.txnId)
    ensures a.phase == Recorded ==> a.row == Some(t) && a.reply == Ok(201, t)
    ensures a.phase != Recorded ==>
              a.phase == NotRecorded && a.row.None? && a.reply == Fail(500, Message(InsertError(log, t.id, t.txnId)))
  {
    if InsertFails(log, t.id, t.txnId) then Attempt(NotRecorded, rows, None, Fail(500, Message(InsertError(log, t.id, t.txnId))), calls)
    else Attempt(Recorded, rows, Some(t), Ok(201, t), calls)
  }

  /**
   * POST /transfer: the validators, the same-account guard, then the
   * handler on the two account ids. The guard compares the two ids as
   * accounts (see `TransactionRoutes.SameAccountAsWritten` for the guard as
   * written).
   */
  function TransferSpec(rows: seq<Account>, log: seq<Txn>, serial: int, now: nat, caller: int,
                        body: TransferBody, txnId: string, faults: Faults): (a: Attempt)
    ensures a.row.Some? <==> a.phase == Recorded
    ensures a.reply.Ok? <==> a.phase == Recorded
    ensures a.row.Some? ==> a.reply == Ok(201, a.row.value)
  {
    var errs := TransferErrors(body);
    if errs != [] then Attempt(Invalid, rows, None, Fail(400, FieldErrors(errs)), [])
    else if SameAccount(body) then Attempt(Invalid, rows, None, Fail(400, Message("Cannot transfer to the same account")), [])
    else TransferStep(rows, log, serial, now, caller, IntValue(body.fromAccount), IntValue(body.toAccount), body.amount,
                      Description(body.description), txnId, faults)
  }

  /** A template literal's rendering of a body value. */
  function Interpolate(v: Value): string
  {
    match v
    case Absent => "undefined"
    case Null => "null"
    case _ => ToStr(v)
  }

  /** The description a payment row gets: "Payment to <recipient>: <description or nothing>". */
  function PaymentDescription(body: PaymentBody): string
  {
    "Payment to " + Interpolate(body.recipient) + ": " + (match Description(body.description) case Some(d) => d case None => "")
  }

  /** What the payment handler does past validation: one debit, then the INSERT of the completed row. */
  function PaymentStep(rows: seq<Account>, log: seq<Txn>, serial: int, now: nat, caller: int, account: int,
                       amount: Value, description: string, txnId: string, debit: Delivery): (a: Attempt)
    ensures a.row.Some? <==> a.phase == Recorded
    ensures a.reply.Ok? <==> a.phase == Recorded
    ensures a.row.Some? ==> a.reply == Ok(201, a.row.value)
  {
    var withdraw := WithdrawCall(account, amount);
    var leg := Deliver(rows, caller, withdraw, debit);
    match leg.result
    case Rejected(debitError, _) =>
      Attempt(DebitFailed, leg.rows, None, Fail(500, Message(OrElse(OrElse(debitError, "Payment failed"), "Payment failed"))), [withdraw])
    case Resolved =>
      Record(leg.rows, [withdraw], log, Txn(serial, txnId, caller, Some(account), None, Payment, amount.hundredths,
                                            "USD", Completed, Some(description), now, Some(now)))
  }

  /** POST /payment: the validators, then the handler on the paying account. */
  function PaymentSpec(rows: seq<Account>, log: seq<Txn>, serial: int, now: nat, caller: int,
                       body: PaymentBody, txnId: string, debit: Delivery): (a: Attempt)
    ensures a.row.Some? <==> a.phase == Recorded
    ensures a.reply.Ok? <==> a.phase == Recorded
    ensures a.row.Some? ==> a.reply == Ok(201, a.row.value)
  {
    var errs := PaymentErrors(body);
    if errs != [] then Attempt(Invalid, rows, None, Fail(400, FieldErrors(errs)), [])
    else PaymentStep(rows, log, serial, now, caller, IntValue(body.account), body.amount, PaymentDescription(body), txnId, debit)
  }

  // ------------------------------------------------------ saga properties

  /**
   * When the debit fails, neither the credit nor a compensation is
   * attempted, and the error is the ledger's text or "Withdrawal failed";
   * the table is untouched unless the debit took effect and only its answer
   * was lost.
   */
  lemma DebitFailureStopsSaga(rows: seq<Account>, caller: int, from: int, to: int, amount: Value, faults: Faults)
    requires Deliver(rows, caller, WithdrawCall(from, amount), faults.debit).result.Rejected?
    ensures var s, debit := RunTransfer(rows, caller, from, to, amount, faults),
                            Deliver(rows, caller, WithdrawCall(from, amount), faults.debit);
      s.phase == DebitFailed && s.calls == [WithdrawCall(from, amount)] && s.rows == debit.rows
      && s.error == OrElse(debit.result.dataError, "Withdrawal failed")
      && (!faults.debit.ReplyLost? ==> s.rows == rows)
  {
    var debit := Deliver(rows, caller, WithdrawCall(from, amount), faults.debit);
    assert OrElse(debit.result.dataError, "Withdrawal failed") != "";
  }

  /**
   * When the credit fails after the debit went through, exactly one
   * compensating deposit of the same amount is made to the source. The
   * error is the credit's text (or "Deposit failed") when the compensation
   * went through, and the compensation's own axios message when it did not.
   */
  lemma CreditFailureRefundsSourceOnce(rows: seq<Account>, caller: int, from: int, to: int, amount: Value, faults: Faults)
    requires var debit := Deliver(rows, caller, WithdrawCall(from, amount), faults.debit);
      debit.result.Resolved? && Deliver(debit.rows, caller, DepositCall(to, amount), faults.credit).result.Rejected?
    ensures var s := RunTransfer(rows, caller, from, to, amount, faults);
      var debit := Deliver(rows, caller, WithdrawCall(from, amount), faults.debit);
      var credit := Deliver(debit.rows, caller, DepositCall(to, amount), faults.credit);
      var back := Deliver(credit.rows, caller, DepositCall(from, amount), faults.refund);
      s.calls == [WithdrawCall(from, amount), DepositCall(to, amount), DepositCall(from, amount)] && s.rows == back.rows
      && (back.result.Resolved? ==> s.phase == Compensated && s.error == OrElse(credit.result.dataError, "Deposit failed"))
      && (back.result.Rejected? ==> s.phase == Unreconciled && s.error == OrElse(back.result.message, "Transfer failed"))
  {
    var debit := Deliver(rows, caller, WithdrawCall(from, amount), faults.debit);
    var credit := Deliver(debit.rows, caller, DepositCall(to, amount), faults.credit);
    assert OrElse(credit.result.dataError, "Deposit failed") != "";
  }

  /**
   * When the credit failed without taking effect and the compensation is
   * delivered, the compensation goes through and every balance is back to
   * its value before the transfer.
   */
  lemma RefundRestoresBalances(rows: seq<Account>, caller: int, from: int, to: int, amount: Value, faults: Faults)
    requires WellFormed(rows) && !faults.credit.ReplyLost? && faults.refund.Delivered?
    requires var debit := Deliver(rows, caller, WithdrawCall(from, amount), faults.debit);
      debit.result.Resolved? && Deliver(debit.rows, caller, DepositCall(to, amount), faults.credit).result.Rejected?
    ensures var s := RunTransfer(rows, caller, from, to, amount, faults);
      s.phase == Compensated && s.rows == rows
  {
    RefundUndoesWithdraw(rows, caller, from, amount);
  }

  /**
   * When the credit failed without taking effect and the compensation never
   * reaches the ledger, the source stays debited, nothing is credited, and
   * the error is the compensation's axios message rather than the credit's.
   */
  lemma UnreconciledLeavesSourceDebited(rows: seq<Account>, caller: int, from: int, to: int, amount: Value, faults: Faults)
    requires WellFormed(rows) && !faults.credit.ReplyLost? && (faults.refund.Unreachable? || faults.refund.Refused?)
    requires var debit := Deliver(rows, caller, WithdrawCall(from, amount), faults.debit);
      debit.result.Resolved? && Deliver(debit.rows, caller, DepositCall(to, amount), faults.credit).result.Rejected?
    ensures var s := RunTransfer(rows, caller, from, to, amount, faults);
      s.phase == Unreconciled && s.rows == WithdrawStep(rows, caller, from, amount).rows
      && Total(s.rows) == Total(rows) - amount.hundredths
      && s.error == if faults.refund.Unreachable? then OrElse(faults.refund.reason, "Transfer failed")
                    else AxiosStatusMessage(faults.refund.status)
  {
    var debit := Deliver(rows, caller, WithdrawCall(from, amount), faults.debit);
    assert RunTransfer(rows, caller, from, to, amount, faults).rows
      == CreditLegs(debit.rows, caller, from, to, amount, faults).rows;
    UndeliveredRefundLeavesRows(debit.rows, caller, from, to, amount, faults);
    WithdrawSucceeded(rows, caller, from, amount);
  }

  /** The credit legs of `UnreconciledLeavesSourceDebited`: neither deposit changes the table. */
  lemma UndeliveredRefundLeavesRows(rows: seq<Account>, caller: int, from: int, to: int, amount: Value, faults: Faults)
    requires !faults.credit.ReplyLost? && (faults.refund.Unreachable? || faults.refund.Refused?)
    requires Deliver(rows, caller, DepositCall(to, amount), faults.credit).result.Rejected?
    ensures var s := CreditLegs(rows, caller, from, to, amount, faults);
      s.phase == Unreconciled && s.rows == rows
      && s.error == if faults.refund.Unreachable? then OrElse(faults.refund.reason, "Transfer failed")
                    else AxiosStatusMessage(faults.refund.status)
  {
    if faults.refund.Refused? {
      assert AxiosStatusMessage(faults.refund.status)[0] == 'R';
    }
  }

  /**
   * Between two different accounts the compensation only ever fails when it
   * is not delivered: delivered, it always goes through.
   */
  lemma UnreconciledOnlyWhenRefundUndelivered(rows: seq<Account>, caller: int, from: int, to: int, amount: Value, faults: Faults)
    requires WellFormed(rows) && from != to
    ensures RunTransfer(rows, caller, from, to, amount, faults).phase == Unreconciled ==> !faults.refund.Delivered?
  {
    var debit := Deliver(rows, caller, WithdrawCall(from, amount), faults.debit);
    if debit.result.Resolved? && faults.refund.Delivered? {
      var credit := Deliver(debit.rows, caller, DepositCall(to, amount), faults.credit);
      if credit.rows == debit.rows {
        RefundUndoesWithdraw(rows, caller, from, amount);
      } else {
        RefundAfterCredit(rows, caller, from, to, amount);
      }
    }
  }

  /** After a debit and a credit elsewhere, depositing the amount back to the source goes through. */
  lemma RefundAfterCredit(rows: seq<Account>, caller: int, from: int, to: int, amount: Value)
    requires WellFormed(rows) && from != to
    requires var debit := WithdrawStep(rows, caller, from, amount);
      debit.reply.Ok? && DepositStep(debit.rows, to, amount).reply.Ok?
    ensures var credited := DepositStep(WithdrawStep(rows, caller, from, amount).rows, to, amount).rows;
      DepositStep(credited, from, amount).reply.Ok?
      && Total(DepositStep(credited, from, amount).rows) == Total(rows) + amount.hundredths
  {
    var debit := WithdrawStep(rows, caller, from, amount);
    WithdrawSucceeded(rows, caller, from, amount);
    DepositSucceeded(debit.rows, to, amount);
    var credited := DepositStep(debit.rows, to, amount).rows;
    var i, j := Find(rows, from).value, Find(debit.rows, to).value;
    assert debit.rows[j].id == to;
    assert i != j;
    FindAt(credited, i);
    DepositAt(credited, i, amount);
    DepositCredits(credited, i, amount);
  }

  /** The table after `h` moved from row `i` to row `j`. */
  function Moved(rows: seq<Account>, i: nat, j: nat, h: int): (r: seq<Account>)
    requires i < |rows| && j < |rows|
    ensures |r| == |rows|
  {
    rows[i := rows[i].(balance := rows[i].balance - h)][j := rows[j].(balance := rows[j].balance + h)]
  }

  lemma MovedIs(rows: seq<Account>, i: nat, j: nat, h: int, a: Account, b: Account)
    requires i < |rows| && j < |rows|
    requires a == rows[i].(balance := rows[i].balance - h) && b == rows[j].(balance := rows[j].balance + h)
    ensures rows[i := a][j := b] == Moved(rows, i, j, h)
  {
  }

  /** A withdrawal from `from` followed by a deposit to `to` moves the amount from one row to another. */
  lemma WithdrawThenDepositMoves(rows: seq<Account>, caller: int, from: int, to: int, amount: Value)
    requires WellFormed(rows) && from != to
    requires var debit := WithdrawStep(rows, caller, from, amount);
      debit.reply.Ok? && DepositStep(debit.rows, to, amount).reply.Ok?
    ensures Find(rows, from).Some? && Find(rows, to).Some? && amount.Number?
    ensures var i, j := Find(rows, from).value, Find(rows, to).value;
      i != j && rows[i].userId == caller && 1 <= amount.hundredths <= rows[i].balance
    ensures var credited := DepositStep(WithdrawStep(rows, caller, from, amount).rows, to, amount).rows;
      credited == Moved(rows, Find(rows, from).value, Find(rows, to).value, amount.hundredths)
      && Total(credited) == Total(rows) && WellFormed(credited)
  {
    var debit := WithdrawStep(rows, caller, from, amount);
    WithdrawSucceeded(rows, caller, from, amount);
    var credit := DepositStep(debit.rows, to, amount);
    DepositSucceeded(debit.rows, to, amount);
    FindAt(rows, Find(debit.rows, to).value);
    var i, j := Find(rows, from).value, Find(rows, to).value;
    assert j == Find(debit.rows, to).value;
    assert debit.rows[j] == rows[j];
    assert credit.rows == rows[i := debit.reply.value][j := credit.reply.value];
    MovedIs(rows, i, j, amount.hundredths, debit.reply.value, credit.reply.value);
  }

  /**
   * When both legs of a saga went through, exactly the amount moved from the
   * source row to a different destination row and nothing else changed: the
   * total of all balances is unchanged and the table stays well formed.
   */
  lemma BothLegsMoveMoney(rows: seq<Account>, caller: int, from: int, to: int, amount: Value, faults: Faults)
    requires WellFormed(rows) && from != to
    requires RunTransfer(rows, caller, from, to, amount, faults).phase == Credited
    ensures Find(rows, from).Some? && Find(rows, to).Some? && amount.Number?
    ensures var i, j := Find(rows, from).value, Find(rows, to).value;
      i != j && rows[i].userId == caller && 1 <= amount.hundredths <= rows[i].balance
    ensures RunTransfer(rows, caller, from, to, amount, faults).rows
      == Moved(rows, Find(rows, from).value, Find(rows, to).value, amount.hundredths)
    ensures var s := RunTransfer(rows, caller, from, to, amount, faults);
      Total(s.rows) == Total(rows) && WellFormed(s.rows)
  {
    var debit := WithdrawStep(rows, caller, from, amount);
    assert faults.debit.Delivered? && debit.reply.Ok?;
    var credit := DepositStep(debit.rows, to, amount);
    assert faults.credit.Delivered? && credit.reply.Ok?;
    assert RunTransfer(rows, caller, from, to, amount, faults).rows == credit.rows;
    WithdrawThenDepositMoves(rows, caller, from, to, amount);
  }

  /**
   * When every call that was made came back with the ledger's own answer
   * (the compensation may lose its answer, not its effect), the total of all
   * balances is unchanged, and a saga that did not complete leaves every
   * balance as it was.
   */
  lemma DeliveredSagaConservesMoney(rows: seq<Account>, caller: int, from: int, to: int, amount: Value, faults: Faults)
    requires WellFormed(rows) && from != to
    requires faults.debit.Delivered? && faults.credit.Delivered? && (faults.refund.Delivered? || faults.refund.ReplyLost?)
    ensures var s := RunTransfer(rows, caller, from, to, amount, faults);
      Total(s.rows) == Total(rows) && (s.phase != Credited ==> s.rows == rows)
  {
    var s := RunTransfer(rows, caller, from, to, amount, faults);
    if s.phase == Credited {
      BothLegsMoveMoney(rows, caller, from, to, amount, faults);
    } else if s.phase != DebitFailed {
      RefundUndoesWithdraw(rows, caller, from, amount);
    }
  }

  /**
   * A debit that took effect but whose answer was lost is reported as a
   * failed debit, and the amount has left the source for good.
   */
  lemma LostDebitReplyLosesMoney(rows: seq<Account>, caller: int, from: int, to: int, amount: Value, faults: Faults)
    requires WellFormed(rows) && faults.debit.ReplyLost? && WithdrawStep(rows, caller, from, amount).reply.Ok?
    ensures var s := RunTransfer(rows, caller, from, to, amount, faults);
      s.phase == DebitFailed && s.error == "Withdrawal failed"
      && Total(s.rows) == Total(rows) - amount.hundredths
  {
    WithdrawSucceeded(rows, caller, from, amount);
  }

  /**
   * A credit that took effect but whose answer was lost is compensated all
   * the same: the source gets its money back while the destination keeps
   * the amount, so the total of all balances grows by the amount.
   */
  lemma LostCreditReplyCreatesMoney(rows: seq<Account>, caller: int, from: int, to: int, amount: Value, faults: Faults)
    requires WellFormed(rows) && from != to
    requires faults.debit.Delivered? && faults.credit.ReplyLost? && faults.refund.Delivered?
    requires var debit := WithdrawStep(rows, caller, from, amount);
      debit.reply.Ok? && DepositStep(debit.rows, to, amount).reply.Ok?
    ensures var s := RunTransfer(rows, caller, from, to, amount, faults);
      s.phase == Compensated && s.error == "Deposit failed"
      && Total(s.rows) == Total(rows) + amount.hundredths
  {
    RefundAfterCredit(rows, caller, from, to, amount);
  }

  /**
   * A credit that took effect but whose answer was lost, followed by a
   * compensation that never reaches the ledger, ends unreconciled although
   * the amount did move: the handler answers 500 while the destination
   * keeps the credit and the total is unchanged.
   */
  lemma LostCreditReplyHidesTransfer(rows: seq<Account>, caller: int, from: int, to: int, amount: Value, faults: Faults)
    requires WellFormed(rows) && from != to
    requires faults.debit.Delivered? && faults.credit.ReplyLost? && (faults.refund.Unreachable? || faults.refund.Refused?)
    requires var debit := WithdrawStep(rows, caller, from, amount);
      debit.reply.Ok? && DepositStep(debit.rows, to, amount).reply.Ok?
    ensures var s := RunTransfer(rows, caller, from, to, amount, faults);
      s.phase == Unreconciled
      && s.rows == DepositStep(WithdrawStep(rows, caller, from, amount).rows, to, amount).rows
      && Total(s.rows) == Total(rows)
  {
    var debit := WithdrawStep(rows, caller, from, amount);
    WithdrawThenDepositMoves(rows, caller, from, to, amount);
    assert RunTransfer(rows, caller, from, to, amount, faults)
      == CreditLegs(debit.rows, caller, from, to, amount, faults).(calls := [WithdrawCall(from, amount)] + [DepositCall(to, amount), DepositCall(from, amount)]);
  }

  // --------------------------------------------------- handler properties

  /**
   * A transfer makes no call to the accounts API, and changes and records
   * nothing, exactly when its body fails validation or names the same
   * account twice; it then answers 400.
   */
  lemma TransferRejectedBeforeAnyCall(rows: seq<Account>, log: seq<Txn>, serial: int, now: nat, caller: int,
                                      body: TransferBody, txnId: string, faults: Faults)
    ensures var a := TransferSpec(rows, log, serial, now, caller, body, txnId, faults);
      (a.calls == [] <==> TransferErrors(body) != [] || SameAccount(body))
      && (a.calls == [] ==> a.rows == rows && a.row.None? && a.reply.Fail? && a.reply.status == 400)
      && (TransferErrors(body) == [] && SameAccount(body) ==>
            a.reply == Fail(400, Message("Cannot transfer to the same account")))
  {
  }

  /**
   * Past validation a transfer is its saga between the two accounts: the
   * table and the calls are the saga's, it reaches the INSERT only when both
   * legs went through, and otherwise it answers 500 with the saga's error.
   */
  lemma TransferIsSaga(rows: seq<Account>, log: seq<Txn>, serial: int, now: nat, caller: int,
                       body: TransferBody, txnId: string, faults: Faults)
    requires TransferErrors(body) == [] && !SameAccount(body)
    ensures IntValue(body.fromAccount) != IntValue(body.toAccount)
    ensures var a, s := TransferSpec(rows, log, serial, now, caller, body, txnId, faults),
                        RunTransfer(rows, caller, IntValue(body.fromAccount), IntValue(body.toAccount), body.amount, faults);
      a.rows == s.rows && a.calls == s.calls
      && (a.phase in {Recorded, NotRecorded} <==> s.phase == Credited)
      && (s.phase != Credited ==> a.phase == s.phase && a.reply == Fail(500, Message(s.error)))
      && (s.phase == Credited ==> (a.phase == NotRecorded <==> InsertFails(log, serial, txnId)))
      && (a.phase == NotRecorded ==> a.reply == Fail(500, Message(InsertError(log, serial, txnId))))
  {
  }

  /**
   * A recorded transfer moved exactly the amount from the source row to a
   * different destination row and touched nothing else. A transfer whose
   * INSERT failed moved the money all the same, because rolling back the
   * local transaction does not undo the calls already made.
   */
  lemma CompletedTransferMovesMoney(rows: seq<Account>, log: seq<Txn>, serial: int, now: nat, caller: int,
                                    body: TransferBody, txnId: string, faults: Faults)
    requires WellFormed(rows)
    requires TransferSpec(rows, log, serial, now, caller, body, txnId, faults).phase in {Recorded, NotRecorded}
    ensures TransferErrors(body) == [] && !SameAccount(body)
    ensures Find(rows, IntValue(body.fromAccount)).Some? && Find(rows, IntValue(body.toAccount)).Some?
    ensures var a := TransferSpec(rows, log, serial, now, caller, body, txnId, faults);
      var i, j := Find(rows, IntValue(body.fromAccount)).value, Find(rows, IntValue(body.toAccount)).value;
      i != j && a.rows == Moved(rows, i, j, body.amount.hundredths)
      && Total(a.rows) == Total(rows) && WellFormed(a.rows)
  {
    TransferIsSaga(rows, log, serial, now, caller, body, txnId, faults);
    BothLegsMoveMoney(rows, caller, IntValue(body.fromAccount), IntValue(body.toAccount), body.amount, faults);
  }

  /** The rows a table's keys and creation times must stay below. */
  ghost predicate FreshFor(log: seq<Txn>, serial: int, now: nat)
  {
    forall k :: 0 <= k < |log| ==> log[k].id < serial && log[k].createdAt < now
  }

  /** Appending a well-formed row with a fresh key, correlation id and time keeps the table well formed. */
  lemma AppendKeepsLogWellFormed(log: seq<Txn>, t: Txn)
    requires WellFormedLog(log) && WellFormedRow(t) && FreshFor(log, t.id, t.createdAt)
    requires forall k :: 0 <= k < |log| ==> log[k].txnId != t.txnId
    ensures WellFormedLog(log + [t])
  {
    var r := log + [t];
    forall i, j | 0 <= i < j < |r| ensures r[i].id < r[j].id && r[i].createdAt < r[j].createdAt && r[i].txnId != r[j].txnId {
      assert r[i] == log[i];
      if j < |log| { assert r[j] == log[j]; }
    }
  }

  /**
   * The row a transfer between two different accounts records is a
   * well-formed completed transfer between them, for the caller and the
   * amount moved, and appending it keeps the transactions table well formed.
   */
  lemma RecordedTransferStepRow(rows: seq<Account>, log: seq<Txn>, serial: int, now: nat, caller: int, from: int, to: int,
                                amount: Value, description: Option<string>, txnId: string, faults: Faults)
    requires WellFormed(rows) && WellFormedLog(log) && FreshFor(log, serial, now) && from != to
    requires TransferStep(rows, log, serial, now, caller, from, to, amount, description, txnId, faults).phase == Recorded
    ensures var t := TransferStep(rows, log, serial, now, caller, from, to, amount, description, txnId, faults).row.value;
      t.id == serial && t.txnId == txnId && t.userId == caller && t.kind == Transfer
      && t.from == Some(from) && t.to == Some(to) && t.amount == amount.hundredths && t.description == description
      && WellFormedRow(t) && WellFormedLog(log + [t])
  {
    BothLegsMoveMoney(rows, caller, from, to, amount, faults);
    var t := TransferStep(rows, log, serial, now, caller, from, to, amount, description, txnId, faults).row.value;
    assert t.amount <= rows[Find(rows, from).value].balance <= MaxBalance;
    assert WellFormedRow(t);
    AppendKeepsLogWellFormed(log, t);
  }

  /** The same, for the transfer handler and the two account ids of its body. */
  lemma RecordedTransferRow(rows: seq<Account>, log: seq<Txn>, serial: int, now: nat, caller: int,
                            body: TransferBody, txnId: string, faults: Faults)
    requires WellFormed(rows) && WellFormedLog(log) && FreshFor(log, serial, now)
    requires TransferSpec(rows, log, serial, now, caller, body, txnId, faults).phase == Recorded
    ensures TransferErrors(body) == [] && !SameAccount(body)
    ensures var t := TransferSpec(rows, log, serial, now, caller, body, txnId, faults).row.value;
      t.id == serial && t.txnId == txnId && t.userId == caller && t.kind == Transfer
      && t.from == Some(IntValue(body.fromAccount)) && t.to == Some(IntValue(body.toAccount))
      && t.amount == body.amount.hundredths && t.description == Description(body.description)
      && WellFormedRow(t) && WellFormedLog(log + [t])
  {
    RecordedTransferStepRow(rows, log, serial, now, caller, IntValue(body.fromAccount), IntValue(body.toAccount),
                            body.amount, Description(body.description), txnId, faults);
  }

  /**
   * A payment makes no call, and changes and records nothing, exactly when
   * its body fails validation; otherwise it makes exactly one call, a
   * withdrawal of the amount from the paying account, and never a deposit.
   */
  lemma PaymentCallsOnlyWithdraw(rows: seq<Account>, log: seq<Txn>, serial: int, now: nat, caller: int,
                                 body: PaymentBody, txnId: string, debit: Delivery)
    ensures var a := PaymentSpec(rows, log, serial, now, caller, body, txnId, debit);
      (a.calls == [] <==> PaymentErrors(body) != [])
      && (a.calls == [] ==> a.rows == rows && a.reply == Fail(400, FieldErrors(PaymentErrors(body))))
      && (a.calls != [] ==> a.calls == [WithdrawCall(IntValue(body.account), body.amount)])
  {
  }

  /**
   * Past validation a payment is its one debit: the table is the debit's,
   * a failed debit answers 500 with the ledger's error text or "Payment
   * failed", and a debit that went through reaches the INSERT.
   */
  lemma PaymentIsDebit(rows: seq<Account>, log: seq<Txn>, serial: int, now: nat, caller: int,
                       body: PaymentBody, txnId: string, debit: Delivery)
    requires PaymentErrors(body) == []
    ensures var a, leg := PaymentSpec(rows, log, serial, now, caller, body, txnId, debit),
                          Deliver(rows, caller, WithdrawCall(IntValue(body.account), body.amount), debit);
      a.rows == leg.rows
      && (leg.result.Rejected? ==>
            a.phase == DebitFailed && a.reply == Fail(500, Message(OrElse(leg.result.dataError, "Payment failed"))))
      && (leg.result.Resolved? ==> (a.phase == NotRecorded <==> InsertFails(log, serial, txnId)))
      && (a.phase == NotRecorded ==> a.reply == Fail(500, Message(InsertError(log, serial, txnId))))
  {
    var leg := Deliver(rows, caller, WithdrawCall(IntValue(body.account), body.amount), debit);
    if leg.result.Rejected? {
      assert OrElse(leg.result.dataError, "Payment failed") != "";
    }
  }

  /**
   * A recorded payment debited exactly the amount from one active account
   * the caller owns and touched nothing else.
   */
  lemma RecordedPaymentDebits(rows: seq<Account>, log: seq<Txn>, serial: int, now: nat, caller: int,
                              body: PaymentBody, txnId: string, debit: Delivery)
    requires WellFormed(rows)
    requires PaymentSpec(rows, log, serial, now, caller, body, txnId, debit).phase == Recorded
    ensures PaymentErrors(body) == [] && Find(rows, IntValue(body.account)).Some?
    ensures var a, h, k := PaymentSpec(rows, log, serial, now, caller, body, txnId, debit), body.amount.hundredths,
                           Find(rows, IntValue(body.account)).value;
      rows[k].userId == caller && rows[k].status == Active && 1 <= h <= rows[k].balance
      && a.rows == WithdrawStep(rows, caller, IntValue(body.account), body.amount).rows
      && Total(a.rows) == Total(rows) - h && WellFormed(a.rows)
  {
    WithdrawSucceeded(rows, caller, IntValue(body.account), body.amount);
  }

  /**
   * The row a payment from `account` records is a well-formed completed
   * payment from that account, with no destination, and appending it keeps
   * the transactions table well formed.
   */
  lemma RecordedPaymentStepRow(rows: seq<Account>, log: seq<Txn>, serial: int, now: nat, caller: int, account: int,
                               amount: Value, description: string, txnId: string, debit: Delivery)
    requires WellFormed(rows) && WellFormedLog(log) && FreshFor(log, serial, now)
    requires PaymentStep(rows, log, serial, now, caller, account, amount, description, txnId, debit).phase == Recorded
    ensures var t := PaymentStep(rows, log, serial, now, caller, account, amount, description, txnId, debit).row.value;
      t.id == serial && t.txnId == txnId && t.userId == caller && t.kind == Payment
      && t.from == Some(account) && t.to.None? && t.amount == amount.hundredths && t.description == Some(description)
      && WellFormedRow(t) && WellFormedLog(log + [t])
  {
    WithdrawSucceeded(rows, caller, account, amount);
    var t := PaymentStep(rows, log, serial, now, caller, account, amount, description, txnId, debit).row.value;
    AppendKeepsLogWellFormed(log, t);
  }

  /** The same, for the payment handler and the paying account of its body. */
  lemma RecordedPaymentRow(rows: seq<Account>, log: seq<Txn>, serial: int, now: nat, caller: int,
                           body: PaymentBody, txnId: string, debit: Delivery)
    requires WellFormed(rows) && WellFormedLog(log) && FreshFor(log, serial, now)
    requires PaymentSpec(rows, log, serial, now, caller, body, txnId, debit).phase == Recorded
    ensures PaymentErrors(body) == []
    ensures var t := PaymentSpec(rows, log, serial, now, caller, body, txnId, debit).row.value;
      t.id == serial && t.txnId == txnId && t.userId == caller && t.kind == Payment
      && t.from == Some(IntValue(body.account)) && t.to.None? && t.amount == body.amount.hundredths
      && t.description == Some(PaymentDescription(body))
      && WellFormedRow(t) && WellFormedLog(log + [t])
  {
    RecordedPaymentStepRow(rows, log, serial, now, caller, IntValue(body.account), body.amount,
                           PaymentDescription(body), txnId, debit);
  }

  /**
   * The description of a payment is "Payment to ", the recipient as the body
   * gave it, ": ", and then the trimmed description, or nothing without one.
   */
  lemma PaymentDescriptionNamesRecipient(body: PaymentBody)
    requires NotEmpty(body.recipient)
    ensures var d, r := PaymentDescription(body), ToStr(body.recipient);
      |d| >= 13 + |r| && d[..11] == "Payment to " && d[11..11 + |r|] == r && d[11 + |r|..13 + |r|] == ": "
      && d[13 + |r|..] == (if body.description.Absent? then "" else Description(body.description).value)
  {
    var r := ToStr(body.recipient);
    assert Interpolate(body.recipient) == r;
    var tail := match Description(body.description) case Some(x) => x case None => "";
    assert PaymentDescription(body) == "Payment to " + r + ": " + tail;
  }
}
