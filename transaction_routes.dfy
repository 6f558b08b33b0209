/**
 * The request-body validators declared by the transaction routes, the
 * sanitized description, and the controller's same-account guard.
 */
module TransactionRoutes {
  import opened Wrappers
  import opened Json

  /** The body of POST /transfer. */
  datatype TransferBody = TransferBody(fromAccount: Value, toAccount: Value, amount: Value, description: Value)

  /** The body of POST /payment. */
  datatype PaymentBody = PaymentBody(account: Value, amount: Value, recipient: Value, description: Value)

  /** The amount rule both routes share: a number of at least 0.01. */
  predicate ValidAmount(v: Value)
  {
    IsFloatAtLeast(v, 1)
  }

  /** transferValidation: the names of the fields that fail, in declaration order. */
  function TransferErrors(b: TransferBody): (errs: seq<string>)
    ensures errs == [] <==> IsInt(b.fromAccount) && IsInt(b.toAccount) && b.amount.Number? && b.amount.hundredths >= 1
    ensures "from_account_id" in errs <==> !IsInt(b.fromAccount)
    ensures "to_account_id" in errs <==> !IsInt(b.toAccount)
    ensures "amount" in errs <==> !ValidAmount(b.amount)
  {
    (if IsInt(b.fromAccount) then [] else ["from_account_id"])
    + (if IsInt(b.toAccount) then [] else ["to_account_id"])
    + (if ValidAmount(b.amount) then [] else ["amount"])
  }

  /** paymentValidation: the names of the fields that fail, in declaration order. */
  function PaymentErrors(b: PaymentBody): (errs: seq<string>)
    ensures errs == [] <==> IsInt(b.account) && b.amount.Number? && b.amount.hundredths >= 1 && ToStr(b.recipient) != ""
    ensures "account_id" in errs <==> !IsInt(b.account)
    ensures "amount" in errs <==> !ValidAmount(b.amount)
    ensures "recipient" in errs <==> !NotEmpty(b.recipient)
  {
    (if IsInt(b.account) then [] else ["account_id"])
    + (if ValidAmount(b.amount) then [] else ["amount"])
    + (if NotEmpty(b.recipient) then [] else ["recipient"])
  }

  /**
   * `description` after optional().trim(): left undefined when absent,
   * otherwise its string form without surrounding white space.
   */
  function Description(v: Value): (d: Option<string>)
    ensures d.None? <==> v.Absent?
    ensures d.Some? ==> d.value == Trim(ToStr(v)) && |d.value| <= |ToStr(v)|
  {
    if v.Absent? then None else Some(Trim(ToStr(v)))
  }

  /** A sanitized description is already trimmed. */
  lemma DescriptionIsTrimmed(v: Value)
    requires !v.Absent?
    ensures Trim(Description(v).value) == Description(v).value
  {
    TrimIdempotent(ToStr(v));
  }

  /** The same-account guard as written: JavaScript's `===` on the raw body values. */
  predicate SameAccountAsWritten(b: TransferBody)
  {
    b.fromAccount == b.toAccount
  }

  /** The same-account guard as intended: both fields name the same account id. */
  predicate SameAccount(b: TransferBody)
    requires IsInt(b.fromAccount) && IsInt(b.toAccount)
  {
    IntValue(b.fromAccount) == IntValue(b.toAccount)
  }

  /** Whatever the written guard stops, the intended one stops too. */
  lemma SameAccountAsWrittenIsWeaker(b: TransferBody)
    requires TransferErrors(b) == []
    ensures SameAccountAsWritten(b) ==> SameAccount(b)
  {
  }

  /**
   * The written guard lets a body through whose two ids are the same account:
   * "5" as a string and 5 as a number both pass isInt and both name account 5,
   * but they are not `===`.
   */
  lemma SameAccountGuardBypass()
    ensures var b := TransferBody(Text("5"), Number(500), Number(100), Absent);
      TransferErrors(b) == [] && !SameAccountAsWritten(b) && SameAccount(b)
  {
    var b := TransferBody(Text("5"), Number(500), Number(100), Absent);
    NumberIsInt(500);
    ParseDigitString(5);
    assert DigitString(5) == "5";
    assert IntValue(b.fromAccount) == 5;
  }
}
