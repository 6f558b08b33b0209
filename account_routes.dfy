/** The request-body validators declared by the account routes. */
module AccountRoutes {
  import opened Json

  /** The body of POST /accounts. */
  datatype CreateAccountBody = CreateAccountBody(accountType: Value, currency: Value)

  const AccountTypes: seq<string> := ["checking", "savings", "investment"]

  /**
   * createAccountValidation: the names of the fields that fail, in the order
   * the rules are declared. `currency` may be left out; null is not left out.
   */
  function CreateAccountErrors(b: CreateAccountBody): (errs: seq<string>)
    ensures errs == [] <==> IsIn(b.accountType, AccountTypes) && (b.currency.Absent? || HasLength(b.currency, 3))
    ensures "account_type" in errs <==> !IsIn(b.accountType, AccountTypes)
    ensures "currency" in errs <==> !(b.currency.Absent? || HasLength(b.currency, 3))
  {
    (if IsIn(b.accountType, AccountTypes) then [] else ["account_type"])
    + (if b.currency.Absent? || HasLength(b.currency, 3) then [] else ["currency"])
  }

  /** depositValidation: the one rule shared by the deposit and the withdraw routes. */
  function AmountErrors(amount: Value): (errs: seq<string>)
    ensures errs == [] <==> amount.Number? && amount.hundredths >= 1
    ensures errs != [] ==> errs == ["amount"]
  {
    if IsFloatAtLeast(amount, 1) then [] else ["amount"]
  }

  /** Only a JSON string can name an account type: no number, boolean or null spells one. */
  lemma AccountTypeIsText(v: Value)
    requires IsIn(v, AccountTypes)
    ensures v.Text? && v.s in AccountTypes
  {
    if v.Number? {
      NumberStartsWithSignOrDigit(v.hundredths);
    }
  }

  lemma NumberStartsWithSignOrDigit(h: int)
    ensures |NumberString(h)| > 0 && (NumberString(h)[0] == '-' || IsDigit(NumberString(h)[0]))
  {
    var m: nat := if h < 0 then -h else h;
    assert Magnitude(m)[0] == DigitString(m / 100)[0];
  }
}
