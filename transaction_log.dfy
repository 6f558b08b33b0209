/**
 * The transactions table of the transactions API and the three queries
 * over it. The table is a sequence of rows in insertion order; `id` is the
 * SERIAL key, `txnId` the generated correlation id (a UNIQUE column) and
 * `createdAt` a clock reading.
 */
module TransactionLog {
  import opened Wrappers
  import opened Http
  import Sequences
  import Accounts

  datatype Kind = Transfer | Payment

  /** The status column; 'pending' is its default, 'completed' the only value the controller writes. */
  datatype TxnStatus = Pending | Completed

  datatype Txn = Txn(
    id: int, txnId: string, userId: int, from: Option<int>, to: Option<int>, kind: Kind,
    amount: int, currency: string, status: TxnStatus, description: Option<string>,
    createdAt: nat, completedAt: Option<nat>)

  /**
   * What every written row looks like: completed when it is created, with a
   * positive amount that fits DECIMAL(15, 2), in the default currency; a
   * transfer names two different accounts and a payment only its source.
   */
  ghost predicate WellFormedRow(t: Txn)
  {
    t.status == Completed && t.completedAt == Some(t.createdAt) && t.currency == "USD"
    && 1 <= t.amount <= Accounts.MaxBalance && t.from.Some?
    && (t.kind == Transfer ==> t.to.Some? && t.to != t.from)
    && (t.kind == Payment ==> t.to.None?)
  }

  /** The table invariant: keys, correlation ids and creation times are unique and increase along the table. */
  ghost predicate WellFormedLog(log: seq<Txn>)
  {
    (forall i, j :: 0 <= i < j < |log| ==>
      log[i].id < log[j].id && log[i].createdAt < log[j].createdAt && log[i].txnId != log[j].txnId)
    && forall k :: 0 <= k < |log| ==> WellFormedRow(log[k])
  }

  /** Whether a query for the caller, and for one account when `account` is given, returns row `t`. */
  predicate Selected(t: Txn, caller: int, account: Option<int>)
  {
    t.userId == caller && (account.None? || t.from == account || t.to == account)
  }

  /** The rows a query selects, in table order. */
  function Select(log: seq<Txn>, caller: int, account: Option<int>): (r: seq<Txn>)
    ensures forall t :: t in r <==> t in log && Selected(t, caller, account)
    ensures |r| <= |log|
  {
    if log == [] then []
    else
      var n := |log| - 1;
      assert log == log[..n] + [log[n]];
      var rest := Select(log[..n], caller, account);
      if Selected(log[n], caller, account) then rest + [log[n]] else rest
  }

  /** Creation times increase along `s`. */
  ghost predicate OldestFirst(s: seq<Txn>)
  {
    forall i, j :: 0 <= i < j < |s| ==> s[i].createdAt < s[j].createdAt
  }

  /** Creation times decrease along `s`. */
  ghost predicate NewestFirst(s: seq<Txn>)
  {
    forall i, j :: 0 <= i < j < |s| ==> s[i].createdAt > s[j].createdAt
  }

  lemma {:induction false} SelectOldestFirst(log: seq<Txn>, caller: int, account: Option<int>)
    requires WellFormedLog(log)
    ensures OldestFirst(Select(log, caller, account))
    decreases |log|
  {
    if log != [] {
      var n := |log| - 1;
      assert WellFormedLog(log[..n]);
      SelectOldestFirst(log[..n], caller, account);
      var rest, r := Select(log[..n], caller, account), Select(log, caller, account);
      if Selected(log[n], caller, account) {
        assert r == rest + [log[n]];
        forall i, j | 0 <= i < j < |r| ensures r[i].createdAt < r[j].createdAt {
          assert r[i] == rest[i];
          if j == |rest| {
            assert r[j] == log[n];
            assert rest[i] in log[..n];
            var m :| 0 <= m < n && log[..n][m] == rest[i];
            assert log[m].createdAt < log[n].createdAt;
          } else {
            assert r[j] == rest[j];
          }
        }
      } else {
        assert r == rest;
      }
    }
  }

  /** The selected rows, ORDER BY created_at DESC. */
  function Newest(log: seq<Txn>, caller: int, account: Option<int>): (r: seq<Txn>)
    ensures forall t :: t in r <==> t in log && Selected(t, caller, account)
  {
    var sel := Select(log, caller, account);
    var r := Sequences.Reverse(sel);
    assert forall t :: t in r <==> t in sel by {
      assert multiset(r) == multiset(sel);
      forall t ensures (t in r <==> t in multiset(r)) && (t in sel <==> t in multiset(sel)) { }
    }
    r
  }

  /** In a well-formed table the selection really comes newest first. */
  lemma NewestIsNewestFirst(log: seq<Txn>, caller: int, account: Option<int>)
    requires WellFormedLog(log)
    ensures NewestFirst(Newest(log, caller, account))
  {
    SelectOldestFirst(log, caller, account);
    ReverseNewestFirst(Select(log, caller, account));
  }

  lemma ReverseNewestFirst(s: seq<Txn>)
    requires OldestFirst(s)
    ensures NewestFirst(Sequences.Reverse(s))
  {
    var r := Sequences.Reverse(s);
    forall i, j | 0 <= i < j < |r| ensures r[i].createdAt > r[j].createdAt {
      assert r[i] == s[|s| - 1 - i] && r[j] == s[|s| - 1 - j];
    }
  }

  /**
   * A LIMIT or OFFSET parameter: the default when the query string leaves
   * it out, the given value when Postgres accepts it (a non-negative BIGINT),
   * and a database error otherwise.
   */
  function Window(p: Param, default: nat): (w: Option<nat>)
    ensures p.Missing? ==> w == Some(default)
    ensures p.Given? ==> (w.Some? <==> 0 <= p.n && InInt8(p.n)) && (w.Some? ==> w.value == p.n)
    ensures p.Malformed? ==> w.None?
  {
    match p
    case Missing => Some(default)
    case Given(n) => if 0 <= n && InInt8(n) then Some(n) else None
    case Malformed => None
  }

  const DefaultLimit: nat := 50

  /** One page of a query: LIMIT (default 50) OFFSET (default 0) over the newest-first selection. */
  function Listing(log: seq<Txn>, caller: int, account: Option<int>, limit: Param, offset: Param): (r: Reply<seq<Txn>>)
    ensures r.Ok? <==> Window(limit, DefaultLimit).Some? && Window(offset, 0).Some?
    ensures r.Ok? ==> (r.status == 200
      && r.value == Sequences.Page(Newest(log, caller, account), Window(limit, DefaultLimit).value, Window(offset, 0).value))
    ensures r.Fail? ==> r == Fail(500, Message("Failed to retrieve transactions"))
    ensures r.Ok? ==> forall t :: t in r.value ==> t in log && Selected(t, caller, account)
  {
    match (Window(limit, DefaultLimit), Window(offset, 0))
    case (Some(l), Some(o)) =>
      Sequences.PageWithin(Newest(log, caller, account), l, o);
      Ok(200, Sequences.Page(Newest(log, caller, account), l, o))
    case _ => Fail(500, Message("Failed to retrieve transactions"))
  }

  /** GET /: the caller's transactions, newest first. */
  function ListTransactions(log: seq<Txn>, caller: int, limit: Param, offset: Param): (r: Reply<seq<Txn>>)
    ensures r.Ok? ==> forall t :: t in r.value ==> t in log && t.userId == caller
    ensures limit.Missing? && offset.Missing? ==> r.Ok? && |r.value| <= DefaultLimit
  {
    Listing(log, caller, None, limit, offset)
  }

  /** GET /account/:accountId: the caller's transactions from or to that account, newest first. */
  function ListAccountTransactions(log: seq<Txn>, caller: int, accountId: int, limit: Param, offset: Param)
    : (r: Reply<seq<Txn>>)
    ensures r.Ok? ==> forall t :: t in r.value ==>
      t in log && t.userId == caller && (t.from == Some(accountId) || t.to == Some(accountId))
    ensures !InInt4(accountId) ==> r == Fail(500, Message("Failed to retrieve transactions"))
  {
    if !InInt4(accountId) then Fail(500, Message("Failed to retrieve transactions"))
    else Listing(log, caller, Some(accountId), limit, offset)
  }

  /** Every page of a listing comes newest first. */
  lemma ListingNewestFirst(log: seq<Txn>, caller: int, account: Option<int>, limit: Param, offset: Param)
    requires WellFormedLog(log)
    ensures var r := Listing(log, caller, account, limit, offset);
      r.Ok? ==> NewestFirst(r.value)
  {
    NewestIsNewestFirst(log, caller, account);
    var r := Listing(log, caller, account, limit, offset);
    if r.Ok? {
      PageKeepsOrder(Newest(log, caller, account), Window(limit, DefaultLimit).value, Window(offset, 0).value);
    }
  }

  lemma PageKeepsOrder(s: seq<Txn>, limit: nat, offset: nat)
    requires NewestFirst(s)
    ensures NewestFirst(Sequences.Page(s, limit, offset))
  {
    var r := Sequences.Page(s, limit, offset);
    forall i, j | 0 <= i < j < |r| ensures r[i].createdAt > r[j].createdAt {
      assert r[i] == s[offset + i] && r[j] == s[offset + j];
    }
  }

  /** The position of the first row with that correlation id and owner. */
  function FindTxn(log: seq<Txn>, txnId: string, caller: int): (r: Option<nat>)
    ensures r.Some? ==> r.value < |log| && log[r.value].txnId == txnId && log[r.value].userId == caller
    ensures r.None? <==> forall k :: 0 <= k < |log| ==> !(log[k].txnId == txnId && log[k].userId == caller)
  {
    if log == [] then None
    else if log[0].txnId == txnId && log[0].userId == caller then Some(0)
    else match FindTxn(log[1..], txnId, caller)
      case None => None
      case Some(k) => Some(k + 1)
  }

  /** GET /:transactionId: the caller's transaction with that correlation id. */
  function GetTransactionById(log: seq<Txn>, caller: int, txnId: string): (r: Reply<Txn>)
    ensures r.Ok? ==> r.status == 200 && r.value in log && r.value.txnId == txnId && r.value.userId == caller
    ensures r.Fail? <==> forall k :: 0 <= k < |log| ==> !(log[k].txnId == txnId && log[k].userId == caller)
    ensures r.Fail? ==> r == Fail(404, Message("Transaction not found"))
  {
    match FindTxn(log, txnId, caller)
    case None => Fail(404, Message("Transaction not found"))
    case Some(k) => Ok(200, log[k])
  }

  /**
   * Correlation ids are unique, so a lookup finds the one row that has it,
   * and finds it only for its owner.
   */
  lemma GetTransactionByIdFindsTheRow(log: seq<Txn>, caller: int, k: nat)
    requires WellFormedLog(log) && k < |log|
    ensures var r := GetTransactionById(log, caller, log[k].txnId);
      (r.Ok? <==> log[k].userId == caller) && (r.Ok? ==> r.value == log[k])
  {
    assert forall j :: 0 <= j < |log| && j != k ==> log[j].txnId != log[k].txnId;
  }
}
