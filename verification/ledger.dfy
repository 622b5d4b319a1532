/** The ledger: the `clients` and `transactions` tables and the two handlers
    that use them, `GET /clients` (a read-only listing) and `POST /transactions`
    (look the client up, insert a transaction, write the new balance). Each
    handler runs as one atomic step. */
module Ledger {
  import opened Api
  import opened Schema

  /** The contents of the two tables. */
  datatype LedgerState = LedgerState(clients: map<int, Client>, transactions: seq<Transaction>)

  /** The sum of the amounts of the transactions that reference `clientId`. */
  function SumFor(transactions: seq<Transaction>, clientId: int): real {
    if transactions == [] then 0.0
    else
      (if transactions[0].clientId == clientId then transactions[0].amount else 0.0)
      + SumFor(transactions[1..], clientId)
  }

  /** Appending a transaction adds its amount to its own client's sum only. */
  lemma {:induction false} SumForAppend(transactions: seq<Transaction>, t: Transaction, clientId: int)
    ensures SumFor(transactions + [t], clientId)
         == SumFor(transactions, clientId) + (if t.clientId == clientId then t.amount else 0.0)
  {
    if transactions == [] {
      assert [] + [t] == [t];
    } else {
      assert (transactions + [t])[1..] == transactions[1..] + [t];
      SumForAppend(transactions[1..], t, clientId);
    }
  }

  /** The balance invariant: every client's balance is its opening balance
      plus the amounts of all transactions that reference it. */
  ghost predicate BalancesMatch(s: LedgerState, opening: map<int, real>) {
    forall id :: id in s.clients ==>
      id in opening && s.clients[id].balance == opening[id] + SumFor(s.transactions, id)
  }

  /** Whether a request's `clientId` names a stored client. A body without
      `clientId` matches no row, like an id that is not in the table. */
  predicate Known(s: LedgerState, clientId: Option<int>) {
    clientId.Some? && clientId.value in s.clients
  }

  /** `POST /transactions` with body `{clientId, amount}` received at time `now`,
      as a transition of the tables. An absent amount passes the lookup and then
      fails the NOT NULL constraint of the insert, which the handler's catch
      block answers with 500; nothing has been written at that point. */
  function TransactionStep(s: LedgerState, clientId: Option<int>, amount: Option<real>, now: string)
    : (out: (Reply<string>, LedgerState))
    ensures out.0 in {NotFound(ClientNotFound), ServerError(InternalServerError), Ok(TransactionSaved)}
    ensures out.0.NotFound? <==> clientId.None? || clientId.value !in s.clients
    ensures out.0.Ok? <==> Known(s, clientId) && amount.Some?
    ensures !out.0.Ok? ==> out.1 == s
    ensures out.0.Ok? ==>
      && |out.1.transactions| == |s.transactions| + 1
      && out.1.transactions[..|s.transactions|] == s.transactions
      && var t := out.1.transactions[|s.transactions|];
         && t.clientId == clientId.value && t.amount == amount.value && t.createdAt == now
         && forall i :: 0 <= i < |s.transactions| ==> s.transactions[i].id != t.id
    ensures out.0.Ok? ==>
      && out.1.clients.Keys == s.clients.Keys
      && out.1.clients[clientId.value].balance == s.clients[clientId.value].balance + amount.value
      && out.1.clients[clientId.value].name == s.clients[clientId.value].name
      && forall id :: id in s.clients && id != clientId.value ==> out.1.clients[id] == s.clients[id]
  {
    if !Known(s, clientId) then (NotFound(ClientNotFound), s)
    else
      var id := clientId.value;
      var client := s.clients[id];
      match NewTransaction(NextRowId(s.transactions, TransactionId), id, amount, None, now)
      case None => (ServerError(InternalServerError), s)
      case Some(t) =>
        assert forall i :: 0 <= i < |s.transactions| ==> TransactionId(s.transactions[i]) < t.id;
        (Ok(TransactionSaved),
         LedgerState(s.clients[id := client.(balance := client.balance + t.amount)],
                     s.transactions + [t]))
  }

  /** One step keeps the keys, the foreign key and the balance invariant. */
  lemma TransactionStepPreserves(s: LedgerState, opening: map<int, real>, clientId: Option<int>, amount: Option<real>, now: string)
    requires WellFormed(s.clients, s.transactions) && BalancesMatch(s, opening)
    ensures var s' := TransactionStep(s, clientId, amount, now).1;
      WellFormed(s'.clients, s'.transactions) && BalancesMatch(s', opening)
  {
    var (r, s') := TransactionStep(s, clientId, amount, now);
    if r.Ok? {
      var t := s'.transactions[|s.transactions|];
      assert s'.transactions == s.transactions + [t];
      AppendNextIdKeepsUnique(s.transactions, t);
      forall id | id in s'.clients
        ensures id in opening && s'.clients[id].balance == opening[id] + SumFor(s'.transactions, id)
      {
        SumForAppend(s.transactions, t, id);
      }
    }
  }

  /** A `POST /transactions` request: its body and the time it is handled. */
  datatype Request = Request(clientId: Option<int>, amount: Option<real>, now: string)

  /** The tables after handling `requests` one after another. */
  function ApplyAll(s: LedgerState, requests: seq<Request>): LedgerState
    decreases requests
  {
    if requests == [] then s
    else
      var r := requests[0];
      ApplyAll(TransactionStep(s, r.clientId, r.amount, r.now).1, requests[1..])
  }

  /** The sum of the amounts that `requests` carry for `clientId`. */
  function RequestedFor(requests: seq<Request>, clientId: int): real {
    if requests == [] then 0.0
    else
      (if requests[0].clientId == Some(clientId) && requests[0].amount.Some? then requests[0].amount.value else 0.0)
      + RequestedFor(requests[1..], clientId)
  }

  /** Handling a series of requests leaves an existing client with its
      starting balance plus the sum of the amounts sent for it. */
  lemma {:induction false} ApplyAllBalance(s: LedgerState, requests: seq<Request>, clientId: int)
    requires clientId in s.clients
    ensures var s' := ApplyAll(s, requests);
      && s'.clients.Keys == s.clients.Keys
      && s'.clients[clientId].name == s.clients[clientId].name
      && s'.clients[clientId].balance == s.clients[clientId].balance + RequestedFor(requests, clientId)
    decreases requests
  {
    if requests != [] {
      var r := requests[0];
      var s1 := TransactionStep(s, r.clientId, r.amount, r.now).1;
      ApplyAllBalance(s1, requests[1..], clientId);
    }
  }

  /** Handling a series of requests keeps the tables well formed and the
      balance invariant true. */
  lemma {:induction false} ApplyAllPreserves(s: LedgerState, opening: map<int, real>, requests: seq<Request>)
    requires WellFormed(s.clients, s.transactions) && BalancesMatch(s, opening)
    ensures var s' := ApplyAll(s, requests);
      WellFormed(s'.clients, s'.transactions) && BalancesMatch(s', opening)
    decreases requests
  {
    if requests != [] {
      var r := requests[0];
      TransactionStepPreserves(s, opening, r.clientId, r.amount, r.now);
      ApplyAllPreserves(TransactionStep(s, r.clientId, r.amount, r.now).1, opening, requests[1..]);
    }
  }

  /** The ledger database. `opening` records each client's balance when the
      store was set up, the reference point of the balance invariant. */
  class LedgerStore {
    var clients: map<int, Client>
    var transactions: seq<Transaction>
    ghost var opening: map<int, real>

    function State(): LedgerState
      reads this
    {
      LedgerState(clients, transactions)
    }

    ghost predicate Valid()
      reads this
    {
      && WellFormed(clients, transactions)
      && opening.Keys == clients.Keys
      && BalancesMatch(State(), opening)
    }

    /** A store holding the given client rows and no transactions. Rows made
        by `NewClient` under their own ids meet the requirement
        (`NewClientsKeyed`), so a client inserted without a balance opens at 0. */
    constructor (rows: map<int, Client>)
      requires ClientKeys(rows)
      ensures Valid()
      ensures clients == rows && transactions == []
      ensures opening == map id | id in rows :: rows[id].balance
    {
      clients := rows;
      transactions := [];
      opening := map id | id in rows :: rows[id].balance;
    }

    /** `GET /clients`: every stored client row, and nothing else. */
    method ListClients() returns (rows: set<Client>)
      requires Valid()
      ensures forall id :: id in clients ==> clients[id] in rows
      ensures forall c :: c in rows ==> c.id in clients && clients[c.id] == c
    {
      rows := set id | id in clients :: clients[id];
    }

    /** `POST /transactions`: look the client up, insert the transaction, then
        write the client's balance read before the insert plus the amount. */
    method AddTransaction(clientId: Option<int>, amount: Option<real>, now: string) returns (r: Reply<string>)
      requires Valid()
      modifies this
      ensures Valid() && opening == old(opening)
      ensures (r, State()) == TransactionStep(old(State()), clientId, amount, now)
    {
      if clientId.None? || clientId.value !in clients {
        return NotFound(ClientNotFound);
      }
      var id := clientId.value;
      var client := clients[id];
      var row := NewTransaction(NextRowId(transactions, TransactionId), id, amount, None, now);
      if row.None? {
        return ServerError(InternalServerError);
      }
      TransactionStepPreserves(State(), opening, clientId, amount, now);
      transactions := transactions + [row.value];
      clients := clients[id := client.(balance := client.balance + row.value.amount)];
      r := Ok(TransactionSaved);
    }
  }
}
