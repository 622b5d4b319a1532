/** The `clients` and `transactions` tables: their rows, the defaults and
    NOT NULL constraints applied on insert, the rowid rule that gives a new
    row its primary key, and the well-formedness of a database state (primary
    keys unique, every transaction's `client_id` a foreign key into `clients`). */
module Schema {
  import opened Api

  /** A row of `clients`: integer primary key, NOT NULL name, real balance. */
  datatype Client = Client(id: int, name: string, balance: real)

  /** A row of `transactions`: integer primary key, reference to a client,
      NOT NULL real amount, ISO-8601 creation time. */
  datatype Transaction = Transaction(id: int, clientId: int, amount: real, createdAt: string)

  /** The row that inserting into `clients` stores, or None when the NOT NULL
      constraint on `name` rejects the insert. */
  function NewClient(id: int, name: Option<string>, balance: Option<real>): (row: Option<Client>)
    ensures row.None? <==> name.None?
    ensures row.Some? ==> row.value.id == id && row.value.name == name.value
    ensures row.Some? && balance.None? ==> row.value.balance == 0.0
    ensures row.Some? && balance.Some? ==> row.value.balance == balance.value
  {
    match name
    case None => None
    case Some(n) => Some(Client(id, n, balance.GetOr(0.0)))
  }

  /** Client rows made by the insert above, each under its own id, have the
      keys a ledger store starts from; a row given no balance holds 0. */
  lemma NewClientsKeyed(inserts: map<int, (Option<string>, Option<real>)>)
    requires forall id :: id in inserts ==> inserts[id].0.Some?
    ensures var rows := map id | id in inserts :: NewClient(id, inserts[id].0, inserts[id].1).value;
      && rows.Keys == inserts.Keys
      && ClientKeys(rows)
      && forall id :: id in inserts && inserts[id].1.None? ==> rows[id].balance == 0.0
  {
  }

  /** The row that inserting into `transactions` stores at time `now`, or None
      when the NOT NULL constraint on `amount` rejects the insert. An absent
      `createdAt` takes the insertion time. */
  function NewTransaction(id: int, clientId: int, amount: Option<real>, createdAt: Option<string>, now: string)
    : (row: Option<Transaction>)
    ensures row.None? <==> amount.None?
    ensures row.Some? ==> row.value.id == id && row.value.clientId == clientId && row.value.amount == amount.value
    ensures row.Some? && createdAt.None? ==> row.value.createdAt == now
    ensures row.Some? && createdAt.Some? ==> row.value.createdAt == createdAt.value
  {
    match amount
    case None => None
    case Some(a) => Some(Transaction(id, clientId, a, createdAt.GetOr(now)))
  }

  /** SQLite's rowid rule for a table without AUTOINCREMENT: a new row's key is
      one more than the largest key present, or 1 when the table is empty. */
  function NextRowId<T>(rows: seq<T>, key: T -> int): (next: int)
    ensures forall i :: 0 <= i < |rows| ==> key(rows[i]) < next
    ensures rows == [] ==> next == 1
    ensures rows != [] ==> exists i :: 0 <= i < |rows| && key(rows[i]) == next - 1
  {
    if rows == [] then 1
    else
      var rest := NextRowId(rows[1..], key);
      if rows[1..] == [] || rest <= key(rows[0]) then key(rows[0]) + 1
      else
        assert exists i :: 0 <= i < |rows[1..]| && key(rows[1..][i]) == rest - 1;
        rest
  }

  function TransactionId(t: Transaction): int { t.id }

  /** Primary key of `clients`: every entry is stored under its own id. */
  predicate ClientKeys(clients: map<int, Client>) {
    forall id :: id in clients ==> clients[id].id == id
  }

  /** Primary key of `transactions`: no two rows share an id. */
  predicate UniqueTransactionIds(transactions: seq<Transaction>) {
    forall i, j :: 0 <= i < j < |transactions| ==> transactions[i].id != transactions[j].id
  }

  /** Foreign key `transactions.client_id -> clients.id`. */
  predicate ReferencesExist(clients: map<int, Client>, transactions: seq<Transaction>) {
    forall i :: 0 <= i < |transactions| ==> transactions[i].clientId in clients
  }

  predicate WellFormed(clients: map<int, Client>, transactions: seq<Transaction>) {
    && ClientKeys(clients)
    && UniqueTransactionIds(transactions)
    && ReferencesExist(clients, transactions)
  }

  /** Appending a row whose key is the next rowid keeps the keys unique. */
  lemma {:induction false} AppendNextIdKeepsUnique(transactions: seq<Transaction>, t: Transaction)
    requires UniqueTransactionIds(transactions)
    requires t.id == NextRowId(transactions, TransactionId)
    ensures UniqueTransactionIds(transactions + [t])
  {
    var next := NextRowId(transactions, TransactionId);
    forall i | 0 <= i < |transactions|
      ensures (transactions + [t])[i].id != t.id
    {
      assert TransactionId(transactions[i]) < next;
    }
  }
}
