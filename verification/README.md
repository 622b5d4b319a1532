# COBOL Bridge ledger and credential store, in Dafny

This project models the core of the COBOL Bridge API. The API keeps a ledger
of clients and their transactions in SQLite tables, and it keeps a table of
users who register and log in with bcrypt-hashed passwords.

- `api.dfy` (module `Api`): optional request fields (`Option`, where `None`
  stands for a field missing from the JSON body). It also holds the outcome of
  a handler as a `Reply` datatype (`Ok`, `Created`, `BadRequest`,
  `Unauthorized`, `NotFound`, `ServerError`) with the handlers' own error
  messages, and JavaScript truthiness of a string field (`Given`).
- `schema.js` becomes `schema.dfy` (module `Schema`). It holds the `clients`
  and `transactions` rows and what an insert stores: the NOT NULL columns, the
  `balance` default of 0 and the `created_at` default of the insertion time.
  It also holds SQLite's rowid rule for a new primary key and the
  well-formedness of the tables: unique keys, and `client_id` as a foreign key.
- `routes.js` becomes `ledger.dfy` (module `Ledger`). `POST /transactions` is
  a pure transition, `TransactionStep`, over the two tables. The class
  `LedgerStore` holds the tables as a `map` and a `seq`. Its method
  `AddTransaction` performs the same steps as the handler: look up, insert,
  write the balance. It is proved to produce exactly that transition and to
  keep the balance invariant: every client's balance equals its opening
  balance plus the sum of its transactions' amounts. `ListClients` is
  `GET /clients`.
- `routes/auth.js` becomes `auth.dfy` (module `Auth`). `POST /register` and
  `POST /login` are the pure functions `RegisterStep` and `LoginDecision` over
  the `users` table. The class `CredentialStore` has an imperative `Register`
  that appends to the table. It also has a `Login` that does not modify the
  table, since it has no `modifies` clause.
- The request time is an explicit `now` parameter. The random salt that bcrypt
  draws is an explicit `salt` parameter. bcrypt's key derivation is a function
  value `kdf` given to the store. A stored password is a `PasswordHash(salt,
  digest)`, and registration always stores `Hash(kdf, password, salt)` there,
  never the raw password field. `Compare` derives the digest again using the
  salt kept in the hash, which is how `bcrypt.compare` works.

Points worth knowing about the code:

- The balance invariant is stated against each client's opening balance. It
  is not stated against zero, because clients are created outside these
  handlers and can hold any balance.
- A duplicate username gets the same 400 status as missing fields, but a
  different message.
- An empty username or password is rejected just like a missing one
  (`!username`).
- A transaction with no amount, for an existing client, reaches the insert.
  The NOT NULL constraint then fails and the catch block answers 500. Nothing
  has been written at that point.

## Model

| member | source | states |
|---|---|---|
| `Schema.NewClient` | schema.js:3-7 | an insert without a name is rejected (NOT NULL); a stored client keeps the given id and name, and its balance is 0 when none is given |
| `Schema.NewClientsKeyed` | schema.js:3-7 | client rows built by the insert under their own ids satisfy the primary-key condition the ledger store starts from, and each row given no balance holds 0 |
| `Schema.NewTransaction` | schema.js:9-14 | an insert without an amount is rejected (NOT NULL); a stored transaction keeps the id, client id and amount, and `createdAt` is the insertion time `now` when none is given |
| `Schema.NextRowId` | schema.js:10 | a new integer primary key is larger than every key in the table, and it is one more than the largest key (1 in an empty table); the 64-bit ceiling is not modelled (see Left out) |
| `Schema.AppendNextIdKeepsUnique` | schema.js:10 | appending a row keyed by the next rowid keeps the transaction ids unique (primary key) |
| `Ledger.SumForAppend` | routes.js:55-56 | appending a transaction adds its amount to the sum of its own client and leaves every other client's sum unchanged |
| `Ledger.TransactionStep` | routes.js:46-63 | a missing or unknown client id gives NotFound("Client not found") and leaves both tables unchanged; a missing amount gives a 500 and leaves them unchanged; otherwise "Transaction saved", and exactly one transaction is appended (given client id and amount, created at `now`, a fresh id) with earlier transactions unchanged; the client's balance becomes old balance + amount, its name is kept, and every other client is unchanged |
| `Ledger.TransactionStepPreserves` | routes.js:50-56 | one handled request keeps the keys unique, keeps every transaction referring to an existing client, and keeps each balance equal to opening balance + sum of that client's transactions |
| `Ledger.ApplyAllBalance` | routes.js:56 | after any series of requests, an existing client is still present with the same name, and its balance is the starting balance plus the sum of the amounts sent for it |
| `Ledger.ApplyAllPreserves` | routes.js:50-56 | any series of requests keeps the tables well formed and the balance invariant true |
| `Ledger.LedgerStore.ListClients` | routes.js:16-19 | returns every stored client row and only those, and changes nothing |
| `Ledger.LedgerStore.AddTransaction` | routes.js:46-58 | the lookup, insert and balance write yield exactly the reply and tables of `TransactionStep`, and keep the store's invariant (keys, foreign key, balances) |
| `Auth.CompareAcceptsHash` | routes/auth.js:121 | a password always matches a hash made from it, whatever salt was drawn |
| `Auth.FindUser` | routes/auth.js:43-47 | the lookup by username finds a row exactly when some stored user has that username, and the row it returns is a stored user with that username |
| `Auth.RegisterStep` | routes/auth.js:34-72 | a missing or empty username or password gives BadRequest and no change; a taken username gives BadRequest and no change; otherwise exactly one user is appended, with the username, `Hash(kdf, password, salt)` as the stored password (never the raw field), the role or "user" when none is given, and a fresh id, and the reply is Created with the message "Utilisateur créé avec succès" and that user's token |
| `Auth.RegisterKeepsUnique` | routes/auth.js:43-64 | registration keeps usernames unique and user ids unique |
| `Auth.LoginDecision` | routes/auth.js:101-132 | a missing or empty field gives BadRequest; with both fields present, the only failure is Unauthorized("Identifiants invalides"); success means some stored user has that username and a matching password, and the reply carries "Connexion réussie" and that user's token |
| `Auth.LoginSucceedsIff` | routes/auth.js:110-128 | with unique usernames, login succeeds exactly when a user with that username exists and `compare(password, storedHash)` holds |
| `Auth.LoginFailuresIndistinguishable` | routes/auth.js:116-124 | an unknown username and a known username with a wrong password give the identical Unauthorized reply |
| `Auth.CredentialStore.Register` | routes/auth.js:34-72 | the validation, duplicate lookup and hashed insert yield exactly the reply and table of `RegisterStep`, and keep usernames and ids unique |
| `Auth.CredentialStore.Login` | routes/auth.js:101-132 | returns the reply of `LoginDecision` and, having no `modifies` clause, leaves the store unchanged |

## Left out

- Concurrency. At routes.js:55-56 the insert and the balance write are two separate, unwrapped awaits. At routes/auth.js:43-64 the duplicate check and the insert are also separate. Concurrent requests can therefore lose a balance update or register a username twice. Each handler is modelled as one atomic step.
- Floating point. `balance` and `amount` are SQLite `real` columns and JavaScript numbers. The model uses exact Dafny `real`, with no rounding.
- Auth.Hash: the model does not capture that the key derivation `kdf` is one-way; it is an unconstrained parameter, so nothing stops a `kdf` that returns the password itself.
- Schema.NextRowId: the int64 ceiling of SQLite rowids is not modelled. When the largest key is 9223372036854775807, SQLite picks an unused random rowid instead of max+1; the model's unbounded `int` keeps returning max+1.
- bcrypt internals and the cost factor 10. Key derivation is the `kdf` parameter and the salt is a parameter.
- `generateToken`: JWT signing, expiry and the secret. `middleware/auth.js` is not part of this model. A token is the abstract value `Token(userId, username, role)` of the user.
- HTTP status codes, the JSON encoding of bodies, console logging, and the catch blocks for storage failures. The one modelled exception is the NOT NULL failure of a missing amount. The text of every body is kept: each error message, "Transaction saved", and the register and login success messages beside the token.
- Request values of the wrong JavaScript type. Each body field is modelled as either absent or present with its intended type: `username`, `password` and `role` as strings, `clientId` as an integer, `amount` as a real. JavaScript coercions are not modelled: a numeric username, a string amount concatenated onto a balance, or a `null` balance behaving as 0.
- An explicit `null` role, which would be stored as null. Only an absent role gets the "user" default.
- `clients.id.eq(clientId)` (routes.js:50, 56) is modelled as what it means: lookup by id.
- The `users` table is not defined in schema.js. Its columns are taken from routes/auth.js:60-62, plus an integer id.
- Creating clients. No handler here creates them, so `LedgerStore`'s constructor takes the initial rows.
- Ledger.LedgerStore.ListClients: returns the rows as a set, so the order in which SQLite returns them is not modelled.
- index.js, database.js and drizzle.config.js: Express setup, Swagger, the port listener and the SQLite connection. The tables are in-memory maps and sequences.
- The transaction query and filter engine, CSV export, and token verification middleware. Their source files are not part of this model.
