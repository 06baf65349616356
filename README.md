# Point-transfer validation, modelled in Dafny

This project models the validation front-end of the point-transfer handler
of a small points-wallet service. A transfer moves points from a source
("credit") wallet to a destination ("debit") wallet and is recorded on a
ledger of transactions. The handler does three things:

- It checks the proposed transfer: the amount must be positive, a source
  wallet must be named, and the source and destination must differ. The
  first failing check decides the answer, a bad request.
- It looks both wallets up and checks them: the source must exist, then the
  destination must exist (both "not found" otherwise), then the source's
  balance must cover the amount (a bad request otherwise).
- It adds up the points of every ledger entry whose destination is the
  transfer's destination.

The handler stops there: it allocates nothing, changes no balance and
records no entry, so the model stops there too.

Files:

- `models.dfy`, module `Models`: the ledger entry (`Transaction`), `Wallet`,
  the wallet store as a `map` from id to wallet, and lookup by id.
- `ledger.dfy`, module `Ledger`: the ledger query as a filter (`Where`) and
  a sum (`Sum`), with their properties: exactly the matching entries are
  counted, and their order does not matter.
- `transaction_handler.dfy`, module `TransactionHandler`: the two
  validators, the transfer path up to the ledger figure (`ProcessTransaction`,
  a function returning `Rejected(error)` or `Validated(from, to, figure)`),
  and lemmas about the order of the checks.

Modelling choices:

- The handler and the transaction record use different names for the same
  data. The handler's `Amount`, `CreditWallet.Id` and `DebitWallet.Id` are
  the record's `Points`, `CreditWalletId` and `DebitWalletId`. The model
  has one record with `points`, `creditWalletId` and `debitWalletId`. A
  missing wallet reference is `None`.
- The handler reads the destination's id without a null check. It does so
  in the same-wallet comparison, which runs only after the amount and source
  checks pass. The predicate `DestinationReadable` requires a destination in
  exactly that case, and both `ValidateTransaction` and `ProcessTransaction`
  require it. A transfer with a bad amount or no source and no destination
  is still answered normally, as in the source.
- Both the store and the ledger are plain values passed as parameters.
  `ProcessTransaction` is a function, so it changes neither.
- The handler's checks disagree with a more general description of the
  service. That description calls the second transfer check a missing
  destination. The code checks for a missing source (`CreditWallet == null`),
  and the model follows the code.

## Model

| member | source | states |
|---|---|---|
| `Models.Find` | Handlers/TransactionHandler.cs:50-51 | lookup by id finds a wallet exactly when the id is a key of the store; in a store keyed by id the wallet found carries the requested id |
| `Ledger.Where` | Handlers/TransactionHandler.cs:56-57 | the filtered ledger holds every entry whose destination is the wallet, as often as the ledger holds it, and no other entry |
| `Ledger.SumAppend` | Handlers/TransactionHandler.cs:58 | the sum of points over two ledger parts joined is the sum of the parts |
| `Ledger.SumPermutation` | Handlers/TransactionHandler.cs:58 | the sum of points does not depend on the order of the entries |
| `Ledger.WhereAppend` | Handlers/TransactionHandler.cs:56-57 | filtering a joined ledger is joining the filtered parts |
| `Ledger.PointsDebitedToAppend` | Handlers/TransactionHandler.cs:56-58 | one more ledger entry adds its points to a wallet's figure when that wallet is its destination, and nothing otherwise |
| `Ledger.PointsDebitedToReorder` | Handlers/TransactionHandler.cs:56-58 | a wallet's figure is the same for any ordering of the same ledger entries |
| `Ledger.PointsDebitedToOnlyMatching` | Handlers/TransactionHandler.cs:56-58 | two ledgers that hold the same entries with the wallet as destination give the same figure, whatever else they hold |
| `Ledger.PointsDebitedToBounds` | Handlers/TransactionHandler.cs:56-58 | with no negative amounts on the ledger, a wallet's figure is between zero and the total of the whole ledger |
| `TransactionHandler.ValidateTransaction` | Handlers/TransactionHandler.cs:7-23 | no error exactly when the amount is positive, a source is named and the two wallet ids differ; every failure is a bad request |
| `TransactionHandler.NonPositiveAmountRejected` | Handlers/TransactionHandler.cs:9-12 | an amount of zero or less is refused as a bad request whatever the wallets are |
| `TransactionHandler.MissingSourceRejected` | Handlers/TransactionHandler.cs:13-16 | with a positive amount, a missing source is refused as a bad request |
| `TransactionHandler.SameWalletRejected` | Handlers/TransactionHandler.cs:17-20 | with a positive amount and a source, a transfer whose source and destination ids are equal is refused as a bad request |
| `TransactionHandler.ValidateWallets` | Handlers/TransactionHandler.cs:25-43 | no error exactly when both wallets exist and the source's balance covers the amount; "not found" exactly when a wallet is missing |
| `TransactionHandler.MissingSourceWalletFirst` | Handlers/TransactionHandler.cs:27-30 | a missing source is reported as not found, whatever the destination and the amount |
| `TransactionHandler.MissingDestinationWalletBeforeBalance` | Handlers/TransactionHandler.cs:32-35 | with the source present, a missing destination is reported as not found, whatever the balance and the amount |
| `TransactionHandler.InsufficientFundsExactly` | Handlers/TransactionHandler.cs:37-42 | with both wallets present, insufficient funds is reported exactly when the balance is below the amount; a balance equal to the amount passes |
| `TransactionHandler.ProcessTransaction` | Handlers/TransactionHandler.cs:45-58 | the path gets past both checks exactly when the transfer is well formed, both wallets are in the store and the source's balance covers the amount; a rejection always carries an error |
| `TransactionHandler.TransferErrorBeforeLookup` | Handlers/TransactionHandler.cs:47-48 | a transfer-check error is the answer, and it does not depend on the wallet store or the ledger |
| `TransactionHandler.WalletErrorBeforeLedgerRead` | Handlers/TransactionHandler.cs:50-54 | a wallet-check error on the looked-up wallets is the answer, and it does not depend on the ledger |
| `TransactionHandler.ValidatedWallets` | Handlers/TransactionHandler.cs:50-54 | past both checks, the wallets in hand are the store's source and destination, they are different wallets, and the source's balance covers the positive amount |
| `TransactionHandler.LedgerFigureAppend` | Handlers/TransactionHandler.cs:56-58 | the figure counts exactly the ledger entries whose destination is the transfer's destination: one more entry changes it by its points if it is one of them, and not otherwise |
| `TransactionHandler.LedgerFigureReorder` | Handlers/TransactionHandler.cs:56-58 | the outcome of the transfer path does not depend on the order of the ledger's entries |
| `TransactionHandler.LedgerFigureEmpty` | Handlers/TransactionHandler.cs:56-58 | on an empty ledger the figure is zero |

## Left out

- The handler stops after computing the ledger figure. It has no allocation
  of spent points, no balance updates, no new ledger entry, no commit and no
  final result. None of this is modelled, because there is no code for it.
- `GiftPoints` and `SpendPoints` are called by the service, but their bodies
  are not part of this model.
- HTTP routing, OpenAPI setup, dependency registration, start-up seeding and
  the `/test` endpoint (Program.cs) are out of scope. They are plumbing around
  the handler.
- The Entity Framework contexts (Models/TransactionDb.cs, Models/WalletDb.cs)
  are modelled as a plain `map` for wallets and a `seq` for the ledger.
  Asynchronous calls, database transactions and concurrency are left out.
- GUID generation and date parsing are left out: ids are strings and
  timestamps are opaque values.
- `Ledger.Sum`: amounts and sums are unbounded integers. The overflow of
  64-bit `long` sums is not modelled.
- The handler dereferences a missing destination. That would raise an
  exception, and the model does not include it. Instead, `DestinationReadable`
  is a precondition.
