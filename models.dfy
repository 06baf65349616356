/** The records the handler works on: ledger entries (Models/Transaction.cs),
    wallets and the wallet store that the handler looks wallets up in. */
module Models {

  datatype Option<+T> = None | Some(value: T)

  /** A point in time. Parsing and clock reads are not modelled; only the value
      is carried along. */
  datatype DateTime = DateTime(ticks: int)

  /** One ledger entry. The handler reads the same record under other names:
      its `Amount` is `points`, its `CreditWallet.Id` is `creditWalletId` (the
      source, whose points are spent) and its `DebitWallet.Id` is
      `debitWalletId` (the destination, which receives the points). A missing
      wallet reference is `None`. A new entry's `spentPoints` is 0. */
  datatype Transaction = Transaction(
    id: string,
    timeStamp: DateTime,
    points: int,
    spentPoints: int,
    creditWalletId: Option<string>,
    debitWalletId: Option<string>)

  /** A wallet: its identifier and its current balance. */
  datatype Wallet = Wallet(id: string, balance: int)

  /** The wallet table, keyed by wallet id. */
  type WalletStore = map<string, Wallet>

  /** A store whose every entry sits under its own id, as a primary-key table does. */
  predicate KeyedById(store: WalletStore) {
    forall k :: k in store ==> store[k].id == k
  }

  /** Lookup of a wallet by primary key: the wallet stored under `id`, or
      nothing when there is none. */
  function Find(store: WalletStore, id: string): (r: Option<Wallet>)
    ensures r.Some? <==> id in store
    ensures r.Some? ==> r.value == store[id]
    ensures KeyedById(store) && r.Some? ==> r.value.id == id
  {
    if id in store then Some(store[id]) else None
  }
}
