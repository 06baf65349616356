/** The validation front-end of the point-transfer handler
    (Handlers/TransactionHandler.cs): the checks on a proposed transfer, the
    checks on the wallets it names, and the part of the transfer path that
    runs both and reads the destination's ledger figure. */
module TransactionHandler {
  import opened Models
  import opened Ledger

  /** What a check hands back: a 400-style rejection, a 404-style rejection,
      each with its message, or no error. */
  datatype Result = BadRequest(message: string) | NotFound(message: string) | NoError

  const AmountNotPositive := "Amount must be greater than 0"
  const CreditWalletRequired := "Credit wallet ID is required"
  const SameWallet := "Cannot transfer to the same wallet"
  const CreditWalletNotFound := "Credit wallet not found"
  const DebitWalletNotFound := "Debit wallet not found"
  const InsufficientFunds := "Insufficient funds"

  /** The handler reads the destination's id without a null check, on the
      same-wallet comparison that comes after the amount and source checks;
      a caller must supply a destination whenever those two checks pass. */
  predicate DestinationReadable(t: Transaction) {
    t.points > 0 && t.creditWalletId.Some? ==> t.debitWalletId.Some?
  }

  /** A well-formed transfer: a positive amount between two named, different wallets. */
  predicate IsWellFormedTransfer(t: Transaction) {
    && t.points > 0
    && t.creditWalletId.Some?
    && t.debitWalletId.Some?
    && t.creditWalletId.value != t.debitWalletId.value
  }

  /** The checks on a proposed transfer, in order: amount, source, same wallet.
      The first that fails decides the answer, which is always a bad request. */
  function ValidateTransaction(t: Transaction): (r: Result)
    requires DestinationReadable(t)
    ensures r.NoError? <==> IsWellFormedTransfer(t)
    ensures !r.NotFound?
  {
    if t.points <= 0 then BadRequest(AmountNotPositive)
    else if t.creditWalletId.None? then BadRequest(CreditWalletRequired)
    else if t.creditWalletId.value == t.debitWalletId.value then BadRequest(SameWallet)
    else NoError
  }

  /** The checks on the looked-up wallets, in order: source exists, destination
      exists, source can cover the amount. Missing wallets are "not found",
      a short balance is a bad request. */
  function ValidateWallets(fromWallet: Option<Wallet>, toWallet: Option<Wallet>, amount: int): (r: Result)
    ensures r.NoError? <==> fromWallet.Some? && toWallet.Some? && fromWallet.value.balance >= amount
    ensures r.NotFound? <==> fromWallet.None? || toWallet.None?
  {
    if fromWallet.None? then NotFound(CreditWalletNotFound)
    else if toWallet.None? then NotFound(DebitWalletNotFound)
    else if fromWallet.value.balance < amount then BadRequest(InsufficientFunds)
    else NoError
  }

  /** Where the transfer path ends: rejected by one of the checks, or past
      both with the two wallets and the destination's ledger figure in hand. */
  datatype Outcome =
    | Rejected(error: Result)
    | Validated(fromWallet: Wallet, toWallet: Wallet, previousPointIncreases: int)

  /** The transfer path as far as the source goes: validate the transfer, look
      up both wallets, validate them, then add up the points of every ledger
      entry whose destination is the transfer's destination. It only reads the
      store and the ledger. */
  function ProcessTransaction(t: Transaction, wallets: WalletStore, ledger: seq<Transaction>): (r: Outcome)
    requires DestinationReadable(t)
    ensures r.Validated? <==>
      && IsWellFormedTransfer(t)
      && t.creditWalletId.value in wallets
      && t.debitWalletId.value in wallets
      && wallets[t.creditWalletId.value].balance >= t.points
    ensures r.Rejected? ==> !r.error.NoError?
  {
    var transactionValidationError := ValidateTransaction(t);
    if !transactionValidationError.NoError? then Rejected(transactionValidationError)
    else
      var fromWallet := Find(wallets, t.creditWalletId.value);
      var toWallet := Find(wallets, t.debitWalletId.value);
      var walletValidationError := ValidateWallets(fromWallet, toWallet, t.points);
      if !walletValidationError.NoError? then Rejected(walletValidationError)
      else Validated(fromWallet.value, toWallet.value, PointsDebitedTo(ledger, t.debitWalletId.value))
  }

  // ---------------------------------------------------------------------------
  // The order of the transfer checks

  /** A non-positive amount is refused first, whatever the wallets are. */
  lemma NonPositiveAmountRejected(t: Transaction)
    requires t.points <= 0
    ensures ValidateTransaction(t) == BadRequest(AmountNotPositive)
  {
  }

  /** With a positive amount, a missing source is refused next. */
  lemma MissingSourceRejected(t: Transaction)
    requires t.points > 0 && t.creditWalletId.None?
    ensures ValidateTransaction(t) == BadRequest(CreditWalletRequired)
  {
  }

  /** With a positive amount and a source, a transfer to the source itself is refused. */
  lemma SameWalletRejected(t: Transaction)
    requires t.points > 0 && t.creditWalletId.Some? && t.creditWalletId == t.debitWalletId
    ensures ValidateTransaction(t) == BadRequest(SameWallet)
  {
  }

  // ---------------------------------------------------------------------------
  // The order of the wallet checks

  /** A missing source is reported before the destination or the balance is considered. */
  lemma MissingSourceWalletFirst(toWallet: Option<Wallet>, amount: int)
    ensures ValidateWallets(None, toWallet, amount) == NotFound(CreditWalletNotFound)
  {
  }

  /** With the source present, a missing destination is reported before the balance is considered. */
  lemma MissingDestinationWalletBeforeBalance(fromWallet: Wallet, amount: int)
    ensures ValidateWallets(Some(fromWallet), None, amount) == NotFound(DebitWalletNotFound)
  {
  }

  /** With both wallets present, the answer is "insufficient funds" exactly
      when the source's balance is below the amount; an exact balance is enough. */
  lemma InsufficientFundsExactly(fromWallet: Wallet, toWallet: Wallet, amount: int)
    ensures ValidateWallets(Some(fromWallet), Some(toWallet), amount) == BadRequest(InsufficientFunds)
        <==> fromWallet.balance < amount
    ensures fromWallet.balance == amount ==> ValidateWallets(Some(fromWallet), Some(toWallet), amount) == NoError
  {
  }

  // ---------------------------------------------------------------------------
  // The transfer path

  /** A transfer the first checks refuse is answered with their error before
      any wallet is looked up: the answer does not depend on the store or the
      ledger. */
  lemma TransferErrorBeforeLookup(t: Transaction, wallets: WalletStore, ledger: seq<Transaction>,
                                  wallets': WalletStore, ledger': seq<Transaction>)
    requires DestinationReadable(t) && !ValidateTransaction(t).NoError?
    ensures ProcessTransaction(t, wallets, ledger) == Rejected(ValidateTransaction(t))
    ensures ProcessTransaction(t, wallets, ledger) == ProcessTransaction(t, wallets', ledger')
  {
  }

  /** A transfer whose wallets fail their checks is answered with that error
      before the ledger is read: the answer does not depend on the ledger. */
  lemma WalletErrorBeforeLedgerRead(t: Transaction, wallets: WalletStore, ledger: seq<Transaction>, ledger': seq<Transaction>)
    requires IsWellFormedTransfer(t)
    requires !ValidateWallets(Find(wallets, t.creditWalletId.value), Find(wallets, t.debitWalletId.value), t.points).NoError?
    ensures ProcessTransaction(t, wallets, ledger)
         == Rejected(ValidateWallets(Find(wallets, t.creditWalletId.value), Find(wallets, t.debitWalletId.value), t.points))
    ensures ProcessTransaction(t, wallets, ledger) == ProcessTransaction(t, wallets, ledger')
  {
  }

  /** A transfer past both checks holds the source and destination from the
      store: two different wallets, the source able to cover the positive amount. */
  lemma ValidatedWallets(t: Transaction, wallets: WalletStore, ledger: seq<Transaction>)
    requires DestinationReadable(t) && KeyedById(wallets)
    requires ProcessTransaction(t, wallets, ledger).Validated?
    ensures var r := ProcessTransaction(t, wallets, ledger);
      && Some(r.fromWallet.id) == t.creditWalletId
      && Some(r.toWallet.id) == t.debitWalletId
      && r.fromWallet.id != r.toWallet.id
      && r.fromWallet == wallets[r.fromWallet.id]
      && r.toWallet == wallets[r.toWallet.id]
      && 0 < t.points <= r.fromWallet.balance
  {
  }

  /** The ledger figure of a validated transfer counts every entry whose
      destination is the transfer's destination and nothing else: recording
      one more entry changes it by that entry's points when it is the
      destination's and not at all otherwise. */
  lemma LedgerFigureAppend(t: Transaction, wallets: WalletStore, ledger: seq<Transaction>, e: Transaction)
    requires DestinationReadable(t) && ProcessTransaction(t, wallets, ledger).Validated?
    ensures ProcessTransaction(t, wallets, ledger + [e]).Validated?
    ensures ProcessTransaction(t, wallets, ledger + [e]).previousPointIncreases
         == ProcessTransaction(t, wallets, ledger).previousPointIncreases
            + (if e.debitWalletId == t.debitWalletId then e.points else 0)
  {
    PointsDebitedToAppend(ledger, e, t.debitWalletId.value);
  }

  /** The ledger figure of a validated transfer does not depend on the order
      in which the ledger holds its entries. */
  lemma LedgerFigureReorder(t: Transaction, wallets: WalletStore, ledger: seq<Transaction>, ledger': seq<Transaction>)
    requires DestinationReadable(t) && ProcessTransaction(t, wallets, ledger).Validated?
    requires multiset(ledger) == multiset(ledger')
    ensures ProcessTransaction(t, wallets, ledger') == ProcessTransaction(t, wallets, ledger)
  {
    PointsDebitedToReorder(ledger, ledger', t.debitWalletId.value);
  }

  /** The ledger figure of a validated transfer is zero on an empty ledger. */
  lemma LedgerFigureEmpty(t: Transaction, wallets: WalletStore)
    requires DestinationReadable(t) && ProcessTransaction(t, wallets, []).Validated?
    ensures ProcessTransaction(t, wallets, []).previousPointIncreases == 0
  {
  }
}
