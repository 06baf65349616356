/** The ledger query at the end of the handler's transfer path: the entries
    whose destination is a given wallet (`Where`), and the sum of their points
    (`Sum`). The ledger is a sequence in storage order; the lemmas below show
    that the figure does not depend on that order and counts exactly the
    entries whose destination matches. */
module Ledger {
  import opened Models

  /** The filter of the query: the entry's destination wallet is `walletId`.
      An entry without a destination never matches. */
  predicate Debits(t: Transaction, walletId: string) {
    t.debitWalletId == Some(walletId)
  }

  /** The entries of `ledger` whose destination is `walletId`, in ledger order:
      every matching entry as often as it occurs in the ledger, and no other. */
  function Where(ledger: seq<Transaction>, walletId: string): (r: seq<Transaction>)
    ensures forall t :: multiset(r)[t] == if Debits(t, walletId) then multiset(ledger)[t] else 0
    ensures |r| <= |ledger|
  {
    if ledger == [] then []
    else
      assert ledger == [ledger[0]] + ledger[1..];
      if Debits(ledger[0], walletId) then [ledger[0]] + Where(ledger[1..], walletId)
      else Where(ledger[1..], walletId)
  }

  /** The points of all entries of `ts`. */
  function Sum(ts: seq<Transaction>): int {
    if ts == [] then 0 else ts[0].points + Sum(ts[1..])
  }

  /** The points the handler adds up for destination `walletId`. */
  function PointsDebitedTo(ledger: seq<Transaction>, walletId: string): int {
    Sum(Where(ledger, walletId))
  }

  lemma {:induction false} SumAppend(a: seq<Transaction>, b: seq<Transaction>)
    ensures Sum(a + b) == Sum(a) + Sum(b)
  {
    if a == [] {
      assert a + b == b;
    } else {
      assert (a + b)[1..] == a[1..] + b;
      SumAppend(a[1..], b);
    }
  }

  /** Taking entry `j` out of the sequence takes its points out of the sum. */
  lemma SumRemove(s: seq<Transaction>, j: nat)
    requires j < |s|
    ensures Sum(s) == s[j].points + Sum(s[..j] + s[j + 1..])
  {
    assert s == s[..j] + ([s[j]] + s[j + 1..]);
    SumAppend(s[..j], [s[j]] + s[j + 1..]);
    SumAppend(s[..j], s[j + 1..]);
    assert ([s[j]] + s[j + 1..])[1..] == s[j + 1..];
  }

  /** The sum does not depend on the order of the entries. */
  lemma {:induction false} SumPermutation(a: seq<Transaction>, b: seq<Transaction>)
    requires multiset(a) == multiset(b)
    ensures Sum(a) == Sum(b)
    decreases |a|
  {
    if a == [] {
      assert |b| == |multiset(b)| == 0;
    } else {
      var x := a[0];
      assert x in multiset(b);
      var j :| 0 <= j < |b| && b[j] == x;
      SumRemove(b, j);
      var rest := b[..j] + b[j + 1..];
      assert b == b[..j] + [b[j]] + b[j + 1..];
      assert multiset(rest) == multiset(b) - multiset{x};
      assert a == [x] + a[1..];
      assert multiset(a[1..]) == multiset(a) - multiset{x};
      SumPermutation(a[1..], rest);
    }
  }

  lemma {:induction false} WhereAppend(a: seq<Transaction>, b: seq<Transaction>, walletId: string)
    ensures Where(a + b, walletId) == Where(a, walletId) + Where(b, walletId)
  {
    if a == [] {
      assert a + b == b;
    } else {
      assert (a + b)[0] == a[0];
      assert (a + b)[1..] == a[1..] + b;
      WhereAppend(a[1..], b, walletId);
    }
  }

  /** Recording one more entry adds its points to the destination's figure
      when it is that destination's, and leaves the figure alone otherwise. */
  lemma PointsDebitedToAppend(ledger: seq<Transaction>, t: Transaction, walletId: string)
    ensures PointsDebitedTo(ledger + [t], walletId)
         == PointsDebitedTo(ledger, walletId) + (if Debits(t, walletId) then t.points else 0)
  {
    WhereAppend(ledger, [t], walletId);
    assert [t] == [t] + [];
    SumAppend(Where(ledger, walletId), Where([t], walletId));
  }

  /** The figure depends on which entries the ledger holds, not on their order. */
  lemma PointsDebitedToReorder(a: seq<Transaction>, b: seq<Transaction>, walletId: string)
    requires multiset(a) == multiset(b)
    ensures PointsDebitedTo(a, walletId) == PointsDebitedTo(b, walletId)
  {
    assert multiset(Where(a, walletId)) == multiset(Where(b, walletId));
    SumPermutation(Where(a, walletId), Where(b, walletId));
  }

  /** The figure sees only the entries whose destination is `walletId`: two
      ledgers that hold the same such entries give the same figure, whatever
      else they hold. */
  lemma PointsDebitedToOnlyMatching(a: seq<Transaction>, b: seq<Transaction>, walletId: string)
    requires forall t :: Debits(t, walletId) ==> multiset(a)[t] == multiset(b)[t]
    ensures PointsDebitedTo(a, walletId) == PointsDebitedTo(b, walletId)
  {
    assert multiset(Where(a, walletId)) == multiset(Where(b, walletId));
    SumPermutation(Where(a, walletId), Where(b, walletId));
  }

  /** With no negative amounts on the ledger, the figure lies between zero and
      the total of the whole ledger. */
  lemma {:induction false} PointsDebitedToBounds(ledger: seq<Transaction>, walletId: string)
    requires forall i :: 0 <= i < |ledger| ==> ledger[i].points >= 0
    ensures 0 <= PointsDebitedTo(ledger, walletId) <= Sum(ledger)
  {
    if ledger != [] {
      PointsDebitedToBounds(ledger[1..], walletId);
    }
  }
}
