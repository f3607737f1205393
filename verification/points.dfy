/**
 The value types shared by the point ledger: the balance snapshot a user sees,
 one line of the transaction history, the kind of a transaction, the reasons
 a request is rejected, and the balance cap.
 */
module Points {

  /** The largest balance a user may hold (`maxBalnce` in the service). */
  const MaxBalance: int := 1_000_000

  /** Whether a history line records points added or points spent. */
  datatype TransactionType = Charge | Use

  /** A user's balance as the balance table reports it. The table's own
      update timestamp is not modelled. */
  datatype UserPoint = UserPoint(id: int, point: int)

  /** One line of the append-only history: who, how much, which way, and the
      caller-supplied time of the request. The table-assigned line id is not
      modelled. */
  datatype PointHistory = PointHistory(userId: int, amount: int, kind: TransactionType, updateMillis: int)

  /** The two business-rule rejections. Both leave the ledger untouched. */
  datatype PointError =
    | BalanceCapExceeded   // a charge would lift the balance above MaxBalance
    | InsufficientBalance  // a use would take more than the balance holds

  /** A balance the ledger is meant to keep: between zero and the cap. */
  predicate InRange(point: int) {
    0 <= point <= MaxBalance
  }
}
