/**
 * The one persisted entity, the `transactions` table, and its insert form.
 * Non-null columns are plain fields; nullable columns are Options. The `type`
 * column is free text ("credit" or "debit" by convention, not enforced), named
 * `txType` here because `type` is a Dafny keyword. `integer` columns are `int`,
 * `real` columns are `real`, and the `timestamp` is an `int` (milliseconds).
 */
module Schema {
  import opened Wrappers

  /** The opaque primary key (a UUID string). */
  type Id = string

  const CreditText: string := "credit"
  const DebitText: string := "debit"

  /** A row as the client submits it: no `id`, no `createdAt`. */
  datatype InsertTransaction = InsertTransaction(
    txType: string,
    subType: string,
    amount: real,
    index: Option<int>,
    rate: Option<real>,
    profit: Option<real>,
    quantity: Option<int>)

  /** A stored row: the insert fields plus the two server-assigned ones. */
  datatype Transaction = Transaction(
    id: Id,
    txType: string,
    subType: string,
    amount: real,
    index: Option<int>,
    rate: Option<real>,
    profit: Option<real>,
    quantity: Option<int>,
    createdAt: int)

  /** The insert-form view of a stored row: everything but `id` and `createdAt`. */
  function Draft(t: Transaction): InsertTransaction {
    InsertTransaction(t.txType, t.subType, t.amount, t.index, t.rate, t.profit, t.quantity)
  }

  /** `{...draft, id, createdAt}`: a stored row carrying the draft and the assigned fields. */
  function Stamp(d: InsertTransaction, id: Id, createdAt: int): (t: Transaction)
    ensures t.id == id && t.createdAt == createdAt
    ensures Draft(t) == d
  {
    Transaction(id, d.txType, d.subType, d.amount, d.index, d.rate, d.profit, d.quantity, createdAt)
  }

  /** Every stored row is its draft stamped with its own id and creation time. */
  lemma StampDraft(t: Transaction)
    ensures Stamp(Draft(t), t.id, t.createdAt) == t
  {
  }
}
