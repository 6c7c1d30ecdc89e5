/** Rows of the key table and the decision made on one. */
module KeyRecord {
  import opened Wrappers

  datatype KeyStatus = Active | Rotating | Revoked | Expired

  datatype KeyRow = KeyRow(id: nat, account: nat, material: int, status: KeyStatus, expiresAt: Option<int>, lastUsed: Option<int>)

  /** Whether a fetched key may be used at `now`. */
  predicate Usable(row: KeyRow, now: int) {
    && (row.status == Active || row.status == Rotating)
    && (row.expiresAt.Some? ==> now <= row.expiresAt.value)
  }

  /** Everything but the bookkeeping timestamp. */
  predicate SameKey(a: KeyRow, b: KeyRow) {
    a.(lastUsed := None) == b.(lastUsed := None)
  }
}
