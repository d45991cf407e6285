/**
 * Unique constraints of the schema (unique=True, unique_together). A table is a
 * sequence of rows; a unique column or column group is a key function on rows.
 * An insert whose key is already taken is refused by the database with an
 * integrity error and the table is left as it was.
 */
module Constraints {
  import opened Wrappers

  datatype IntegrityError = DuplicateKey

  predicate KeysUnique<T, K(==)>(rows: seq<T>, key: T -> K)
  {
    forall i, j :: 0 <= i < j < |rows| ==> key(rows[i]) != key(rows[j])
  }

  predicate KeyTaken<T, K(==)>(rows: seq<T>, key: T -> K, k: K)
  {
    exists i :: 0 <= i < |rows| && key(rows[i]) == k
  }

  /** INSERT under a unique constraint on key. */
  function InsertUnique<T, K(==)>(rows: seq<T>, row: T, key: T -> K): (r: Result<seq<T>, IntegrityError>)
    ensures r.Ok? <==> !KeyTaken(rows, key, key(row))
    ensures r.Ok? ==> r.value == rows + [row]
    ensures r.Ok? && KeysUnique(rows, key) ==> KeysUnique(r.value, key)
  {
    if KeyTaken(rows, key, key(row)) then Err(DuplicateKey) else Ok(rows + [row])
  }
}
