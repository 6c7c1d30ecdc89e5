/** The Redis commands the gateway uses, on one key at a time.
    A key is a cell: absent, or an entry with an optional expiry instant. An entry whose
    instant has been reached is gone for every command, whether or not it is still stored. */
module Redis {
  import opened Wrappers

  datatype Entry<+V> = Entry(value: V, expiresAt: Option<nat>)

  type Cell<+V> = Option<Entry<V>>

  type Store<!K(==), +V> = map<K, Entry<V>>

  function At<K, V>(store: Store<K, V>, key: K): Cell<V> {
    if key in store then Some(store[key]) else None
  }

  predicate Live<V>(cell: Cell<V>, now: nat) {
    cell.Some? && (cell.value.expiresAt.Some? ==> now < cell.value.expiresAt.value)
  }

  /** GET */
  function Get<V>(cell: Cell<V>, now: nat): Option<V> {
    if Live(cell, now) then Some(cell.value.value) else None
  }

  /** INCRBY: keeps the expiry of a live key, creates an absent one without any. */
  function IncrBy(cell: Cell<int>, delta: int, now: nat): Entry<int> {
    if Live(cell, now) then cell.value.(value := cell.value.value + delta) else Entry(delta, None)
  }

  /** EXPIRE on a key that has just been written. */
  function Expire<V>(entry: Entry<V>, ttl: nat, now: nat): Entry<V> {
    entry.(expiresAt := Some(now + ttl))
  }

  /** SET with EX */
  function SetEx<V>(value: V, ttl: nat, now: nat): Entry<V> {
    Entry(value, Some(now + ttl))
  }
}
