/** Redis keys with a time to live: a key past its deadline reads as missing. */
module Keyspace {
  import opened Options

  /** A stored value; `deadline` is None until EXPIRE sets one. */
  datatype Entry<T> = Entry(value: T, deadline: Option<int>)

  predicate Live<T>(e: Entry<T>, now: int) { e.deadline.Some? ==> now < e.deadline.value }

  /** What a read of `k` finds. */
  function Get<K, T>(m: map<K, Entry<T>>, k: K, now: int): Option<T> {
    if k in m && Live(m[k], now) then Some(m[k].value) else None
  }

  /** HSET / SADD: rewriting the value keeps a live key's deadline, a new key has none. */
  function Put<K, T>(m: map<K, Entry<T>>, k: K, v: T, now: int): map<K, Entry<T>> {
    m[k := Entry(v, if k in m && Live(m[k], now) then m[k].deadline else None)]
  }

  /** EXPIRE: sets the deadline of a key that exists. */
  function Expire<K, T>(m: map<K, Entry<T>>, k: K, ttl: int, now: int): map<K, Entry<T>> {
    if k in m && Live(m[k], now) then m[k := Entry(m[k].value, Some(now + ttl))] else m
  }

  function GetOr<K, T>(m: map<K, Entry<T>>, k: K, now: int, default: T): T {
    match Get(m, k, now) case Some(v) => v case None => default
  }
}
