/**
 * The WordPress transient store as the plugin uses it: a map from key to a
 * value with an absolute expiry time. Time is an abstract integer clock in
 * seconds. An entry is live strictly before its expiry instant and reads as
 * absent from that instant on.
 */
module Transients {
  import opened Base

  datatype Entry<V> = Entry(value: V, expires: int)

  type Store<V> = map<string, Entry<V>>

  predicate Live<V>(s: Store<V>, key: string, now: int) {
    key in s && now < s[key].expires
  }

  /** `get_transient($key)`: the stored value while it is live, otherwise absent (PHP `false`). */
  function Get<V>(s: Store<V>, key: string, now: int): (r: Option<V>)
    ensures r.Some? <==> Live(s, key, now)
    ensures r.Some? ==> r.value == s[key].value
  {
    if key in s && now < s[key].expires then Some(s[key].value) else None
  }

  /** `set_transient($key, $value, $ttl)`: overwrites silently; expires `ttl` seconds from `now`. */
  function Set<V>(s: Store<V>, key: string, value: V, ttl: nat, now: int): (r: Store<V>)
    ensures key in r && r[key] == Entry(value, now + ttl)
    ensures forall k :: k in s && k != key ==> k in r && r[k] == s[k]
    ensures r.Keys == s.Keys + {key}
  {
    s[key := Entry(value, now + ttl)]
  }

  /** `delete_transient($key)`. */
  function Delete<V>(s: Store<V>, key: string): (r: Store<V>)
    ensures key !in r
    ensures forall k :: k in s && k != key ==> k in r && r[k] == s[k]
    ensures r.Keys == s.Keys - {key}
  {
    s - {key}
  }

  /** A value read back before its TTL elapses is the value written; from the expiry instant on it is absent. */
  lemma GetAfterSet<V>(s: Store<V>, key: string, value: V, ttl: nat, now: int, later: int)
    ensures later < now + ttl ==> Get(Set(s, key, value, ttl, now), key, later) == Some(value)
    ensures later >= now + ttl ==> Get(Set(s, key, value, ttl, now), key, later) == None
  {
  }

  /** Writing or deleting one key never changes what another key reads. */
  lemma OtherKeysUntouched<V>(s: Store<V>, key: string, other: string, value: V, ttl: nat, now: int, t: int)
    requires other != key
    ensures Get(Set(s, key, value, ttl, now), other, t) == Get(s, other, t)
    ensures Get(Delete(s, key), other, t) == Get(s, other, t)
  {
  }
}
