/** The Redis cache tier as a map from keys to stored response bodies with
    their time-to-live in seconds. JSON serialisation is left abstract: the
    body read back is the body written. Expiry of an entry when its TTL runs
    out is a deletion (`Del`) at a moment the model does not track. */
module Cache {

  import opened Wrappers
  import opened Numbers
  import opened Http

  datatype Entry = Entry(body: Body, ttl: int)

  type Store = map<string, Entry>

  /** `redis.get(key)`. */
  function Get(c: Store, key: string): (r: Option<Body>)
    ensures r.Some? <==> key in c
    ensures r.Some? ==> r.value == c[key].body
  {
    if key in c then Some(c[key].body) else None
  }

  /** `redis.set(key, value, 'EX', ttl)`: Redis refuses an expiry that is
      not a positive integer, and the call then fails. */
  function Set(c: Store, key: string, body: Body, ttl: JsNum): (r: Option<Store>)
    ensures r.Some? <==> ttl.Int? && ttl.value > 0
    ensures r.Some? ==> Get(r.value, key) == Some(body) && r.value[key].ttl == ttl.value
    ensures r.Some? ==> r.value.Keys == c.Keys + {key}
    ensures r.Some? ==> forall k :: k in c && k != key ==> r.value[k] == c[k]
  {
    if ttl.NaN? || ttl.value <= 0 then None else Some(c[key := Entry(body, ttl.value)])
  }

  /** `redis.del(key)`, and the expiry of `key`. */
  function Del(c: Store, key: string): (r: Store)
    ensures Get(r, key).None?
    ensures r.Keys == c.Keys - {key}
    ensures forall k :: k in r ==> r[k] == c[k]
  {
    c - {key}
  }
}
