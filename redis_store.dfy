/** The key-value store both relays keep their dedup marks in. A key maps to the
    string Redis holds and, when one was given, the expiry in seconds it was
    set with; expiry is recorded as data and time does not pass in the model. */
module RedisStore {
  import opened JsValue

  datatype Stored = Stored(value: string, ttl: Option<nat>)

  type Store = map<string, Stored>

  /** `GET key`: the stored string, or null when the key is absent. */
  function Get(store: Store, key: string): Value {
    if key in store then Str(store[key].value) else Null
  }

  /** `EXISTS key`. */
  predicate Exists(store: Store, key: string) {
    key in store
  }

  /** `SET key value [EX ttl]`. */
  function Set(store: Store, key: string, value: string, ttl: Option<nat>): Store {
    store[key := Stored(value, ttl)]
  }
}
