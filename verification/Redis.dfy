/** The few atomic Redis commands the backend relies on, over keys that expire. Times are in milliseconds. */
module RedisStore {
  import opened Options

  /** An EX argument: Redis refuses anything below one second. */
  type Seconds = s: int | s >= 1 witness 1

  datatype Slot = Slot(text: string, expires: int)
  type Store = map<string, Slot>

  predicate Live(store: Store, key: string, now: int) {
    key in store && now < store[key].expires
  }

  function Fetch(store: Store, key: string, now: int): Option<string> {
    if Live(store, key, now) then Some(store[key].text) else None
  }

  function WithEx(store: Store, key: string, text: string, ttl: Seconds, now: int): Store {
    store[key := Slot(text, now + 1000 * ttl)]
  }

  /** SET key text EX ttl NX. */
  function WithNx(store: Store, key: string, text: string, ttl: Seconds, now: int): Store {
    if Live(store, key, now) then store else WithEx(store, key, text, ttl, now)
  }

  /** Keys made from one prefix differ when what follows it differs. */
  lemma PrefixedKeysDiffer(prefix: string, a: string, b: string)
    ensures prefix + a == prefix + b ==> a == b
  {
    assert (prefix + a)[|prefix|..] == a && (prefix + b)[|prefix|..] == b;
  }

  class Redis {
    var store: Store

    constructor ()
      ensures store == map[]
    {
      store := map[];
    }

    method Get(key: string, now: int) returns (text: Option<string>)
      ensures text == Fetch(store, key, now)
    {
      text := if Live(store, key, now) then Some(store[key].text) else None;
    }

    method SetEx(key: string, text: string, ttl: Seconds, now: int)
      modifies this
      ensures store == WithEx(old(store), key, text, ttl, now)
    {
      store := store[key := Slot(text, now + 1000 * ttl)];
    }

    method SetNx(key: string, text: string, ttl: Seconds, now: int) returns (ok: bool)
      modifies this
      ensures ok == !Live(old(store), key, now)
      ensures store == WithNx(old(store), key, text, ttl, now)
    {
      ok := !Live(store, key, now);
      if ok {
        store := store[key := Slot(text, now + 1000 * ttl)];
      }
    }

    method Del(key: string)
      modifies this
      ensures store == old(store) - {key}
    {
      store := store - {key};
    }
  }
}
