/** `usePersistedState(key, initialValue)`: one piece of state mirrored into
    one key of the device's key-value store. */
module PersistedState {
  import opened Common

  /** The argument of `setPersistedState`: a plain value, or a function of
      the current state (`value instanceof Function`). */
  datatype Update<!T> = Value(v: T) | Updater(f: T -> T)

  /** The value `setPersistedState(u)` stores when the state is `current`. */
  function Resolve<T>(u: Update<T>, current: T): (r: T)
    ensures u.Value? ==> r == u.v
    ensures u.Updater? ==> r == u.f(current)
  {
    match u
    case Value(v) => v
    case Updater(f) => f(current)
  }

  /** The state after the load effect ran on `store` while the state was
      `current`: a missing or empty stored value, or one that fails to parse
      or to be read, leaves it; anything else replaces it. */
  function Loaded<T>(store: map<string, Stored<T>>, key: string, current: T): (r: T)
    ensures key !in store || !store[key].Json? ==> r == current
    ensures key in store && store[key].Json? ==> r == store[key].value
  {
    if key in store && store[key].Json? then store[key].value else current
  }

  /** A value written under the key is what the next load finds, whatever
      the state was before: persistence survives a restart. */
  lemma LoadAfterWrite<T>(store: map<string, Stored<T>>, key: string, v: T, current: T)
    ensures Loaded(store[key := Json(v)], key, current) == v
  {
  }

  /** Writing under one key leaves what a load under another key finds. */
  lemma LoadOtherKey<T>(store: map<string, Stored<T>>, key: string, other: string, v: T, current: T)
    requires other != key
    ensures Loaded(store[key := Json(v)], other, current) == Loaded(store, other, current)
  {
  }

  class Persisted<T> {
    const key: string
    var state: T
    /** The key-value store as this hook sees it. */
    var store: map<string, Stored<T>>

    /** `useState(initialValue)` */
    constructor (key: string, initialValue: T, store: map<string, Stored<T>>)
      ensures this.key == key && state == initialValue && this.store == store
    {
      this.key := key;
      state := initialValue;
      this.store := store;
    }

    /** The load effect (`loadState`). */
    method LoadState()
      modifies this
      ensures state == Loaded(old(store), key, old(state))
      ensures store == old(store)
    {
      if key !in store {
        return;
      }
      match store[key]
      case EmptyText =>
      case Malformed =>
      case Json(v) => state := v;
    }

    /** `setPersistedState(u)`. The state takes the resolved value first;
        the store receives the same value only when the write succeeds
        (`writeOk`), and a failed write does not undo the state. */
    method SetPersisted(u: Update<T>, writeOk: bool)
      modifies this
      ensures state == Resolve(u, old(state))
      ensures writeOk ==> store == old(store)[key := Json(state)]
      ensures !writeOk ==> store == old(store)
    {
      var valueToStore := Resolve(u, state);
      state := valueToStore;
      if writeOk {
        store := store[key := Json(valueToStore)];
      }
    }
  }
}
