/** The part of Redis that the deduplication code relies on: string keys whose values expire.
    Times are integers in the unit of the TTLs; each operation is atomic and takes effect at
    one instant. */
module ExpiringStores {
  import opened Wrappers

  type Time = int

  datatype Cell<V> = Cell(value: V, expiry: Time)

  type Store<V> = map<string, Cell<V>>

  predicate Live<V>(s: Store<V>, k: string, now: Time) {
    k in s && now < s[k].expiry
  }

  /** GET. */
  function Get<V>(s: Store<V>, k: string, now: Time): Option<V> {
    if Live(s, k, now) then Some(s[k].value) else None
  }

  /** SETEX, which is also SET with EX. */
  function SetEx<V>(s: Store<V>, k: string, v: V, ttl: int, now: Time): Store<V> {
    s[k := Cell(v, now + ttl)]
  }

  /** SET with NX and EX: the store afterwards, and whether the key was set. */
  function SetNx<V>(s: Store<V>, k: string, v: V, ttl: int, now: Time): (Store<V>, bool) {
    if Live(s, k, now) then (s, false) else (SetEx(s, k, v, ttl, now), true)
  }

  /** DEL. */
  function Delete<V>(s: Store<V>, k: string): Store<V> { s - {k} }

  /** The server object that clients share; `now` is the instant of each command. */
  class Redis<V> {
    var cells: Store<V>

    constructor ()
      ensures cells == map[]
    {
      cells := map[];
    }

    method SetIfAbsent(k: string, v: V, ttl: int, now: Time) returns (ok: bool)
      modifies this
      ensures (cells, ok) == SetNx(old(cells), k, v, ttl, now)
    {
      if k in cells && now < cells[k].expiry {
        return false;
      }
      cells := cells[k := Cell(v, now + ttl)];
      return true;
    }

    method Set(k: string, v: V, ttl: int, now: Time)
      modifies this
      ensures cells == SetEx(old(cells), k, v, ttl, now)
    {
      cells := cells[k := Cell(v, now + ttl)];
    }

    method Remove(k: string)
      modifies this
      ensures cells == Delete(old(cells), k)
    {
      cells := cells - {k};
    }
  }
}
