/** The device key-value store (AsyncStorage): string keys, string values. Whether a call
    reaches the device or throws is decided by the environment and is a parameter here. */
module KeyValue {
  import opened Js

  /** What a storage call does: it completes, or it throws. */
  datatype Access = Succeeds | Fails

  /** What a read hands back: the value (or `null`), or the error it threw. */
  datatype Fetched = Value(item: Option<string>) | ReadError

  /** `getItem` on a map: `null` for an absent key. */
  function Lookup(entries: map<string, string>, key: string): (r: Option<string>)
    ensures r.Some? <==> key in entries
    ensures r.Some? ==> r.value == entries[key]
  {
    if key in entries then Some(entries[key]) else None
  }

  class KeyValueStore {
    var entries: map<string, string>

    constructor (initial: map<string, string>)
      ensures entries == initial
    {
      entries := initial;
    }

    /** `getItem(key)`. */
    method GetItem(key: string, read: Access) returns (r: Fetched)
      ensures read == Fails ==> r == ReadError
      ensures read == Succeeds ==> r == Value(Lookup(entries, key))
    {
      if read == Fails {
        r := ReadError;
      } else {
        r := Value(Lookup(entries, key));
      }
    }

    /** `setItem(key, value)`: on success the key holds the value; on failure nothing changes. */
    method SetItem(key: string, value: string, write: Access) returns (ok: bool)
      modifies this
      ensures ok <==> write == Succeeds
      ensures entries == if ok then old(entries)[key := value] else old(entries)
    {
      ok := write == Succeeds;
      if ok {
        entries := entries[key := value];
      }
    }

    /** `removeItem(key)`: on success the key is gone; on failure nothing changes. */
    method RemoveItem(key: string, write: Access) returns (ok: bool)
      modifies this
      ensures ok <==> write == Succeeds
      ensures entries == if ok then old(entries) - {key} else old(entries)
    {
      ok := write == Succeeds;
      if ok {
        entries := entries - {key};
      }
    }
  }
}
