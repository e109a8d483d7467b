/** `@react-native-async-storage/async-storage` as the repository uses
    it: a string-to-string map with single and batched reads, writes and
    removals. Storage faults are modelled at the call sites that catch
    them, as parameters of those operations. */
module KeyValue {

  import opened Wrappers

  class KeyValueStore {

    var items: map<string, string>

    constructor ()
      ensures items == map[]
    {
      items := map[];
    }

    /** `getItem(key)`: the stored text, or None (`null`). */
    function GetItem(key: string): (r: Option<string>)
      reads this
      ensures r.Some? <==> key in items
      ensures r.Some? ==> r.value == items[key]
    {
      if key in items then Some(items[key]) else None
    }

    /** `setItem(key, value)` */
    method SetItem(key: string, value: string)
      modifies this
      ensures items == old(items)[key := value]
    {
      items := items[key := value];
    }

    /** `removeItem(key)` */
    method RemoveItem(key: string)
      modifies this
      ensures items == old(items) - {key}
    {
      items := items - {key};
    }

    /** `multiRemove(keys)` */
    method MultiRemove(keys: seq<string>)
      modifies this
      ensures items == old(items) - set k | k in keys
    {
      items := items - set k | k in keys;
    }
  }
}
