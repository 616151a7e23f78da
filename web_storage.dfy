/**
 * The browser's `localStorage` of one origin, shared by every page of the
 * course: a store of string values under string keys. When storage is
 * disabled for the origin every call throws; `available` says which.
 */
module WebStorage {
  import opened Wrappers

  /** What a call that may throw gives back: its value, or the exception. */
  datatype Outcome<+T> = Returned(value: T) | Threw

  class LocalStorage {
    var items: map<string, string>
    var available: bool

    constructor (items: map<string, string>, available: bool)
      ensures this.items == items && this.available == available
    {
      this.items := items;
      this.available := available;
    }

    /** The value under `key`, if any. */
    function Peek(key: string): (r: Option<string>)
      reads this
      ensures r.Some? <==> key in items
      ensures r.Some? ==> r.value == items[key]
    {
      if key in items then Some(items[key]) else None
    }

    /** `localStorage.getItem(key)`: `null` for a missing key. */
    method GetItem(key: string) returns (r: Outcome<Option<string>>)
      ensures available ==> r == Returned(Peek(key))
      ensures !available ==> r.Threw?
    {
      if !available {
        return Threw;
      }
      r := Returned(Peek(key));
    }

    /** `localStorage.setItem(key, value)`. */
    method SetItem(key: string, value: string) returns (r: Outcome<()>)
      modifies this`items
      ensures r.Threw? <==> !available
      ensures items == if available then old(items)[key := value] else old(items)
    {
      if !available {
        return Threw;
      }
      items := items[key := value];
      r := Returned(());
    }

    /** `localStorage.removeItem(key)`. */
    method RemoveItem(key: string) returns (r: Outcome<()>)
      modifies this`items
      ensures r.Threw? <==> !available
      ensures items == if available then old(items) - {key} else old(items)
    {
      if !available {
        return Threw;
      }
      items := items - {key};
      r := Returned(());
    }
  }
}
