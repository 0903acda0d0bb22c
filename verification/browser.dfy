/** The browser state the three pages share: `localStorage` and the
    address in `window.location.href`. */
module Browser {
  import opened Text

  class Browser {
    /** `localStorage`, key to stored string. */
    var storage: map<string, string>
    /** `window.location.href`, as the path the page navigates to. */
    var location: string

    constructor (storage: map<string, string>, location: string)
      ensures this.storage == storage && this.location == location
    {
      this.storage := storage;
      this.location := location;
    }
  }

  /** `localStorage.getItem(key)`: the stored string, or null for a key
      never set or removed. */
  function GetItem(storage: map<string, string>, key: string): (v: Option<string>)
    ensures v.Some? <==> key in storage
    ensures v.Some? ==> v.value == storage[key]
  {
    if key in storage then Some(storage[key]) else None
  }

  /** JavaScript truthiness of a `string | null`: null and `""` are falsy. */
  predicate Truthy(v: Option<string>) {
    v.Some? && v.value != ""
  }

  /** The marker guard `if (!localStorage.getItem(key))` passes: the item is
      truthy. */
  predicate MarkerPresent(storage: map<string, string>, key: string): (r: bool)
    ensures !r <==> key !in storage || |storage[key]| == 0
  {
    Truthy(GetItem(storage, key))
  }

  /** `setItem(key, v)` with a non-empty `v` makes the marker present, and
      `removeItem(key)` makes it absent; other keys' markers are untouched. */
  lemma MarkerAfterWrite(storage: map<string, string>, key: string, v: string, other: string)
    requires other != key
    ensures MarkerPresent(storage[key := v], key) <==> v != ""
    ensures !MarkerPresent(storage - {key}, key)
    ensures MarkerPresent(storage[key := v], other) <==> MarkerPresent(storage, other)
    ensures MarkerPresent(storage - {key}, other) <==> MarkerPresent(storage, other)
  {
  }
}
