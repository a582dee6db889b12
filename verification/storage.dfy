/** The browser's `localStorage`, seen by the session store: a map from keys to
    stored strings. A stored string is represented by what `JSON.parse` makes
    of it, since that is all the store ever does with one. */
module Storage {
  import opened Wrappers
  import opened Json

  /** A stored string: the empty string (falsy, so never parsed), a string on
      which `JSON.parse` throws, or one that parses to a JSON value. */
  datatype Text = EmptyText | Unparsable | Document(value: Json)

  type Storage = map<string, Text>

  /** `getItem(key)`: the stored string, or `null` when the key is absent. */
  function GetItem(s: Storage, key: string): (r: Option<Text>)
    ensures r.Some? <==> key in s
    ensures r.Some? ==> r.value == s[key]
  {
    if key in s then Some(s[key]) else None
  }

  /** Every key other than `key` holds the same string in `a` and in `b`. */
  ghost predicate SameExcept(a: Storage, b: Storage, key: string) {
    && (forall k :: k in a && k != key ==> k in b && b[k] == a[k])
    && (forall k :: k in b && k != key ==> k in a)
  }

  /** `setItem(key, t)`: overwrites one slot and no other. */
  function SetItem(s: Storage, key: string, t: Text): (r: Storage)
    ensures GetItem(r, key) == Some(t)
    ensures SameExcept(s, r, key)
  {
    s[key := t]
  }

  /** `removeItem(key)`: empties one slot (a no-op when it is already empty). */
  function RemoveItem(s: Storage, key: string): (r: Storage)
    ensures GetItem(r, key) == None
    ensures SameExcept(s, r, key)
  {
    s - {key}
  }
}
