/** The browser's key-value storage as the catalog store sees it: a map from key to the
    stored text. Serialisation (`JSON.stringify` / `JSON.parse`) is a pair of functions
    supplied by the caller; a parse that throws is a parse that returns `None`. */
module Storage {
  import opened Wrappers

  type Storage = map<string, string>

  /** The keys under which the three catalog lists are kept. */
  const UsersKey: string := "iarchive_users"
  const MaterialsKey: string := "iarchive_materials"
  const CategoriesKey: string := "iarchive_categories"

  /** `loadFromStorage(key, fallback)`: the parsed stored value when the key holds a non-empty
      text that parses, and `fallback` in every other case (missing key, empty text, parse
      failure). */
  function LoadFromStorage<T>(storage: Storage, key: string, parse: string -> Option<T>, fallback: T): (r: T)
    ensures key !in storage ==> r == fallback
    ensures key in storage && storage[key] == "" ==> r == fallback
    ensures key in storage && parse(storage[key]).None? ==> r == fallback
    ensures key in storage && storage[key] != "" && parse(storage[key]).Some? ==> r == parse(storage[key]).value
    ensures r != fallback ==> key in storage && storage[key] != "" && parse(storage[key]) == Some(r)
  {
    if key in storage && storage[key] != "" then parse(storage[key]).GetOr(fallback)
    else fallback
  }

  /** `localStorage.setItem(key, serialize(value))`. */
  function Save<T>(storage: Storage, key: string, serialize: T -> string, value: T): (r: Storage)
    ensures key in r && r[key] == serialize(value)
    ensures forall k :: k in storage && k != key ==> k in r && r[k] == storage[k]
    ensures forall k :: k in r ==> k == key || k in storage
  {
    storage[key := serialize(value)]
  }

  /** Saving a value and loading it back yields the value, whenever the codec round-trips it
      and serialises it to non-empty text (as `JSON.stringify` does for every list). */
  lemma SaveThenLoad<T>(storage: Storage, key: string, serialize: T -> string,
                        parse: string -> Option<T>, value: T, fallback: T)
    requires parse(serialize(value)) == Some(value)
    requires serialize(value) != ""
    ensures LoadFromStorage(Save(storage, key, serialize, value), key, parse, fallback) == value
  {
  }

  /** Saving under one key does not change what is loaded under another. */
  lemma SaveOtherKey<T, U>(storage: Storage, key: string, serialize: T -> string, value: T,
                           other: string, parse: string -> Option<U>, fallback: U)
    requires other != key
    ensures LoadFromStorage(Save(storage, key, serialize, value), other, parse, fallback)
         == LoadFromStorage(storage, other, parse, fallback)
  {
  }
}
