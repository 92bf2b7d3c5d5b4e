/**
 * `useLocalStorage(key, initialValue)`: React state mirrored into the browser's key-value store.
 * The browser store is a map from keys to text; (de)serialisation is passed in as `encode` and
 * `decode`, and whether the browser lets the value be read or written is a parameter.
 */
module LocalStore {
  import opened Wrappers

  /** A new value, or a function of the current one (`value instanceof Function`). */
  datatype Update<!T> = Replace(value: T) | Apply(f: T -> T)

  /** The in-memory state and the browser store it is persisted to under `key`. */
  datatype Store<!T> = Store(key: string, state: T, disk: map<string, string>)

  /**
   * The lazy initial state: the parsed stored text when there is a non-empty one and it parses;
   * `initialValue` when the key is missing, the text is empty, reading throws, or parsing fails.
   */
  function Load<T>(disk: map<string, string>, key: string, initialValue: T,
                   decode: string -> Option<T>, readable: bool): (v: T)
    ensures !readable || key !in disk ==> v == initialValue
    ensures readable && key in disk && disk[key] == "" ==> v == initialValue
    ensures readable && key in disk && decode(disk[key]).None? ==> v == initialValue
    ensures readable && key in disk && disk[key] != "" && decode(disk[key]).Some? ==>
              v == decode(disk[key]).value
  {
    if !readable || key !in disk || disk[key] == "" then initialValue
    else decode(disk[key]).GetOr(initialValue)
  }

  function Open<T>(disk: map<string, string>, key: string, initialValue: T,
                   decode: string -> Option<T>, readable: bool): (s: Store<T>)
    ensures s.key == key && s.disk == disk
    ensures s.state == Load(disk, key, initialValue, decode, readable)
  {
    Store(key, Load(disk, key, initialValue, decode, readable), disk)
  }

  /**
   * `setValue`: the new value is the argument, or the argument applied to the current state; the
   * state takes it and, unless the browser refuses the write, so does the store (write-through).
   */
  function Set<T>(s: Store<T>, u: Update<T>, encode: T -> string, writable: bool): (r: Store<T>)
    ensures r.key == s.key
    ensures u.Replace? ==> r.state == u.value
    ensures u.Apply? ==> r.state == u.f(s.state)
    ensures writable ==> r.disk == s.disk[s.key := encode(r.state)]
    ensures !writable ==> r.disk == s.disk
  {
    var v := match u case Replace(x) => x case Apply(f) => f(s.state);
    Store(s.key, v, if writable then s.disk[s.key := encode(v)] else s.disk)
  }

  /**
   * Write-through: after a successful write, reopening the store (a page reload) yields exactly the
   * in-memory state, provided the value survives its own serialisation.
   */
  lemma ReloadSeesLastWrite<T>(s: Store<T>, u: Update<T>, encode: T -> string,
                               decode: string -> Option<T>, initialValue: T)
    requires var v := Set(s, u, encode, true).state; encode(v) != "" && decode(encode(v)) == Some(v)
    ensures var r := Set(s, u, encode, true);
            Open(r.disk, r.key, initialValue, decode, true).state == r.state
  {
  }

  /** Writes to one key never disturb another key's stored text. */
  lemma SetKeepsOtherKeys<T>(s: Store<T>, u: Update<T>, encode: T -> string, writable: bool, other: string)
    requires other != s.key && other in s.disk
    ensures var r := Set(s, u, encode, writable); other in r.disk && r.disk[other] == s.disk[other]
  {
  }
}
