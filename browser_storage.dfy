/** `localStorage` as the pages use it: three keys, each absent or holding a string.
    The JSON text under a key is described by what `JSON.parse` makes of it. */
module BrowserStorage {
  import opened Wrappers

  /** A string stored under a key that the page reads with `JSON.parse`: the empty
      string (falsy, so never parsed), a non-empty string the parse (or the code
      walking its result) rejects, or a string whose parse yields `value`. */
  datatype Stored<T> = Blank | Unparsable | Parsed(value: T)

  /** `if (localStorage.getItem(key))`: present and not the empty string. */
  predicate Truthy<T>(item: Option<Stored<T>>) {
    item.Some? && !item.value.Blank?
  }

  /** A property of a parsed JSON object: `undefined`, a string, or any other value
      with its JavaScript truthiness. */
  datatype Prop = Undefined | Str(s: string) | NonString(truthy: bool) {
    /** `if (prop)` */
    predicate IsTruthy() {
      match this
      case Undefined => false
      case Str(s) => s != ""
      case NonString(t) => t
    }
  }

  /** What `JSON.parse` yields for the `userCredentials` key: a falsy value (`null`,
      `false`, `0`, `""`) or a truthy one, whose `username`/`password` properties are
      read (a truthy non-object reads as `Object(Undefined, Undefined)`). */
  datatype CredJson = FalsyJson | Object(username: Prop, password: Prop)

  /** The JSON a page writes for `{ username, password }`. */
  function CredentialsJson(username: Prop, password: string): CredJson {
    Object(username, Str(password))
  }

  /** A persisted value of one domain field, as the home page reads it back: its
      JSON kind, and what `new Date(value)` makes of it (`None` for NaN). */
  datatype ValueKind = JsonNull | JsonUndefined | EmptyString | OtherValue
  datatype RawValue = RawValue(kind: ValueKind, asDate: Option<int>)

  /** One element of the persisted `domains` array. A falsy `id`/`name` other than
      the empty string (`undefined`, `null`) is `None`. */
  datatype RawDomain = RawDomain(id: Option<string>, name: Option<string>, expirationDate: RawValue, dateAdded: RawValue)

  /** The whole store, as one value. */
  datatype StoreState = StoreState(
    sessionActive: Option<string>,
    userCredentials: Option<Stored<CredJson>>,
    domains: Option<Stored<seq<RawDomain>>>)

  /** The browser's `localStorage`. `setItem` assigns `Some(…)` to a key's field,
      `removeItem` assigns `None`. The `theme` key is not part of this model. */
  class LocalStorage {
    var sessionActive: Option<string>
    var userCredentials: Option<Stored<CredJson>>
    var domains: Option<Stored<seq<RawDomain>>>

    constructor (s: StoreState)
      ensures State() == s
    {
      sessionActive, userCredentials, domains := s.sessionActive, s.userCredentials, s.domains;
    }

    function State(): StoreState
      reads this
    {
      StoreState(sessionActive, userCredentials, domains)
    }
  }
}
