/** The browser's `localStorage`, shared by the reset-code store and the
    saved session user, as an object whose methods update its key-value map. */
module Storage {
  import opened Entities

  /** The value stored under `reset_<email>`. */
  datatype ResetRecord = ResetRecord(email: string, code: string, timestamp: int, used: bool)

  /** A stored value as `JSON.parse` sees it: a reset record, a user object,
      some other JSON document, or text that does not parse. */
  datatype Item =
    | ResetData(rec: ResetRecord)
    | UserData(user: User)
    | OtherJson(json: string)
    | Unparsable(text: string)

  const ResetPrefix: string := "reset_"
  const CurrentUserKey: string := "currentUser"

  /** The key of the reset record of `email`. */
  function ResetKey(email: string): (k: string)
    ensures |k| == |ResetPrefix| + |email| && k[..|ResetPrefix|] == ResetPrefix
    ensures k[|ResetPrefix|..] == email
  {
    ResetPrefix + email
  }

  predicate IsResetKey(k: string) {
    |k| >= |ResetPrefix| && k[..|ResetPrefix|] == ResetPrefix
  }

  /** Different emails never share a reset key, and no reset key is the session key. */
  lemma ResetKeysDistinct(a: string, b: string)
    ensures ResetKey(a) == ResetKey(b) <==> a == b
    ensures ResetKey(a) != CurrentUserKey
  {
    if ResetKey(a) == ResetKey(b) {
      assert a == ResetKey(a)[|ResetPrefix|..];
    }
    assert ResetKey(a)[0] == 'r';
  }

  /** `getItem(k)` in a boolean context: `null` and `""` are false. */
  predicate Present(items: map<string, Item>, k: string) {
    k in items && items[k] != Unparsable("")
  }

  /** What the code of this repository ever puts where: reset records under
      their own email's key, the user under `currentUser`, and other JSON
      (the theme, a book being edited) under other keys. Unparsable text may
      be anywhere (it stands for a value edited by hand). */
  predicate FitsKey(k: string, item: Item) {
    match item
    case ResetData(r) => k == ResetKey(r.email)
    case UserData(_) => k == CurrentUserKey
    case OtherJson(_) => !IsResetKey(k) && k != CurrentUserKey
    case Unparsable(_) => true
  }

  ghost predicate WellFormed(items: map<string, Item>) {
    forall k :: k in items ==> FitsKey(k, items[k])
  }

  class LocalStorage {
    var items: map<string, Item>

    ghost predicate Valid()
      reads this
    {
      WellFormed(items)
    }

    /** The storage a browser profile starts with. */
    constructor (initial: map<string, Item>)
      requires WellFormed(initial)
      ensures Valid() && items == initial
    {
      items := initial;
    }

    /** `localStorage.setItem(k, v)`. */
    method SetItem(k: string, v: Item)
      requires Valid() && FitsKey(k, v)
      modifies this
      ensures Valid()
      ensures items == old(items)[k := v]
    {
      items := items[k := v];
    }

    /** `localStorage.removeItem(k)`; nothing happens when `k` is absent. */
    method RemoveItem(k: string)
      requires Valid()
      modifies this
      ensures Valid()
      ensures items == old(items) - {k}
    {
      items := items - {k};
    }
  }
}
