/** The client's auth slice: the in-memory `{ user, isSidebarOpen }` state
    and the browser storage slot `localStorage["userInfo"]` that mirrors it.

    `JSON.stringify` is an abstract function `stringify` from values to
    strings; where a property needs it to be injective, it says so. */
module AuthSlice {
  import opened Wrappers

  /** The JavaScript values a reducer may be handed. Numbers are integers. */
  datatype JsValue =
    | JsUndefined
    | JsNull
    | JsBool(b: bool)
    | JsNumber(n: int)
    | JsString(s: string)
    | JsObject(fields: map<string, JsValue>)

  /** JavaScript truthiness: `undefined`, `null`, `false`, `0` and `""` are
      falsy, everything else (every object) is truthy. */
  predicate Truthy(v: JsValue) {
    match v
    case JsUndefined => false
    case JsNull => false
    case JsBool(b) => b
    case JsNumber(n) => n != 0
    case JsString(s) => s != ""
    case JsObject(_) => true
  }

  /** The payload of a `setCredentials` action: absent (or without a `user`
      property), or carrying a `user` value. */
  datatype CredentialsPayload = NoPayload | WithUser(user: JsValue)

  /** `action.payload?.user`. */
  function PayloadUser(p: CredentialsPayload): JsValue {
    match p
    case NoPayload => JsUndefined
    case WithUser(u) => u
  }

  /** The slice's state together with the storage slot. */
  datatype AuthState = AuthState(user: JsValue, isSidebarOpen: JsValue, slot: Option<string>)

  /** The slot holds a value exactly when `user` is not null, and then it
      holds the serialisation of `user`. */
  ghost predicate SlotMirrorsUser(s: AuthState, stringify: JsValue -> string) {
    && (s.slot.Some? <==> s.user != JsNull)
    && (s.slot.Some? ==> s.slot.value == stringify(s.user))
  }

  ghost predicate Injective(stringify: JsValue -> string) {
    forall a, b :: stringify(a) == stringify(b) ==> a == b
  }

  /** `initialState`: `user` is whatever string the slot holds, unparsed, or
      null; the sidebar starts closed. */
  function InitialState(stored: Option<string>): (s: AuthState)
    ensures s.isSidebarOpen == JsBool(false) && s.slot == stored
    ensures s.user != JsNull <==> stored.Some?
    ensures stored.Some? ==> s.user == JsString(stored.value)
  {
    AuthState(if stored.Some? then JsString(stored.value) else JsNull, JsBool(false), stored)
  }

  /** `setCredentials`: a truthy payload user becomes `user` and is written
      to the slot; anything else makes `user` null and empties the slot. */
  function CredentialsSet(s: AuthState, p: CredentialsPayload, stringify: JsValue -> string): (r: AuthState)
    ensures SlotMirrorsUser(r, stringify)
    ensures r.isSidebarOpen == s.isSidebarOpen
    ensures Truthy(PayloadUser(p)) ==> r.user == PayloadUser(p) && r.slot == Some(stringify(PayloadUser(p)))
    ensures !Truthy(PayloadUser(p)) ==> r.user == JsNull && r.slot == None
  {
    var user := if Truthy(PayloadUser(p)) then PayloadUser(p) else JsNull;
    AuthState(user, s.isSidebarOpen, if Truthy(user) then Some(stringify(user)) else None)
  }

  /** `logout`: `user` becomes null and the slot is emptied. */
  function LoggedOut(s: AuthState): (r: AuthState)
    ensures r.user == JsNull && r.slot == None
    ensures r.isSidebarOpen == s.isSidebarOpen
    ensures forall stringify: JsValue -> string :: SlotMirrorsUser(r, stringify)
  {
    AuthState(JsNull, s.isSidebarOpen, None)
  }

  /** `setOpenSidebar`: only `isSidebarOpen` changes. */
  function SidebarSet(s: AuthState, open: JsValue): (r: AuthState)
    ensures r.user == s.user && r.slot == s.slot && r.isSidebarOpen == open
    ensures forall stringify: JsValue -> string :: SlotMirrorsUser(s, stringify) ==> SlotMirrorsUser(r, stringify)
  {
    s.(isSidebarOpen := open)
  }

  /** Logging out twice leaves the same state as logging out once. */
  lemma LogoutIdempotent(s: AuthState)
    ensures LoggedOut(LoggedOut(s)) == LoggedOut(s)
  {
  }

  /** Setting the same credentials twice leaves the same state as once. */
  lemma CredentialsSetIdempotent(s: AuthState, p: CredentialsPayload, stringify: JsValue -> string)
    ensures CredentialsSet(CredentialsSet(s, p, stringify), p, stringify) == CredentialsSet(s, p, stringify)
  {
  }

  /** With an injective serialisation, two mirrored states that hold the
      same slot hold the same user. */
  lemma SlotDeterminesUser(s1: AuthState, s2: AuthState, stringify: JsValue -> string)
    requires Injective(stringify)
    requires SlotMirrorsUser(s1, stringify) && SlotMirrorsUser(s2, stringify)
    requires s1.slot == s2.slot
    ensures s1.user == s2.user
  {
  }

  /** A reload after `setCredentials` with an object seeds `user` with the
      serialised string, not with the object: the initial state does not
      parse the slot. */
  lemma ReloadSeedsSerialisedString(s: AuthState, fields: map<string, JsValue>, stringify: JsValue -> string)
    ensures var saved := CredentialsSet(s, WithUser(JsObject(fields)), stringify);
      && InitialState(saved.slot).user == JsString(stringify(JsObject(fields)))
      && InitialState(saved.slot).user != saved.user
      && InitialState(saved.slot).slot == saved.slot
  {
  }

  /** The slice's state and the storage slot, updated in place by the reducers. */
  class AuthStore {
    var user: JsValue
    var isSidebarOpen: JsValue
    var slot: Option<string>
    const stringify: JsValue -> string

    function State(): AuthState
      reads this
    {
      AuthState(user, isSidebarOpen, slot)
    }

    /** The store as the page loads, given what the slot holds. */
    constructor (stored: Option<string>, stringify: JsValue -> string)
      ensures State() == InitialState(stored) && this.stringify == stringify
    {
      user := if stored.Some? then JsString(stored.value) else JsNull;
      isSidebarOpen := JsBool(false);
      slot := stored;
      this.stringify := stringify;
    }

    method SetCredentials(p: CredentialsPayload)
      modifies this
      ensures State() == CredentialsSet(old(State()), p, stringify)
      ensures SlotMirrorsUser(State(), stringify) && isSidebarOpen == old(isSidebarOpen)
    {
      user := if Truthy(PayloadUser(p)) then PayloadUser(p) else JsNull;
      if Truthy(user) {
        slot := Some(stringify(user));
      } else {
        slot := None;
      }
    }

    method Logout()
      modifies this
      ensures State() == LoggedOut(old(State()))
      ensures SlotMirrorsUser(State(), stringify) && isSidebarOpen == old(isSidebarOpen)
    {
      user := JsNull;
      slot := None;
    }

    method SetOpenSidebar(open: JsValue)
      modifies this
      ensures State() == SidebarSet(old(State()), open)
      ensures user == old(user) && slot == old(slot) && isSidebarOpen == open
    {
      isSidebarOpen := open;
    }
  }
}
