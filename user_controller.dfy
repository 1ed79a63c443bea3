/** The user controller of the task-manager backend: login, registration and
    logout with a token cookie, the unread-notification listing and
    mark-as-read, and the profile handlers, over an abstract document store.

    Every handler is one sequential step that returns a response value. The
    pieces the controller calls but does not define (the JWT signer, the
    password comparison of the user model, the production flag, whether
    `User.create` resolves to a document) are fields of an `Env` passed in. */
module UserController {
  import opened Wrappers

  /** Document identifiers. They are ordered, which is what sorting on
      `_id` relies on. */
  type Id = nat

  /** A user document. `password` holds whatever the controller assigned;
      hashing on save happens in the user model, which is not part of this model. */
  datatype User = User(
    email: string,
    password: string,
    name: string,
    title: string,
    role: string,
    isAdmin: bool,
    isActive: bool)

  /** A notice: addressed to `team`, read by the ids listed in `isRead`.
      `isRead` is a list, not a set: the store appends to it. */
  datatype Notice = Notice(id: Id, team: set<Id>, isRead: seq<Id>, text: string)

  /** The user object a successful login sends back. */
  datatype UserView = UserView(id: Id, name: string, email: string, role: string, isAdmin: bool, title: string)

  /** A `Set-Cookie` directive: the cookie's name, value and attributes. */
  datatype Cookie = Cookie(
    name: string,
    value: string,
    httpOnly: bool,
    secure: bool,
    sameSite: Option<string>,
    expires: Option<int>)

  /** A handler's reply: HTTP status code, the body's `status` flag (when the
      body has one), its message, its user object (when it has one) and the
      cookie directive (when one is set). */
  datatype Response = Response(
    code: int,
    status: Option<bool>,
    message: string,
    user: Option<UserView>,
    cookie: Option<Cookie>)

  /** External collaborators: whether the process runs in production, the
      token signer `sign(userId, expiresIn)` (its secret is inside it),
      the user model's password check `matchPassword(stored, candidate)`, and
      whether `User.create` resolves to a document for a new record (the
      `if (user)` test of `registerUser`). */
  datatype Env = Env(
    production: bool,
    sign: (Id, string) -> string,
    matchPassword: (string, string) -> bool,
    createResolves: User -> bool)

  /** The authenticated caller, as the auth middleware puts it on the request. */
  datatype AuthContext = AuthContext(userId: Id, isAdmin: bool)

  /** The body of a registration request. */
  datatype Registration = Registration(
    name: string,
    email: string,
    password: string,
    isAdmin: bool,
    role: string,
    title: string)

  /** The body of a profile update; absent fields are `None`. */
  datatype ProfileEdit = ProfileEdit(
    targetId: Option<Id>,
    name: Option<string>,
    title: Option<string>,
    role: Option<string>)

  const TokenCookieName := "token"
  const TokenLifetime := "1d"
  const InvalidCredentialsMessage := "Invalid email or password"
  const DeactivatedMessage := "User account is deactivated"
  const DuplicateEmailMessage := "Email address already exists"
  const InvalidUserDataMessage := "Invalid user data"
  const UserNotFoundMessage := "User not found"
  const MarkedReadMessage := "Notifications marked as read"

  // ---------------------------------------------------------------------
  // Responses and cookies
  // ---------------------------------------------------------------------

  /** A reply with a `status` flag and a message and nothing else. */
  function Reply(code: int, ok: bool, message: string): Response {
    Response(code, Some(ok), message, None, None)
  }

  /** A 401 reply carrying only a message. */
  function Unauthorized(message: string): Response {
    Response(401, None, message, None, None)
  }

  /** The cookie set by `generateTokenAndSetCookie`. */
  function TokenCookie(env: Env, userId: Id): Cookie {
    Cookie(TokenCookieName, env.sign(userId, TokenLifetime), true, env.production, Some("Strict"), None)
  }

  /** The cookie set by logout: empty, expiring at the epoch; neither
      `secure` nor `sameSite` is given. */
  const ClearingCookie := Cookie(TokenCookieName, "", true, false, None, Some(0))

  /** How a client applies a cookie directive to its cookie store at time
      `now`: a cookie whose expiry is not after `now` is removed, any other is
      stored (section 5.3 of RFC 6265). */
  function Deliver(jar: map<string, string>, c: Cookie, now: int): (j: map<string, string>)
    ensures c.expires.Some? && c.expires.value <= now ==> c.name !in j
    ensures !(c.expires.Some? && c.expires.value <= now) ==> c.name in j && j[c.name] == c.value
    ensures forall k :: k != c.name ==> (k in j <==> k in jar) && (k in j ==> j[k] == jar[k])
  {
    if c.expires.Some? && c.expires.value <= now then jar - {c.name} else jar[c.name := c.value]
  }

  // ---------------------------------------------------------------------
  // Login
  // ---------------------------------------------------------------------

  /** The fields of a user record that a successful login exposes. */
  function ViewOf(id: Id, u: User): UserView {
    UserView(id, u.name, u.email, u.role, u.isAdmin, u.title)
  }

  /** The reply of `loginUser` given the record the e-mail lookup found:
      unknown e-mail, then deactivated account, then password mismatch, then
      success. */
  function LoginOutcome(found: Option<(Id, User)>, password: string, env: Env): (r: Response)
    ensures r.code == 200 <==>
      found.Some? && found.value.1.isActive && env.matchPassword(found.value.1.password, password)
    ensures r.code != 200 ==> r.code == 401 && r.user == None && r.cookie == None
    ensures r.code != 200 ==>
      r.message == (if found.Some? && !found.value.1.isActive then DeactivatedMessage else InvalidCredentialsMessage)
    ensures r.code == 200 ==>
      r.user == Some(ViewOf(found.value.0, found.value.1)) && r.cookie == Some(TokenCookie(env, found.value.0))
  {
    match found
    case None => Unauthorized(InvalidCredentialsMessage)
    case Some((id, user)) =>
      if !user.isActive then Unauthorized(DeactivatedMessage)
      else if !env.matchPassword(user.password, password) then Unauthorized(InvalidCredentialsMessage)
      else Response(200, None, "Login successful", Some(ViewOf(id, user)), Some(TokenCookie(env, id)))
  }

  /** An unknown e-mail and a wrong password give the same reply. */
  lemma UnknownEmailLooksLikeWrongPassword(id: Id, u: User, password: string, env: Env)
    requires u.isActive && !env.matchPassword(u.password, password)
    ensures LoginOutcome(None, password, env) == LoginOutcome(Some((id, u)), password, env)
    ensures LoginOutcome(None, password, env) == Unauthorized(InvalidCredentialsMessage)
  {
  }

  /** A deactivated account is refused before the password is looked at:
      the reply depends neither on the password given nor on `matchPassword`. */
  lemma DeactivatedIgnoresPassword(id: Id, u: User, p1: string, p2: string, env1: Env, env2: Env)
    requires !u.isActive
    ensures LoginOutcome(Some((id, u)), p1, env1) == LoginOutcome(Some((id, u)), p2, env2)
    ensures LoginOutcome(Some((id, u)), p1, env1) == Unauthorized(DeactivatedMessage)
  {
  }

  /** A successful login sets the token cookie for the user's id and sends
      back exactly the public fields of the record. */
  lemma LoginSuccess(id: Id, u: User, password: string, env: Env)
    requires u.isActive && env.matchPassword(u.password, password)
    ensures var r := LoginOutcome(Some((id, u)), password, env);
      && r.code == 200 && r.status == None && r.message == "Login successful"
      && r.cookie.Some?
      && r.cookie.value.name == "token"
      && r.cookie.value.value == env.sign(id, "1d")
      && r.cookie.value.httpOnly
      && (r.cookie.value.secure <==> env.production)
      && r.cookie.value.sameSite == Some("Strict")
      && r.user.Some?
      && r.user.value == UserView(id, u.name, u.email, u.role, u.isAdmin, u.title)
  {
  }

  /** The stored password never reaches the reply: two records that differ
      only in it, both accepted by `matchPassword`, give identical replies. */
  lemma LoginReplyIndependentOfStoredPassword(id: Id, u: User, digest: string, password: string, env: Env)
    requires u.isActive && env.matchPassword(u.password, password) && env.matchPassword(digest, password)
    ensures LoginOutcome(Some((id, u)), password, env) == LoginOutcome(Some((id, u.(password := digest))), password, env)
  {
  }

  // ---------------------------------------------------------------------
  // The user collection
  // ---------------------------------------------------------------------

  /** No two users share an e-mail address. */
  ghost predicate EmailsUnique(users: map<Id, User>) {
    forall a, b :: a in users && b in users && users[a].email == users[b].email ==> a == b
  }

  predicate EmailTaken(users: map<Id, User>, email: string) {
    exists id :: id in users && users[id].email == email
  }

  /** `User.findOne({ email })`. */
  function FindByEmail(users: map<Id, User>, email: string): (r: Option<Id>)
    requires EmailsUnique(users)
    ensures r.None? <==> !EmailTaken(users, email)
    ensures r.Some? ==> r.value in users && users[r.value].email == email
  {
    if EmailTaken(users, email) then
      var id :| id in users && users[id].email == email; Some(id)
    else
      None
  }

  /** The record `User.create` builds from a registration body. The account
      starts active. */
  function NewUser(req: Registration): User {
    User(req.email, req.password, req.name, req.title, req.role, req.isAdmin, true)
  }

  /** `value || current` on a string field: an absent or empty value keeps
      the current one. */
  function KeepIfFalsy(value: Option<string>, current: string): (r: string)
    ensures (value.None? || value == Some("")) ==> r == current
    ensures value.Some? && value.value != "" ==> r == value.value
  {
    if value.Some? && value.value != "" then value.value else current
  }

  /** The record a profile update targets: an admin may name another user's
      `_id`; everyone else, and an admin who names none, edits their own. */
  function ProfileTarget(auth: AuthContext, edit: ProfileEdit): (id: Id)
    ensures !auth.isAdmin ==> id == auth.userId
    ensures edit.targetId.None? ==> id == auth.userId
    ensures auth.isAdmin && edit.targetId.Some? ==> id == edit.targetId.value
  {
    if auth.isAdmin && edit.targetId.Some? then edit.targetId.value else auth.userId
  }

  /** A profile update applied to a record: name, title and role take the
      new value when it is truthy; nothing else changes. */
  function Edited(u: User, edit: ProfileEdit): (r: User)
    ensures r.email == u.email && r.password == u.password
    ensures r.isAdmin == u.isAdmin && r.isActive == u.isActive
    ensures r.name == KeepIfFalsy(edit.name, u.name)
    ensures r.title == KeepIfFalsy(edit.title, u.title)
    ensures r.role == KeepIfFalsy(edit.role, u.role)
    ensures edit.name.None? && edit.title.None? && edit.role.None? ==> r == u
  {
    u.(name := KeepIfFalsy(edit.name, u.name),
       title := KeepIfFalsy(edit.title, u.title),
       role := KeepIfFalsy(edit.role, u.role))
  }

  // ---------------------------------------------------------------------
  // Notices
  // ---------------------------------------------------------------------

  /** No two notices share an id. */
  ghost predicate NoticeIdsUnique(ns: seq<Notice>) {
    forall i, j :: 0 <= i < j < |ns| ==> ns[i].id != ns[j].id
  }

  ghost predicate NoDuplicates(s: seq<Id>) {
    forall i, j :: 0 <= i < j < |s| ==> s[i] != s[j]
  }

  /** The query `{ team: u, isRead: { $nin: [u] } }`. */
  predicate UnreadBy(n: Notice, u: Id) {
    u in n.team && u !in n.isRead
  }

  /** The notices the query selects, in their stored order. */
  function Filter(ns: seq<Notice>, u: Id): (r: seq<Notice>)
    ensures forall n :: multiset(r)[n] == if UnreadBy(n, u) then multiset(ns)[n] else 0
    ensures forall n :: n in r <==> n in ns && UnreadBy(n, u)
  {
    if ns == [] then []
    else
      assert ns == [ns[0]] + ns[1..];
      if UnreadBy(ns[0], u) then [ns[0]] + Filter(ns[1..], u) else Filter(ns[1..], u)
  }

  ghost predicate SortedByIdDesc(s: seq<Notice>) {
    forall i, j :: 0 <= i < j < |s| ==> s[i].id >= s[j].id
  }

  function InsertByIdDesc(n: Notice, s: seq<Notice>): (r: seq<Notice>)
    requires SortedByIdDesc(s)
    ensures SortedByIdDesc(r)
    ensures multiset(r) == multiset(s) + multiset{n}
    ensures |r| == |s| + 1 && (r[0] == n || (s != [] && r[0] == s[0]))
  {
    if s == [] || n.id >= s[0].id then [n] + s
    else
      var rest := InsertByIdDesc(n, s[1..]);
      assert s == [s[0]] + s[1..];
      assert s[0].id >= rest[0].id;
      [s[0]] + rest
  }

  /** `.sort({ _id: -1 })`. */
  function SortByIdDesc(s: seq<Notice>): (r: seq<Notice>)
    ensures SortedByIdDesc(r)
    ensures multiset(r) == multiset(s)
  {
    if s == [] then []
    else
      assert s == [s[0]] + s[1..];
      InsertByIdDesc(s[0], SortByIdDesc(s[1..]))
  }

  /** `getNotificationsList`: the notices addressed to `u` that `u` has not
      read, newest id first. */
  function UnreadNotices(ns: seq<Notice>, u: Id): (r: seq<Notice>)
    ensures SortedByIdDesc(r)
    ensures forall n :: multiset(r)[n] == if UnreadBy(n, u) then multiset(ns)[n] else 0
    ensures forall n :: n in r <==> n in ns && UnreadBy(n, u)
  {
    var r := SortByIdDesc(Filter(ns, u));
    assert forall n :: n in r <==> n in multiset(r);
    r
  }

  /** One notice under the "all" form of mark-as-read: `$push` of `u`, but
      only when the filter `{ team: u, isRead: { $nin: [u] } }` selects it. */
  function MarkIfUnread(n: Notice, u: Id): (r: Notice)
    ensures r.id == n.id && r.team == n.team && r.text == n.text
    ensures u in n.team ==> u in r.isRead
    ensures !UnreadBy(n, u) ==> r == n
    ensures UnreadBy(n, u) ==> r.isRead == n.isRead + [u]
    ensures NoDuplicates(n.isRead) ==> NoDuplicates(r.isRead)
  {
    if UnreadBy(n, u) then n.(isRead := n.isRead + [u]) else n
  }

  /** The collection after the "all" form of mark-as-read. */
  function MarkedAll(ns: seq<Notice>, u: Id): (r: seq<Notice>)
    ensures |r| == |ns|
    ensures forall k :: 0 <= k < |r| ==> r[k] == MarkIfUnread(ns[k], u)
    ensures forall k :: 0 <= k < |r| && u in r[k].team ==> u in r[k].isRead
    ensures forall k :: 0 <= k < |r| && !UnreadBy(ns[k], u) ==> r[k] == ns[k]
    ensures forall k :: 0 <= k < |r| && NoDuplicates(ns[k].isRead) ==> NoDuplicates(r[k].isRead)
    ensures forall k, v :: 0 <= k < |r| && v != u ==> (v in r[k].isRead <==> v in ns[k].isRead)
  {
    seq(|ns|, k requires 0 <= k < |ns| => MarkIfUnread(ns[k], u))
  }

  /** Marking all as read a second time changes nothing. */
  lemma MarkedAllIdempotent(ns: seq<Notice>, u: Id)
    ensures MarkedAll(MarkedAll(ns, u), u) == MarkedAll(ns, u)
  {
  }

  /** After marking all as read, the unread listing of that user is empty. */
  lemma MarkedAllLeavesNothingUnread(ns: seq<Notice>, u: Id)
    ensures UnreadNotices(MarkedAll(ns, u), u) == []
  {
  }

  /** The collection after the single-notice form: `$push` of `u` onto the
      notice with that id, whether or not `u` is already there. */
  function MarkedOne(ns: seq<Notice>, id: Id, u: Id): (r: seq<Notice>)
    ensures |r| == |ns|
    ensures forall k :: 0 <= k < |r| && ns[k].id == id ==> r[k] == ns[k].(isRead := ns[k].isRead + [u])
    ensures forall k :: 0 <= k < |r| && ns[k].id != id ==> r[k] == ns[k]
  {
    seq(|ns|, k requires 0 <= k < |ns| => if ns[k].id == id then ns[k].(isRead := ns[k].isRead + [u]) else ns[k])
  }

  /** An id that names no notice leaves the collection as it was. */
  lemma MarkedOneMissingIdNoChange(ns: seq<Notice>, id: Id, u: Id)
    requires forall k :: 0 <= k < |ns| ==> ns[k].id != id
    ensures MarkedOne(ns, id, u) == ns
  {
  }

  /** Marking the same notice twice leaves two entries for the user: the
      single-notice form is not idempotent. */
  lemma MarkedOneTwiceDuplicates(ns: seq<Notice>, id: Id, u: Id, k: nat)
    requires k < |ns| && ns[k].id == id
    ensures MarkedOne(MarkedOne(ns, id, u), id, u)[k].isRead == ns[k].isRead + [u, u]
    ensures multiset(MarkedOne(MarkedOne(ns, id, u), id, u)[k].isRead)[u] == multiset(ns[k].isRead)[u] + 2
    ensures !NoDuplicates(MarkedOne(MarkedOne(ns, id, u), id, u)[k].isRead)
  {
    var twice := MarkedOne(MarkedOne(ns, id, u), id, u)[k].isRead;
    assert twice == ns[k].isRead + [u] + [u];
    assert twice[|twice| - 2] == twice[|twice| - 1];
  }

  // ---------------------------------------------------------------------
  // The store and the handlers
  // ---------------------------------------------------------------------

  /** The reply of `logoutUser`. It depends on nothing. */
  function LogoutUser(): (r: Response)
    ensures r.code == 200 && r.status == Some(true) && r.user == None
    ensures r.cookie == Some(ClearingCookie)
  {
    Response(200, Some(true), "Logged out successfully", None, Some(ClearingCookie))
  }

  /** Whatever a client holds, logging out at any time after the epoch
      removes its token; doing it twice leaves the same cookie store as once. */
  lemma LogoutClearsToken(jar: map<string, string>, now: int)
    requires now > 0
    ensures TokenCookieName !in Deliver(jar, LogoutUser().cookie.value, now)
    ensures Deliver(Deliver(jar, LogoutUser().cookie.value, now), LogoutUser().cookie.value, now)
         == Deliver(jar, LogoutUser().cookie.value, now)
  {
  }

  /** The user documents, the next id the store hands out, and the notices. */
  class Store {
    var users: map<Id, User>
    var nextId: Id
    var notices: array<Notice>

    ghost predicate Valid()
      reads this, notices
    {
      && EmailsUnique(users)
      && (forall id :: id in users ==> id < nextId)
      && NoticeIdsUnique(notices[..])
    }

    constructor (us: map<Id, User>, next: Id, ns: seq<Notice>)
      requires EmailsUnique(us) && (forall id :: id in us ==> id < next) && NoticeIdsUnique(ns)
      ensures Valid() && fresh(notices)
      ensures users == us && nextId == next && notices[..] == ns
    {
      users := us;
      nextId := next;
      notices := new Notice[|ns|](k requires 0 <= k < |ns| => ns[k]);
      new;
      assert notices[..] == ns;
    }

    /** `loginUser`: look the e-mail up, then branch on the record found. */
    method LoginUser(email: string, password: string, env: Env) returns (resp: Response)
      requires Valid()
      ensures !EmailTaken(users, email) ==> resp == Unauthorized(InvalidCredentialsMessage)
      ensures forall id :: id in users && users[id].email == email ==>
        resp == LoginOutcome(Some((id, users[id])), password, env)
    {
      var found := FindByEmail(users, email);
      var record := match found case None => None case Some(id) => Some((id, users[id]));
      resp := LoginOutcome(record, password, env);
    }

    /** `registerUser`: refuse a taken e-mail, then create the record, then
      set the token cookie only for an admin account. */
    method RegisterUser(req: Registration, env: Env) returns (resp: Response)
      requires Valid()
      modifies this
      ensures Valid() && notices == old(notices)
      ensures old(EmailTaken(users, req.email)) ==>
        && resp == Reply(400, false, DuplicateEmailMessage)
        && users == old(users) && nextId == old(nextId)
      ensures !old(EmailTaken(users, req.email)) && !env.createResolves(NewUser(req)) ==>
        && resp == Reply(400, false, InvalidUserDataMessage)
        && users == old(users) && nextId == old(nextId)
      ensures !old(EmailTaken(users, req.email)) && env.createResolves(NewUser(req)) ==>
        && old(nextId) !in old(users)
        && users == old(users)[old(nextId) := NewUser(req)]
        && nextId == old(nextId) + 1
        && resp.code == 201 && resp.status == Some(true)
        && resp.message == "User registered successfully" && resp.user == None
        && resp.cookie == (if req.isAdmin then Some(TokenCookie(env, old(nextId))) else None)
    {
      if EmailTaken(users, req.email) {
        return Reply(400, false, DuplicateEmailMessage);
      }
      var user := NewUser(req);
      if !env.createResolves(user) {
        return Reply(400, false, InvalidUserDataMessage);
      }
      var id := nextId;
      users := users[id := user];
      nextId := nextId + 1;
      var cookie := if req.isAdmin then Some(TokenCookie(env, id)) else None;
      resp := Response(201, Some(true), "User registered successfully", None, cookie);
    }

    /** `getNotificationsList`: always a 200 reply with the listing; it
        reads the store and writes nothing. */
    method GetNotificationsList(auth: AuthContext) returns (code: int, r: seq<Notice>)
      ensures code == 200
      ensures r == UnreadNotices(notices[..], auth.userId)
    {
      r := UnreadNotices(notices[..], auth.userId);
      code := 200;
    }

    /** The "all" form: `updateMany` over the notices the filter selects. */
    method MarkAllRead(u: Id)
      requires Valid()
      modifies notices
      ensures Valid()
      ensures notices[..] == MarkedAll(old(notices[..]), u)
    {
      var i := 0;
      while i < notices.Length
        invariant 0 <= i <= notices.Length
        invariant forall k :: 0 <= k < i ==> notices[k] == MarkIfUnread(old(notices[k]), u)
        invariant forall k :: i <= k < notices.Length ==> notices[k] == old(notices[k])
      {
        if UnreadBy(notices[i], u) {
          notices[i] := notices[i].(isRead := notices[i].isRead + [u]);
        }
        i := i + 1;
      }
      assert notices[..] == MarkedAll(old(notices[..]), u);
    }

    /** The single-notice form: `findByIdAndUpdate(id, { $push })`. A missing
        id updates nothing. */
    method MarkOneRead(id: Id, u: Id)
      requires Valid()
      modifies notices
      ensures Valid()
      ensures notices[..] == MarkedOne(old(notices[..]), id, u)
    {
      if k :| 0 <= k < notices.Length && notices[k].id == id {
        notices[k] := notices[k].(isRead := notices[k].isRead + [u]);
        assert notices[..] == MarkedOne(old(notices[..]), id, u);
      } else {
        assert notices[..] == MarkedOne(old(notices[..]), id, u);
      }
    }

    /** `markNotificationRead`: `isReadType` "all" marks every unread notice,
        anything else marks the notice `id` names. It always replies 200. */
    method MarkNotificationRead(auth: AuthContext, isReadType: Option<string>, id: Option<Id>) returns (resp: Response)
      requires Valid()
      modifies notices
      ensures Valid()
      ensures notices[..] ==
        if isReadType == Some("all") then MarkedAll(old(notices[..]), auth.userId)
        else if id.Some? then MarkedOne(old(notices[..]), id.value, auth.userId)
        else old(notices[..])
      ensures resp == Reply(200, true, MarkedReadMessage)
    {
      if isReadType == Some("all") {
        MarkAllRead(auth.userId);
      } else if id.Some? {
        MarkOneRead(id.value, auth.userId);
      }
      resp := Reply(200, true, MarkedReadMessage);
    }

    /** `updateUserProfile`: 404 when the target is missing, otherwise the
        truthy fields among name, title and role replace the stored ones. */
    method UpdateUserProfile(auth: AuthContext, edit: ProfileEdit) returns (resp: Response)
      requires Valid()
      modifies this
      ensures Valid() && notices == old(notices) && nextId == old(nextId)
      ensures ProfileTarget(auth, edit) !in old(users) ==>
        resp == Reply(404, false, UserNotFoundMessage) && users == old(users)
      ensures ProfileTarget(auth, edit) in old(users) ==>
        && resp == Reply(200, true, "Profile Updated Successfully.")
        && users == old(users)[ProfileTarget(auth, edit) := Edited(old(users)[ProfileTarget(auth, edit)], edit)]
    {
      var id := ProfileTarget(auth, edit);
      if id !in users {
        return Reply(404, false, UserNotFoundMessage);
      }
      users := users[id := Edited(users[id], edit)];
      resp := Reply(200, true, "Profile Updated Successfully.");
    }

    /** `activateUserProfile`: 404 when missing, otherwise sets `isActive`. */
    method ActivateUserProfile(id: Id, isActive: bool) returns (resp: Response)
      requires Valid()
      modifies this
      ensures Valid() && notices == old(notices) && nextId == old(nextId)
      ensures id !in old(users) ==> resp == Reply(404, false, UserNotFoundMessage) && users == old(users)
      ensures id in old(users) ==>
        && users == old(users)[id := old(users)[id].(isActive := isActive)]
        && resp == Reply(200, true, if isActive then "User account has been activated" else "User account has been disabled")
    {
      if id !in users {
        return Reply(404, false, UserNotFoundMessage);
      }
      users := users[id := users[id].(isActive := isActive)];
      resp := Reply(200, true, if isActive then "User account has been activated" else "User account has been disabled");
    }

    /** `changeUserPassword`: 404 when the caller's record is missing,
        otherwise the given value is assigned to the password field. */
    method ChangeUserPassword(auth: AuthContext, password: string) returns (resp: Response)
      requires Valid()
      modifies this
      ensures Valid() && notices == old(notices) && nextId == old(nextId)
      ensures auth.userId !in old(users) ==> resp == Reply(404, false, UserNotFoundMessage) && users == old(users)
      ensures auth.userId in old(users) ==>
        && users == old(users)[auth.userId := old(users)[auth.userId].(password := password)]
        && resp == Reply(200, true, "Password changed successfully.")
    {
      if auth.userId !in users {
        return Reply(404, false, UserNotFoundMessage);
      }
      users := users[auth.userId := users[auth.userId].(password := password)];
      resp := Reply(200, true, "Password changed successfully.");
    }

    /** `deleteUserProfile`: removes the record if there is one, and replies
        200 either way. */
    method DeleteUserProfile(id: Id) returns (resp: Response)
      requires Valid()
      modifies this
      ensures Valid() && notices == old(notices) && nextId == old(nextId)
      ensures users == old(users) - {id}
      ensures resp == Reply(200, true, "User deleted successfully")
    {
      users := users - {id};
      resp := Reply(200, true, "User deleted successfully");
    }
  }

  /** Registering a fresh non-admin account sets no cookie; logging in with
      the same e-mail and a password `matchPassword` accepts then succeeds and
      returns that e-mail, with the token cookie. */
  method RegisterThenLogin(req: Registration, env: Env) returns (registered: Response, loggedIn: Response)
    requires !req.isAdmin && env.createResolves(NewUser(req))
    requires env.matchPassword(req.password, req.password)
    ensures registered.code == 201 && registered.cookie == None
    ensures loggedIn.code == 200 && loggedIn.user.Some? && loggedIn.user.value.email == req.email
    ensures loggedIn.cookie.Some? && loggedIn.cookie.value.name == TokenCookieName
  {
    var store := new Store(map[], 0, []);
    registered := store.RegisterUser(req, env);
    loggedIn := store.LoginUser(req.email, req.password, env);
  }

  /** A taken e-mail is refused and the first account is left as it was. */
  method RegisterTwice(first: Registration, second: Registration, env: Env) returns (again: Response, kept: User)
    requires first.email == second.email && env.createResolves(NewUser(first))
    ensures again == Reply(400, false, DuplicateEmailMessage)
    ensures kept == NewUser(first)
  {
    var store := new Store(map[], 0, []);
    var _ := store.RegisterUser(first, env);
    assert store.users[0].email == second.email;
    again := store.RegisterUser(second, env);
    kept := store.users[0];
  }
}
