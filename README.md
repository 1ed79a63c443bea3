# Task-manager authentication and notification core, in Dafny

This project models two pieces of the task manager's decision logic and proves
properties of them.

- **The server's user controller** (`server/controllers/userController.js`),
  module `UserController`. A `Store` class holds the user documents as a map
  from id to record, the next id the store hands out, and the notices as an
  array. Each request handler is a method on it that returns a `Response`:
  HTTP code, the body's `status` flag, message, optional user view and
  optional cookie directive. The JWT signer, the user model's
  `matchPassword`, the `NODE_ENV === "production"` test and whether
  `User.create` resolves to a document are the fields of an `Env` value
  passed in. The pure parts are functions: the login outcome for a looked-up record, the
  unread listing as filter-then-sort on `_id` descending, and the notice
  collection after either form of mark-as-read. The handlers' methods are
  proved against these functions.
- **The client's auth slice** (`client/src/redux/slices/authSlice.js`),
  module `AuthSlice`. An `AuthStore` class holds `user`, `isSidebarOpen` and
  the `localStorage["userInfo"]` slot. Its three reducers are methods, each
  proved equal to a step function on `AuthState`. `JSON.stringify` is a
  function parameter `stringify`, injective where a lemma needs it. The
  proved invariant is that after `setCredentials` or `logout` the slot is
  present exactly when `user` is not null, and then holds `stringify(user)`.

Behaviour kept as the code has it:

- The code answers an unknown e-mail and a wrong password with the same 401
  message. The check for a deactivated account comes first, before the password
  is compared, so it tells the caller the account exists.
- The single-notice form of mark-as-read `$push`es unconditionally, so
  marking the same notice twice leaves two entries. An id that names no notice
  changes nothing and still gets a 200 reply. Only the "all" form is guarded
  by `$nin`, so only it is idempotent. `MarkedOneTwiceDuplicates` and
  `MarkedAllIdempotent` state both facts.
- Registration returns no user object. It sets the token cookie only when
  `isAdmin` is truthy.
- The logout cookie sets neither `secure` nor `sameSite`.
- The client's initial state seeds `user` with the raw string in the slot
  and does not parse it. After a reload, a user object saved by
  `setCredentials` comes back as its serialised string
  (`ReloadSeedsSerialisedString`).

Modelling choices:

- Ids are natural numbers. New user ids come from the store's counter
  `nextId`, which stands for ObjectId generation.
- `User.findOne({ email })` is a choice among the records with that e-mail.
  It is deterministic because the store keeps e-mails unique (`Store.Valid`);
  registration's duplicate guard preserves this.
- Whether `User.create` resolves to a document (the `if (user)` test of
  `registerUser`) is the `createResolves` field of `Env`. When it does not,
  the reply is the code's "Invalid user data" branch.
- A new account starts active. That default lives in the user model's schema,
  which is not part of this model.

## Model

| member | source | states |
|---|---|---|
| UserController.LoginOutcome | server/controllers/userController.js:20-57 | The reply is 200 exactly when a record was found, it is active and `matchPassword` accepts; otherwise 401 with no user and no cookie, and the message is "User account is deactivated" only for a found inactive record, "Invalid email or password" otherwise; on success the body carries the record's public view and the reply sets the token cookie for its id |
| UserController.UnknownEmailLooksLikeWrongPassword | server/controllers/userController.js:24-43 | An unknown e-mail and an active account with a wrong password give the identical 401 "Invalid email or password" reply with no cookie |
| UserController.DeactivatedIgnoresPassword | server/controllers/userController.js:31-37 | For an inactive record the reply is 401 "User account is deactivated" whatever the password and whatever `matchPassword` does |
| UserController.LoginSuccess | server/controllers/userController.js:7-16 | A successful login sets cookie "token" to `sign(id, "1d")`, httpOnly, sameSite "Strict", secure exactly in production, and returns exactly `_id, name, email, role, isAdmin, title` of the record |
| UserController.LoginReplyIndependentOfStoredPassword | server/controllers/userController.js:47-57 | Two records differing only in the stored password give identical successful replies, so the password never reaches the reply |
| UserController.FindByEmail | server/controllers/userController.js:24 | With unique e-mails the lookup finds nothing exactly when no record has the e-mail, and otherwise the record with it |
| UserController.Store.LoginUser | server/controllers/userController.js:20-59 | An e-mail no record has gets the 401 "Invalid email or password" reply; otherwise the reply is the login outcome for the record holding that e-mail |
| UserController.Store.RegisterUser | server/controllers/userController.js:63-89 | A taken e-mail gets 400 with status false and no cookie, and the store is unchanged; when `User.create` does not resolve to a document the reply is 400 "Invalid user data" and the store is unchanged; otherwise exactly one record with the given fields is added under a fresh id, the reply is 201 with status true and no user, and the token cookie is set if and only if `isAdmin`; e-mail uniqueness is preserved |
| UserController.RegisterThenLogin | server/controllers/userController.js:20-89 | Registering a fresh non-admin account sets no cookie, and logging in afterwards with a password `matchPassword` accepts succeeds with that e-mail in the body and the token cookie set |
| UserController.RegisterTwice | server/controllers/userController.js:66-72 | Registering an e-mail a second time is refused with 400 "Email address already exists" and the first record is left as it was |
| UserController.LogoutUser | server/controllers/userController.js:92-98 | Logout takes no input and always replies 200 with status true, setting the empty "token" cookie that expires at the epoch |
| UserController.Deliver | server/controllers/userController.js:93-96 | A client removes a cookie whose expiry is not after the current time and stores any other, leaving its other cookies alone |
| UserController.LogoutClearsToken | server/controllers/userController.js:93-96 | After logout the client holds no token, whatever it held, and logging out twice leaves the same cookies as once |
| UserController.Filter | server/controllers/userController.js:129-132 | The query keeps exactly the notices addressed to the user and not read by them, each as often as it occurs |
| UserController.InsertByIdDesc | server/controllers/userController.js:134 | Inserting into a list sorted by id descending gives a sorted list with the same elements plus the new one |
| UserController.SortByIdDesc | server/controllers/userController.js:134 | The sort yields a permutation of its input ordered by id descending |
| UserController.UnreadNotices | server/controllers/userController.js:126-137 | The listing is sorted by id descending and holds exactly the notices whose team contains the user and whose `isRead` does not, with their multiplicities |
| UserController.Store.GetNotificationsList | server/controllers/userController.js:126-137 | The handler always replies 200 with the unread listing of the stored notices and changes nothing |
| UserController.MarkIfUnread | server/controllers/userController.js:209-212 | A notice the filter selects gains the user at the end of `isRead`; any other is unchanged; id, team and text never change; a duplicate-free `isRead` stays duplicate-free |
| UserController.MarkedAll | server/controllers/userController.js:208-212 | After the "all" form every notice addressed to the user lists them in `isRead`; notices not addressed to them or already read by them are unchanged; no `isRead` gains a duplicate; other users' read state is unaffected |
| UserController.MarkedAllIdempotent | server/controllers/userController.js:208-212 | Applying the "all" form twice gives the same notices as once |
| UserController.MarkedAllLeavesNothingUnread | server/controllers/userController.js:208-212 | After the "all" form the user's unread listing is empty |
| UserController.Store.MarkAllRead | server/controllers/userController.js:208-212 | The loop over the notice array leaves it equal to the "all" form applied to the old notices, and keeps notice ids unique |
| UserController.MarkedOne | server/controllers/userController.js:213-219 | The notice with the given id gains the user at the end of `isRead` whether or not already present; the others are unchanged |
| UserController.MarkedOneMissingIdNoChange | server/controllers/userController.js:213-221 | An id that names no notice leaves every notice unchanged |
| UserController.MarkedOneTwiceDuplicates | server/controllers/userController.js:214-218 | Marking one notice twice appends the user twice, so `isRead` then holds a duplicate |
| UserController.Store.MarkOneRead | server/controllers/userController.js:213-219 | The update leaves the notice array equal to the single-notice form applied to the old notices |
| UserController.Store.MarkNotificationRead | server/controllers/userController.js:203-226 | `isReadType` "all" applies the "all" form, otherwise the notice the id names (none when no id is given) is pushed to; the reply is always 200 with status true |
| UserController.ProfileTarget | server/controllers/userController.js:144 | A non-admin always edits their own record; an admin edits the record `_id` names, or their own when it names none |
| UserController.KeepIfFalsy | server/controllers/userController.js:151-153 | An absent or empty value keeps the current field, any other replaces it |
| UserController.Edited | server/controllers/userController.js:151-153 | Only name, title and role can change, each keeping the old value when the new one is falsy; e-mail, password and the two flags are kept |
| UserController.Store.UpdateUserProfile | server/controllers/userController.js:140-157 | A missing target gets 404 with status false and the store is unchanged; otherwise only the target record is replaced by its edited form and the reply is 200 |
| UserController.Store.ActivateUserProfile | server/controllers/userController.js:160-176 | A missing id gets 404 and no change; otherwise only that record's `isActive` is set and the message says "activated" or "disabled" accordingly |
| UserController.Store.ChangeUserPassword | server/controllers/userController.js:179-192 | A missing caller record gets 404 and no change; otherwise only that record's password field is set to the given value |
| UserController.Store.DeleteUserProfile | server/controllers/userController.js:195-200 | The record is removed when present, nothing else changes, and the reply is 200 either way |
| AuthSlice.InitialState | client/src/redux/slices/authSlice.js:3-7 | The sidebar starts closed; `user` is non-null exactly when the slot holds a value, and is then that raw, unparsed string |
| AuthSlice.CredentialsSet | client/src/redux/slices/authSlice.js:13-20 | A truthy payload user becomes `user` and its serialisation the slot; a missing payload or falsy user gives null and an empty slot; either way the slot mirrors `user` and the sidebar flag is unchanged |
| AuthSlice.LoggedOut | client/src/redux/slices/authSlice.js:22-25 | `user` becomes null and the slot empty, so the slot mirrors `user`; the sidebar flag is unchanged |
| AuthSlice.SidebarSet | client/src/redux/slices/authSlice.js:26-28 | Only the sidebar flag changes, to the payload; `user` and the slot are untouched, so the mirror invariant is kept |
| AuthSlice.LogoutIdempotent | client/src/redux/slices/authSlice.js:22-25 | Logging out twice gives the same state as once |
| AuthSlice.CredentialsSetIdempotent | client/src/redux/slices/authSlice.js:13-20 | Setting the same credentials twice gives the same state as once |
| AuthSlice.SlotDeterminesUser | client/src/redux/slices/authSlice.js:13-25 | With an injective serialisation, mirrored states with the same slot have the same user |
| AuthSlice.ReloadSeedsSerialisedString | client/src/redux/slices/authSlice.js:3-16 | After a user object is saved, the initial state built from the slot holds its serialised string rather than the object |
| AuthSlice.AuthStore.constructor | client/src/redux/slices/authSlice.js:3-7 | The store starts in the initial state for what the slot holds |
| AuthSlice.AuthStore.SetCredentials | client/src/redux/slices/authSlice.js:13-20 | The reducer leaves the state and slot as the `setCredentials` step gives them, slot mirroring `user`, sidebar flag untouched |
| AuthSlice.AuthStore.Logout | client/src/redux/slices/authSlice.js:22-25 | The reducer leaves the state and slot as the `logout` step gives them, slot mirroring `user`, sidebar flag untouched |
| AuthSlice.AuthStore.SetOpenSidebar | client/src/redux/slices/authSlice.js:26-28 | The reducer sets only the sidebar flag |

## Left out

- `getTeamList`: its search is a case-insensitive MongoDB `$regex`, whose semantics belong to the database.
- `getUserTaskStatus`: it is a `populate` join over task documents that are not part of this model.
- `server/resetPassword.js`: a one-off script that hashes a fixed string with bcrypt and prints it; it has no logic of its own.
- Password hashing and comparison, and JWT signing and verification, are foreign libraries. `matchPassword` and `sign` are arbitrary functions in `Env`, and so the token's one-day expiry is only the `"1d"` argument passed to `sign`.
- The user model's pre-save hook is not modelled. `changeUserPassword` and registration store the value the controller assigns, and nothing here claims that value is hashed.
- `populate("task", "title")` in the unread listing is not modelled; the listing returns the notice records themselves.
- The `try/catch` that maps store failures to 500 is left out, and so is the error middleware behind `asyncHandler`. Store failures are not modelled, including an id that does not parse as an ObjectId.
- Logging (`console.log`) is left out. Note that the log line at the start of `loginUser` writes the plaintext password of every login request to the server log: `LoginReplyIndependentOfStoredPassword` is about the reply only. Express plumbing and the auth middleware that fills `req.user` are left out. `req.user` is the `AuthContext` parameter.
- The concurrency of simultaneous requests is not modelled. Nor is the atomicity of `updateMany`. Each handler is one sequential step.
- Request fields are typed: `isAdmin` and `isActive` are booleans standing for their truthiness, and the string fields of a profile edit are optional strings whose falsy forms are absent or `""`. Mongoose's casting of other JavaScript values is not modelled.
- Real `JSON.stringify` is an abstract function, and Redux Toolkit's draft mechanics are not modelled. JavaScript numbers are integers, so `NaN` and fractions are left out.
- Deliver: only the expiry rule of a client's cookie store is modelled; path, domain and the `httpOnly`/`secure` handling on the client side are left out.
- UserController.Store.RegisterUser: a schema rejection makes `await User.create(...)` throw into the error middleware behind `asyncHandler`, which is not modelled; the 400 "Invalid user data" reply is the code's `else` branch, which Mongoose never reaches because `create` does not resolve to a falsy value.
