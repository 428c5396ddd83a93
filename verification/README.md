# Keycloak security manager for Superset — verified model

This project models the logic inside `custom/auth/keycloak_security_manager.py`,
the adapter that plugs a Keycloak (OpenID Connect) identity provider into
Superset's security manager. Three pieces of it carry behaviour worth stating:

- **The pending-disconnect queue** of `OIDCSecurityManager`
  (`security_manager.dfy`, module `SecurityManager`). It is a list of provider
  session ids (sids). `push_sid_to_disconnect` (`Push`) appends to it.
  `pop_sid_to_disconnect` (`Pop`) removes and returns the oldest copy of a
  sid, or returns `None`. Python's `list.remove` is modelled generically as
  `RemoveFirst` in `sequences.dfy` (module `Sequences`).
- **The role mapping** of `AuthOIDCView` (`role_mapping.dfy`, module
  `RoleMapping`). `_intersection_insensible_casse` is `Intersect`: the
  upper-cased second list (line 196) is `FoldAll`, and the filtering
  comprehension (line 197) is `KeepMatching`. It filters the allow-list
  `admin, alpha, gamma, public` (`LookFor`) case-insensitively.
  `_attach_roles_for` is `AttachRoles`: it builds the candidate roles
  (`CandidateRoles`, lines 162-175), filters the allow-list with them, and
  capitalises and looks up each survivor (`ResolveRoles`, the loop at lines
  180-188). These functions carry no contracts of their own; their
  properties are the `IntersectSpec`, `KeepMatchingSpec`, `ResolveRolesSpec`,
  `AttachRolesSpec` and `AttachRolesMembership` lemmas. `str.upper`,
  `str.capitalize` and `find_role` are function parameters. `ascii_case.dfy` (module `AsciiCase`) gives ASCII
  versions of the two string methods for the worked examples.
- **Back-channel logout and the pre-request guard** (`logout_flow.dfy`, module
  `LogoutFlow`). `sso_logout` (`SsoLogout`) and
  `oidc_check_loggedin_or_logout` (`CheckLoggedInOrLogout`) are pure steps
  over the queue. The token decoder's outcome, the OIDC client's
  `user_loggedin` flag, the session's stored sid and
  `current_user.is_authenticated` are inputs.

`scenarios.dfy` (module `Scenarios`) evaluates worked examples on the model. `wrappers.dfy` holds the `Option` type that stands for Python's `None`.

Points where the code behaves differently from what its purpose suggests:

- A first login uses the default registration role `Public` unless it is
  configured otherwise (lines 83-86). So a user whose provider roles are
  `["admin"]` receives both `Admin` and `Public`, not only `Admin`
  (`Scenarios.FirstLoginRoles`).
- `sso_logout` catches only `ExpiredSignatureError` and `DecodeError`. Any
  other decoder exception escapes the view with the queue unchanged; in PyJWT
  an audience mismatch is such an exception. A payload without a `sid` claim
  raises `KeyError` at line 132. Both are `Unhandled` in the model.
- On a caught decode error the view returns the tuple `(400, msg)` (lines
  126 and 130). Flask reads a two-element tuple as `(body, status)`, so the
  body would be the integer 400, which Flask does not accept as a response
  body. This was read from the code and not executed. The model's
  `BadRequest` stands for the intended 400 answer with the queue unchanged.
- The queue is an ordered list, not an unordered collection. A pop consumes
  the oldest copy of the sid.
- The decoder is called with expiry checking turned off (line 150), so an
  expired token decodes normally. The `ExpiredSignature` outcome is kept as an
  input because the view has a branch for it.

## Model

| member | source | states |
|---|---|---|
| `Sequences.RemoveFirst` | custom/auth/keycloak_security_manager.py:46 | `list.remove(x)` on a list holding `x` shortens it by one and removes exactly one copy of `x` (multiset difference). Python raises `ValueError` when `x` is absent; the model's function is total and returns such a list unchanged, a case line 46 never reaches because line 45 tests membership first |
| `Sequences.RemoveFirstAt` | custom/auth/keycloak_security_manager.py:46 | when `i` is the first index holding `x`, the list left by `list.remove(x)` is the elements before `i` followed by those after it, in order |
| `Sequences.RemoveFirstIsSubsequence` | custom/auth/keycloak_security_manager.py:46 | what `list.remove` leaves is a subsequence of the original list |
| `SecurityManager.Push` | custom/auth/keycloak_security_manager.py:40-42 | push appends the sid at the end without deduplication: length grows by one, the earlier entries are untouched, the sid gains one copy |
| `SecurityManager.Pop` | custom/auth/keycloak_security_manager.py:44-49 | pop returns the sid exactly when it is queued, otherwise `None`; on a hit the queue loses exactly one copy of that sid and every other sid keeps its count; on a miss the queue is unchanged |
| `SecurityManager.PopRemovesOldestCopy` | custom/auth/keycloak_security_manager.py:45-48 | pop removes the oldest copy, and the remaining entries keep their relative order |
| `SecurityManager.PushThenPopTwice` | custom/auth/keycloak_security_manager.py:40-49 | a sid pushed once onto a queue without it is returned by the next pop, which restores the earlier queue; a second pop returns `None` |
| `SecurityManager.PopIgnoresLaterPushes` | custom/auth/keycloak_security_manager.py:40-48 | entries pushed after a queued sid do not change which copy a pop consumes |
| `SecurityManager.DrainCountIsMultiplicity` | custom/auth/keycloak_security_manager.py:44-49 | repeated pops of a sid succeed exactly as many times as the sid is queued, so each notification is handed out exactly once |
| `RoleMapping.FoldAll` | custom/auth/keycloak_security_manager.py:196 | the folded list has one entry per element of `lst2`: its case-folded form, in the same position |
| `RoleMapping.FoldAllMembership` | custom/auth/keycloak_security_manager.py:196-197 | `v.upper() in upper2` holds exactly when some element of `lst2` folds to the same value as `v` |
| `RoleMapping.KeepMatchingSpec` | custom/auth/keycloak_security_manager.py:197 | the comprehension keeps, in `lst1` order, exactly the elements whose folded form is among the keys, each with all its copies |
| `RoleMapping.IntersectSpec` | custom/auth/keycloak_security_manager.py:192-198 | the intersection is a subsequence of `lst1`, so no longer than it; `v` is in it iff `v` is in `lst1` and matches an element of `lst2` ignoring case; each matching value keeps all its copies and the others have none |
| `RoleMapping.IntersectDependsOnFoldedSet` | custom/auth/keycloak_security_manager.py:196-197 | two second lists with the same set of folded elements give the same intersection |
| `RoleMapping.IntersectIgnoresCaseOfSecond` | custom/auth/keycloak_security_manager.py:196-197 | changing the case of elements of `lst2` does not change the intersection |
| `RoleMapping.IntersectIgnoresOrderAndDuplicatesOfSecond` | custom/auth/keycloak_security_manager.py:196-197 | reordering `lst2`, or duplicating its elements, does not change the intersection |
| `RoleMapping.CandidateRoles` | custom/auth/keycloak_security_manager.py:162-175 | the candidates are the `roles` claim, when present, followed by the default roles; `None` defaults count as none; a role is a candidate iff it is claimed or a default |
| `RoleMapping.NoDefaultsIsEmptyDefaults` | custom/auth/keycloak_security_manager.py:162-163 | `default_roles=None` gives the same roles as `default_roles=[]` |
| `RoleMapping.ResolveRolesSpec` | custom/auth/keycloak_security_manager.py:180-188 | each name is capitalised and looked up; a name whose role is not found is skipped, never an error; nothing is dropped iff every lookup succeeds; every role found is applied and only those |
| `RoleMapping.ResolveRolesCons` | custom/auth/keycloak_security_manager.py:180-188 | the first name contributes exactly its local role when found and nothing otherwise, ahead of what the remaining names contribute |
| `RoleMapping.ResolveRolesAppend` | custom/auth/keycloak_security_manager.py:180-188 | the names are handled one by one in order: resolving a concatenation of name lists is the concatenation of their resolutions |
| `RoleMapping.AttachRolesSpec` | custom/auth/keycloak_security_manager.py:154-190 | the roles applied are, in allow-list order `admin, alpha, gamma, public`, the local role of each allow-listed name that matches a candidate ignoring case and whose capitalised name `find_role` finds, one per such name; missing roles are skipped, so at most four are applied |
| `RoleMapping.AttachRolesMembership` | custom/auth/keycloak_security_manager.py:165-190 | a role is applied iff it is what `find_role` returns for the capitalised name of an allow-listed role that matches a candidate ignoring case |
| `AsciiCase.Upper` | custom/auth/keycloak_security_manager.py:196-197 | `str.upper` on ASCII: same length, each lowercase letter becomes its own uppercase letter (code point minus 32), every other character unchanged |
| `AsciiCase.UpperIdentifiesCase` | custom/auth/keycloak_security_manager.py:196-197 | two strings have the same upper-case form iff they have the same length and agree position by position ignoring ASCII case, so the comparison at line 197 is exactly a case-insensitive match |
| `AsciiCase.Capitalize` | custom/auth/keycloak_security_manager.py:182 | `str.capitalize` on ASCII: same length, the first character upper-cased and every other character lower-cased, letter by letter |
| `LogoutFlow.SsoLogout` | custom/auth/keycloak_security_manager.py:119-137 | the queue changes only when the token decoded with a `sid` claim, and then gains exactly that sid; an expired-signature or decode error returns `(400, msg)` (`BadRequest` with the matching reason) and leaves the queue unchanged; anything else escapes the view |
| `LogoutFlow.CheckLoggedInOrLogout` | custom/auth/keycloak_security_manager.py:201-225 | without an OIDC client nothing happens; otherwise the session's sid is always popped, even for an unauthenticated user; the user is logged out iff authenticated and either not logged in at the provider or the sid was queued; at most one entry is consumed |
| `LogoutFlow.BackChannelLogoutReachesNextRequest` | custom/auth/keycloak_security_manager.py:132-134 | after a back-channel logout for a session, that session's next authenticated request is logged out whatever was queued; with no earlier copy of the sid the queue returns to its earlier state, and with a duplicate notification the oldest copy is consumed and the new one stays at the end |
| `LogoutFlow.NotificationConsumedOnce` | custom/auth/keycloak_security_manager.py:216-219 | one notification forces at most one logout: a later request of the same session that the provider still reports as logged in is left alone |
| `LogoutFlow.RejectedNotificationLogsNobodyOut` | custom/auth/keycloak_security_manager.py:121-130 | a rejected or failed back-channel request cannot log out a session the provider still reports as logged in |
| `LogoutFlow.UnauthenticatedRequestSpendsNotification` | custom/auth/keycloak_security_manager.py:216-220 | a queued sid is consumed by a request of that session even when nobody is authenticated in it, without a logout |
| `Scenarios.IntersectionExample` | custom/auth/keycloak_security_manager.py:165-177 | provider roles `["ALPHA", "unknown"]` with defaults `["public"]` select `alpha` and `public`, in allow-list order |
| `Scenarios.MissingLocalRoleIsSkipped` | custom/auth/keycloak_security_manager.py:180-190 | with the same claims and no local `Alpha` role, the user still receives `Public` |
| `Scenarios.FirstLoginRoles` | custom/auth/keycloak_security_manager.py:83-86 | a first login with provider roles `["admin"]` and the built-in default `Public` applies `Admin` and `Public` |
| `Scenarios.BackChannelLogoutEndToEnd` | custom/auth/keycloak_security_manager.py:111-137 | a back-channel logout on an empty queue answers with the flagged sid; the session's next authenticated request is logged out and the queue is empty again |

## Left out

- Login (lines 54-95): the user lookup, user creation through `add_user`, `login_user` and storing the sid in the session are persistence and session plumbing. Only its default registration role appears, in `Scenarios.FirstLoginRoles`.
- Interactive logout (lines 97-109): the provider logout call and the end-session URL are string concatenation and HTTP redirects.
- `_decode_logout_jwt` (lines 139-152) and the JWKS client: signature and audience checks are library calls. Their outcome is the `DecodeOutcome` input.
- The security manager's construction (lines 22-38) beyond the empty queue, `EmptyQueue`: the client set-up and the configuration check are library wiring.
- `find_role`, `update_user` and the assignment `user.roles = roles`: `find_role` is a parameter, and the returned role list stands for what is assigned.
- The OIDC client's `logout()` and `logout_user()`: the guard returns a `loggedOut` flag instead of calling them.
- `AsciiCase.Upper`: Python's `str.upper` follows Unicode, and the model covers ASCII letters only. The role mapping itself takes any folding function.
- `AsciiCase.Capitalize`: the same restriction to ASCII letters.
- Concurrency: the queue is shared by request threads without a lock. The model is sequential.
- Logging and the exact response texts.
- `LogoutFlow.SsoLogout`: `BadRequest` stands for the view's intended 400 answer; the model does not capture how Flask treats the `(400, msg)` tuple the view returns.
