# Wisdom Graph backend — a Dafny model

Wisdom Graph turns a topic into an explorable learning map. Its backend
(`backend/server.py`) does three things this project models:

- **Cleaning the chat-completion reply.** Before a reply reaches the JSON decoder, the
  server strips it. When the reply opens with a Markdown code fence, the server also
  drops the fence lines and removes every fence marker that is left. Node expansion
  then reads the `subtopics` key of the decoded object.
- **The user registry and bearer tokens.** Registration refuses an email that is
  already registered. A login failure reads the same whether the email or the password
  was wrong. A token carries `sub`, `email` and an expiry seven days after it was
  issued. `get_current_user` accepts a token only if it decodes, names a subject and
  that subject is a stored user.
- **The saved-map store.** Each map belongs to the user who saved it. Listing returns
  that user's maps, newest first, at most 100 of them. Get, export and delete act only
  on a map whose id and owner both match; otherwise they answer "not found".

Modules, one per concern:

- `Wrappers`, `Http` (`wrappers.dfy`): `Option`, `Result` and the `HttpError` values the routes raise.
- `FenceCleaner` (`fence.dfy`): pure functions for Python's `str.strip`, `str.split`,
  `str.join`, `str.replace(pat, '')` and `str.startswith`, plus the cleaner built from them.
- `AiReply` (`ai_reply.dfy`): decoded JSON values, and what the two AI helpers do with a reply.
- `Collection` (`collection.dfy`): `find_one`, meaning the first stored document that a filter matches.
- `Auth` (`auth.dfy`): the `UserRegistry` class. Its `users` field is a `seq` that
  `Register` appends to. `Login` and `CurrentUser` only read it.
- `MapStore` (`map_store.dfy`): the `MapCollection` class. Its `maps` field is a `seq`
  that `SaveMap` appends to and `DeleteMap` removes one record from. The listing,
  get and export operations are functions that read it.

Collaborators are inputs. The completion reply is a `Completion` value. The JSON
decoder and the bcrypt password check are function parameters. The bcrypt hash, fresh
uuids and the current time are arguments. A signed token is modelled by the claims it
carries.

## Model

| member | source | states |
|---|---|---|
| `FenceCleaner.Strip` | backend/server.py:223 | the result is the piece of the input that starts right after its leading whitespace; everything before and after that piece is whitespace, and the result has whitespace at neither end |
| `FenceCleaner.StripTrimmed` | backend/server.py:229 | stripping a text with no whitespace at either end returns it unchanged |
| `FenceCleaner.StripIdempotent` | backend/server.py:223 | stripping twice is the same as stripping once |
| `FenceCleaner.Split` | backend/server.py:227 | splitting on a newline gives at least one piece, no piece contains a newline, and joining the pieces with newlines gives the text back |
| `FenceCleaner.SplitJoin` | backend/server.py:227-228 | joining newline-free lines and splitting the result gives the same lines back |
| `FenceCleaner.RemoveAll` | backend/server.py:229 | removing a pattern never lengthens the text and never adds a character, and every character that is not in the pattern keeps its number of occurrences |
| `FenceCleaner.RemoveAbsent` | backend/server.py:229 | removing a pattern that does not occur leaves the text unchanged |
| `FenceCleaner.RemoveAllFences` | backend/server.py:229 | after every three-backtick fence is removed, no fence remains, for every input |
| `FenceCleaner.DropFenceLines` | backend/server.py:228 | the kept lines are the input lines from the second one on, so the first line is always dropped; of two or more lines, the last is dropped too exactly when, stripped, it is a bare fence; a single line leaves nothing |
| `FenceCleaner.CleanReply` | backend/server.py:223-229 | a reply that does not open with a fence after stripping comes back only stripped; a fenced reply comes back with no fence left in it; either way the result has no whitespace at either end |
| `FenceCleaner.FencedJsonIntact` | backend/server.py:223-229 | a reply made of an opening fence line tagged `json`, then a JSON text, then optionally a closing bare fence line, cleans to exactly that JSON text, provided the text holds no backtick and has no whitespace at either end |
| `FenceCleaner.CleanIdempotent` | backend/server.py:263-267 | cleaning an already cleaned reply changes nothing |
| `AiReply.GenerateMapData` | backend/server.py:223-239 | the map data is returned exactly when there is reply content and the decoder accepts its cleaned text; every failure is a 500; a decoding failure has the detail "Failed to parse AI response" |
| `AiReply.Subtopics` | backend/server.py:270 | an object's `subtopics` value is returned when the key is present and the empty list when it is absent; a decoded value that is not an object fails |
| `AiReply.ExpandSubtopics` | backend/server.py:263-274 | expansion succeeds exactly when the cleaned content decodes to an object, and then returns that object's subtopics; every failure is a 500 whose detail starts "Failed to expand node: " |
| `Collection.FindOne` | backend/server.py:466-469 | the answer is the first matching document, and there is no answer exactly when no document matches |
| `Collection.FindOneAppended` | backend/server.py:423 | a matching document appended to a collection where nothing matched is the one found |
| `Auth.AccessToken` | backend/server.py:122-131 | the token's claims are `sub` = the user id, `email` = the email, and `exp` exactly 168 hours (604800 s) after issue |
| `Auth.VerifyToken` | backend/server.py:134-148 | the intended handling: only a token that decodes yields claims; an expired token is a 401 "Token has expired"; an undecodable token is a 401 "Invalid token" |
| `Auth.VerifyTokenAsWritten` | backend/server.py:134-148 | the handling as written: an undecodable token is a 500 "Internal Server Error", and every other token is handled as `VerifyToken` handles it |
| `Auth.MalformedTokenIsServerError` | backend/server.py:144 | for the token "garbage" the intended answer is 401 "Invalid token", but the code as written gives a 500 |
| `Auth.AccessTokenLifetime` | backend/server.py:124-137 | an issued token verifies exactly while less than 168 hours have passed since issue |
| `Auth.FoundEmailIsUnique` | backend/server.py:289 | when emails are distinct, the email lookup finds the one user that has the email |
| `Auth.UserRegistry.Register` | backend/server.py:285-319 | an email already present gives 400 "Email already registered" and leaves the users unchanged; otherwise exactly one user is appended, stamped with its creation time, and the token is issued at the separate issue time with `sub` set to that user's id; emails stay distinct |
| `Auth.UserRegistry.Login` | backend/server.py:322-350 | login succeeds exactly when the first user with the email exists and the password check accepts; it then returns that user's token; every failure is the same 401 "Invalid email or password"; while emails are distinct, the outcome depends only on the password check against the one user with that email |
| `Auth.UserRegistry.CurrentUser` | backend/server.py:151-170 | built on the intended `VerifyToken`: an expired token is rejected as "Token has expired"; an undecodable token, or one with no subject or an empty subject, as "Invalid token"; a subject that names no user as "User not found"; otherwise the result is the profile of the first user whose id is the subject |
| `Auth.RegisterLoginAndRequest` | tests/backend_test.py:108-150 | in a fresh registry: register, then log in with the same password, then make a request with the login token before it expires; the request reaches the newly registered user's profile |
| `MapStore.OwnedBy` | backend/server.py:442-444 | the owner filter keeps only the owner's maps, taken from the collection |
| `MapStore.OwnedByKeepsOwned` | backend/server.py:442-444 | the owner filter drops none of the owner's maps |
| `MapStore.OtherOwnersUnaffected` | backend/server.py:498-500 | removing one owner's map leaves every other owner's maps exactly as they were |
| `MapStore.Insert` | backend/server.py:445 | inserting into a newest-first sequence keeps it newest first and adds exactly that map |
| `MapStore.SortNewestFirst` | backend/server.py:445 | the result is ordered by `created_at` descending and is a permutation of the input |
| `MapStore.NewestPrefix` | backend/server.py:445 | in a newest-first sequence, a map past the first `n` is no newer than any of the first `n` |
| `MapStore.NewestPrefixKeeps` | backend/server.py:445 | the first `n` of an owner's maps sorted newest first belong to the owner, stay newest first, and are the owner's newest maps |
| `MapStore.MapCollection.SaveMap` | backend/server.py:404-429 | exactly one map is appended, owned by the caller and stored under the fresh id; the reply is success with the message "Learning map saved successfully" and that id; if no map of the caller had that id, `get_map` then finds the new map |
| `MapStore.MapCollection.GetMaps` | backend/server.py:438-450 | only the caller's maps, newest first, min(100, their number) of them; any of the caller's maps left out is no newer than every map returned |
| `MapStore.MapCollection.GetMap` | backend/server.py:459-480 | a map is returned exactly when one with that id belongs to the caller; otherwise 404 "Learning map not found" |
| `MapStore.MapCollection.ExportMap` | backend/server.py:522-540 | export succeeds exactly when `get_map` would, and returns the same map without the envelope; otherwise 404 |
| `MapStore.MapCollection.DeleteMap` | backend/server.py:491-511 | with no matching map: 404, nothing changes; otherwise exactly the first map with that id and owner is removed, every other map stays in order, no other owner's maps change, and with unique ids the map is then not found |

## Left out

- The completion calls and their prompts, MongoDB I/O, FastAPI routing, CORS, logging and async/await are not modelled. The reply, the stored documents and the callers' arguments stand in for them.
- The route-level re-wrapping in `generate_map` and `expand_node` is not modelled. These routes catch every exception and raise a new 500 carrying its text.
- Failures of the database calls are not modelled. In the source they surface as 500 "Failed to ... map" errors.
- `/healthz` is not modelled because it only pings the database.
- JSON decoding is not modelled. The decoder is a parameter of type `string -> Result<Json, string>`, and its error text is passed through as is.
- Pydantic validation and `EmailStr` normalisation are not modelled. Emails are compared as given.
- Auth.UserRegistry.Login: bcrypt checking is a parameter `checkPassword`. The scenario method assumes only that it accepts the password the hash was made from.
- Auth.UserRegistry.Register: the bcrypt hash with its random salt is an argument. So are the uuid, the creation time and the token's issue time; the server reads the clock once for each.
- Auth.UserRegistry.Register: emails stay distinct only when requests are handled one at a time. Two concurrent registrations can both pass the `find_one` check at server.py:289 before either `insert_one` at server.py:307 runs. The model runs each request to completion.
- Auth.VerifyToken: models the evidently intended 401 "Invalid token" for a token that does not decode. The code as written answers 500; `Auth.VerifyTokenAsWritten` models that, and "## Findings" explains why.
- Auth.UserRegistry.CurrentUser: is built on the intended `Auth.VerifyToken`, so it answers 401 "Invalid token" for a token that does not decode, where the code as written answers 500 (see "## Findings").
- Auth.Decode: JWT encoding and signing are not modelled. A token is either `Signed(claims)` or `Unsigned`.
- Auth.Decode: the expiry rule is the JWT library's, not the server's: a token whose `exp` is not after the current time has expired. A decoded `sub` is a string or absent. Other falsy JSON values are not modelled.
- Auth.AccessToken: times are whole seconds. The library truncates the datetime expiry to whole seconds when it encodes it.
- MapStore.MapCollection.GetMaps: `created_at` is an integer timestamp. The source sorts its ISO-8601 text, which for these same-format UTC timestamps gives the same order.
- MapStore.MapCollection.GetMaps: maps created at the same instant keep their stored order. The database does not promise any order for ties.
- MapStore.MapCollection.SaveMap: `created_at` and `updated_at` are separate arguments, because the source reads the clock twice.
- The graph data model, the hierarchical layout and expansion merging are not part of this model. They live in the frontend, which is not among the modelled files.

## Findings

| source | as written | input that shows it | evidently intended | confidence | as-written member | corrected member |
|---|---|---|---|---|---|---|
| backend/server.py:144 | `verify_token` catches `jwt.JWTError`. The `jwt` module imported at server.py:13 is PyJWT, which defines no `JWTError`. When a token fails to decode, the first handler does not match, and evaluating the second handler's class raises `AttributeError`. No handler catches that, so the request fails with 500 "Internal Server Error". | bearer token `garbage`, or a token signed with another secret | 401 "Invalid token", as the handler's body says | high, not executed | `Auth.VerifyTokenAsWritten`, `Auth.MalformedTokenIsServerError` | `Auth.VerifyToken`, used by `Auth.UserRegistry.CurrentUser` |
