# Chat application controllers — a Dafny model

This project models the request handlers of a direct-messaging backend. It covers the
message controller (sidebar user list, conversation history, sending a message with
image upload and audio pass-through, deleting one's own message). It also covers the
account controller (signup, login, logout, profile-picture update, the authentication
probe and the all-users list).

Each handler is a pure function `(Db, request) -> Outcome(Response, Db')`, with two
exceptions: `AuthController.Logout` takes only the store (it reads nothing from the
request), and `AuthController.CheckAuth` maps the optional authenticated user to a bare
`Response` (it never touches the store). In the outcome:

- `Db` holds the user and message collections in insertion order, plus a counter that
  hands out fresh ids.
- `Response` carries the HTTP status, the JSON payload and what the handler does to the
  session cookie.

External collaborators are parameters:

- bcrypt is a `Hasher` key-derivation function. A `Digest` records cost, salt and
  checksum, and `Compare` re-derives the checksum.
- The salt from salt generation is a `salt` argument.
- Cloudinary is an `Env` of three environment variables plus an `Uploader` that either
  returns a hosted URL or fails.
- Token minting is the `IssueToken(userId)` session effect. Clearing the cookie is
  `ClearToken`.

Request-body fields are `Field = Option<string>`. The handlers' `if (x)` test is
`Truthy`: present and not the empty string.

Modules, in dependency order:

- `Common`: `Option`, ids, fields, truthiness.
- `Seqs`: generic filter/map/search and key uniqueness.
- `Crypto`, `Cloud`: the collaborators.
- `Models`: users, password-free user views, messages.
- `Http`: responses.
- `Store`: the collections, their queries and the `Valid` invariant.
- `MessageController`, `AuthController`: the handlers.

`Store.Valid` is the invariant of reachable stores:

- user ids, user emails and message ids are unique;
- every id is below the counter.

Every handler that writes is proved to preserve it.

Four behaviours of the handlers are worth stating up front:

- history is returned in store order; no sort is applied;
- a message with no text, image or audio is accepted;
- a send answers 200;
- the handlers contain no presence registry or live push.

## Model

| member | source | states |
|---|---|---|
| Crypto.Hash | backend/controllers/auth-controller.js:18-19 | the digest stored at signup records the cost of 10 and the salt, and the password it was made from compares equal to it |
| Cloud.UploadOrRaw | backend/controllers/auth-controller.js:91-103 | the stored picture is the hosted URL when all three upload variables are set and the upload succeeds, and the raw value when they are unset or the upload throws |
| Store.History | backend/controllers/message.controller.js:31-36 | a message is in the history of {a, b} exactly when it is stored and was sent from a to b or from b to a |
| Store.HistorySymmetric | backend/controllers/message.controller.js:31-36 | the history query for (a, b) and for (b, a) returns the same messages in the same order |
| Store.HistoryAppend | backend/controllers/message.controller.js:31-36 | storing one more message extends a conversation by exactly that message when it belongs to the pair, and leaves the conversation unchanged otherwise |
| Store.OtherUsers | backend/controllers/message.controller.js:12 | every stored user other than the requester appears, with no password; nothing else appears, and the requester never does |
| Store.OtherUsersAppend | backend/controllers/message.controller.js:12 | the listing of an empty store is empty, and one more stored user adds exactly its password-free view, once and at the end, when it is not the requester; so each user appears once, in store order |
| Store.FindUserByEmail | backend/controllers/auth-controller.js:14 | the lookup by email finds a stored user with that email, and finds nothing exactly when no stored user has it |
| Store.FindUserIndex | backend/controllers/auth-controller.js:105-109 | the lookup by id finds the first user with that id, and finds nothing exactly when no user has it |
| Store.FindMessage | backend/controllers/message.controller.js:101 | the lookup by id finds a stored message with that id, and finds nothing exactly when none has it |
| Store.RemoveMessage | backend/controllers/message.controller.js:108 | after removal, exactly the stored messages with a different id remain |
| Store.HistoryAfterRemove | backend/controllers/message.controller.js:108 | removing a message id and then reading a conversation equals reading the conversation and then removing that id |
| Store.RemoveMessageExactlyOne | backend/controllers/message.controller.js:108 | with unique ids, deleting the message at position k leaves every other message in its place |
| MessageController.GetUsersForSidebar | backend/controllers/message.controller.js:6-17 | answers 200 with every other user, passwords stripped, and no one else; the list is the store-order listing whose multiplicity `Store.OtherUsersAppend` fixes; the store is unchanged |
| MessageController.GetMessage | backend/controllers/message.controller.js:26-39 | answers 200 with exactly the stored messages between the two users in either direction; the store is unchanged |
| MessageController.GetMessageSymmetric | backend/controllers/message.controller.js:31-39 | fetching the conversation as either participant gives the identical outcome |
| MessageController.ResolveImage | backend/controllers/message.controller.js:56-72 | no image gives null; a configured, successful upload gives the hosted URL; a failed or unconfigured upload gives the raw image data |
| MessageController.ResolveAudio | backend/controllers/message.controller.js:74-78 | audio is stored verbatim when present and non-empty, and null otherwise |
| MessageController.SendMessage | backend/controllers/message.controller.js:50-89 | appends exactly one message with a fresh id, the requester as sender, the path id as receiver, the text as given and the resolved image and audio; users and earlier messages are unchanged; answers 200 with the new message |
| MessageController.SendThenGetMessage | backend/controllers/message.controller.js:80-89 | after a send, the history seen by either participant is the previous history followed by the new message |
| MessageController.SendLeavesOtherConversations | backend/controllers/message.controller.js:80-89 | a send leaves the history of every other pair of users unchanged |
| MessageController.SendAcceptsEmptyMessage | backend/controllers/message.controller.js:52-89 | a message without text, image or audio is still accepted with 200 and stored with all three fields empty |
| MessageController.SendPreservesValid | backend/controllers/message.controller.js:80-88 | sending keeps message ids unique and below the counter |
| MessageController.DeleteMessage | backend/controllers/message.controller.js:97-109 | 404 exactly when no message has the id and 403 exactly when its sender is someone else, both leaving the store unchanged; otherwise 200, the requester is the sender, and exactly the messages with that id are gone |
| MessageController.DeleteRemovesExactlyOne | backend/controllers/message.controller.js:105-109 | in a valid store, deleting one's own message removes that single position and keeps everything else |
| MessageController.DeleteThenGetMessage | backend/controllers/message.controller.js:97-109 | after a successful delete every conversation loses exactly the deleted message; after a 404 or 403 every conversation is unchanged |
| MessageController.DeletePreservesValid | backend/controllers/message.controller.js:101-109 | deleting keeps the store invariant |
| AuthController.Signup | backend/controllers/auth-controller.js:6-35 | checks in order: a missing field gives 400 "All fields are required", a password under 6 characters gives 400, a taken email gives 400, each with the store unchanged; 201 exactly when all pass, adding one user with the given email and name and the hashed password, answering with its password-free view and minting a token |
| AuthController.SignupPreservesValid | backend/controllers/auth-controller.js:14-25 | signing up keeps user ids and emails unique and ids below the counter |
| AuthController.Login | backend/controllers/auth-controller.js:41-65 | never changes the store; missing fields give 400; an unknown email and a wrong password give the identical 400 "Invalid credentials"; 200 exactly when the found user's digest matches, answering with that user's view and minting a token |
| AuthController.LoginRegistered | backend/controllers/auth-controller.js:47-65 | in a valid store, any registered email with a matching password logs in that very user |
| AuthController.SignupThenLogin | backend/controllers/auth-controller.js:14-55 | after a successful signup, logging in with the same email and password succeeds as the new user |
| AuthController.Logout | backend/controllers/auth-controller.js:73-76 | answers 200 and clears the session cookie, with the store unchanged |
| AuthController.UpdateProfile | backend/controllers/auth-controller.js:83-111 | without a picture: 400 and nothing changes; otherwise 200, and only the requester's picture changes, to the uploaded URL or to the raw value when the upload is unconfigured or fails; a requester missing from the store gets null |
| AuthController.UpdateProfilePreservesValid | backend/controllers/auth-controller.js:105-109 | updating a picture keeps user ids and emails unique |
| AuthController.CheckAuth | backend/controllers/auth-controller.js:121-126 | 401 exactly when no user is authenticated, otherwise 200 with that user |
| AuthController.GetAllUsers | backend/controllers/auth-controller.js:133-137 | answers 200 with every user but the requester, passwords stripped; the list is the store-order listing whose multiplicity `Store.OtherUsersAppend` fixes; the store is unchanged |
| AuthController.GetAllUsersMatchesSidebar | backend/controllers/auth-controller.js:136 | the account listing and the sidebar listing give the same outcome |

## Left out

- Every `catch` path that answers 500 (database failures, thrown library errors) is not modelled; the handlers are total and their store operations never fail.
- Authentication middleware and the `req.user` it attaches are not part of this model: message and profile handlers take the requester's id `me` as given; `CheckAuth` takes the optional authenticated user.
- Document ids are naturals drawn from a counter in the store rather than generated object ids; malformed path ids (which make the database driver throw) do not arise.
- Request fields are strings or absent; numbers, booleans or objects in a JSON body, and the `.length` of a non-string password, are not modelled. String length counts Dafny characters, not UTF-16 code units.
- The user and message schemas are not part of this model: the default profile picture is taken to be the empty string, and message timestamps are omitted, so no operation depends on them.
- bcrypt, token minting, cookie options and Cloudinary are abstract (see above); cookie clearing on logout is the `ClearToken` effect only.
- Console logging, Express wiring, CORS, body-size limits and static serving (backend/index.js) are I/O and configuration.
- The real-time presence registry and live socket delivery are not in the handler files and are not modelled.
- Store.History: only membership is stated; that the result keeps store order is what `Seqs.Filter` computes but is not stated as a separate property.
