# Users CRUD service: a Dafny model

This project models the core of a small HTTP service that keeps "users" in an
in-memory store and serves five routes under `/api/users`: list, get, create,
update and delete. The whole service lives in `index.ts`. Two parts of it have
behaviour that can be stated exactly, and both are modelled:

- **Identifier check** (`isValidUUID`, module `Uuid`, file `uuid.dfy`). It
  accepts exactly the 8-4-4-4-12 hexadecimal form of a UUID, the textual form of
  section 4 of RFC 9562. Upper- and lower-case hex digits are both accepted.
  The version and variant digits are not checked. `IsValidUuid` states the
  check position by position: 36 characters, hyphens at 8, 13, 18 and 23, and
  hex digits everywhere else. The source tests an anchored regular expression.
  The model also writes that expression as a sequence of one-character atoms,
  matched by a recursive walk. `ValidUuidIff` proves that the pattern matches
  exactly the strings `IsValidUuid` accepts.
- **The store and its handlers.**
  - Module `Users` (`users.dfy`) holds the records, the request bodies, the
    responses, JavaScript truthiness, and each handler as a pure function from
    (store, request) to (new store, response).
  - Module `UserProperties` (`users_props.dfy`) proves what the handlers
    promise.
  - Module `Server` (`server.dfy`) holds the class `UserStore` with the fields
    `db` and `order`. `Create`, `Update` and `Delete` update them in place;
    `List` and `Get` only read them. Each method is proved to agree with its
    pure counterpart.

The store is the object `db`. A JavaScript object lists keys that look like
array indices (`"0"`, `"42"`) first, in ascending numeric order, and its other
string keys in insertion order. Every key of the store is a well-formed UUID,
which contains hyphens and so is never an array index. So the model keeps the
map from id to record and also the insertion order of its keys (`order`).
That order decides the order of the list response.

Two invariants hold of every store, and every handler preserves both:

- `Consistent`: every key is the `id` of its record, and `order` lists every
  key exactly once.
- `KeysWellFormed`: every key is a well-formed identifier. Create needs the
  generator to supply one.

Truthiness follows the JavaScript operators in the source:

- An absent field, the empty string and `0` are falsy.
- An array is truthy even when it is empty.

So `hobbies || user.hobbies` at index.ts:69 replaces the stored hobbies even
when the body supplies `hobbies: []`. Only an absent `hobbies` keeps them
(`UpdateMerges`).

The random identifier generator is a parameter. `Create` takes `newId`, and
`UserStore.Create` requires it to be well formed and not yet a key. That is
what a version-4 generator supplies. The pure `CreateUser` also handles a
reused id the way the source's assignment would: it replaces the record and
keeps the key's place in the order.

## Model

| member | source | states |
|---|---|---|
| `Uuid.IsValidUuid` | index.ts:110-115 | `isValidUUID` position by position: 36 characters, hyphens at 8, 13, 18 and 23, a hex digit of either case elsewhere; `ValidUuidIff` proves it equals the anchored pattern |
| `Uuid.UuidPattern` | index.ts:111-112 | the regex as 36 one-character atoms: hex groups of 8, 4, 4, 4 and 12 separated by hyphens; `PatternShape` states its layout |
| `Uuid.Matches` | index.ts:111-113 | an anchored match of a pattern of one-character atoms against the whole string; `MatchesPointwise` states it position by position |
| `Uuid.MatchesPointwise` | index.ts:111-113 | an anchored match of the pattern holds iff the string has the pattern's length and each character is admitted by the atom at its position |
| `Uuid.PatternShape` | index.ts:111-112 | the pattern has 36 positions: hyphens at 8, 13, 18 and 23, a hex-digit class everywhere else |
| `Uuid.ValidUuidIff` | index.ts:110-115 | the anchored 8-4-4-4-12 pattern matches `s` iff `IsValidUuid(s)`: `|s| == 36`, `s[8]`, `s[13]`, `s[18]` and `s[23]` are hyphens, and every other character is in `0-9a-fA-F`; no version digit is checked |
| `Uuid.GroupsAccepted` | index.ts:111-113 | the pattern matches any five all-hex groups of lengths 8, 4, 4, 4 and 12 joined by hyphens |
| `Uuid.VersionOneMatches` | index.ts:111-113 | the pattern matches a concrete version-1 identifier |
| `Uuid.AcceptsVersionOne` | index.ts:110-115 | a version-1 identifier is accepted: the check is syntactic only |
| `Uuid.RejectsShortString` | index.ts:110-115 | the pattern does not match `"not-a-uuid"` |
| `Users.TruthyString` | index.ts:39 | a string field is truthy iff present and non-empty |
| `Users.TruthyNumber` | index.ts:39 | an age field is truthy iff present and non-zero |
| `Users.TruthyArray` | index.ts:69 | a hobbies field is truthy iff present; an array is truthy even when empty |
| `Users.StringOr` | index.ts:67 | `username || user.username`: the body's value when truthy, else the stored one; see `UpdateMerges` |
| `Users.NumberOr` | index.ts:68 | `age || user.age`: the body's value when truthy, else the stored one; see `UpdateMerges` |
| `Users.ArrayOr` | index.ts:69 | `hobbies || user.hobbies`: the body's array whenever present, else the stored one; see `UpdateMerges` |
| `Users.Merge` | index.ts:67-69 | the record after the three `||` assignments, with its id unchanged; see `UpdateMerges` |
| `Users.ListUsers` | index.ts:13-16 | 200 with the records of the keys in insertion order; see `ListIsTheStore` |
| `Users.GetUser` | index.ts:19-33 | 400 for a malformed id, else 404 for an absent key, else 200 with the record; see `GetChecksInOrder` |
| `Users.CreateUser` | index.ts:36-49 | 400 unless username and age are truthy, else the new record under the new id, hobbies defaulting to `[]`, and 201 with that record; see `CreateRequiresFields`, `CreateInsertsOne` |
| `Users.UpdateUser` | index.ts:52-72 | 400 for a malformed id, else 404 for an absent key, else the merged record stored under the same key and 200 with it; see `UpdateRejects`, `UpdateMerges` |
| `Users.DeleteUser` | index.ts:75-91 | 400 for a malformed id, else 404 for an absent key, else the key removed from the map and the order and 204 with no body; see `DeleteRejects`, `DeleteRemovesOne` |
| `Users.ValuesOf` | index.ts:14 | `Object.values(db)`: one record per key, in key order, the i-th being the record of the i-th key |
| `Users.Without` | index.ts:88 | the key order after `delete db[k]` holds exactly the other keys |
| `UserProperties.WithoutDistinct` | index.ts:88 | deleting a key from a duplicate-free key order leaves it duplicate-free |
| `UserProperties.OrderCoversKeys` | index.ts:14 | in a consistent store, the key order is as long as the store has keys |
| `UserProperties.ListIsTheStore` | index.ts:13-16 | list answers 200 with an array that holds each stored record exactly once and nothing else, in key insertion order, with as many entries as the store has keys |
| `UserProperties.ValuesDistinct` | index.ts:14 | in a consistent store, the listed records are pairwise distinct |
| `UserProperties.ValuesComplete` | index.ts:14 | in a consistent store, a record is listed iff it is stored |
| `UserProperties.GetChecksInOrder` | index.ts:19-33 | get answers 400 "Invalid userId" for a malformed id whatever the store holds, else 404 "User not found" for an absent key, else 200 with the stored record |
| `UserProperties.UpdateRejects` | index.ts:52-65 | update answers 400 for a malformed id and 404 for an absent key, and leaves the store unchanged in both cases |
| `UserProperties.DeleteRejects` | index.ts:75-86 | delete answers 400 for a malformed id and 404 for an absent key, and leaves the store unchanged in both cases |
| `UserProperties.CreateRequiresFields` | index.ts:37-42 | create answers 201 iff username and age are both truthy; otherwise it answers 400 "Missing required fields" and leaves the store unchanged |
| `UserProperties.CreateInsertsOne` | index.ts:37-48 | a successful create with a fresh id adds exactly that key, listed last; its record has that id, the given username and age, and the given hobbies or `[]` when absent; all other records are unchanged; the response is 201 with the new record |
| `UserProperties.CreateThenGet` | index.ts:44-48 | getting the id that create just assigned answers 200 with exactly the record create returned |
| `UserProperties.UpdateMerges` | index.ts:67-71 | a successful update keeps the id, the keys and their order; username and age are replaced iff the supplied value is truthy; hobbies are replaced iff supplied, even as `[]`; other records are untouched; the response is 200 with the updated record |
| `UserProperties.WithoutIsSplice` | index.ts:88 | deleting a listed key from a duplicate-free key order removes just that position: the keys before and after it keep their order |
| `UserProperties.WithoutAbsent` | index.ts:88 | deleting a key that is not listed leaves the key order as it was |
| `UserProperties.DeleteRemovesOne` | index.ts:88-90 | a successful delete removes exactly that key, keeps every other record and the relative order of the other keys (by `WithoutIsSplice`), and answers 204 with no body |
| `UserProperties.DeleteThenGet` | index.ts:82-90 | after a delete of a well-formed id, get on it answers 404 and no listed record carries that id |
| `UserProperties.CreateKeepsConsistent` | index.ts:44-46 | create keeps the store consistent, a reused id included |
| `UserProperties.UpdateKeepsConsistent` | index.ts:67-69 | update keeps the store consistent: the record under a key keeps that key as its id |
| `UserProperties.DeleteKeepsConsistent` | index.ts:88 | delete keeps the store consistent |
| `UserProperties.CreateKeepsKeysWellFormed` | index.ts:44-46 | create keeps every key a well-formed identifier when the generator supplies one |
| `UserProperties.UpdateKeepsKeysWellFormed` | index.ts:67-69 | update keeps every key a well-formed identifier |
| `UserProperties.DeleteKeepsKeysWellFormed` | index.ts:88 | delete keeps every key a well-formed identifier |
| `Server.UserStore.constructor` | index.ts:5 | the store starts empty, consistent and with well-formed keys |
| `Server.UserStore.List` | index.ts:13-16 | returns the list response for the current store: 200, one record per key, exactly the stored records; changes nothing |
| `Server.UserStore.Get` | index.ts:19-33 | returns the get response for the current store and id; changes nothing |
| `Server.UserStore.Create` | index.ts:36-49 | the new store and response are those of `CreateUser` on the old store; both invariants are kept |
| `Server.UserStore.Update` | index.ts:52-72 | updates the stored record field by field; the new store and response are those of `UpdateUser` on the old store; both invariants are kept |
| `Server.UserStore.Delete` | index.ts:75-91 | the new store and response are those of `DeleteUser` on the old store; both invariants are kept |

## Left out

- Express wiring is not modelled: the app setup, route matching,
  path-parameter extraction, JSON body parsing, and reading the port and
  listening (index.ts:1-2, 7-10, 104-107). Each handler takes the id and the
  parsed body as arguments.
- The random generator (index.ts:44) is not modelled. Its result is the
  `newId` parameter. `UserStore.Create` requires it to be well formed and
  unused, because the source does no collision check.
- The 404 fallback for unmatched routes (index.ts:94-96) is not modelled.
- As written, the function at index.ts:99-102 is never called. It has three
  parameters, not the four Express requires of an error handler, and it sits
  behind the catch-all at index.ts:94-96. Errors therefore reach Express's
  default handler. This is not modelled.
- The regular-expression engine is not modelled. The pattern is given as its
  meaning, a sequence of one-character atoms matched end to end.
- Request fields are limited to absent or present values of type string,
  integer and string array. There is no JSON `null`, no other JSON types, and
  no non-integer or NaN `age`. So one case is lost: a create with
  `hobbies: null` would store `null`, because the source defaults only an
  absent field.
- Update changes the stored record object in place (index.ts:67-69). The model
  replaces the map entry with the updated value instead. No other code holds a
  reference to a record, so the difference cannot be seen.
- Concurrency is not modelled. Handlers run one at a time and each is atomic.
