/**
 * The user records, the request bodies and responses of the five route
 * handlers in index.ts, and each handler as a pure function from the store
 * and the request to the new store and the response.
 *
 * The store is the module-level object `db`. A JavaScript object enumerates
 * keys that look like array indices first, in ascending numeric order, and
 * its other string keys in insertion order. Every key of the store is a
 * well-formed UUID, which contains hyphens and so is never an array index;
 * a store is therefore modelled as the map from id to record together with
 * the insertion order of its keys.
 */
module Users {
  import opened Wrappers
  import opened Uuid

  datatype User = User(id: string, username: string, age: int, hobbies: seq<string>)

  /** A parsed JSON body; each field is either absent or present. */
  datatype UserBody = UserBody(username: Option<string>, age: Option<int>, hobbies: Option<seq<string>>)

  /** What a handler sends back: a `{ message }` object, one record, an array of records, or nothing. */
  datatype Payload = Message(text: string) | Record(user: User) | Records(users: seq<User>) | NoContent

  datatype Response = Response(status: int, payload: Payload)

  const InvalidUserId := Response(400, Message("Invalid userId"))
  const UserNotFound := Response(404, Message("User not found"))
  const MissingFields := Response(400, Message("Missing required fields"))

  /** The contents of `db`: records by key, and the keys in insertion order. */
  datatype Snapshot = Snapshot(db: map<string, User>, order: seq<string>)

  datatype Outcome = Outcome(next: Snapshot, response: Response)

  const EmptyStore := Snapshot(map[], [])

  // JavaScript truthiness of the fields of a body. The empty string and 0 are
  // falsy, and so is an absent field; an array is truthy even when it is empty.

  predicate TruthyString(v: Option<string>) {
    v.Some? && v.value != ""
  }

  predicate TruthyNumber(v: Option<int>) {
    v.Some? && v.value != 0
  }

  predicate TruthyArray(v: Option<seq<string>>) {
    v.Some?
  }

  // `v || fallback` for each field type.

  function StringOr(v: Option<string>, fallback: string): string {
    if TruthyString(v) then v.value else fallback
  }

  function NumberOr(v: Option<int>, fallback: int): int {
    if TruthyNumber(v) then v.value else fallback
  }

  function ArrayOr(v: Option<seq<string>>, fallback: seq<string>): seq<string> {
    if TruthyArray(v) then v.value else fallback
  }

  predicate NoDuplicates<T(==)>(xs: seq<T>) {
    forall i, j :: 0 <= i < j < |xs| ==> xs[i] != xs[j]
  }

  /**
   * The invariant every handler keeps: each key is the id of its record, and
   * the insertion order lists every key exactly once.
   */
  predicate Consistent(s: Snapshot) {
    && (forall k :: k in s.db ==> s.db[k].id == k)
    && (forall k :: k in s.order ==> k in s.db)
    && (forall k :: k in s.db ==> k in s.order)
    && NoDuplicates(s.order)
  }

  /** Every key of the store is a well-formed identifier, as every key the generator supplies is. */
  predicate KeysWellFormed(s: Snapshot) {
    forall k :: k in s.db ==> IsValidUuid(k)
  }

  /** Object.values: the records of the keys in the given order. */
  function ValuesOf(db: map<string, User>, order: seq<string>): (vs: seq<User>)
    requires forall k :: k in order ==> k in db
    ensures |vs| == |order|
    ensures forall i :: 0 <= i < |order| ==> vs[i] == db[order[i]]
  {
    if order == [] then [] else [db[order[0]]] + ValuesOf(db, order[1..])
  }

  /** The key order after `delete db[k]`: k is dropped, the other keys keep their relative order. */
  function Without(order: seq<string>, k: string): (r: seq<string>)
    ensures forall x :: x in r <==> x in order && x != k
  {
    if order == [] then []
    else if order[0] == k then Without(order[1..], k)
    else [order[0]] + Without(order[1..], k)
  }

  /** The record after lines 67-69: each field takes the body's value when that value is truthy. */
  function Merge(user: User, body: UserBody): User {
    user.(username := StringOr(body.username, user.username),
          age := NumberOr(body.age, user.age),
          hobbies := ArrayOr(body.hobbies, user.hobbies))
  }

  // The handlers. Get, update and delete reject a malformed id before they
  // look the id up.

  /** GET /api/users */
  function ListUsers(s: Snapshot): Response
    requires Consistent(s)
  {
    Response(200, Records(ValuesOf(s.db, s.order)))
  }

  /** GET /api/users/{userId} */
  function GetUser(s: Snapshot, userId: string): Response {
    if !IsValidUuid(userId) then InvalidUserId
    else if userId !in s.db then UserNotFound
    else Response(200, Record(s.db[userId]))
  }

  /**
   * POST /api/users, with `newId` the identifier the generator returned.
   * Assigning to a key already present would replace its record and keep its
   * place in the key order.
   */
  function CreateUser(s: Snapshot, body: UserBody, newId: string): Outcome {
    if !TruthyString(body.username) || !TruthyNumber(body.age) then Outcome(s, MissingFields)
    else
      var hobbies := if body.hobbies.Some? then body.hobbies.value else [];
      var user := User(newId, body.username.value, body.age.value, hobbies);
      var order := if newId in s.db then s.order else s.order + [newId];
      Outcome(Snapshot(s.db[newId := user], order), Response(201, Record(user)))
  }

  /** PUT /api/users/{userId} */
  function UpdateUser(s: Snapshot, userId: string, body: UserBody): Outcome {
    if !IsValidUuid(userId) then Outcome(s, InvalidUserId)
    else if userId !in s.db then Outcome(s, UserNotFound)
    else
      var user := Merge(s.db[userId], body);
      Outcome(Snapshot(s.db[userId := user], s.order), Response(200, Record(user)))
  }

  /** DELETE /api/users/{userId} */
  function DeleteUser(s: Snapshot, userId: string): Outcome {
    if !IsValidUuid(userId) then Outcome(s, InvalidUserId)
    else if userId !in s.db then Outcome(s, UserNotFound)
    else Outcome(Snapshot(s.db - {userId}, Without(s.order, userId)), Response(204, NoContent))
  }
}
