/**
 * The module-level store `db` of index.ts and its five route handlers, as a
 * class whose methods update the store in place. Each method checks the
 * request in the order the source does and is proved to agree with the
 * pure handler of the same name in module Users; the properties of those are
 * in module UserProperties.
 */
module Server {
  import opened Uuid
  import opened Users
  import opened UserProperties

  class UserStore {
    var db: map<string, User>
    /** The keys of db in insertion order, the order Object.values enumerates. */
    var order: seq<string>

    function Contents(): Snapshot
      reads this
    {
      Snapshot(db, order)
    }

    ghost predicate Valid()
      reads this
    {
      Consistent(Contents()) && KeysWellFormed(Contents())
    }

    constructor ()
      ensures Valid() && Contents() == EmptyStore
    {
      db := map[];
      order := [];
    }

    /** GET /api/users */
    method List() returns (r: Response)
      requires Valid()
      ensures r == ListUsers(Contents())
      ensures r.status == 200 && r.payload.Records? && |r.payload.users| == |db|
      ensures forall u :: u in r.payload.users <==> u in db.Values
    {
      ListIsTheStore(Contents());
      r := Response(200, Records(ValuesOf(db, order)));
    }

    /** GET /api/users/{userId} */
    method Get(userId: string) returns (r: Response)
      ensures r == GetUser(Contents(), userId)
    {
      if !IsValidUuid(userId) {
        return InvalidUserId;
      }
      if userId !in db {
        return UserNotFound;
      }
      r := Response(200, Record(db[userId]));
    }

    /**
     * POST /api/users. `newId` stands for the value of the random generator,
     * which returns a well-formed identifier not yet in use.
     */
    method Create(body: UserBody, newId: string) returns (r: Response)
      requires Valid()
      requires IsValidUuid(newId) && newId !in db
      modifies this
      ensures Valid()
      ensures Outcome(Contents(), r) == CreateUser(old(Contents()), body, newId)
    {
      ghost var outcome := CreateUser(Contents(), body, newId);
      CreateKeepsConsistent(Contents(), body, newId);
      CreateKeepsKeysWellFormed(Contents(), body, newId);
      var hobbies := if body.hobbies.Some? then body.hobbies.value else [];
      if !TruthyString(body.username) || !TruthyNumber(body.age) {
        assert outcome == Outcome(Contents(), MissingFields);
        return MissingFields;
      }
      var user := User(newId, body.username.value, body.age.value, hobbies);
      assert outcome == Outcome(Snapshot(db[newId := user], order + [newId]), Response(201, Record(user)));
      db := db[newId := user];
      order := order + [newId];
      r := Response(201, Record(user));
    }

    /** PUT /api/users/{userId}: the stored record is updated field by field. */
    method Update(userId: string, body: UserBody) returns (r: Response)
      requires Valid()
      modifies this
      ensures Valid()
      ensures Outcome(Contents(), r) == UpdateUser(old(Contents()), userId, body)
    {
      UpdateKeepsConsistent(Contents(), userId, body);
      UpdateKeepsKeysWellFormed(Contents(), userId, body);
      if !IsValidUuid(userId) {
        return InvalidUserId;
      }
      if userId !in db {
        return UserNotFound;
      }
      var user := db[userId];
      user := user.(username := StringOr(body.username, user.username));
      user := user.(age := NumberOr(body.age, user.age));
      user := user.(hobbies := ArrayOr(body.hobbies, user.hobbies));
      db := db[userId := user];
      r := Response(200, Record(user));
    }

    /** DELETE /api/users/{userId} */
    method Delete(userId: string) returns (r: Response)
      requires Valid()
      modifies this
      ensures Valid()
      ensures Outcome(Contents(), r) == DeleteUser(old(Contents()), userId)
    {
      DeleteKeepsConsistent(Contents(), userId);
      DeleteKeepsKeysWellFormed(Contents(), userId);
      if !IsValidUuid(userId) {
        return InvalidUserId;
      }
      if userId !in db {
        return UserNotFound;
      }
      db := db - {userId};
      order := Without(order, userId);
      r := Response(204, NoContent);
    }
  }
}
