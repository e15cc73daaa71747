/**
 * What the handlers of index.ts promise, stated over the pure model in
 * module Users: the order of the checks, exactly what each successful
 * handler changes, and the invariant all of them keep.
 */
module UserProperties {
  import opened Uuid
  import opened Users

  lemma {:induction false} PrependFresh<T>(x: T, xs: seq<T>)
    requires x !in xs && NoDuplicates(xs)
    ensures NoDuplicates([x] + xs)
  {
    forall i, j | 0 <= i < j < |[x] + xs| ensures ([x] + xs)[i] != ([x] + xs)[j] {
      if i > 0 {
        assert ([x] + xs)[i] == xs[i - 1];
      }
      assert ([x] + xs)[j] == xs[j - 1];
    }
  }

  lemma TailDistinct<T>(xs: seq<T>)
    requires xs != [] && NoDuplicates(xs)
    ensures xs[0] !in xs[1..] && NoDuplicates(xs[1..])
  {
    assert forall j :: 0 <= j < |xs[1..]| ==> xs[1..][j] == xs[j + 1];
  }

  /** Deleting a key from the order leaves no key listed twice. */
  lemma {:induction false} WithoutDistinct(order: seq<string>, k: string)
    requires NoDuplicates(order)
    ensures NoDuplicates(Without(order, k))
  {
    if order != [] {
      TailDistinct(order);
      WithoutDistinct(order[1..], k);
      if order[0] != k {
        PrependFresh(order[0], Without(order[1..], k));
      }
    }
  }

  /** Deleting a listed key splices it out: the keys before and after it keep their places. */
  lemma {:induction false} WithoutIsSplice(order: seq<string>, k: string, i: nat)
    requires NoDuplicates(order) && i < |order| && order[i] == k
    ensures Without(order, k) == order[..i] + order[i + 1..]
  {
    TailDistinct(order);
    if i == 0 {
      WithoutAbsent(order[1..], k);
    } else {
      WithoutIsSplice(order[1..], k, i - 1);
      assert order[1..][..i - 1] + order[1..][i..] == order[1..i] + order[i + 1..];
      assert order[..i] == [order[0]] + order[1..i];
    }
  }

  /** Deleting a key that is not listed leaves the order as it was. */
  lemma {:induction false} WithoutAbsent(order: seq<string>, k: string)
    requires k !in order
    ensures Without(order, k) == order
  {
    if order != [] {
      WithoutAbsent(order[1..], k);
    }
  }

  /** A sequence without repetitions has as many distinct elements as positions. */
  lemma {:induction false} DistinctCount<T>(xs: seq<T>)
    requires NoDuplicates(xs)
    ensures |set x | x in xs| == |xs|
  {
    if xs != [] {
      TailDistinct(xs);
      DistinctCount(xs[1..]);
      assert (set x | x in xs) == {xs[0]} + (set x | x in xs[1..]);
    }
  }

  /**
   * GET /api/users answers 200 with every record of the store exactly once,
   * in key insertion order, and with nothing else.
   */
  lemma ListIsTheStore(s: Snapshot)
    requires Consistent(s)
    ensures ListUsers(s).status == 200 && ListUsers(s).payload.Records?
    ensures var users := ListUsers(s).payload.users;
      && |users| == |s.db|
      && NoDuplicates(users)
      && (forall u :: u in users <==> u in s.db.Values)
      && (forall i :: 0 <= i < |users| ==> users[i] == s.db[s.order[i]])
  {
    var users := ValuesOf(s.db, s.order);
    assert ListUsers(s) == Response(200, Records(users));
    assert |users| == |s.db| by {
      OrderCoversKeys(s);
    }
    assert NoDuplicates(users) by {
      ValuesDistinct(s);
    }
    assert forall u :: u in users <==> u in s.db.Values by {
      ValuesComplete(s);
    }
  }

  lemma ValuesDistinct(s: Snapshot)
    requires Consistent(s)
    ensures NoDuplicates(ValuesOf(s.db, s.order))
  {
    var users := ValuesOf(s.db, s.order);
    forall i, j | 0 <= i < j < |users| ensures users[i] != users[j] {
      assert users[i] == s.db[s.order[i]] && users[j] == s.db[s.order[j]];
      assert s.order[i] in s.db && s.order[j] in s.db;
      assert s.order[i] != s.order[j];
    }
  }

  lemma ValuesComplete(s: Snapshot)
    requires Consistent(s)
    ensures forall u :: u in ValuesOf(s.db, s.order) <==> u in s.db.Values
  {
    var users := ValuesOf(s.db, s.order);
    forall u | u in s.db.Values ensures u in users {
      var k :| k in s.db && s.db[k] == u;
      var i :| 0 <= i < |s.order| && s.order[i] == k;
      assert users[i] == u;
    }
  }

  /** The order lists as many keys as the map holds. */
  lemma OrderCoversKeys(s: Snapshot)
    requires Consistent(s)
    ensures |s.order| == |s.db|
  {
    DistinctCount(s.order);
    assert (set x | x in s.order) == s.db.Keys;
  }

  /**
   * Get checks the id's form first, whatever the store holds, then its
   * presence: 400 for a malformed id, 404 for an unknown one, else 200 with
   * the stored record.
   */
  lemma GetChecksInOrder(s: Snapshot, userId: string)
    ensures !IsValidUuid(userId) ==> GetUser(s, userId) == InvalidUserId
    ensures IsValidUuid(userId) && userId !in s.db ==> GetUser(s, userId) == UserNotFound
    ensures IsValidUuid(userId) && userId in s.db ==> GetUser(s, userId) == Response(200, Record(s.db[userId]))
  {
  }

  /** Update answers 400 for a malformed id and 404 for an unknown one, and then changes nothing. */
  lemma UpdateRejects(s: Snapshot, userId: string, body: UserBody)
    ensures !IsValidUuid(userId) ==> UpdateUser(s, userId, body) == Outcome(s, InvalidUserId)
    ensures IsValidUuid(userId) && userId !in s.db ==> UpdateUser(s, userId, body) == Outcome(s, UserNotFound)
  {
  }

  /** Delete answers 400 for a malformed id and 404 for an unknown one, and then changes nothing. */
  lemma DeleteRejects(s: Snapshot, userId: string)
    ensures !IsValidUuid(userId) ==> DeleteUser(s, userId) == Outcome(s, InvalidUserId)
    ensures IsValidUuid(userId) && userId !in s.db ==> DeleteUser(s, userId) == Outcome(s, UserNotFound)
  {
  }

  /** Create succeeds exactly when username and age are both truthy; otherwise it answers 400 and changes nothing. */
  lemma CreateRequiresFields(s: Snapshot, body: UserBody, newId: string)
    ensures CreateUser(s, body, newId).response.status == 201 <==> TruthyString(body.username) && TruthyNumber(body.age)
    ensures !(TruthyString(body.username) && TruthyNumber(body.age)) ==> CreateUser(s, body, newId) == Outcome(s, MissingFields)
  {
  }

  /**
   * A successful create with a fresh id adds exactly that key, holding a
   * record with that id, the given fields and hobbies defaulting to the
   * empty list; it is listed last; every other record is as it was; the
   * response is 201 with the new record.
   */
  lemma CreateInsertsOne(s: Snapshot, body: UserBody, newId: string)
    requires TruthyString(body.username) && TruthyNumber(body.age)
    requires newId !in s.db
    ensures var next := CreateUser(s, body, newId).next;
      && next.db.Keys == s.db.Keys + {newId}
      && |next.db| == |s.db| + 1
      && next.db[newId].id == newId
      && next.db[newId].username == body.username.value
      && next.db[newId].age == body.age.value
      && next.db[newId].hobbies == (if body.hobbies.Some? then body.hobbies.value else [])
      && (forall k :: k in s.db ==> next.db[k] == s.db[k])
      && next.order == s.order + [newId]
      && CreateUser(s, body, newId).response == Response(201, Record(next.db[newId]))
  {
    var next := CreateUser(s, body, newId).next;
    assert |next.db.Keys| == |s.db.Keys| + 1;
  }

  /** Round trip: getting the id a create just assigned answers 200 with exactly the record create returned. */
  lemma CreateThenGet(s: Snapshot, body: UserBody, newId: string)
    requires TruthyString(body.username) && TruthyNumber(body.age)
    requires IsValidUuid(newId)
    ensures var out := CreateUser(s, body, newId);
      GetUser(out.next, newId) == Response(200, out.response.payload)
  {
  }

  /**
   * A successful update keeps the id and the set of keys; username and age
   * take the body's value exactly when it is truthy, hobbies whenever it is
   * present (an empty array included); no other record changes; the
   * response is 200 with the updated record.
   */
  lemma UpdateMerges(s: Snapshot, userId: string, body: UserBody)
    requires IsValidUuid(userId) && userId in s.db
    ensures var out := UpdateUser(s, userId, body);
      var before, after := s.db[userId], out.next.db[userId];
      && out.next.db.Keys == s.db.Keys
      && out.next.order == s.order
      && after.id == before.id
      && (TruthyString(body.username) ==> after.username == body.username.value)
      && (!TruthyString(body.username) ==> after.username == before.username)
      && (TruthyNumber(body.age) ==> after.age == body.age.value)
      && (!TruthyNumber(body.age) ==> after.age == before.age)
      && (body.hobbies.Some? ==> after.hobbies == body.hobbies.value)
      && (body.hobbies.None? ==> after.hobbies == before.hobbies)
      && (forall k :: k in s.db && k != userId ==> out.next.db[k] == s.db[k])
      && out.response == Response(200, Record(after))
  {
  }

  /**
   * A successful delete removes exactly the given key, keeps every other
   * record and the relative order of the other keys, and answers 204 with an
   * empty body.
   */
  lemma DeleteRemovesOne(s: Snapshot, userId: string)
    requires IsValidUuid(userId) && userId in s.db
    ensures var out := DeleteUser(s, userId);
      && out.next.db.Keys == s.db.Keys - {userId}
      && |out.next.db| == |s.db| - 1
      && (forall k :: k in out.next.db ==> out.next.db[k] == s.db[k])
      && out.next.order == Without(s.order, userId)
      && out.response == Response(204, NoContent)
  {
    var out := DeleteUser(s, userId);
    assert |out.next.db.Keys| == |s.db.Keys| - 1;
  }

  /** Create keeps the store consistent, a reused id included. */
  lemma CreateKeepsConsistent(s: Snapshot, body: UserBody, newId: string)
    requires Consistent(s)
    ensures Consistent(CreateUser(s, body, newId).next)
  {
    if TruthyString(body.username) && TruthyNumber(body.age) {
      var next := CreateUser(s, body, newId).next;
      assert next.db == s.db[newId := next.db[newId]] && next.db[newId].id == newId;
      assert forall k :: k in next.db ==> next.db[k].id == k;
      if newId !in s.db {
        assert newId !in s.order;
        assert next.order == s.order + [newId];
        PrependLast(s.order, newId);
      } else {
        assert next.order == s.order;
      }
    }
  }

  lemma {:induction false} PrependLast<T>(xs: seq<T>, x: T)
    requires x !in xs && NoDuplicates(xs)
    ensures NoDuplicates(xs + [x])
  {
    forall i, j | 0 <= i < j < |xs + [x]| ensures (xs + [x])[i] != (xs + [x])[j] {
      assert (xs + [x])[i] == xs[i];
      if j < |xs| {
        assert (xs + [x])[j] == xs[j];
      }
    }
  }

  /** Update keeps the store consistent: the record under a key keeps that key as its id. */
  lemma UpdateKeepsConsistent(s: Snapshot, userId: string, body: UserBody)
    requires Consistent(s)
    ensures Consistent(UpdateUser(s, userId, body).next)
  {
  }

  /** Delete keeps the store consistent: the order loses the key the map loses. */
  lemma DeleteKeepsConsistent(s: Snapshot, userId: string)
    requires Consistent(s)
    ensures Consistent(DeleteUser(s, userId).next)
  {
    WithoutDistinct(s.order, userId);
  }

  /** Create keeps every key a well-formed identifier, given that the generator returns one. */
  lemma CreateKeepsKeysWellFormed(s: Snapshot, body: UserBody, newId: string)
    requires KeysWellFormed(s) && IsValidUuid(newId)
    ensures KeysWellFormed(CreateUser(s, body, newId).next)
  {
  }

  /** Update keeps every key a well-formed identifier: it adds no key. */
  lemma UpdateKeepsKeysWellFormed(s: Snapshot, userId: string, body: UserBody)
    requires KeysWellFormed(s)
    ensures KeysWellFormed(UpdateUser(s, userId, body).next)
  {
  }

  /** Delete keeps every key a well-formed identifier: it adds no key. */
  lemma DeleteKeepsKeysWellFormed(s: Snapshot, userId: string)
    requires KeysWellFormed(s)
    ensures KeysWellFormed(DeleteUser(s, userId).next)
  {
  }

  /** After a delete of a well-formed id, getting it answers 404 and no listed record carries it. */
  lemma DeleteThenGet(s: Snapshot, userId: string)
    requires Consistent(s) && IsValidUuid(userId)
    ensures var next := DeleteUser(s, userId).next;
      && GetUser(next, userId) == UserNotFound
      && Consistent(next)
      && forall u :: u in ListUsers(next).payload.users ==> u.id != userId
  {
    var next := DeleteUser(s, userId).next;
    DeleteKeepsConsistent(s, userId);
    ListIsTheStore(next);
  }
}
