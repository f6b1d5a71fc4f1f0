/**
 * The `Mutation` resolvers. Each reads the user store, finds its target with
 * the first-match `find`/`findIndex`, and on success writes the whole store
 * back; a failed lookup returns `null` (or `false`) and writes nothing.
 */
module Mutations {
  import opened Outcomes
  import opened Text
  import opened Seqs
  import opened Records

  /** The `UserInput` argument; an optional field may be absent, `null`, or set. */
  datatype UserInput = UserInput(
    name: string,
    age: Field<int>,
    email: string,
    nationality: Field<Nationality>,
    isActive: Field<bool>)

  /**
   * The engine's coercion of a `UserInput` literal: an omitted `nationality`
   * takes the schema default `Indian`; an explicit `null` stays `null`.
   */
  function WithSchemaDefaults(input: UserInput): (r: UserInput)
    ensures r.nationality != Missing
    ensures input.nationality.Missing? ==> r.nationality == Has(Indian)
    ensures input.nationality != Missing ==> r == input
    ensures r.(nationality := input.nationality) == input
  {
    if input.nationality.Missing? then input.(nationality := Has(Indian)) else input
  }

  /** `addUser`: append a record with the next length as id, the input's fields, and empty friend and favourite lists. */
  function AddUser(store: seq<User>, input: UserInput): (r: Step<User>)
    ensures r.persisted
    ensures |r.store| == |store| + 1 && r.store[..|store|] == store && r.store[|store|] == r.result
    ensures r.result.id == DecimalString(|store| + 1)
    ensures IsDigits(r.result.id) && DecimalValue(r.result.id) == |store| + 1
    ensures r.result.friends == [] && r.result.favoriteMovies == []
    ensures r.result.name == input.name && r.result.email == input.email && r.result.age == input.age
    ensures r.result.nationality == input.nationality && r.result.isActive == input.isActive
  {
    DecimalRoundTrip(|store| + 1);
    var user := User(DecimalString(|store| + 1), input.name, input.age, input.email,
                     input.nationality, input.isActive, [], []);
    Step(user, store + [user], true)
  }

  /** Spreading the input over the stored record, for one optional property: a present input value wins, even `null`. */
  function Overlay<T>(current: Field<T>, given: Field<T>): Field<T>
  {
    if given.Missing? then current else given
  }

  /**
   * `updateUser`: the first user with `id` is replaced by itself overlaid
   * with the input; `null` and no write when there is none.
   */
  function UpdateUser(store: seq<User>, id: string, input: UserInput): (r: Step<Option<User>>)
    ensures IndexOfUser(store, id).None? ==> r == Step(None, store, false)
    ensures IndexOfUser(store, id).Some? ==>
              var i := IndexOfUser(store, id).value;
              var prior := store[i];
              && r.persisted && r.result.Some? && r.store == store[i := r.result.value]
              && r.result.value.id == id
              && r.result.value.friends == prior.friends
              && r.result.value.favoriteMovies == prior.favoriteMovies
              && r.result.value.name == input.name && r.result.value.email == input.email
              && (r.result.value.age == if input.age.Missing? then prior.age else input.age)
              && (r.result.value.nationality == if input.nationality.Missing? then prior.nationality else input.nationality)
              && (r.result.value.isActive == if input.isActive.Missing? then prior.isActive else input.isActive)
  {
    match IndexOfUser(store, id)
    case None => Step(None, store, false)
    case Some(i) =>
      var prior := store[i];
      var updated := prior.(name := input.name, email := input.email, age := Overlay(prior.age, input.age),
                          nationality := Overlay(prior.nationality, input.nationality),
                          isActive := Overlay(prior.isActive, input.isActive));
      Step(Some(updated), store[i := updated], true)
  }

  /**
   * `updateUser` through the schema: an input that omits `nationality`
   * resets the user's nationality to `Indian`.
   */
  lemma UpdateResetsNationality(store: seq<User>, id: string, input: UserInput)
    requires input.nationality.Missing? && IndexOfUser(store, id).Some?
    ensures UpdateUser(store, id, WithSchemaDefaults(input)).result.value.nationality == Has(Indian)
  {
  }

  /** Applying the same update twice is the same as applying it once. */
  lemma UpdateIdempotent(store: seq<User>, id: string, input: UserInput)
    ensures var once := UpdateUser(store, id, input);
            UpdateUser(once.store, id, input).store == once.store &&
            UpdateUser(once.store, id, input).result == once.result
  {
    var once := UpdateUser(store, id, input);
    if IndexOfUser(store, id).Some? {
      var i := IndexOfUser(store, id).value;
      IndexPreserved(store, i, once.result.value, id);
    }
  }

  /** `deleteUser`: remove the first user with `id` and answer `true`; `false` and no write when there is none. */
  function DeleteUser(store: seq<User>, id: string): (r: Step<bool>)
    ensures IndexOfUser(store, id).None? ==> r == Step(false, store, false)
    ensures IndexOfUser(store, id).Some? ==>
              var i := IndexOfUser(store, id).value;
              && r.result && r.persisted && |r.store| == |store| - 1
              && (forall j :: 0 <= j < i ==> r.store[j] == store[j])
              && (forall j :: i <= j < |r.store| ==> r.store[j] == store[j + 1])
  {
    match IndexOfUser(store, id)
    case None => Step(false, store, false)
    case Some(i) => Step(true, store[..i] + store[i + 1..], true)
  }

  /**
   * Adding a user and deleting it by the id it was given restores the store,
   * provided no earlier user already had that id.
   */
  lemma AddThenDeleteRestores(store: seq<User>, input: UserInput)
    requires forall j :: 0 <= j < |store| ==> store[j].id != DecimalString(|store| + 1)
    ensures var added := AddUser(store, input);
            DeleteUser(added.store, added.result.id) == Step(true, store, true)
  {
    var added := AddUser(store, input);
    assert IndexOfUser(added.store, added.result.id) == Some(|store|);
  }

  /** Two users added one after the other receive different ids. */
  lemma ConsecutiveAddsGetDistinctIds(store: seq<User>, first: UserInput, second: UserInput)
    ensures var one := AddUser(store, first);
            AddUser(one.store, second).result.id != one.result.id
  {
    DecimalStringInjective(|store| + 1, |store| + 2);
  }

  /**
   * Ids are the length plus one, not a counter: after a deletion the next
   * added user gets an id that is still in use.
   */
  lemma IdsCanCollide(a: User, b: User, input: UserInput)
    requires a.id == "1" && b.id == "2"
    ensures var after := AddUser(DeleteUser([a, b], "1").store, input).store;
            |after| == 2 && after[0].id == after[1].id
  {
    var s := DeleteUser([a, b], "1").store;
    assert s == [b];
    assert DecimalString(2) == "2";
  }

  /**
   * `addFriend`: append `friendId` to the friend list of the first user with
   * `userId`. `null` and no write when either user is missing or the edge
   * exists. The friend's own list is not touched.
   */
  function AddFriend(store: seq<User>, userId: string, friendId: string): (r: Step<Option<User>>)
    ensures (IndexOfUser(store, userId).None? || IndexOfUser(store, friendId).None? ||
             friendId in store[IndexOfUser(store, userId).value].friends)
            <==> r.result.None?
    ensures r.result.None? ==> r == Step(None, store, false)
    ensures r.result.Some? ==>
              var i := IndexOfUser(store, userId).value;
              && r.persisted && r.store == store[i := r.result.value]
              && r.result.value == store[i].(friends := store[i].friends + [friendId])
  {
    match (IndexOfUser(store, userId), IndexOfUser(store, friendId))
    case (Some(i), Some(_)) =>
      if friendId in store[i].friends then Step(None, store, false)
      else
        var user := store[i].(friends := store[i].friends + [friendId]);
        assert user != store[i] by { assert friendId in user.friends; }
        Step(Some(user), store[i := user], true)
    case _ => Step(None, store, false)
  }

  /** Repeating a successful `addFriend` at once returns `null` and changes nothing. */
  lemma AddFriendTwice(store: seq<User>, userId: string, friendId: string)
    requires AddFriend(store, userId, friendId).result.Some?
    ensures var s := AddFriend(store, userId, friendId).store;
            AddFriend(s, userId, friendId) == Step(None, s, false)
  {
    var i := IndexOfUser(store, userId).value;
    var s := AddFriend(store, userId, friendId).store;
    IndexPreserved(store, i, s[i], userId);
    IndexPreserved(store, i, s[i], friendId);
  }

  /** Replacing a record by one with the same id moves no first match. */
  lemma IndexPreserved(store: seq<User>, i: nat, user: User, id: string)
    requires i < |store| && user.id == store[i].id
    ensures IndexOfUser(store[i := user], id) == IndexOfUser(store, id)
  {
    var s := store[i := user];
    assert forall j :: 0 <= j < |s| ==> (s[j].id == id <==> store[j].id == id);
    match IndexOfUser(store, id)
    case None =>
    case Some(k) =>
  }

  /**
   * `removeFriend`: drop every occurrence of `friendId` from the friend list
   * of the first user with `userId`; `null` and no write unless that user
   * exists and lists `friendId`.
   */
  function RemoveFriend(store: seq<User>, userId: string, friendId: string): (r: Step<Option<User>>)
    ensures (IndexOfUser(store, userId).None? || friendId !in store[IndexOfUser(store, userId).value].friends)
            <==> r.result.None?
    ensures r.result.None? ==> r == Step(None, store, false)
    ensures r.result.Some? ==>
              var i := IndexOfUser(store, userId).value;
              var user := r.result.value;
              && r.persisted && r.store == store[i := user]
              && user == store[i].(friends := user.friends)
              && friendId !in user.friends
              && IsSubsequence(user.friends, store[i].friends)
              && (forall f :: f != friendId ==> (f in user.friends <==> f in store[i].friends))
              && (forall f :: f != friendId ==> multiset(user.friends)[f] == multiset(store[i].friends)[f])
  {
    match IndexOfUser(store, userId)
    case Some(i) =>
      if friendId !in store[i].friends then Step(None, store, false)
      else
        var user := store[i].(friends := Without(store[i].friends, friendId));
        assert user != store[i] by { assert friendId !in user.friends; }
        Step(Some(user), store[i := user], true)
    case None => Step(None, store, false)
  }

  /** A successful `addFriend` is undone by `removeFriend` with the same ids. */
  lemma AddThenRemoveFriendRestores(store: seq<User>, userId: string, friendId: string)
    requires AddFriend(store, userId, friendId).result.Some?
    ensures RemoveFriend(AddFriend(store, userId, friendId).store, userId, friendId) ==
            Step(Some(store[IndexOfUser(store, userId).value]), store, true)
  {
    var i := IndexOfUser(store, userId).value;
    var s := AddFriend(store, userId, friendId).store;
    IndexPreserved(store, i, s[i], userId);
    WithoutUndoesAppend(store[i].friends, friendId);
    assert s[i := store[i]] == store;
  }

  /** Repeating a successful `removeFriend` at once returns `null` and changes nothing. */
  lemma RemoveFriendTwice(store: seq<User>, userId: string, friendId: string)
    requires RemoveFriend(store, userId, friendId).result.Some?
    ensures var s := RemoveFriend(store, userId, friendId).store;
            RemoveFriend(s, userId, friendId) == Step(None, s, false)
  {
    var i := IndexOfUser(store, userId).value;
    var s := RemoveFriend(store, userId, friendId).store;
    IndexPreserved(store, i, s[i], userId);
  }

  /** `!isActive`: an absent or `null` status counts as false. */
  function Flip(status: Field<bool>): Field<bool>
  {
    Has(!(status.Has? && status.value))
  }

  /** `toggleUserActiveStatus`: flip the status of the first user with `id`; `null` and no write when there is none. */
  function ToggleUserActiveStatus(store: seq<User>, id: string): (r: Step<Option<User>>)
    ensures IndexOfUser(store, id).None? ==> r == Step(None, store, false)
    ensures IndexOfUser(store, id).Some? ==>
              var i := IndexOfUser(store, id).value;
              && r.persisted && r.result.Some? && r.store == store[i := r.result.value]
              && r.result.value == store[i].(isActive := r.result.value.isActive)
              && (r.result.value.isActive == Has(true) <==> store[i].isActive != Has(true))
              && r.result.value.isActive != Missing && r.result.value.isActive != Null
  {
    match IndexOfUser(store, id)
    case None => Step(None, store, false)
    case Some(i) =>
      var user := store[i].(isActive := Flip(store[i].isActive));
      Step(Some(user), store[i := user], true)
  }

  /**
   * Toggling twice restores a status that was a boolean, and leaves an
   * absent or `null` status as `false`.
   */
  lemma ToggleTwice(store: seq<User>, id: string)
    requires IndexOfUser(store, id).Some?
    ensures var i := IndexOfUser(store, id).value;
            var twice := ToggleUserActiveStatus(ToggleUserActiveStatus(store, id).store, id);
            && twice.persisted
            && (store[i].isActive.Has? ==> twice.store == store)
            && (!store[i].isActive.Has? ==> twice.store == store[i := store[i].(isActive := Has(false))])
  {
    var i := IndexOfUser(store, id).value;
    var once := ToggleUserActiveStatus(store, id);
    IndexPreserved(store, i, once.store[i], id);
    if store[i].isActive.Has? {
      assert store[i].(isActive := Flip(Flip(store[i].isActive))) == store[i];
    }
  }
}
