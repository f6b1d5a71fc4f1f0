/** The `User` field resolvers: `friends` and `favoriteMovies`. */
module UserFields {
  import opened Outcomes
  import opened Text
  import opened Seqs
  import opened Records
  import Queries

  /**
   * `User.friends`: every friend id, in list order, resolved to the first
   * stored user with that id; an id no user has leaves a hole.
   */
  function ResolveFriends(store: seq<User>, user: User): (r: seq<Option<User>>)
    ensures |r| == |user.friends|
    ensures forall i :: 0 <= i < |r| && r[i].Some? ==> r[i].value in store && r[i].value.id == user.friends[i]
    ensures forall i :: 0 <= i < |r| ==> (r[i].None? <==> forall j :: 0 <= j < |store| ==> store[j].id != user.friends[i])
    ensures forall i :: 0 <= i < |r| && r[i].Some? ==>
              exists k :: 0 <= k < |store| && store[k] == r[i].value &&
                          forall j :: 0 <= j < k ==> store[j].id != user.friends[i]
  {
    if |user.friends| == 0 then []
    else seq(|user.friends|, i requires 0 <= i < |user.friends| => FindUser(store, user.friends[i]))
  }

  /**
   * The `friends` field of a user and the `friends(userId)` query agree: every
   * resolved friend is in the query's answer, and every user in the answer
   * shares its id with some resolved friend.
   */
  lemma FriendsFieldMatchesQuery(store: seq<User>, userId: string)
    requires IndexOfUser(store, userId).Some?
    ensures var r := ResolveFriends(store, store[IndexOfUser(store, userId).value]);
            var q := Queries.Friends(store, userId);
            (forall i :: 0 <= i < |r| && r[i].Some? ==> r[i].value in q) &&
            (forall v :: v in q ==> exists i :: 0 <= i < |r| && r[i].Some? && r[i].value.id == v.id)
  {
    var user := store[IndexOfUser(store, userId).value];
    assert FindUser(store, userId) == Some(user);
    var r := ResolveFriends(store, user);
    var q := Queries.Friends(store, userId);
    forall v | v in q
      ensures exists i :: 0 <= i < |r| && r[i].Some? && r[i].value.id == v.id
    {
      var i :| 0 <= i < |user.friends| && user.friends[i] == v.id;
      var j :| 0 <= j < |store| && store[j] == v;
      assert r[i].Some?;
    }
  }

  // ------------------------------------------------------- favorite movies

  /** The movie id for a draw `d` in 0..9 (a random float scaled by ten and floored): the decimal spelling of `d + 1`. */
  function DrawnId(d: nat): string
  {
    DecimalString(d + 1)
  }

  /** The ids built from the first `n` draws. */
  function DrawnIds(draws: seq<nat>, n: nat): seq<string>
    requires n <= |draws|
  {
    seq(n, k requires 0 <= k < n => DrawnId(draws[k]))
  }

  /** Draws in range, and more of them than the seeding loop can consume. */
  predicate ValidDraws(draws: seq<nat>)
  {
    |draws| > 10 && forall k :: 0 <= k < |draws| ==> draws[k] < 10
  }

  /** Ten possible ids: at most ten draws can be pairwise different. */
  lemma DistinctDrawsBound(draws: seq<nat>, n: nat)
    requires ValidDraws(draws) && n <= |draws| && Distinct(DrawnIds(draws, n))
    ensures n <= 10
  {
    var ds := draws[..n];
    forall i, j | 0 <= i < j < |ds|
      ensures ds[i] != ds[j]
    {
      assert DrawnIds(draws, n)[i] != DrawnIds(draws, n)[j];
    }
    DistinctBound(ds, Below(10));
  }

  /** The seeding loop from the point where the first `n` draws are in the list. */
  function SeedFrom(draws: seq<nat>, n: nat): (r: seq<string>)
    requires ValidDraws(draws) && n <= 10 && Distinct(DrawnIds(draws, n))
    ensures n <= |r| <= 10
    ensures r == DrawnIds(draws, |r|) && Distinct(r)
    ensures DrawnId(draws[|r|]) in r
    decreases 10 - n
  {
    var acc := DrawnIds(draws, n);
    if DrawnId(draws[n]) in acc then acc
    else
      assert DrawnIds(draws, n + 1) == acc + [DrawnId(draws[n])];
      DistinctDrawsBound(draws, n + 1);
      SeedFrom(draws, n + 1)
  }

  /**
   * The seeding loop of `User.favoriteMovies`: push drawn ids until a draw
   * repeats one already pushed. The list is the ids of the first draws, has
   * no repeats, is never empty, and the draw right after it is a repeat.
   */
  function Seed(draws: seq<nat>): (r: seq<string>)
    requires ValidDraws(draws)
    ensures 1 <= |r| <= 10
    ensures r == DrawnIds(draws, |r|) && Distinct(r)
    ensures DrawnId(draws[|r|]) in r
  {
    SeedFrom(draws, 0)
  }

  /** Each favorite id mapped to the first movie with that id, or `null`. */
  function MoviesOf(movies: seq<Movie>, ids: seq<string>): (r: seq<Option<Movie>>)
    ensures |r| == |ids|
    ensures forall i :: 0 <= i < |r| && r[i].Some? ==> r[i].value in movies && r[i].value.id == ids[i]
    ensures forall i :: 0 <= i < |r| ==> (r[i].None? <==> forall j :: 0 <= j < |movies| ==> movies[j].id != ids[i])
    ensures forall i :: 0 <= i < |r| && r[i].Some? ==>
              exists k :: 0 <= k < |movies| && movies[k] == r[i].value &&
                          forall j :: 0 <= j < k ==> movies[j].id != ids[i]
  {
    seq(|ids|, i requires 0 <= i < |ids| => FindMovie(movies, ids[i]))
  }

  /**
   * `User.favoriteMovies` for the stored user at `index` (the parent object).
   * An empty favorites list is first seeded and written into that record, in
   * memory only; then the list is mapped to movies.
   */
  function FavoriteMovies(store: seq<User>, index: nat, movies: seq<Movie>, draws: seq<nat>): (r: Step<seq<Option<Movie>>>)
    requires index < |store| && ValidDraws(draws)
    ensures !r.persisted && |r.store| == |store|
    ensures store[index].favoriteMovies != [] ==> r.store == store
    ensures store[index].favoriteMovies == [] ==>
              r.store == store[index := store[index].(favoriteMovies := Seed(draws))]
    ensures r.store[index].favoriteMovies != []
    ensures r.result == MoviesOf(movies, r.store[index].favoriteMovies)
  {
    var user := store[index];
    if user.favoriteMovies == [] then
      var seeded := user.(favoriteMovies := Seed(draws));
      Step(MoviesOf(movies, seeded.favoriteMovies), store[index := seeded], false)
    else
      Step(MoviesOf(movies, user.favoriteMovies), store, false)
  }

  /**
   * Once seeded the list is never regenerated: resolving the field again,
   * with any draws, gives the same movies and leaves the store alone.
   */
  lemma FavoriteMoviesSettles(store: seq<User>, index: nat, movies: seq<Movie>, draws: seq<nat>, draws': seq<nat>)
    requires index < |store| && ValidDraws(draws) && ValidDraws(draws')
    ensures var first := FavoriteMovies(store, index, movies, draws);
            var second := FavoriteMovies(first.store, index, movies, draws');
            second.result == first.result && second.store == first.store
  {
  }
}
