/** The root `Query` resolvers: `users`, `friends` and `movies`. */
module Queries {
  import opened Outcomes
  import opened Js
  import opened Seqs
  import opened Records
  import opened Filters

  /**
   * The plain object `Query.users` returns, before the union type is
   * resolved: every property may be absent.
   */
  datatype UsersPayload = UsersPayload(
    success: Option<bool>,
    message: Option<string>,
    users: Option<seq<User>>,
    errorCode: Option<string>)

  const AllUsersMessage := "All users fetched successfully"
  const FilteredUsersMessage := "Users fetched successfully"
  const FilterErrorCode := "FILTER_ERROR"
  const FilterFailedMessage := "Failed to filter users"

  /** The message of a caught filter error: the error's own, or a fixed text when that is empty. */
  function FaultMessage(describe: Fault -> string, f: Fault): (r: string)
    ensures r != ""
    ensures describe(f) != "" ==> r == describe(f)
  {
    if describe(f) != "" then describe(f) else FilterFailedMessage
  }

  /**
   * `Query.users`. Without a filter argument every stored user is returned
   * (the store itself, not a copy); with one, the users every entry accepts.
   * A thrown `TypeError` is caught and reported as a `FILTER_ERROR` payload
   * whose message is the error's, or a fixed text when that is empty;
   * `describe` stands for the engine's error messages.
   */
  function Users(store: seq<User>, filter: Option<UserFilter>, describe: Fault -> string): (r: UsersPayload)
    ensures r.success.Some? && (r.success.value <==> r.users.Some?)
    ensures filter.None? ==> r.success == Some(true) && r.users == Some(store) && r.message == Some(AllUsersMessage)
    ensures r.success == Some(false) <==>
              filter.Some? && exists i :: 0 <= i < |store| && UserVerdict(store[i], filter.value).Raise?
    ensures filter.Some? && r.users.Some? ==>
              IsSubsequence(r.users.value, store) &&
              forall u :: u in r.users.value <==> u in store && UserVerdict(u, filter.value) == Pass
    ensures filter.Some? && r.users.Some? ==>
              forall u :: multiset(r.users.value)[u] ==
                          if UserVerdict(u, filter.value) == Pass then multiset(store)[u] else 0
    ensures filter.Some? && r.success == Some(true) ==>
              r.message == Some(FilteredUsersMessage) && r.errorCode.None?
    ensures r.success == Some(false) ==>
              r.errorCode == Some(FilterErrorCode) && r.users.None? && r.message.Some? && r.message.value != ""
    ensures filter.Some? && r.success == Some(false) ==>
              exists i :: 0 <= i < |store| && UserVerdict(store[i], filter.value).Raise? &&
                          (forall j :: 0 <= j < i ==> !UserVerdict(store[j], filter.value).Raise?) &&
                          r.message == Some(FaultMessage(describe, UserVerdict(store[i], filter.value).fault))
  {
    match filter
    case None => UsersPayload(Some(true), Some(AllUsersMessage), Some(store), None)
    case Some(f) =>
      match Select(store, u => UserVerdict(u, f))
      case Success(kept) => UsersPayload(Some(true), Some(FilteredUsersMessage), Some(kept), None)
      case Failure(e) =>
        UsersPayload(Some(false), Some(FaultMessage(describe, e)), None, Some(FilterErrorCode))
  }

  /** An empty filter object `{}` keeps every user, unlike a missing filter only in its message. */
  lemma EmptyUserFilterKeepsAll(store: seq<User>, describe: Fault -> string)
    ensures Users(store, Some([]), describe) ==
            UsersPayload(Some(true), Some(FilteredUsersMessage), Some(store), None)
  {
    var judge := (u: User) => UserVerdict(u, []);
    assert forall i :: 0 <= i < |store| ==> judge(store[i]) == Pass;
    SelectIsFilter(store, judge, (u: User) => true);
    FilterKeepsAll(store, (u: User) => true);
  }

  /** Filtering by a nationality returns exactly the users of that nationality, in store order. */
  lemma NationalityQuery(store: seq<User>, n: Nationality, describe: Fault -> string)
    ensures Users(store, Some([(UserNationality, FStr(NationalityName(n)))]), describe) ==
            UsersPayload(Some(true), Some(FilteredUsersMessage),
                         Some(Filter(store, (u: User) => u.nationality == Has(n))), None)
  {
    var f: UserFilter := [(UserNationality, FStr(NationalityName(n)))];
    var judge := (u: User) => UserVerdict(u, f);
    forall i | 0 <= i < |store|
      ensures judge(store[i]) == Pass <==> store[i].nationality == Has(n)
      ensures !judge(store[i]).Raise?
    {
      NationalityEntry(store[i], n);
      assert seq(1, k requires 0 <= k < 1 => UserEntry(store[i], f[k].0, f[k].1)) ==
             [UserEntry(store[i], UserNationality, FStr(NationalityName(n)))];
    }
    SelectIsFilter(store, judge, (u: User) => u.nationality == Has(n));
  }

  /**
   * `Query.friends`: the stored users whose id appears in the friend list of
   * the first user with `userId`, in store order (not friend-list order);
   * nothing when there is no such user.
   */
  function Friends(store: seq<User>, userId: string): (r: seq<User>)
    ensures IsSubsequence(r, store)
    ensures FindUser(store, userId).None? ==> r == []
    ensures FindUser(store, userId).Some? ==>
              forall v :: v in r <==> v in store && v.id in FindUser(store, userId).value.friends
    ensures FindUser(store, userId).Some? ==>
              forall v :: multiset(r)[v] ==
                          if v.id in FindUser(store, userId).value.friends then multiset(store)[v] else 0
  {
    match FindUser(store, userId)
    case None => []
    case Some(user) => Filter(store, (u: User) => u.id in user.friends)
  }

  /**
   * `Query.movies`. Without a filter every movie is returned. With one, the
   * movies every entry accepts, in order; a `TypeError` thrown by an entry is
   * not caught and fails the whole query.
   */
  function Movies(movies: seq<Movie>, filter: Option<MovieFilter>): (r: Result<seq<Movie>, Fault>)
    ensures filter.None? ==> r == Success(movies)
    ensures r.Success? ==> IsSubsequence(r.value, movies)
    ensures r.Failure? <==> filter.Some? && exists i :: 0 <= i < |movies| && MovieVerdict(movies[i], filter.value).Raise?
    ensures filter.Some? && r.Success? ==>
              forall m :: m in r.value <==> m in movies && MovieVerdict(m, filter.value) == Pass
    ensures filter.Some? && r.Success? ==>
              forall m :: multiset(r.value)[m] ==
                          if MovieVerdict(m, filter.value) == Pass then multiset(movies)[m] else 0
    ensures filter.Some? && r.Failure? ==>
              exists i :: 0 <= i < |movies| && MovieVerdict(movies[i], filter.value) == Raise(r.error) &&
                          forall j :: 0 <= j < i ==> !MovieVerdict(movies[j], filter.value).Raise?
  {
    match filter
    case None =>
      SubsequenceReflexive(movies);
      Success(movies)
    case Some(f) => Select(movies, m => MovieVerdict(m, f))
  }

  /** A numeric entry other than a plausible `releaseYear` makes the query return no movie. */
  lemma ImplausibleNumberReturnsNothing(movies: seq<Movie>, filter: MovieFilter, i: nat)
    requires i < |filter| && filter[i].1.FNum?
    requires filter[i].0 != ReleaseYear || filter[i].1.n <= 1800.0
    ensures Movies(movies, Some(filter)).Success? ==> Movies(movies, Some(filter)).value == []
  {
    var r := Movies(movies, Some(filter));
    if r.Success? && r.value != [] {
      ImplausibleNumberRejects(r.value[0], filter, i);
    }
  }

  /** Dropping a `null` or `""` entry from the filter changes nothing about the query. */
  lemma NoConstraintQuery(movies: seq<Movie>, before: MovieFilter, key: MovieKey, arg: FilterValue, after: MovieFilter)
    requires arg == FNull || arg == FStr("")
    ensures Movies(movies, Some(before + [(key, arg)] + after)) == Movies(movies, Some(before + after))
  {
    var f := before + [(key, arg)] + after;
    var g := before + after;
    forall i | 0 <= i < |movies|
      ensures MovieVerdict(movies[i], f) == MovieVerdict(movies[i], g)
    {
      NoConstraintEntry(movies[i], before, key, arg, after);
    }
    SelectAgrees(movies, m => MovieVerdict(m, f), m => MovieVerdict(m, g));
  }

  /**
   * A non-empty string filter on a property some movie lacks fails the query:
   * `toLowerCase` is read from `undefined`.
   */
  lemma StringFilterOnMissingPropertyFails(movies: seq<Movie>, key: MovieKey, s: string, i: nat)
    requires s != "" && i < |movies| && MovieProperty(movies[i], key) == Undefined
    ensures Movies(movies, Some([(key, FStr(s))])).Failure?
  {
    var f: MovieFilter := [(key, FStr(s))];
    assert seq(1, k requires 0 <= k < 1 => MovieEntry(movies[i], f[k].0, f[k].1)) == [MovieEntry(movies[i], key, FStr(s))];
  }
}
