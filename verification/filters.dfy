/**
 * The two filter engines: the per-key predicates behind `Query.users` and
 * `Query.movies`. A filter is the argument object's entries in the order
 * `Object.entries` lists them; a record passes when every entry accepts it.
 */
module Filters {
  import opened Text
  import opened Js
  import opened Records

  /** A value of a filter argument, after the GraphQL engine has coerced it. */
  datatype FilterValue =
    | FList(items: seq<string>)
    | FNum(n: real)
    | FStr(s: string)
    | FBool(b: bool)
    | FObject(entries: seq<(string, FilterValue)>)
    | FNull

  type UserFilter = seq<(UserKey, FilterValue)>
  type MovieFilter = seq<(MovieKey, FilterValue)>

  /**
   * `field === arg`: equal primitives. An argument object or array is a fresh
   * object, never identical to anything stored in a record.
   */
  predicate StrictEquals(field: Value, arg: FilterValue)
  {
    match (field, arg)
    case (Bool(x), FBool(y)) => x == y
    case (Num(x), FNum(y)) => x == y
    case (Str(x), FStr(y)) => x == y
    case (Null, FNull) => true
    case _ => false
  }

  // ---------------------------------------------------------------- users

  /**
   * Whether some argument item is included in a truthy `field`: a substring
   * test on a string, a membership test on an array, and a `TypeError` on
   * anything else as soon as the first item is tried.
   */
  function SomeIncluded(field: Value, items: seq<string>): Verdict
  {
    if items == [] then Reject
    else match field
      case Str(s) => Holds(exists i :: 0 <= i < |items| && Contains(s, items[i]))
      case StrList(xs) => Holds(exists i :: 0 <= i < |items| && items[i] in xs)
      case _ => Raise(NotAFunction("includes"))
  }

  /** The `Query.users` callback for one filter entry. */
  function UserEntry(u: User, key: UserKey, arg: FilterValue): Verdict
  {
    var field := UserProperty(u, key);
    if arg.FList? then
      if !Truthy(field) then Reject else SomeIncluded(field, arg.items)
    else
      Holds(StrictEquals(field, arg))
  }

  /** `Object.entries(filter).every(...)` for one user. */
  function UserVerdict(u: User, filter: UserFilter): Verdict
  {
    Every(seq(|filter|, i requires 0 <= i < |filter| => UserEntry(u, filter[i].0, filter[i].1)))
  }

  // --------------------------------------------------------------- movies

  /** `movie[key][subKey]`: movie properties hold no nested objects, so any property of a defined value reads as `undefined`. */
  function PropertyOf(v: Value, subKey: string): Value
    requires v != Undefined && v != Value.Null
  {
    Undefined
  }

  /** The `Query.movies` callback for one filter entry. */
  function MovieEntry(m: Movie, key: MovieKey, arg: FilterValue): Verdict
  {
    var field := MovieProperty(m, key);
    match arg
    case FList(items) =>
      if !Truthy(field) || items == [] then Reject
      else if field.Str? then
        Holds(exists i :: 0 <= i < |items| && Contains(Lower(field.s), Lower(items[i])))
      else Raise(NotAFunction("toLowerCase"))
    case FNum(n) =>
      if key == ReleaseYear && n > 1800.0 then Holds(StrictEquals(field, arg)) else Reject
    case FStr(s) =>
      if s == "" then Pass
      else if field.Str? then Holds(Contains(Lower(field.s), Lower(s)))
      else if field == Undefined || field == Value.Null then Raise(PropertyOfNullish("toLowerCase"))
      else Raise(NotAFunction("toLowerCase"))
    case FBool(_) =>
      Holds(StrictEquals(field, arg))
    case FObject(entries) =>
      if entries == [] then Pass
      else if field == Undefined || field == Value.Null then Raise(PropertyOfNullish(entries[0].0))
      else Holds(forall i :: 0 <= i < |entries| ==> StrictEquals(PropertyOf(field, entries[i].0), entries[i].1))
    case FNull =>
      Pass
  }

  /** `Object.entries(filter).every(...)` for one movie. */
  function MovieVerdict(m: Movie, filter: MovieFilter): Verdict
  {
    Every(seq(|filter|, i requires 0 <= i < |filter| => MovieEntry(m, filter[i].0, filter[i].1)))
  }

  // ------------------------------------------------------ user properties

  /** One user entry throws only for a non-empty list argument against a truthy number or boolean. */
  lemma UserEntryRaises(u: User, key: UserKey, arg: FilterValue)
    ensures UserEntry(u, key, arg).Raise? <==>
            arg.FList? && arg.items != [] && Truthy(UserProperty(u, key)) &&
            (UserProperty(u, key).Num? || UserProperty(u, key).Bool?)
  {
  }

  /**
   * A filter shaped like the schema's `UserFilter` (only `friends` takes a
   * list) never throws, so `Query.users` never reports `FILTER_ERROR` for it.
   */
  lemma SchemaUserFilterNeverRaises(u: User, filter: UserFilter)
    requires forall i :: 0 <= i < |filter| && filter[i].1.FList? ==> filter[i].0 == UserFriends
    ensures !UserVerdict(u, filter).Raise?
  {
    var vs := seq(|filter|, i requires 0 <= i < |filter| => UserEntry(u, filter[i].0, filter[i].1));
    EveryRaises(vs);
    forall i | 0 <= i < |filter|
      ensures !UserEntry(u, filter[i].0, filter[i].1).Raise?
    {
      UserEntryRaises(u, filter[i].0, filter[i].1);
    }
  }

  /**
   * A list argument keeps a user whose property is a non-empty string
   * containing some item, or an array listing some item; nothing else passes.
   */
  lemma UserListEntry(u: User, key: UserKey, items: seq<string>)
    ensures UserEntry(u, key, FList(items)) == Pass <==>
            exists i :: 0 <= i < |items| &&
              ((UserProperty(u, key).Str? && UserProperty(u, key).s != "" &&
                Contains(UserProperty(u, key).s, items[i])) ||
               (UserProperty(u, key).StrList? && items[i] in UserProperty(u, key).items))
    ensures UserEntry(u, key, FList(items)).Raise? ==>
              UserEntry(u, key, FList(items)) == Raise(NotAFunction("includes"))
  {
  }

  /** Any argument other than a list keeps a user exactly when the property is strictly equal to it, and never throws. */
  lemma UserScalarEntry(u: User, key: UserKey, arg: FilterValue)
    requires !arg.FList?
    ensures UserEntry(u, key, arg) == Pass <==> StrictEquals(UserProperty(u, key), arg)
    ensures UserEntry(u, key, arg) != Pass ==> UserEntry(u, key, arg) == Reject
  {
  }

  /** Filtering users by a nationality name keeps exactly the users of that nationality. */
  lemma NationalityEntry(u: User, n: Nationality)
    ensures UserEntry(u, UserNationality, FStr(NationalityName(n))) == Pass <==> u.nationality == Has(n)
    ensures UserEntry(u, UserNationality, FStr(NationalityName(n))) != Pass ==>
              UserEntry(u, UserNationality, FStr(NationalityName(n))) == Reject
  {
    if u.nationality.Has? {
      NationalityNameInjective(u.nationality.value, n);
    }
  }

  /** A `friends` list argument keeps the users who list at least one of its ids, and never throws. */
  lemma FriendsEntry(u: User, ids: seq<string>)
    ensures UserEntry(u, UserFriends, FList(ids)) == Pass <==> exists i :: 0 <= i < |ids| && ids[i] in u.friends
    ensures !UserEntry(u, UserFriends, FList(ids)).Raise?
  {
  }

  /**
   * Unlike the movie filter, a `null` argument constrains users: it keeps
   * only users whose property is explicitly `null`, never one where it is absent.
   */
  lemma NullUserEntry(u: User, key: UserKey)
    ensures UserEntry(u, key, FNull) == Pass <==> UserProperty(u, key) == Value.Null
    ensures UserProperty(u, key) == Undefined ==> UserEntry(u, key, FNull) == Reject
  {
  }

  // ----------------------------------------------------- movie properties

  /**
   * A numeric argument keeps a movie only under the `releaseYear` key, above
   * 1800, and when the year is equal; it never throws.
   */
  lemma NumericMovieEntry(m: Movie, key: MovieKey, n: real)
    ensures MovieEntry(m, key, FNum(n)) == Pass <==>
            key == ReleaseYear && n > 1800.0 && m.releaseYear.Has? && m.releaseYear.value as real == n
    ensures MovieEntry(m, key, FNum(n)) != Pass ==> MovieEntry(m, key, FNum(n)) == Reject
  {
  }

  /** A numeric entry that fails the year gate rejects every movie, whatever the other entries say. */
  lemma ImplausibleNumberRejects(m: Movie, filter: MovieFilter, i: nat)
    requires i < |filter| && filter[i].1.FNum?
    requires filter[i].0 != ReleaseYear || filter[i].1.n <= 1800.0
    ensures MovieVerdict(m, filter) != Pass
  {
    var vs := seq(|filter|, k requires 0 <= k < |filter| => MovieEntry(m, filter[k].0, filter[k].1));
    assert vs[i] == Reject;
  }

  /** `null` and `""` entries impose no constraint: removing one leaves every verdict unchanged. */
  lemma NoConstraintEntry(m: Movie, before: MovieFilter, key: MovieKey, arg: FilterValue, after: MovieFilter)
    requires arg == FNull || arg == FStr("")
    ensures MovieVerdict(m, before + [(key, arg)] + after) == MovieVerdict(m, before + after)
  {
    var f := before + [(key, arg)] + after;
    var g := before + after;
    var a := seq(|before|, k requires 0 <= k < |before| => MovieEntry(m, before[k].0, before[k].1));
    var b := seq(|after|, k requires 0 <= k < |after| => MovieEntry(m, after[k].0, after[k].1));
    assert seq(|f|, k requires 0 <= k < |f| => MovieEntry(m, f[k].0, f[k].1)) == a + [Pass] + b;
    assert seq(|g|, k requires 0 <= k < |g| => MovieEntry(m, g[k].0, g[k].1)) == a + b;
    EveryIgnoresPass(a, b);
  }

  /**
   * A list argument keeps a movie whose property is a non-empty string
   * containing some item, ignoring case; a list with an empty item keeps
   * every such movie. A truthy property that is not a string throws.
   */
  lemma MovieListEntry(m: Movie, key: MovieKey, items: seq<string>)
    ensures MovieEntry(m, key, FList(items)) == Pass <==>
            MovieProperty(m, key).Str? && MovieProperty(m, key).s != "" &&
            exists i :: 0 <= i < |items| && Contains(Lower(MovieProperty(m, key).s), Lower(items[i]))
    ensures MovieEntry(m, key, FList(items)).Raise? <==>
            items != [] && Truthy(MovieProperty(m, key)) && !MovieProperty(m, key).Str?
    ensures MovieEntry(m, key, FList(items)).Raise? ==>
              MovieEntry(m, key, FList(items)) == Raise(NotAFunction("toLowerCase"))
    ensures MovieProperty(m, key).Str? && MovieProperty(m, key).s != "" && "" in items ==>
              MovieEntry(m, key, FList(items)) == Pass
  {
    if MovieProperty(m, key).Str? && "" in items {
      var i :| 0 <= i < |items| && items[i] == "";
      ContainsTrivial(Lower(MovieProperty(m, key).s));
      assert Lower(items[i]) == "";
    }
  }

  /** A boolean argument keeps a movie exactly when the property is that boolean, and never throws. */
  lemma MovieBoolEntry(m: Movie, key: MovieKey, b: bool)
    ensures MovieEntry(m, key, FBool(b)) == Pass <==> MovieProperty(m, key) == Bool(b)
    ensures MovieEntry(m, key, FBool(b)) != Pass ==> MovieEntry(m, key, FBool(b)) == Reject
  {
  }

  /**
   * A nested-object argument: an empty one keeps every movie; a non-empty
   * one throws on a missing property, naming its first sub-key, and rejects
   * every movie otherwise, since no movie property has sub-properties.
   */
  lemma MovieObjectEntry(m: Movie, key: MovieKey, entries: seq<(string, FilterValue)>)
    ensures entries == [] ==> MovieEntry(m, key, FObject(entries)) == Pass
    ensures entries != [] && MovieProperty(m, key) in {Undefined, Value.Null} ==>
              MovieEntry(m, key, FObject(entries)) == Raise(PropertyOfNullish(entries[0].0))
    ensures entries != [] && MovieProperty(m, key) !in {Undefined, Value.Null} ==>
              MovieEntry(m, key, FObject(entries)) == Reject
  {
    var field := MovieProperty(m, key);
    if entries != [] && field != Undefined && field != Value.Null {
      assert !StrictEquals(PropertyOf(field, entries[0].0), entries[0].1);
    }
  }

  /** A string argument is matched without regard to letter case. */
  lemma MovieStringIgnoresCase(m: Movie, key: MovieKey, s: string)
    ensures MovieEntry(m, key, FStr(s)) == MovieEntry(m, key, FStr(Lower(s)))
  {
    LowerIdempotent(s);
  }

  /** A non-empty string argument on a string property keeps the movie exactly when it occurs there, ignoring case. */
  lemma MovieSubstringEntry(m: Movie, key: MovieKey, s: string)
    requires s != "" && MovieProperty(m, key).Str?
    ensures MovieEntry(m, key, FStr(s)) == Pass <==>
            exists i :: OccursAt(Lower(MovieProperty(m, key).s), Lower(s), i)
    ensures MovieEntry(m, key, FStr(s)) != Pass ==> MovieEntry(m, key, FStr(s)) == Reject
  {
    ContainsAt(Lower(MovieProperty(m, key).s), Lower(s));
  }
}
