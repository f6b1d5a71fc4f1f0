/**
 * The records the API serves: users (mutable, owned by the store) and movies
 * (read-only), the property names a filter may use, and lookups by id.
 */
module Records {
  import opened Outcomes
  import opened Js

  /** The `Nationality` enum of the schema; its values travel as their names. */
  datatype Nationality =
    | American | British | Canadian | Australian | Indian | Chinese
    | German | French | Spanish | Italian | Mexican | Irish

  function NationalityName(n: Nationality): string
  {
    match n
    case American => "American"
    case British => "British"
    case Canadian => "Canadian"
    case Australian => "Australian"
    case Indian => "Indian"
    case Chinese => "Chinese"
    case German => "German"
    case French => "French"
    case Spanish => "Spanish"
    case Italian => "Italian"
    case Mexican => "Mexican"
    case Irish => "Irish"
  }

  /** Distinct nationalities travel as distinct names. */
  lemma NationalityNameInjective(m: Nationality, n: Nationality)
    ensures NationalityName(m) == NationalityName(n) <==> m == n
  {
  }

  /** An optional property of a record: absent, explicitly `null`, or set. */
  datatype Field<T> = Missing | Null | Has(value: T)

  /** A user as stored; `friends` and `favoriteMovies` hold ids of users and movies. */
  datatype User = User(
    id: string,
    name: string,
    age: Field<int>,
    email: string,
    nationality: Field<Nationality>,
    isActive: Field<bool>,
    friends: seq<string>,
    favoriteMovies: seq<string>)

  /** A movie; the collection is never modified. */
  datatype Movie = Movie(
    id: string,
    title: string,
    isInTheaters: bool,
    rating: Field<real>,
    releaseYear: Field<int>,
    genre: Field<string>,
    director: Field<string>)

  /** The keys of the `UserFilter` input type. */
  datatype UserKey = UserId | UserName | UserAge | UserEmail | UserNationality | UserIsActive | UserFriends

  /** The keys of the `MovieFilter` input type. */
  datatype MovieKey = MovieId | Title | IsInTheaters | Rating | ReleaseYear | Genre | Director

  function FieldValue<T>(f: Field<T>, wrap: T -> Value): Value
  {
    match f
    case Missing => Undefined
    case Null => Value.Null
    case Has(x) => wrap(x)
  }

  /** `user[key]`. */
  function UserProperty(u: User, key: UserKey): Value
  {
    match key
    case UserId => Str(u.id)
    case UserName => Str(u.name)
    case UserAge => FieldValue(u.age, (a: int) => Num(a as real))
    case UserEmail => Str(u.email)
    case UserNationality => FieldValue(u.nationality, (n: Nationality) => Str(NationalityName(n)))
    case UserIsActive => FieldValue(u.isActive, (b: bool) => Bool(b))
    case UserFriends => StrList(u.friends)
  }

  /** `movie[key]`. */
  function MovieProperty(m: Movie, key: MovieKey): Value
  {
    match key
    case MovieId => Str(m.id)
    case Title => Str(m.title)
    case IsInTheaters => Bool(m.isInTheaters)
    case Rating => FieldValue(m.rating, (r: real) => Num(r))
    case ReleaseYear => FieldValue(m.releaseYear, (y: int) => Num(y as real))
    case Genre => FieldValue(m.genre, (g: string) => Str(g))
    case Director => FieldValue(m.director, (d: string) => Str(d))
  }

  /** `findIndex` by id over the store, with `None` for -1. */
  function IndexOfUser(store: seq<User>, id: string): (r: Option<nat>)
    ensures r.Some? ==> r.value < |store| && store[r.value].id == id
    ensures r.Some? ==> forall j :: 0 <= j < r.value ==> store[j].id != id
    ensures r.None? <==> forall j :: 0 <= j < |store| ==> store[j].id != id
  {
    if store == [] then None
    else if store[0].id == id then Some(0)
    else match IndexOfUser(store[1..], id)
      case None => None
      case Some(k) => Some(k + 1)
  }

  /** `find` by id over the store: the first user with that id, if any. */
  function FindUser(store: seq<User>, id: string): (r: Option<User>)
    ensures r.Some? <==> exists j :: 0 <= j < |store| && store[j].id == id
    ensures r.Some? ==> r.value in store && r.value.id == id
    ensures r.Some? ==> exists i :: 0 <= i < |store| && store[i] == r.value &&
                                     forall j :: 0 <= j < i ==> store[j].id != id
  {
    match IndexOfUser(store, id)
    case None => None
    case Some(i) => Some(store[i])
  }

  /** `find` by id over the movies: the first movie with that id, if any. */
  function FindMovie(movies: seq<Movie>, id: string): (r: Option<Movie>)
    ensures r.Some? ==> r.value.id == id && r.value in movies
    ensures r.Some? ==> exists i :: 0 <= i < |movies| && movies[i] == r.value &&
                                     forall j :: 0 <= j < i ==> movies[j].id != id
    ensures r.None? <==> forall j :: 0 <= j < |movies| ==> movies[j].id != id
  {
    if movies == [] then None
    else if movies[0].id == id then Some(movies[0])
    else
      var r := FindMovie(movies[1..], id);
      if r.Some? then
        var i :| 0 <= i < |movies[1..]| && movies[1..][i] == r.value &&
                 forall j :: 0 <= j < i ==> movies[1..][j].id != id;
        assert movies[i + 1] == r.value;
        r
      else r
  }

  /**
   * The outcome of a resolver that may change the user store: its GraphQL
   * result, the store afterwards, and whether the whole store was written
   * back to the users file (`fs.writeFileSync`).
   */
  datatype Step<R> = Step(result: R, store: seq<User>, persisted: bool)
}
