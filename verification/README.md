# GraphQL users-and-movies resolvers, modelled in Dafny

This project models the resolver table of a small GraphQL API. The API serves
an in-memory list of users, which clients can change, and a read-only list of
movies. The model covers:

- the two filter engines behind `Query.users` and `Query.movies`;
- the relational lookups `Query.friends`, `User.friends` and `User.favoriteMovies`;
- the six `Mutation` handlers;
- the `UsersResult` union: choosing its variant, and the field resolvers that
  fill in defaults and sort the users by name.

The user store is a value, `seq<User>`. Every resolver that can change it
returns a `Step(result, store, persisted)`: the GraphQL result, the store
afterwards, and whether the whole store was written back to the users file.
Lookups by id take the first match, as `find` and `findIndex` do. Ids are not
guaranteed unique.

JavaScript behaviour is modelled where the results depend on it:

- truthiness, and `===` on primitives;
- property values that are absent (`undefined`) versus explicitly `null`;
- the `TypeError`s a filter callback can throw. `Query.users` catches them
  and returns a `FILTER_ERROR` payload; `Query.movies` does not catch them, so
  the query fails.

Modules, one per component of `graphQL/schema/resolvers.mjs`:

| file | module | contents |
|---|---|---|
| outcomes.dfy | `Outcomes` | `Option`, `Result` |
| text.dfy | `Text` | ASCII `toLowerCase`, `includes` on strings, `String(n)` and its inverse |
| js.dfy | `Js` | JavaScript values, truthiness, faults, `every` |
| seqs.dfy | `Seqs` | `filter` with and without throwing callbacks, subsequences, pigeonhole |
| records.dfy | `Records` | `User`, `Movie`, filter keys, `find`/`findIndex`, `Step` |
| filters.dfy | `Filters` | the per-entry predicates of both filter engines |
| queries.dfy | `Queries` | `Query.users`, `Query.friends`, `Query.movies` |
| userfields.dfy | `UserFields` | `User.friends`, `User.favoriteMovies` with its seeding loop |
| mutations.dfy | `Mutations` | `addUser`, `updateUser`, `deleteUser`, `addFriend`, `removeFriend`, `toggleUserActiveStatus` |
| usersresult.dfy | `UsersResult` | `__resolveType`, the variants' field defaults, the sort by name |

Notable behaviours of the code, each modelled as written:

- A non-empty string filter on movies does not coerce the property to a
  string. It calls `toLowerCase` on it. A missing property or a non-string
  property therefore throws, and the whole `movies` query fails. See
  `Queries.StringFilterOnMissingPropertyFails`.
- In the user filter, `null` is not "no constraint". It is compared with
  `===`, so it keeps only users whose property is explicitly `null`. See
  `Filters.NullUserEntry`.
- Because of the schema default `nationality: Nationality = Indian` on
  `UserInput`, an `updateUser` that omits `nationality` resets it to `Indian`.
  See `Mutations.UpdateResetsNationality`.
- Without a filter, the payload's user list is the store itself. The
  `UsersSuccessResult.users` resolver sorts that list in place, so it reorders
  the store. See `UsersResult.UsersQuery`.

## Model

| member | source | states |
|---|---|---|
| Text.ContainsAt | graphQL/schema/resolvers.mjs:34 | `includes` on a string holds exactly when the needle occurs at some index of the haystack |
| Text.Lower | graphQL/schema/resolvers.mjs:69 | `toLowerCase` keeps the length, maps each upper-case ASCII letter to its lower-case partner, keeps every other character, and leaves no upper-case ASCII letter |
| Text.DecimalRoundTrip | graphQL/schema/resolvers.mjs:140 | `String(n)` reads back as `n`, so an id made from a length is that length's decimal spelling |
| Js.Every | graphQL/schema/resolvers.mjs:32 | `every` accepts exactly when every callback accepts; otherwise its outcome is the first non-accepting callback's, and all callbacks before it accepted |
| Js.EveryRaises | graphQL/schema/resolvers.mjs:30-38 | an `every` chain throws exactly when some callback throws and all callbacks before it returned `true` |
| Seqs.Filter | graphQL/schema/resolvers.mjs:57 | `filter` keeps exactly the accepted elements, each as often as in the input, in input order |
| Seqs.FilterKeepsAll | graphQL/schema/resolvers.mjs:31 | a filter that accepts every element returns the sequence unchanged |
| Seqs.Select | graphQL/schema/resolvers.mjs:63-99 | `filter` with a throwing callback: it fails exactly when some element throws, and then with the first fault; otherwise the result is an order-preserving selection holding each accepted element exactly as often as the input and no other |
| Seqs.SelectIsFilter | graphQL/schema/resolvers.mjs:31-38 | when nothing throws, the throwing filter equals the plain filter on accepted elements |
| Seqs.Without | graphQL/schema/resolvers.mjs:188 | removing a friend id drops every occurrence of it, keeps every other id as often as before and in order, and changes nothing when the id is absent |
| Seqs.WithoutUndoesAppend | graphQL/schema/resolvers.mjs:178 | removing an id appended to a list that lacked it restores the list |
| Records.NationalityNameInjective | graphQL/schema/typeDefs.mjs:82-95 | distinct `Nationality` values travel as distinct names |
| Records.IndexOfUser | graphQL/schema/resolvers.mjs:152 | `findIndex` by id returns the first index holding that id, or -1 (`None`) exactly when no user has it |
| Records.FindUser | graphQL/schema/resolvers.mjs:55 | `find` by id returns the first stored user with that id, and returns one exactly when such a user exists |
| Records.FindMovie | graphQL/schema/resolvers.mjs:121 | `find` by movie id returns the first movie with that id, or nothing exactly when no movie has it |
| Filters.UserEntryRaises | graphQL/schema/resolvers.mjs:33-36 | a user filter entry throws exactly for a non-empty list argument against a truthy number or boolean property |
| Filters.UserListEntry | graphQL/schema/resolvers.mjs:33-34 | a list value keeps a user exactly when the property is a non-empty string containing some item or an array listing some item; what it throws is the `includes` error |
| Filters.UserScalarEntry | graphQL/schema/resolvers.mjs:36 | any value other than a list keeps a user exactly when the property is strictly equal to it, and rejects otherwise without throwing |
| Filters.SchemaUserFilterNeverRaises | graphQL/schema/resolvers.mjs:30-51 | a filter shaped like the schema's `UserFilter`, where only `friends` takes a list, never throws, so `FILTER_ERROR` cannot arise from it |
| Filters.NationalityEntry | graphQL/schema/resolvers.mjs:36 | filtering users by a nationality name keeps exactly the users of that nationality |
| Filters.FriendsEntry | graphQL/schema/resolvers.mjs:33-34 | a `friends` list argument keeps the users who list at least one of its ids, and never throws |
| Filters.NullUserEntry | graphQL/schema/resolvers.mjs:36 | a `null` user-filter value keeps only users whose property is explicitly `null`, never users where it is absent |
| Filters.NumericMovieEntry | graphQL/schema/resolvers.mjs:73-77 | a numeric movie-filter value accepts a movie only under `releaseYear`, when the value is above 1800 and the year is equal; it rejects otherwise and never throws |
| Filters.ImplausibleNumberRejects | graphQL/schema/resolvers.mjs:73-77 | one numeric entry that fails the year gate rejects every movie, whatever the other entries are |
| Filters.NoConstraintEntry | graphQL/schema/resolvers.mjs:79-97 | a `null` or `""` movie-filter entry can be removed without changing any movie's verdict |
| Filters.MovieStringIgnoresCase | graphQL/schema/resolvers.mjs:79-81 | a movie string filter gives the same verdict as its lower-cased form |
| Filters.MovieSubstringEntry | graphQL/schema/resolvers.mjs:79-81 | a non-empty string on a string property accepts exactly when it occurs in the property, ignoring case, and rejects otherwise |
| Filters.MovieListEntry | graphQL/schema/resolvers.mjs:65-72 | a list value keeps a movie exactly when the property is a non-empty string containing some item, ignoring case; a list with an empty item keeps every such movie; it throws the `toLowerCase` error exactly when the list is non-empty and the property is truthy but not a string |
| Filters.MovieBoolEntry | graphQL/schema/resolvers.mjs:85-87 | a boolean value keeps a movie exactly when the property is that boolean, and rejects otherwise without throwing |
| Filters.MovieObjectEntry | graphQL/schema/resolvers.mjs:89-93 | an empty object value keeps every movie; a non-empty one throws on a missing or `null` property, naming its first sub-key, and rejects every other movie |
| Queries.Users | graphQL/schema/resolvers.mjs:21-52 | without a filter: every user, with `success` true and the all-users message; with one: an order-preserving selection holding each user every entry accepts as often as the store, with the filtered message; `success` is false exactly when some user makes the filter throw, and then the payload has code `FILTER_ERROR`, no users, and the message of the first throwing user's fault, or `Failed to filter users` when that message is empty |
| Queries.EmptyUserFilterKeepsAll | graphQL/schema/resolvers.mjs:30-44 | the empty filter `{}` returns every user with `success` true |
| Queries.NationalityQuery | graphQL/schema/resolvers.mjs:31-38 | `{nationality: N}` returns exactly the users of nationality `N`, in store order |
| Queries.Friends | graphQL/schema/resolvers.mjs:54-58 | `friends(userId)` is an order-preserving selection of the store holding each user whose id the first matching user lists, as often as in the store, and no other; it is empty when no user matches |
| Queries.Movies | graphQL/schema/resolvers.mjs:60-102 | without a filter: every movie; otherwise an order-preserving selection holding each accepted movie as often as the input and no other, or a failure exactly when some movie makes the filter throw, carrying the first throwing movie's fault |
| Queries.ImplausibleNumberReturnsNothing | graphQL/schema/resolvers.mjs:63-77 | a numeric entry other than a plausible `releaseYear` makes the movie query return no movie |
| Queries.NoConstraintQuery | graphQL/schema/resolvers.mjs:63-98 | removing a `null` or `""` entry leaves the movie query's outcome unchanged |
| Queries.StringFilterOnMissingPropertyFails | graphQL/schema/resolvers.mjs:79-81 | a non-empty string filter on a property that some movie lacks fails the whole movie query |
| UserFields.ResolveFriends | graphQL/schema/resolvers.mjs:126-134 | `User.friends` has one entry per friend id, in list order: the first stored user with that id, or a hole exactly when no user has it |
| UserFields.FriendsFieldMatchesQuery | graphQL/schema/resolvers.mjs:126-134 | every resolved `User.friends` entry is in the `friends(userId)` answer, and every user in that answer shares its id with a resolved entry |
| UserFields.DistinctDrawsBound | graphQL/schema/resolvers.mjs:112-116 | at most ten draws can be pairwise different, so the seeding loop stops |
| UserFields.SeedFrom | graphQL/schema/resolvers.mjs:113-116 | from any repeat-free prefix, the loop ends with the ids of the first draws, with no repeats and at most ten of them, and the next draw is a repeat |
| UserFields.Seed | graphQL/schema/resolvers.mjs:109-117 | the seeded favourites are the ids of the first 1 to 10 draws, without repeats, and the draw right after them repeats one of them |
| UserFields.MoviesOf | graphQL/schema/resolvers.mjs:120-123 | each favourite id maps to the first movie with that id, or to `null` exactly when no movie has it; order and length are kept |
| UserFields.FavoriteMovies | graphQL/schema/resolvers.mjs:106-124 | an empty favourites list is seeded into that user's record in memory and nothing is persisted; a non-empty list leaves the store alone; the result maps the list afterwards |
| UserFields.FavoriteMoviesSettles | graphQL/schema/resolvers.mjs:109-117 | once seeded the list is never regenerated: a second resolution with any draws gives the same movies and the same store |
| Mutations.WithSchemaDefaults | graphQL/schema/typeDefs.mjs:58 | an omitted `nationality` in `UserInput` becomes `Indian`; an explicit one, `null` included, is kept, and no other field changes |
| Mutations.AddUser | graphQL/schema/resolvers.mjs:138-149 | appends exactly one record, whose id is the shortest decimal spelling of the old length plus one, with empty `friends` and `favoriteMovies` and the input's fields; earlier entries are unchanged and the store is persisted |
| Mutations.UpdateUser | graphQL/schema/resolvers.mjs:151-160 | an absent id gives `null` and no change or write; otherwise only the first matching record is replaced, input fields win, omitted optional fields, id, friends and favourites are kept |
| Mutations.UpdateResetsNationality | graphQL/schema/resolvers.mjs:155 | through the schema default, an update that omits `nationality` sets it to `Indian` |
| Mutations.UpdateIdempotent | graphQL/schema/resolvers.mjs:151-160 | applying the same update twice gives the same record and store as applying it once |
| Mutations.DeleteUser | graphQL/schema/resolvers.mjs:162-170 | an absent id gives `false` and no change or write; otherwise `true`, and exactly the first matching index is removed |
| Mutations.AddThenDeleteRestores | graphQL/schema/resolvers.mjs:138-170 | adding a user, then deleting it by its new id, restores the store when no user already had that id |
| Mutations.IdsCanCollide | graphQL/schema/resolvers.mjs:140 | after a deletion, the next added user gets an id that is still in use |
| Mutations.ConsecutiveAddsGetDistinctIds | graphQL/schema/resolvers.mjs:140 | two users added one after the other receive different ids |
| Mutations.AddFriend | graphQL/schema/resolvers.mjs:172-182 | `null` exactly when either user is missing or the edge exists, and then no change or write; otherwise the result is the first matching user with the friend id appended, that record alone is replaced, the store is persisted, and no reciprocal edge is added |
| Mutations.AddFriendTwice | graphQL/schema/resolvers.mjs:176 | repeating a successful `addFriend` at once returns `null` and changes nothing |
| Mutations.RemoveFriend | graphQL/schema/resolvers.mjs:184-192 | `null` exactly when the user is missing or does not list the friend id, and then no change or write; otherwise the result is that user with every occurrence removed and every other id kept as often as before and in order, that record alone is replaced, and the store is persisted |
| Mutations.RemoveFriendTwice | graphQL/schema/resolvers.mjs:186 | repeating a successful `removeFriend` at once returns `null` and changes nothing |
| Mutations.AddThenRemoveFriendRestores | graphQL/schema/resolvers.mjs:172-192 | a successful `addFriend` is undone by `removeFriend` with the same ids |
| Mutations.ToggleUserActiveStatus | graphQL/schema/resolvers.mjs:194-202 | an absent id gives `null` and no change or write; otherwise only `isActive` of the first match changes, to true exactly when it was not true, so an absent or `null` status becomes true |
| Mutations.ToggleTwice | graphQL/schema/resolvers.mjs:194-202 | toggling twice restores a boolean status; an absent or `null` status ends up `false` |
| UsersResult.InsertByName | graphQL/schema/resolvers.mjs:216 | inserting into a list sorted by name keeps it sorted and adds exactly one user |
| UsersResult.SortByName | graphQL/schema/resolvers.mjs:216 | the sort by name yields a list ordered by the collation and holding exactly the same users |
| UsersResult.Resolve | graphQL/schema/resolvers.mjs:205-236 | the success variant is chosen exactly when `success` is true, and the resolved `success` is true exactly for it; a non-empty payload message is kept, an absent or empty one becomes `Users fetched successfully` or `An error occurred` by variant; a non-empty error code is kept, an absent or empty one becomes `UNKNOWN_ERROR`; the success variant's users are the payload's, sorted by name |
| UsersResult.UsersQuery | graphQL/schema/resolvers.mjs:214-217 | the served `users` query reports `success` exactly for the success variant; without a filter the store is left sorted by name, with a filter it is untouched, and it always keeps the same users |
| UsersResult.UsersPayloadVariant | graphQL/schema/resolvers.mjs:206-210 | a `users` payload resolves to `UsersErrorResult` exactly when a filter was given and some user made it throw |
| UsersResult.UsersQueryMessages | graphQL/schema/resolvers.mjs:21-52 | the served query's message is the all-users text without a filter and the filtered text on success with one; the error variant carries `FILTER_ERROR` and the message of the first throwing user's fault |

## Left out

- Persistence: `fs.writeFileSync` of the whole user list is the `persisted` flag of `Step`; the file contents, and I/O failures, are not modelled.
- Loading: reading and parsing the users and movies files in `graphQL/schema/fakeData.mjs` is replaced by passing both lists in.
- Server: the Apollo server start-up in `graphQL/index.mjs` and the GraphQL engine itself (parsing, validation, argument coercion other than the `nationality` default) are not part of this model.
- Randomness: `Math.random` in the favourite-movie seeding is replaced by a list of draws passed in; each draw is the value of `Math.floor(Math.random() * 10)`.
- `User.favoriteMovies`: the `if (!user) return []` guard is not modelled, because the parent object is always a stored user. The parent is identified by its index in the store.
- Records whose `friends` or `favoriteMovies` list is absent are not modelled: both are always lists. So the `!user.friends` and `!friends` guards never fire. On such a record, `addFriend` and `removeFriend` would throw when they call `user.friends.includes`.
- List filter arguments with `null` elements are not modelled: list elements are strings.
- Lower-casing covers ASCII letters only; Unicode case mapping is left out.
- Nested-object movie filters: reading a property of a defined primitive gives `undefined` in the model. This ignores `length` and index properties of strings. The schema's `MovieFilter` cannot deliver an object value in any case.
- Numbers are exact reals standing for doubles. Rounding is left out: the resolvers only compare numbers, they never compute with them.
- Error texts: the messages of the engine's `TypeError`s are a parameter, `describe`.
- `UsersResult.UsersQuery` assumes the client selects the `users` field of the success variant, which is what triggers the sort.
- `UsersResult.SortByName`: `Array.prototype.sort` is stable and the model's insertion sort is too, but the contract states only the order and the permutation. `localeCompare` is an abstract total preorder on names.
- The plain-list variant of the users query, and the unused `UserSortField` enum, are not part of this model.
- Concurrency and the interleaving of file writes across processes are not modelled: resolvers run one at a time.
