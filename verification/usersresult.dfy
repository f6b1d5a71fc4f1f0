/**
 * The `UsersResult` union: choosing the variant of a `Query.users` payload
 * and the field resolvers of `UsersSuccessResult` and `UsersErrorResult`,
 * which fill in defaults and sort the users by name.
 */
module UsersResult {
  import opened Outcomes
  import opened Js
  import opened Records
  import opened Filters
  import opened Queries

  datatype TypeName = UsersSuccessResult | UsersErrorResult

  /** `__resolveType`: a truthy `success` selects the success variant. */
  function ResolveType(p: UsersPayload): TypeName
  {
    if p.success == Some(true) then UsersSuccessResult else UsersErrorResult
  }

  /** `obj.x || fallback` for an optional string. */
  function OrDefault(x: Option<string>, fallback: string): string
  {
    if x.Some? && x.value != "" then x.value else fallback
  }

  const DefaultSuccessMessage := "Users fetched successfully"
  const DefaultErrorCode := "UNKNOWN_ERROR"
  const DefaultErrorMessage := "An error occurred"

  // ------------------------------------------------------------ ordering

  /**
   * `a.localeCompare(b) <= 0`, left abstract: any total preorder on names
   * (ties allowed, as between names that collate equally).
   */
  ghost predicate IsCollation(collate: (string, string) -> bool)
  {
    && (forall a, b :: collate(a, b) || collate(b, a))
    && (forall a, b, c :: collate(a, b) && collate(b, c) ==> collate(a, c))
  }

  predicate SortedByName(users: seq<User>, collate: (string, string) -> bool)
  {
    forall i, j :: 0 <= i < j < |users| ==> collate(users[i].name, users[j].name)
  }

  /** Insert `u` into a sorted list after every user whose name does not collate after it. */
  function InsertByName(sorted: seq<User>, u: User, collate: (string, string) -> bool): (r: seq<User>)
    requires IsCollation(collate) && SortedByName(sorted, collate)
    ensures SortedByName(r, collate)
    ensures multiset(r) == multiset(sorted) + multiset{u}
    ensures |r| == |sorted| + 1
    decreases |sorted|
  {
    if sorted == [] then [u]
    else
      var last := sorted[|sorted| - 1];
      var init := sorted[..|sorted| - 1];
      assert sorted == init + [last];
      if collate(last.name, u.name) then sorted + [u]
      else
        var rest := InsertByName(init, u, collate);
        forall x | x in rest
          ensures collate(x.name, last.name)
        {
          assert x in multiset(rest);
          if x != u {
            assert x in multiset(init);
            var k :| 0 <= k < |init| && init[k] == x;
            assert sorted[k] == x;
          }
        }
        rest + [last]
  }

  /**
   * The in-place sort of the success variant's users, comparing names: a stable sort by
   * name; the result is ordered and holds exactly the same users.
   */
  function SortByName(users: seq<User>, collate: (string, string) -> bool): (r: seq<User>)
    requires IsCollation(collate)
    ensures SortedByName(r, collate)
    ensures multiset(r) == multiset(users)
    ensures |r| == |users|
  {
    if users == [] then []
    else
      assert users == users[..|users| - 1] + [users[|users| - 1]];
      InsertByName(SortByName(users[..|users| - 1], collate), users[|users| - 1], collate)
  }

  // ------------------------------------------------------ resolved result

  /** The union value as a client sees it, every field resolved. */
  datatype UsersView =
    | SuccessView(success: bool, message: string, users: seq<User>)
    | ErrorView(success: bool, message: string, errorCode: string)

  /** Resolve the variant, then each of its fields with its default. */
  function Resolve(p: UsersPayload, collate: (string, string) -> bool): (r: UsersView)
    requires IsCollation(collate)
    ensures r.SuccessView? <==> p.success == Some(true)
    ensures r.message != ""
    ensures r.SuccessView? ==> SortedByName(r.users, collate)
    ensures r.SuccessView? ==> multiset(r.users) == multiset(if p.users.Some? then p.users.value else [])
    ensures r.ErrorView? ==> r.errorCode != ""
    ensures r.success <==> r.SuccessView?
    ensures p.message.Some? && p.message.value != "" ==> r.message == p.message.value
    ensures r.SuccessView? && (p.message.None? || p.message == Some("")) ==> r.message == DefaultSuccessMessage
    ensures r.ErrorView? && (p.message.None? || p.message == Some("")) ==> r.message == DefaultErrorMessage
    ensures r.ErrorView? && p.errorCode.Some? && p.errorCode.value != "" ==> r.errorCode == p.errorCode.value
    ensures r.ErrorView? && (p.errorCode.None? || p.errorCode == Some("")) ==> r.errorCode == DefaultErrorCode
  {
    match ResolveType(p)
    case UsersSuccessResult =>
      SuccessView(
        if p.success.Some? then p.success.value else true,
        OrDefault(p.message, DefaultSuccessMessage),
        SortByName(if p.users.Some? then p.users.value else [], collate))
    case UsersErrorResult =>
      ErrorView(
        if p.success.Some? then p.success.value else false,
        OrDefault(p.message, DefaultErrorMessage),
        OrDefault(p.errorCode, DefaultErrorCode))
  }

  /**
   * The `users` query as served: the payload resolved into its variant, and
   * the store afterwards. Without a filter the payload's list is the store
   * itself, so the in-place sort of the `users` field reorders the store.
   */
  function UsersQuery(store: seq<User>, filter: Option<UserFilter>, describe: Fault -> string,
                      collate: (string, string) -> bool): (r: (UsersView, seq<User>))
    requires IsCollation(collate)
    ensures r.0.success <==> r.0.SuccessView?
    ensures filter.None? ==> r.0.SuccessView? && r.0.users == r.1 && SortedByName(r.1, collate)
    ensures filter.Some? ==> r.1 == store
    ensures multiset(r.1) == multiset(store)
  {
    var p := Users(store, filter, describe);
    var view := Resolve(p, collate);
    (view, if filter.None? then view.users else store)
  }

  /** A `users` payload resolves to the error variant exactly when some user made the filter throw. */
  lemma UsersPayloadVariant(store: seq<User>, filter: Option<UserFilter>, describe: Fault -> string)
    ensures ResolveType(Users(store, filter, describe)) == UsersErrorResult <==>
            filter.Some? && exists i :: 0 <= i < |store| && UserVerdict(store[i], filter.value).Raise?
  {
  }

  /**
   * The messages a client of the `users` query reads: the unfiltered and
   * filtered success texts, or `FILTER_ERROR` with the message of the fault
   * the first throwing user raised.
   */
  lemma UsersQueryMessages(store: seq<User>, filter: Option<UserFilter>, describe: Fault -> string,
                           collate: (string, string) -> bool)
    requires IsCollation(collate)
    ensures var v := UsersQuery(store, filter, describe, collate).0;
            && (filter.None? ==> v.message == AllUsersMessage)
            && (filter.Some? && v.SuccessView? ==> v.message == FilteredUsersMessage)
            && (filter.Some? && v.ErrorView? ==>
                  v.errorCode == FilterErrorCode &&
                  exists i :: 0 <= i < |store| && UserVerdict(store[i], filter.value).Raise? &&
                              (forall j :: 0 <= j < i ==> !UserVerdict(store[j], filter.value).Raise?) &&
                              v.message == FaultMessage(describe, UserVerdict(store[i], filter.value).fault))
  {
  }
}
