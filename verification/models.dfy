/**
 * The `users` table: one record per user who has signed in with the identity
 * provider, holding that user's provider credentials.
 */
module Models {
  import opened Wrappers

  /**
   * One row of the `users` table. `googleSub` is the provider's stable subject
   * identifier (required); every other column except `id` may be null.
   * `expiresAt` is the access token's expiry in epoch seconds.
   */
  datatype User = User(
    id: nat,
    googleSub: string,
    email: Option<string>,
    accessToken: Option<string>,
    refreshToken: Option<string>,
    expiresAt: Option<int>)

  /** The identity provider's profile of the signed-in user (its `sub` and `email` claims). */
  datatype Profile = Profile(sub: string, email: Option<string>)

  /**
   * A token payload from the provider's token endpoint. `accessToken` and
   * `expiresAt` are read with `get`, so a missing key reads as null.
   * `refreshToken` keeps the difference between a payload WITHOUT the key
   * (`None`) and one carrying it, possibly with a null value (`Some(v)`).
   */
  datatype Token = Token(
    accessToken: Option<string>,
    expiresAt: Option<int>,
    refreshToken: Option<Option<string>>)

  /**
   * The table's constraints: `id` is the primary key, `google_sub` is unique,
   * and `email` is unique among the rows where it is not null (SQL unique
   * constraints do not compare nulls).
   */
  ghost predicate UniqueKeys(users: seq<User>)
    ensures UniqueKeys(users) ==> forall i, j :: 0 <= i < |users| && 0 <= j < |users| && i != j ==>
      && users[i].id != users[j].id
      && users[i].googleSub != users[j].googleSub
      && (users[i].email.Some? ==> users[i].email != users[j].email)
  {
    forall i, j :: 0 <= i < j < |users| ==>
      && users[i].id != users[j].id
      && users[i].googleSub != users[j].googleSub
      && (users[i].email.Some? ==> users[i].email != users[j].email)
  }

  /** The row a filtered `.first()` query yields: the index of the first row satisfying `p`. */
  function First(users: seq<User>, p: User -> bool): (r: Option<nat>)
    ensures r.Some? ==> r.value < |users| && p(users[r.value])
    ensures r.Some? ==> forall j :: 0 <= j < r.value ==> !p(users[j])
    ensures r.None? ==> forall j :: 0 <= j < |users| ==> !p(users[j])
  {
    if |users| == 0 then None
    else if p(users[0]) then Some(0)
    else match First(users[1..], p)
      case None => None
      case Some(k) => Some(k + 1)
  }

  /** The index of the row whose `google_sub` equals `sub`, if there is one. */
  function IndexOfSub(users: seq<User>, sub: string): (r: Option<nat>)
    ensures r.Some? ==> r.value < |users| && users[r.value].googleSub == sub
    ensures r.None? <==> forall j :: 0 <= j < |users| ==> users[j].googleSub != sub
  {
    First(users, (u: User) => u.googleSub == sub)
  }

  /** The index of the row whose `email` equals `email`, if there is one (a null email matches nothing). */
  function IndexOfEmail(users: seq<User>, email: string): (r: Option<nat>)
    ensures r.Some? ==> r.value < |users| && users[r.value].email == Some(email)
    ensures r.None? <==> forall j :: 0 <= j < |users| ==> users[j].email != Some(email)
  {
    First(users, (u: User) => u.email == Some(email))
  }

  /** Under the table's constraints, a row matching a subject is the one the query returns. */
  lemma SubIdentifiesRow(users: seq<User>, sub: string, i: nat)
    requires UniqueKeys(users)
    requires i < |users| && users[i].googleSub == sub
    ensures IndexOfSub(users, sub) == Some(i)
  {
  }

  /** Under the table's constraints, a row matching an email is the one the query returns. */
  lemma EmailIdentifiesRow(users: seq<User>, email: string, i: nat)
    requires UniqueKeys(users)
    requires i < |users| && users[i].email == Some(email)
    ensures IndexOfEmail(users, email) == Some(i)
  {
  }
}
