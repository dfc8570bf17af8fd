/**
 * The credential repository: lookup by subject, the login-time upsert with its
 * "sticky" refresh token, and the token-only update used after a refresh.
 */
module Crud {
  import opened Wrappers
  import opened Models

  /** Why a commit was refused by the database. */
  datatype DbError = IntegrityError

  /** One `setattr(user, key, value)` of the upsert: the column it writes and the value. */
  datatype Assignment =
    | SetGoogleSub(sub: string)
    | SetEmail(email: Option<string>)
    | SetAccessToken(accessToken: Option<string>)
    | SetExpiresAt(expiresAt: Option<int>)
    | SetRefreshToken(refreshToken: Option<string>)

  /**
   * The `user_data` mapping built from a profile and a token payload. The
   * `refresh_token` entry is present only when the payload has that key.
   */
  function UserData(profile: Profile, token: Token): (data: seq<Assignment>)
    ensures 4 <= |data| <= 5
    ensures data[..4] == [SetGoogleSub(profile.sub), SetEmail(profile.email),
                          SetAccessToken(token.accessToken), SetExpiresAt(token.expiresAt)]
    ensures (exists k :: 0 <= k < |data| && data[k].SetRefreshToken?) <==> token.refreshToken.Some?
    ensures token.refreshToken.Some? ==> data[4] == SetRefreshToken(token.refreshToken.value)
  {
    var columns := [ SetGoogleSub(profile.sub),
                     SetEmail(profile.email),
                     SetAccessToken(token.accessToken),
                     SetExpiresAt(token.expiresAt) ];
    assert forall k :: 0 <= k < |columns| ==> !columns[k].SetRefreshToken?;
    if token.refreshToken.Some? then
      var data := columns + [SetRefreshToken(token.refreshToken.value)];
      assert data[4].SetRefreshToken?;
      data
    else columns
  }

  /** One `setattr`: it writes the column `a` names and leaves the key and every other column alone. */
  function SetAttr(u: User, a: Assignment): (v: User)
    ensures v.id == u.id
    ensures !a.SetRefreshToken? ==> v.refreshToken == u.refreshToken
    ensures !a.SetEmail? ==> v.email == u.email
    ensures a.SetRefreshToken? ==> v.refreshToken == a.refreshToken
  {
    match a
    case SetGoogleSub(s) => u.(googleSub := s)
    case SetEmail(e) => u.(email := e)
    case SetAccessToken(t) => u.(accessToken := t)
    case SetExpiresAt(x) => u.(expiresAt := x)
    case SetRefreshToken(t) => u.(refreshToken := t)
  }

  /** The record after the assignments of `data` have been made to `u`, in order. */
  function Applied(u: User, data: seq<Assignment>): (v: User)
    ensures v.id == u.id
    ensures (forall k :: 0 <= k < |data| ==> !data[k].SetRefreshToken?) ==> v.refreshToken == u.refreshToken
  {
    if data == [] then u
    else SetAttr(Applied(u, data[..|data| - 1]), data[|data| - 1])
  }

  /**
   * The upsert's effect on a record, field by field: subject, email, access
   * token and expiry come from the profile and payload; the refresh token is
   * replaced only when the payload carries the key.
   */
  function Merge(u: User, profile: Profile, token: Token): User {
    u.(googleSub := profile.sub,
       email := profile.email,
       accessToken := token.accessToken,
       expiresAt := token.expiresAt,
       refreshToken := if token.refreshToken.Some? then token.refreshToken.value else u.refreshToken)
  }

  /**
   * A record as `User(**user_data)` starts out before its columns are set,
   * carrying the key the database will assign to it on commit.
   */
  function Blank(id: nat): User {
    User(id, "", None, None, None, None)
  }

  /** Making the `user_data` assignments one by one is the field-by-field merge. */
  lemma {:induction false} UserDataMerges(u: User, profile: Profile, token: Token)
    ensures Applied(u, UserData(profile, token)) == Merge(u, profile, token)
  {
    var d := UserData(profile, token);
    var d4 := d[..4];
    assert d4[..1] == [SetGoogleSub(profile.sub)] && d4[..1][..0] == [];
    assert d4[..2][..1] == d4[..1] && d4[..3][..2] == d4[..2] && d4[..3] == d4[..|d4| - 1];
    var u1 := Applied(u, d4[..1]);
    assert Applied(u, d4[..1][..0]) == u;
    assert u1 == u.(googleSub := profile.sub);
    var u2 := Applied(u, d4[..2]);
    assert u2 == u1.(email := profile.email);
    var u3 := Applied(u, d4[..3]);
    assert u3 == u2.(accessToken := token.accessToken);
    var u4 := Applied(u, d4);
    assert u4 == u3.(expiresAt := token.expiresAt);
    if token.refreshToken.Some? {
      assert d[..|d| - 1] == d4;
    } else {
      assert d == d4;
    }
  }

  /** The upsert overwrites subject, email, access token and expiry, and keeps the id. */
  lemma UpsertOverwrites(u: User, profile: Profile, token: Token)
    ensures var v := Applied(u, UserData(profile, token));
      && v.id == u.id
      && v.googleSub == profile.sub
      && v.email == profile.email
      && v.accessToken == token.accessToken
      && v.expiresAt == token.expiresAt
  {
    UserDataMerges(u, profile, token);
  }

  /** Without a `refresh_token` key in the payload the stored refresh token survives the upsert. */
  lemma RefreshTokenSticky(u: User, profile: Profile, token: Token)
    requires token.refreshToken.None?
    ensures Applied(u, UserData(profile, token)).refreshToken == u.refreshToken
  {
    UserDataMerges(u, profile, token);
  }

  /** With the key present its value is stored, even when that value is null. */
  lemma RefreshTokenReplaced(u: User, profile: Profile, token: Token)
    requires token.refreshToken.Some?
    ensures Applied(u, UserData(profile, token)).refreshToken == token.refreshToken.value
  {
    UserDataMerges(u, profile, token);
  }

  /** A record created by the upsert has a null refresh token unless the payload carried one. */
  lemma NewUserFields(id: nat, profile: Profile, token: Token)
    ensures var v := Applied(Blank(id), UserData(profile, token));
      && v == User(id, profile.sub, profile.email, token.accessToken,
                   if token.refreshToken.Some? then token.refreshToken.value else None,
                   token.expiresAt)
  {
    UserDataMerges(Blank(id), profile, token);
  }

  /** Signing in twice with the same profile and payload leaves the record as after the first time. */
  lemma UpsertIdempotent(u: User, profile: Profile, token: Token)
    ensures var once := Applied(u, UserData(profile, token));
      Applied(once, UserData(profile, token)) == once
  {
    UserDataMerges(u, profile, token);
    UserDataMerges(Applied(u, UserData(profile, token)), profile, token);
  }

  /** Whether `email` (when not null) is held by some row other than the one at `except`. */
  predicate EmailTaken(users: seq<User>, email: Option<string>, except: nat) {
    email.Some? && exists j :: 0 <= j < |users| && j != except && users[j].email == email
  }

  /**
   * `after` is `before` with the access token and expiry of the row for `sub`
   * taken from `token`; every other row and every other column is unchanged.
   */
  ghost predicate TokenUpdated(before: seq<User>, after: seq<User>, sub: string, token: Token) {
    && |after| == |before|
    && forall i :: 0 <= i < |before| ==>
         after[i] == if before[i].googleSub == sub
                     then before[i].(accessToken := token.accessToken, expiresAt := token.expiresAt)
                     else before[i]
  }

  /** Where the upsert writes: the index of the subject's row, or one past the end for a new row. */
  function UpsertSlot(users: seq<User>, sub: string): (slot: nat)
    ensures slot <= |users|
    ensures slot < |users| <==> exists i :: 0 <= i < |users| && users[i].googleSub == sub
    ensures slot < |users| ==> users[slot].googleSub == sub
  {
    match IndexOfSub(users, sub)
    case Some(i) => i
    case None => |users|
  }

  /**
   * The upsert's outcome on a table whose next key is `nextId`: a commit that
   * would give another row the same email fails; otherwise the table with the
   * subject's row merged, or with a new row appended, and that row.
   */
  function Upserted(users: seq<User>, nextId: nat, profile: Profile, token: Token): (r: Result<(seq<User>, User), DbError>)
    ensures r.Err? <==> EmailTaken(users, profile.email, UpsertSlot(users, profile.sub))
    ensures r.Ok? ==>
      && r.value.1 in r.value.0
      && r.value.1.googleSub == profile.sub && r.value.1.email == profile.email
      && |r.value.0| == |users| + (if UpsertSlot(users, profile.sub) < |users| then 0 else 1)
  {
    var slot := UpsertSlot(users, profile.sub);
    if profile.email.Some? && exists j :: 0 <= j < |users| && j != slot && users[j].email == profile.email
    then Err(IntegrityError)
    else if slot < |users| then
      var v := Merge(users[slot], profile, token);
      assert users[slot := v][slot] == v;
      Ok((users[slot := v], v))
    else
      var v := Merge(Blank(nextId), profile, token);
      assert (users + [v])[|users|] == v;
      Ok((users + [v], v))
  }

  /** A token update never touches keys, email or refresh token, so the table's constraints survive it. */
  lemma TokenUpdatedKeepsCredentials(before: seq<User>, after: seq<User>, sub: string, token: Token)
    requires TokenUpdated(before, after, sub, token)
    ensures forall i :: 0 <= i < |after| ==>
      && after[i].id == before[i].id
      && after[i].googleSub == before[i].googleSub
      && after[i].email == before[i].email
      && after[i].refreshToken == before[i].refreshToken
    ensures UniqueKeys(before) ==> UniqueKeys(after)
  {
  }

  /** The `users` table, with the next primary key the database will assign. */
  class Database {
    var users: seq<User>
    var nextId: nat

    ghost predicate Valid()
      reads this
    {
      && UniqueKeys(users)
      && forall i :: 0 <= i < |users| ==> users[i].id < nextId
    }

    /** An empty table; the first key assigned is 1. */
    constructor ()
      ensures Valid() && users == [] && nextId == 1
    {
      users := [];
      nextId := 1;
    }

    /** `get_user_by_google_sub`: the row for `sub`, or none; nothing changes. */
    method GetUserByGoogleSub(sub: string) returns (u: Option<User>)
      requires Valid()
      ensures u.Some? <==> exists i :: 0 <= i < |users| && users[i].googleSub == sub
      ensures u.Some? ==> u.value in users && u.value.googleSub == sub
      ensures forall v :: v in users && v.googleSub == sub ==> u == Some(v)
    {
      var k := IndexOfSub(users, sub);
      u := if k.Some? then Some(users[k.value]) else None;
      forall v | v in users && v.googleSub == sub ensures u == Some(v) {
        var i :| 0 <= i < |users| && users[i] == v;
        SubIdentifiesRow(users, sub, i);
      }
    }

    /**
     * `create_or_update_user`: the row for `profile.sub` is updated with
     * `Merge`, or a row is added when there is none. A commit that would give
     * two rows the same email fails and leaves the table as it was.
     */
    method CreateOrUpdateUser(profile: Profile, token: Token) returns (r: Result<User, DbError>)
      requires Valid()
      modifies this
      ensures Valid()
      ensures old(IndexOfSub(users, profile.sub)).Some? ==>
        var i := old(IndexOfSub(users, profile.sub)).value;
        var v := Merge(old(users)[i], profile, token);
        && nextId == old(nextId)
        && (EmailTaken(old(users), profile.email, i) ==> r == Err(IntegrityError) && users == old(users))
        && (!EmailTaken(old(users), profile.email, i) ==> r == Ok(v) && users == old(users)[i := v])
      ensures old(IndexOfSub(users, profile.sub)).None? ==>
        var v := Merge(Blank(old(nextId)), profile, token);
        && (EmailTaken(old(users), profile.email, |old(users)|) ==>
              r == Err(IntegrityError) && users == old(users) && nextId == old(nextId))
        && (!EmailTaken(old(users), profile.email, |old(users)|) ==>
              r == Ok(v) && users == old(users) + [v] && nextId == old(nextId) + 1)
      ensures match old(Upserted(users, nextId, profile, token))
        case Err(e) => r == Err(e) && users == old(users)
        case Ok(result) => r == Ok(result.1) && users == result.0
      ensures r.Ok? ==> r.value in users && r.value.googleSub == profile.sub && r.value.email == profile.email
    {
      var k := IndexOfSub(users, profile.sub);
      var data := UserData(profile, token);
      // An existing row has its columns set one by one; a new row is built
      // from the same mapping, starting from a record with only its key.
      var start := if k.Some? then users[k.value] else Blank(nextId);
      var rec := start;
      var n := 0;
      while n < |data|
        invariant 0 <= n <= |data|
        invariant rec == Applied(start, data[..n])
      {
        assert data[..n + 1][..n] == data[..n];
        rec := SetAttr(rec, data[n]);
        n := n + 1;
      }
      assert data[..n] == data;
      UserDataMerges(start, profile, token);
      var at := if k.Some? then k.value else |users|;
      var clash := profile.email.Some? && exists j :: 0 <= j < |users| && j != at && users[j].email == profile.email;
      if clash {
        r := Err(IntegrityError);
      } else if k.Some? {
        users := users[k.value := rec];
        assert users[k.value] == rec;
        r := Ok(rec);
      } else {
        users := users + [rec];
        assert users[|users| - 1] == rec;
        nextId := nextId + 1;
        r := Ok(rec);
      }
    }

    /**
     * `update_user_token`: the row for `sub` gets the payload's access token
     * and expiry and nothing else changes; an unknown subject creates nothing.
     */
    method UpdateUserToken(sub: string, token: Token) returns (r: Option<User>)
      requires Valid()
      modifies this
      ensures Valid() && nextId == old(nextId)
      ensures TokenUpdated(old(users), users, sub, token)
      ensures r.Some? <==> exists i :: 0 <= i < |old(users)| && old(users)[i].googleSub == sub
      ensures r.None? ==> users == old(users)
      ensures r.Some? ==>
        && r.value in users && r.value.googleSub == sub
        && r.value.accessToken == token.accessToken && r.value.expiresAt == token.expiresAt
    {
      var k := IndexOfSub(users, sub);
      if k.Some? {
        var i := k.value;
        var v := users[i].(accessToken := token.accessToken, expiresAt := token.expiresAt);
        forall j | 0 <= j < |users| && j != i ensures users[j].googleSub != sub {
          SubIdentifiesRow(users, sub, i);
        }
        users := users[i := v];
        r := Some(v);
      } else {
        r := None;
      }
    }
  }
}
