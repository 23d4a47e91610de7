/** Cookie-backed sign-in: the live auth sessions and who owns each chat. */
module AuthSessions {
  import opened Collections
  import opened Wrappers

  const REGISTERED_PREFIX := "usr_"
  const ANONYMOUS_PREFIX := "anon_"

  predicate IsRegistered(user: string) {
    REGISTERED_PREFIX <= user
  }

  predicate IsAnonymous(user: string) {
    ANONYMOUS_PREFIX <= user
  }

  /** A principal says what it is by how it begins. */
  lemma PrincipalsByPrefix(user: string)
    ensures IsAnonymous(user) <==> |user| >= 5 && user[..5] == "anon_"
    ensures IsRegistered(user) <==> |user| >= 4 && user[..4] == "usr_"
  {
  }

  lemma NobodyIsBoth(user: string)
    ensures !(IsRegistered(user) && IsAnonymous(user))
  {
    assert IsRegistered(user) ==> user[0] == 'u';
    assert IsAnonymous(user) ==> user[0] == 'a';
  }

  /** A live row. It keeps the cookie's secret itself: SHA-256 is taken as injective. */
  datatype Auth = Auth(secret: string, user: string, expiresAt: int)
  datatype Cookie = Cookie(id: nat, secret: string)

  /** The row a request's cookie resolved to. */
  datatype Resolved = Resolved(id: nat, user: string)

  datatype Db = Db(auth: map<nat, Auth>, chats: map<nat, string>)

  /** No cookie, an unknown id, a wrong secret and an expired row all resolve to nothing. */
  function Lookup(auth: map<nat, Auth>, cookie: Option<Cookie>, now: int): Option<Resolved> {
    if cookie.None? || cookie.value.id !in auth then None
    else
      var row := auth[cookie.value.id];
      if row.secret != cookie.value.secret || row.expiresAt <= now then None
      else Some(Resolved(cookie.value.id, row.user))
  }

  /** The cookie names a row, has its secret, and comes before it expires. */
  predicate Presents(auth: map<nat, Auth>, cookie: Option<Cookie>, now: int) {
    && cookie.Some? && cookie.value.id in auth
    && auth[cookie.value.id].secret == cookie.value.secret && now < auth[cookie.value.id].expiresAt
  }

  function Claimed(chats: map<nat, string>, from: string, to: string): map<nat, string> {
    map c | c in chats :: if chats[c] == from then to else chats[c]
  }

  function LoggedIn(db: Db, prior: Option<Resolved>, user: string, id: nat, row: Auth): Db {
    if prior.None? then db.(auth := db.auth[id := row])
    else
      var chats := if prior.value.user != user && IsAnonymous(prior.value.user)
                   then Claimed(db.chats, prior.value.user, user) else db.chats;
      Db(Without(db.auth, prior.value.id)[id := row], chats)
  }

  function LoggedOut(db: Db, prior: Option<Resolved>): Db {
    if prior.None? then db else db.(auth := Without(db.auth, prior.value.id))
  }

  function RevokedOthers(db: Db, user: string, keep: nat): Db {
    db.(auth := map i | i in db.auth && (db.auth[i].user != user || i == keep) :: db.auth[i])
  }

  class AuthStore {
    var auth: map<nat, Auth>
    var chats: map<nat, string>

    function Value(): Db
      reads this
    {
      Db(auth, chats)
    }

    constructor ()
      ensures Value() == Db(map[], map[])
    {
      auth, chats := map[], map[];
    }

    /** A new row for `user`. The id is a fresh UUID. */
    method CreateAuthSession(user: string, id: nat, secret: string, now: int, ttl: int)
      modifies this
      ensures Value() == old(Value()).(auth := old(auth)[id := Auth(secret, user, now + ttl)])
    {
      auth := auth[id := Auth(secret, user, now + ttl)];
    }

    /** A new anonymous principal, its row and its cookie. */
    method MintPrincipal(suffix: string, id: nat, secret: string, now: int, ttl: int) returns (user: string)
      modifies this
      ensures IsAnonymous(user) && user == "anon_" + suffix
      ensures Value() == old(Value()).(auth := old(auth)[id := Auth(secret, user, now + ttl)])
    {
      user := ANONYMOUS_PREFIX + suffix;
      CreateAuthSession(user, id, secret, now, ttl);
    }

    /** Moves the caller onto `user`: their anonymous chats come along, their old row goes, a new row is made. */
    method ClaimAndLogin(cookie: Option<Cookie>, user: string, id: nat, secret: string, now: int, ttl: int)
      modifies this
      ensures Value() ==
        LoggedIn(old(Value()), Lookup(old(auth), cookie, now), user, id, Auth(secret, user, now + ttl))
      ensures !Presents(old(auth), cookie, now) ==>
        chats == old(chats) && auth == old(auth)[id := Auth(secret, user, now + ttl)]
    {
      var prior := Lookup(auth, cookie, now);
      if prior.Some? {
        if prior.value.user != user && IsAnonymous(prior.value.user) {
          chats := Claimed(chats, prior.value.user, user);
        }
        auth := Without(auth, prior.value.id);
      }
      CreateAuthSession(user, id, secret, now, ttl);
    }

    /** Deletes the caller's row, if the cookie resolves; signing out twice is no error. */
    method RevokeCurrentSession(cookie: Option<Cookie>, now: int) returns (who: Option<string>)
      modifies this
      ensures Value() == LoggedOut(old(Value()), Lookup(old(auth), cookie, now))
      ensures who == if Lookup(old(auth), cookie, now).None? then None
                     else Some(Lookup(old(auth), cookie, now).value.user)
      ensures who.Some? <==> Presents(old(auth), cookie, now)
      ensures who.None? ==> auth == old(auth)
      ensures !Presents(auth, cookie, now) && Lookup(auth, cookie, now).None?
    {
      var row := Lookup(auth, cookie, now);
      if row.None? {
        return None;
      }
      auth := Without(auth, row.value.id);
      return Some(row.value.user);
    }

    /** Deletes every other row of the user, and says how many. */
    method RevokeOtherSessions(user: string, keep: nat) returns (deleted: nat)
      modifies this
      ensures Value() == RevokedOthers(old(Value()), user, keep)
      ensures deleted == |old(auth)| - |auth|
      ensures forall i | i in old(auth) :: i !in auth <==> old(auth)[i].user == user && i != keep
    {
      var doomed := set i | i in auth.Keys && auth[i].user == user && i != keep;
      var kept := map i | i in auth && (auth[i].user != user || i == keep) :: auth[i];
      assert kept.Keys == auth.Keys - doomed;
      assert |kept| == |kept.Keys| && |auth| == |auth.Keys|;
      deleted := |doomed|;
      auth := kept;
    }
  }
}
