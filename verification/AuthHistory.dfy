/** Sign-in over whole runs: sessions, cookies and who owns a chat. */
module AuthHistory {
  import opened Collections
  import opened Wrappers
  import opened AuthSessions

  /**
   A request first resolves its cookie and later commits, and others may commit in
   between; ids and principals are fresh. `born` remembers which principal every id
   ever issued was made for; `pending` holds what each request resolved.
   */
  datatype World = World(db: Db, born: map<nat, string>, pending: map<nat, Option<Resolved>>)

  const START := World(Db(map[], map[]), map[], map[])

  datatype Step =
    | Arrive(req: nat, cookie: Option<Cookie>, now: int)
    | Login(req: nat, account: string, id: nat, row: Auth)
    | Logout(req: nat)
    | CreateChat(req: nat, chat: nat, mint: Minting)
    | ChangePassword(req: nat)

  /** The identity made for a request that resolved to nothing. */
  datatype Minting = Minting(id: nat, row: Auth)

  predicate Fresh(w: World, id: nat) {
    id !in w.born
  }

  predicate FreshPrincipal(w: World, user: string) {
    IsAnonymous(user) && user !in w.born.Values
  }

  predicate Enabled(w: World, s: Step) {
    match s
    case Arrive(req, _, _) => req !in w.pending
    case Login(req, account, id, row) =>
      req in w.pending && IsRegistered(account) && Fresh(w, id) && row.user == account
    case Logout(req) => req in w.pending
    case CreateChat(req, chat, mint) =>
      && req in w.pending && chat !in w.db.chats
      && (w.pending[req].None? ==> Fresh(w, mint.id) && FreshPrincipal(w, mint.row.user))
    case ChangePassword(req) =>
      req in w.pending && w.pending[req].Some? && IsRegistered(w.pending[req].value.user)
  }

  function Arrived(w: World, req: nat, cookie: Option<Cookie>, now: int): World {
    w.(pending := w.pending[req := Lookup(w.db.auth, cookie, now)])
  }

  function Done(w: World, req: nat, db: Db): World {
    w.(db := db, pending := Without(w.pending, req))
  }

  function LoginDone(w: World, req: nat, account: string, id: nat, row: Auth): World
    requires req in w.pending
  {
    Done(w, req, LoggedIn(w.db, w.pending[req], account, id, row)).(born := w.born[id := account])
  }

  function LogoutDone(w: World, req: nat): World
    requires req in w.pending
  {
    Done(w, req, LoggedOut(w.db, w.pending[req]))
  }

  function ChatDone(w: World, req: nat, chat: nat, mint: Minting): World
    requires req in w.pending
  {
    if w.pending[req].Some? then Done(w, req, w.db.(chats := w.db.chats[chat := w.pending[req].value.user]))
    else
      Done(w, req, Db(w.db.auth[mint.id := mint.row], w.db.chats[chat := mint.row.user]))
        .(born := w.born[mint.id := mint.row.user])
  }

  function PasswordDone(w: World, req: nat): World
    requires req in w.pending && w.pending[req].Some?
  {
    Done(w, req, RevokedOthers(w.db, w.pending[req].value.user, w.pending[req].value.id))
  }

  function Apply(w: World, s: Step): World
    requires Enabled(w, s)
  {
    match s
    case Arrive(req, cookie, now) => Arrived(w, req, cookie, now)
    case Login(req, account, id, row) => LoginDone(w, req, account, id, row)
    case Logout(req) => LogoutDone(w, req)
    case CreateChat(req, chat, mint) => ChatDone(w, req, chat, mint)
    case ChangePassword(req) => PasswordDone(w, req)
  }

  /** `ws[i]` is the world before step `i`. */
  predicate Run(ws: seq<World>, steps: seq<Step>) {
    && |ws| == |steps| + 1 && ws[0] == START
    && forall i | 0 <= i < |steps| :: Enabled(ws[i], steps[i]) && ws[i + 1] == Apply(ws[i], steps[i])
  }

  // What every step keeps

  predicate RowsAreBorn(w: World) {
    forall i | i in w.db.auth :: i in w.born && w.born[i] == w.db.auth[i].user
  }

  predicate PendingAreBorn(w: World) {
    forall r | r in w.pending && w.pending[r].Some? ::
      w.pending[r].value.id in w.born && w.born[w.pending[r].value.id] == w.pending[r].value.user
  }

  /** An anonymous principal has had one auth session ever. */
  predicate OneIdEach(born: map<nat, string>) {
    forall i, j | i in born && j in born && born[i] == born[j] && IsAnonymous(born[i]) :: i == j
  }

  /** An id is made for an anonymous principal or an account, and so is a chat. */
  predicate KnownShapes(w: World) {
    && (forall i | i in w.born :: IsAnonymous(w.born[i]) || IsRegistered(w.born[i]))
    && (forall c | c in w.db.chats :: IsAnonymous(w.db.chats[c]) || IsRegistered(w.db.chats[c]))
  }

  predicate Inv(w: World) {
    RowsAreBorn(w) && PendingAreBorn(w) && OneIdEach(w.born) && KnownShapes(w)
  }

  lemma LoginKeepsInv(w: World, req: nat, account: string, id: nat, row: Auth)
    requires Inv(w) && Enabled(w, Login(req, account, id, row))
    ensures Inv(LoginDone(w, req, account, id, row))
  {
    NobodyIsBoth(account);
  }

  lemma MintingKeepsOneId(w: World, mint: Minting)
    requires OneIdEach(w.born) && Fresh(w, mint.id) && FreshPrincipal(w, mint.row.user)
    ensures OneIdEach(w.born[mint.id := mint.row.user])
  {
    forall i | i in w.born ensures w.born[i] != mint.row.user {
      assert w.born[i] in w.born.Values;
    }
  }

  lemma ChatKeepsInv(w: World, req: nat, chat: nat, mint: Minting)
    requires Inv(w) && Enabled(w, CreateChat(req, chat, mint))
    ensures Inv(ChatDone(w, req, chat, mint))
  {
    if w.pending[req].None? {
      MintingKeepsOneId(w, mint);
    }
  }

  lemma OtherStepsKeepInv(w: World, s: Step)
    requires Inv(w) && Enabled(w, s) && (s.Arrive? || s.Logout? || s.ChangePassword?)
    ensures Inv(Apply(w, s))
  {
  }

  lemma StepKeepsInv(w: World, s: Step)
    requires Inv(w) && Enabled(w, s)
    ensures Inv(Apply(w, s))
  {
    match s
    case Login(req, account, id, row) => LoginKeepsInv(w, req, account, id, row);
    case CreateChat(req, chat, mint) => ChatKeepsInv(w, req, chat, mint);
    case _ => OtherStepsKeepInv(w, s);
  }

  lemma {:induction false} RunKeepsInv(ws: seq<World>, steps: seq<Step>, i: nat)
    requires Run(ws, steps) && i < |ws|
    ensures Inv(ws[i])
  {
    if i > 0 {
      RunKeepsInv(ws, steps, i - 1);
      StepKeepsInv(ws[i - 1], steps[i - 1]);
    }
  }

  /** At any moment of any run, an anonymous principal has at most one live auth session. */
  lemma OneLiveSessionPerVisitor(ws: seq<World>, steps: seq<Step>, i: nat, a: nat, b: nat)
    requires Run(ws, steps) && i < |ws| && a in ws[i].db.auth && b in ws[i].db.auth
    requires ws[i].db.auth[a].user == ws[i].db.auth[b].user && IsAnonymous(ws[i].db.auth[a].user)
    ensures a == b
  {
    RunKeepsInv(ws, steps, i);
  }

  // Cookies that stopped resolving

  predicate Gone(w: World, id: nat) {
    id in w.born && id !in w.db.auth
  }

  /** Once an id has no row it never has one again, so no cookie with that id ever resolves, whatever its secret. */
  lemma {:induction false} GoneForGood(ws: seq<World>, steps: seq<Step>, i: nat, j: nat, id: nat)
    requires Run(ws, steps) && i <= j < |ws| && Gone(ws[i], id)
    ensures Gone(ws[j], id)
    ensures forall secret, now :: Lookup(ws[j].db.auth, Some(Cookie(id, secret)), now).None?
    decreases j
  {
    if i < j {
      GoneForGood(ws, steps, i, j - 1, id);
    }
  }

  /** The ids a step takes out of use: the caller's own, or every other of the account's. */
  predicate Retires(w: World, s: Step, id: nat)
    requires Enabled(w, s)
  {
    match s
    case Login(req, _, _, _) => w.pending[req].Some? && id == w.pending[req].value.id
    case Logout(req) => w.pending[req].Some? && id == w.pending[req].value.id
    case ChangePassword(req) =>
      id in w.born && w.born[id] == w.pending[req].value.user && id != w.pending[req].value.id
    case _ => false
  }

  /** A cookie that signing in rotated away, that signed out, or that a password change cut off, never resolves again. */
  lemma RetiredCookiesStayDead(ws: seq<World>, steps: seq<Step>, i: nat, j: nat, id: nat)
    requires Run(ws, steps) && i < j < |ws| && Retires(ws[i], steps[i], id)
    ensures forall secret, now :: Lookup(ws[j].db.auth, Some(Cookie(id, secret)), now).None?
  {
    RunKeepsInv(ws, steps, i);
    GoneForGood(ws, steps, i + 1, j, id);
  }

  // Who owns a chat

  /** Step `s` moves chat `c` from an anonymous owner to the account its request signs in to. */
  predicate Moves(w: World, s: Step, c: nat, from: string, to: string) {
    && s.Login? && s.req in w.pending && w.pending[s.req].Some? && w.pending[s.req].value.user == from
    && s.account == to && IsAnonymous(from) && IsRegistered(to) && c in w.db.chats && w.db.chats[c] == from
  }

  lemma OwnerAfterStep(w: World, s: Step, c: nat)
    requires Enabled(w, s) && c in w.db.chats
    ensures c in Apply(w, s).db.chats
    ensures Apply(w, s).db.chats[c] == w.db.chats[c]
         || Moves(w, s, c, w.db.chats[c], Apply(w, s).db.chats[c])
  {
  }

  lemma {:induction false} AccountKeepsItsChats(ws: seq<World>, steps: seq<Step>, i: nat, j: nat, c: nat)
    requires Run(ws, steps) && i <= j < |ws|
    requires c in ws[i].db.chats && IsRegistered(ws[i].db.chats[c])
    ensures c in ws[j].db.chats && ws[j].db.chats[c] == ws[i].db.chats[c]
    decreases j
  {
    if i < j {
      AccountKeepsItsChats(ws, steps, i, j - 1, c);
      OwnerAfterStep(ws[j - 1], steps[j - 1], c);
      NobodyIsBoth(ws[i].db.chats[c]);
    }
  }

  /** Between `i` and `j` the chat's owner changed in step `k` and in no other. */
  predicate ChangedOnceAt(ws: seq<World>, steps: seq<Step>, i: nat, j: nat, c: nat, k: nat) {
    && i <= k < j < |ws| && |ws| == |steps| + 1
    && (forall m | i <= m <= j :: c in ws[m].db.chats)
    && Moves(ws[k], steps[k], c, ws[i].db.chats[c], ws[j].db.chats[c])
    && (forall m | i <= m <= k :: ws[m].db.chats[c] == ws[i].db.chats[c])
    && (forall m | k < m <= j :: ws[m].db.chats[c] == ws[j].db.chats[c])
  }

  predicate NeverChanged(ws: seq<World>, i: nat, j: nat, c: nat) {
    i <= j < |ws| && forall m | i <= m <= j :: c in ws[m].db.chats && c in ws[i].db.chats
                                            && ws[m].db.chats[c] == ws[i].db.chats[c]
  }

  /**
   Over every run, a chat is never lost and its owner changes at most once: from
   the anonymous visitor who had it to the account that visitor signed in to.
   */
  lemma {:induction false} OwnerChangesAtMostOnce(ws: seq<World>, steps: seq<Step>, i: nat, j: nat, c: nat)
    requires Run(ws, steps) && i <= j < |ws| && c in ws[i].db.chats
    ensures NeverChanged(ws, i, j, c) || exists k :: ChangedOnceAt(ws, steps, i, j, c, k)
    decreases j
  {
    if i < j {
      OwnerChangesAtMostOnce(ws, steps, i, j - 1, c);
      if NeverChanged(ws, i, j - 1, c) {
        OwnerAfterStep(ws[j - 1], steps[j - 1], c);
        if ws[j].db.chats[c] != ws[i].db.chats[c] {
          assert ChangedOnceAt(ws, steps, i, j, c, j - 1);
        }
      } else {
        var k :| ChangedOnceAt(ws, steps, i, j - 1, c, k);
        AccountKeepsItsChats(ws, steps, j - 1, j, c);
        assert ChangedOnceAt(ws, steps, i, j, c, k);
      }
    }
  }

  // A visitor who is gone

  /** Nobody can act as `user` any more: no live row, and no request under way that resolved to one. */
  predicate Abandoned(w: World, user: string) {
    && user in w.born.Values
    && (forall i | i in w.db.auth :: w.db.auth[i].user != user)
    && (forall r | r in w.pending && w.pending[r].Some? :: w.pending[r].value.user != user)
  }

  lemma BornStaysBorn(w: World, s: Step, user: string)
    requires Enabled(w, s) && user in w.born.Values
    ensures user in Apply(w, s).born.Values
  {
    var i :| i in w.born && w.born[i] == user;
    assert i in Apply(w, s).born && Apply(w, s).born[i] == user;
  }

  lemma StepKeepsAbandoned(w: World, s: Step, user: string)
    requires Enabled(w, s) && Abandoned(w, user) && IsAnonymous(user)
    ensures Abandoned(Apply(w, s), user)
    ensures forall c: nat :: (c in Apply(w, s).db.chats && Apply(w, s).db.chats[c] == user)
                        <==> (c in w.db.chats && w.db.chats[c] == user)
  {
    BornStaysBorn(w, s, user);
    if s.Login? {
      NobodyIsBoth(s.account);
    }
  }

  /** An abandoned visitor's chats are exactly the same ever after: nobody can claim one, add one or take one away. */
  lemma {:induction false} AbandonedChatsAreFrozen(ws: seq<World>, steps: seq<Step>, i: nat, j: nat, user: string)
    requires Run(ws, steps) && i <= j < |ws| && Abandoned(ws[i], user) && IsAnonymous(user)
    ensures Abandoned(ws[j], user)
    ensures forall c: nat :: (c in ws[j].db.chats && ws[j].db.chats[c] == user)
                        <==> (c in ws[i].db.chats && ws[i].db.chats[c] == user)
    decreases j
  {
    if i < j {
      AbandonedChatsAreFrozen(ws, steps, i, j - 1, user);
      StepKeepsAbandoned(ws[j - 1], steps[j - 1], user);
    }
  }

  // Does signing in take the whole history along?

  predicate OnlyRequestOf(w: World, req: nat, user: string) {
    forall r | r in w.pending && r != req && w.pending[r].Some? :: w.pending[r].value.user != user
  }

  /**
   When no other request of the visitor is under way, signing in takes every
   chat along, for good: the visitor never owns one again.
   */
  lemma SigningInTakesEverything(ws: seq<World>, steps: seq<Step>, i: nat, j: nat)
    requires Run(ws, steps) && i < j < |ws| && steps[i].Login?
    requires ws[i].pending[steps[i].req].Some? && IsAnonymous(ws[i].pending[steps[i].req].value.user)
    requires OnlyRequestOf(ws[i], steps[i].req, ws[i].pending[steps[i].req].value.user)
    ensures forall c | c in ws[j].db.chats :: ws[j].db.chats[c] != ws[i].pending[steps[i].req].value.user
  {
    var user := ws[i].pending[steps[i].req].value.user;
    RunKeepsInv(ws, steps, i);
    NobodyIsBoth(user);
    SignedInIsAbandoned(ws[i], steps[i]);
    AbandonedChatsAreFrozen(ws, steps, i + 1, j, user);
  }

  lemma SignedInIsAbandoned(w: World, s: Step)
    requires Inv(w) && Enabled(w, s) && s.Login? && w.pending[s.req].Some?
    requires IsAnonymous(w.pending[s.req].value.user) && OnlyRequestOf(w, s.req, w.pending[s.req].value.user)
    ensures Abandoned(Apply(w, s), w.pending[s.req].value.user)
    ensures forall c | c in Apply(w, s).db.chats :: Apply(w, s).db.chats[c] != w.pending[s.req].value.user
  {
    var user, id := w.pending[s.req].value.user, w.pending[s.req].value.id;
    NobodyIsBoth(user);
    NobodyIsBoth(s.account);
    assert w.born[id] == user;
    BornStaysBorn(w, s, user);
    forall i | i in Apply(w, s).db.auth ensures Apply(w, s).db.auth[i].user != user {
      assert i in w.db.auth && i != id ==> w.born[i] != user;
    }
  }

  /** Otherwise it may not: any other request of the visitor can still commit a chat, and the visitor keeps it. */
  lemma ALateRequestLeavesAChat(w: World, s: Step, late: nat, chat: nat, mint: Minting)
    requires Enabled(w, s) && s.Login? && w.pending[s.req].Some?
    requires late in w.pending && late != s.req && w.pending[late].Some?
    requires w.pending[late].value.user == w.pending[s.req].value.user && chat !in w.db.chats
    ensures var after, next := Apply(w, s), CreateChat(late, chat, mint);
      && Enabled(after, next)
      && chat in Apply(after, next).db.chats
      && Apply(after, next).db.chats[chat] == w.pending[s.req].value.user
  {
    assert Apply(w, s).db.chats.Keys == w.db.chats.Keys;
  }

  /** Such a moment is reached: a visitor with a chat sends two requests, and one of them signs in. */
  lemma LateRequestsHappen() returns (ws: seq<World>, steps: seq<Step>)
    ensures Run(ws, steps) && |steps| == 4
    ensures var w := ws[4];
      && 1 in w.pending && w.pending[1].Some? && 2 in w.pending && w.pending[2] == w.pending[1]
      && IsAnonymous(w.pending[1].value.user)
      && Enabled(w, Login(1, "usr_a", 2, Auth("t", "usr_a", 10)))
  {
    var row, cookie := Auth("s", "anon_v", 10), Some(Cookie(1, "s"));
    steps := [Arrive(0, None, 0), CreateChat(0, 8, Minting(1, row)), Arrive(1, cookie, 1), Arrive(2, cookie, 1)];
    var w1 := Arrived(START, 0, None, 0);
    var w2 := ChatDone(w1, 0, 8, Minting(1, row));
    var w3 := Arrived(w2, 1, cookie, 1);
    var w4 := Arrived(w3, 2, cookie, 1);
    ws := [START, w1, w2, w3, w4];
    assert IsAnonymous("anon_v") && IsRegistered("usr_a");
    assert Lookup(w2.db.auth, cookie, 1) == Some(Resolved(1, "anon_v"));
  }
}
