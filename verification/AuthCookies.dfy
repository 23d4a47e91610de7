/** Which cookie resolves, and who can act: told by what was issued and taken back. */
module AuthCookies {
  import opened Wrappers
  import opened AuthSessions
  import opened AuthHistory

  // What a run issued and took back

  /** Step `s` makes the row `row` under `id`. */
  predicate Issues(w: World, s: Step, id: nat, row: Auth) {
    || (s.Login? && s.id == id && s.row == row)
    || (s.CreateChat? && s.req in w.pending && w.pending[s.req] == None && s.mint == Minting(id, row))
  }

  /** Row `row` was issued under `id` at `j`, and until `n` no step took it back. */
  predicate IssuedAndKept(ws: seq<World>, steps: seq<Step>, j: nat, n: nat, id: nat, row: Auth) {
    && j < n <= |steps| && n <= |ws| && Issues(ws[j], steps[j], id, row)
    && forall m | j < m < n :: Enabled(ws[m], steps[m]) && !Retires(ws[m], steps[m], id)
  }

  ghost predicate Live(ws: seq<World>, steps: seq<Step>, n: nat, id: nat, row: Auth) {
    exists j: nat | j < n :: IssuedAndKept(ws, steps, j, n, id, row)
  }

  lemma OneStepOfARow(w: World, s: Step, id: nat, row: Auth)
    requires Inv(w) && Enabled(w, s)
    ensures id in Apply(w, s).db.auth && Apply(w, s).db.auth[id] == row <==>
      Issues(w, s, id, row) || (id in w.db.auth && w.db.auth[id] == row && !Retires(w, s, id))
  {
  }

  lemma OneStepOfLive(ws: seq<World>, steps: seq<Step>, n: nat, id: nat, row: Auth)
    requires Run(ws, steps) && n < |steps|
    ensures Live(ws, steps, n + 1, id, row) <==>
      Issues(ws[n], steps[n], id, row) || (Live(ws, steps, n, id, row) && !Retires(ws[n], steps[n], id))
  {
    if Issues(ws[n], steps[n], id, row) {
      assert IssuedAndKept(ws, steps, n, n + 1, id, row);
    }
    if j: nat :| j < n && IssuedAndKept(ws, steps, j, n, id, row) && !Retires(ws[n], steps[n], id) {
      assert IssuedAndKept(ws, steps, j, n + 1, id, row);
    }
    var m := n + 1;
    if j: nat :| j < n && IssuedAndKept(ws, steps, j, m, id, row) {
      assert IssuedAndKept(ws, steps, j, n, id, row);
    }
  }

  /** The table holds exactly the rows issued and not taken back. */
  lemma {:induction false} RowsAreTheLive(ws: seq<World>, steps: seq<Step>, n: nat, id: nat, row: Auth)
    requires Run(ws, steps) && n <= |steps|
    ensures id in ws[n].db.auth && ws[n].db.auth[id] == row <==> Live(ws, steps, n, id, row)
  {
    if n > 0 {
      RowsAreTheLive(ws, steps, n - 1, id, row);
      RunKeepsInv(ws, steps, n - 1);
      OneStepOfARow(ws[n - 1], steps[n - 1], id, row);
      OneStepOfLive(ws, steps, n - 1, id, row);
    }
  }

  // Which cookie resolves

  /** The cookie was issued with this row, the row is still there, and its time is not over. */
  ghost predicate Honours(ws: seq<World>, steps: seq<Step>, n: nat, cookie: Option<Cookie>, now: int, row: Auth) {
    && cookie.Some? && row.secret == cookie.value.secret && now < row.expiresAt
    && Live(ws, steps, n, cookie.value.id, row)
  }

  /**
   Over every run, an arriving request is taken for somebody exactly when its
   cookie's row was issued and not taken back, carries the cookie's secret and has
   not expired; then for whom the row was made. All else is nobody.
   */
  lemma ResolvesExactly(ws: seq<World>, steps: seq<Step>, n: nat)
    requires Run(ws, steps) && n < |steps| && steps[n].Arrive?
    ensures steps[n].req in ws[n + 1].pending
    ensures var who, cookie := ws[n + 1].pending[steps[n].req], steps[n].cookie;
      && (who.Some? <==> exists row :: Honours(ws, steps, n, cookie, steps[n].now, row))
      && (who.Some? ==> exists row :: Honours(ws, steps, n, cookie, steps[n].now, row)
                          && who.value == Resolved(cookie.value.id, row.user))
  {
    var cookie := steps[n].cookie;
    if cookie.Some? {
      forall row
        ensures cookie.value.id in ws[n].db.auth && ws[n].db.auth[cookie.value.id] == row
           <==> Live(ws, steps, n, cookie.value.id, row)
      {
        RowsAreTheLive(ws, steps, n, cookie.value.id, row);
      }
      if ws[n + 1].pending[steps[n].req].Some? {
        assert Honours(ws, steps, n, cookie, steps[n].now, ws[n].db.auth[cookie.value.id]);
      }
    }
  }

  // Who can act

  /** Request `req` of step `n` arrived at `a` with a cookie honoured then, as `who`. */
  ghost predicate ActsBy(ws: seq<World>, steps: seq<Step>, a: nat, n: nat, req: nat, who: Resolved, row: Auth) {
    && a < n <= |steps| && steps[a].Arrive? && steps[a].req == req
    && Honours(ws, steps, a, steps[a].cookie, steps[a].now, row) && who == Resolved(steps[a].cookie.value.id, row.user)
  }

  ghost predicate HeldTheCookie(ws: seq<World>, steps: seq<Step>, n: nat, req: nat, who: Resolved) {
    exists a: nat, row | a < n :: ActsBy(ws, steps, a, n, req, who, row)
  }

  /** Whoever a pending request acts as, its cookie was the one issued to that user, and live, when it came. */
  lemma {:induction false} PendingHeldTheCookie(ws: seq<World>, steps: seq<Step>, n: nat, req: nat)
    requires Run(ws, steps) && n <= |steps| && req in ws[n].pending && ws[n].pending[req].Some?
    ensures HeldTheCookie(ws, steps, n, req, ws[n].pending[req].value)
  {
    if steps[n - 1].Arrive? && steps[n - 1].req == req {
      ResolvesExactly(ws, steps, n - 1);
      var row :| Honours(ws, steps, n - 1, steps[n - 1].cookie, steps[n - 1].now, row)
              && ws[n].pending[req].value == Resolved(steps[n - 1].cookie.value.id, row.user);
      assert ActsBy(ws, steps, n - 1, n, req, ws[n].pending[req].value, row);
    } else {
      assert req in ws[n - 1].pending && ws[n - 1].pending[req] == ws[n].pending[req];
      PendingHeldTheCookie(ws, steps, n - 1, req);
      var a: nat, row :| a < n - 1 && ActsBy(ws, steps, a, n - 1, req, ws[n].pending[req].value, row);
      assert ActsBy(ws, steps, a, n, req, ws[n].pending[req].value, row);
    }
  }

  /** What step `n` did to somebody: took a row of theirs, moved their chat, or made one theirs. */
  predicate Touches(w: World, v: World, user: string) {
    || (exists id | id in w.db.auth :: w.db.auth[id].user == user && id !in v.db.auth)
    || (exists c | c in w.db.chats :: w.db.chats[c] == user && (c in v.db.chats ==> v.db.chats[c] != user))
    || (exists c | c in v.db.chats :: v.db.chats[c] == user && c !in w.db.chats && user in w.born.Values)
  }

  lemma OnlyTheUsersRequestTouches(w: World, s: Step, user: string)
    requires Inv(w) && Enabled(w, s) && Touches(w, Apply(w, s), user)
    ensures !s.Arrive? && s.req in w.pending && w.pending[s.req].Some? && w.pending[s.req].value.user == user
  {
  }

  /**
   No run lets anyone sign a user out, cut off a session of theirs, take a chat of
   theirs or add one to what they already have, unless the request came with a
   cookie that was issued for that user, with its own secret, live and in time.
   */
  lemma NobodyActsWithoutTheCookie(ws: seq<World>, steps: seq<Step>, n: nat, user: string)
    requires Run(ws, steps) && n < |steps| && Touches(ws[n], ws[n + 1], user)
    ensures exists who: Resolved :: who.user == user && HeldTheCookie(ws, steps, n, steps[n].req, who)
  {
    RunKeepsInv(ws, steps, n);
    OnlyTheUsersRequestTouches(ws[n], steps[n], user);
    PendingHeldTheCookie(ws, steps, n, steps[n].req);
  }
}
