/** What passes the bot check, from the signature up, and over whole runs of requests. */
module BotGuard {
  import opened Wrappers
  import opened Decimals
  import opened ProofOfWork
  import opened BotCheck

  // What verifies

  /** `text` is all digits and ends the salt, alone or after the last "?expires=". */
  predicate ExpiryText(salt: string, text: string) {
    && text != "" && (forall c | c in text :: '0' <= c <= '9')
    && |text| <= |salt| && salt[|salt| - |text|..] == text
    && (text == salt || (|text| + 9 <= |salt| && salt[|salt| - |text| - 9..|salt| - |text|] == "?expires="))
  }

  predicate ExpiresAfter(salt: string, now: int) {
    exists k: nat | k <= |salt| :: ExpiryText(salt, salt[k..]) && now < ParseDecimal(salt[k..]) * 1_000_000
  }

  lemma ExpiryTextIsRead(salt: string, text: string)
    requires ExpiryText(salt, text)
    ensures ExpiresText(salt) == text && AllDigits(text)
  {
    assert forall c | c in text :: DigitValue(c).Some?;
    assert '?' !in text;
    if text == salt {
      NoMarkNoCut(salt, |salt|);
    } else {
      var hex := salt[..|salt| - |text| - 9];
      assert salt == hex + MARK + text;
      MarkIsFound(hex, text, |salt|);
    }
  }

  lemma {:induction false} NoMarkNoCut(salt: string, n: nat)
    requires '?' !in salt && n <= |salt|
    ensures AfterLastMark(salt, n) == salt
    decreases n
  {
    assert n < |salt| ==> salt[n] in salt;
    assert MARK[0] == '?';
    if n > 0 { NoMarkNoCut(salt, n - 1); }
  }

  /** Whatever is read as the expiry ends the salt, after a mark or alone. */
  lemma {:induction false} WhatIsRead(salt: string, n: nat) returns (k: nat)
    requires n <= |salt|
    ensures k <= |salt| && AfterLastMark(salt, n) == salt[k..]
    ensures k == 0 || (9 <= k && salt[k - 9..k] == "?expires=")
    decreases n
  {
    if MARK <= salt[n..] {
      k := n + 9;
      assert salt[n..][9..] == salt[k..] && salt[n..][..9] == salt[n..k];
    } else if n == 0 {
      k := 0;
    } else {
      k := WhatIsRead(salt, n - 1);
    }
  }

  lemma LiveExactly(salt: string, now: int)
    ensures Live(salt, now) <==> ExpiresAfter(salt, now)
  {
    if Live(salt, now) {
      var k := WhatIsRead(salt, |salt|);
      assert forall c | c in salt[k..] :: DigitValue(c).Some?;
      assert ExpiryText(salt, salt[k..]);
    }
    if k: nat :| k <= |salt| && ExpiryText(salt, salt[k..]) && now < ParseDecimal(salt[k..]) * 1_000_000 {
      ExpiryTextIsRead(salt, salt[k..]);
    }
  }

  /** Well formed, signed under our secret, solved by its number, and not expired: that, and nothing else, verifies. */
  lemma VerifiesExactly(hash: string -> string, sign: (string, string) -> string, secret: string, p: Payload, now: int)
    ensures var r := VerifySolution(hash, sign, secret, p, now);
      && (r.Ok? <==>
            && p.Solution?
            && p.signature == sign(secret, p.salt + "|" + p.challenge)
            && p.challenge == hash(p.salt + DecimalInt(p.number))
            && ExpiresAfter(p.salt, now))
      && (r.Ok? ==> r.value == p.challenge)
  {
    if p.Solution? { LiveExactly(p.salt, now); }
  }

  // Only what the server issued

  /** The signature cannot be made up: a message comes with its own only if the server signed it. */
  predicate NotForged(hash: string -> string, sign: (string, string) -> string, secret: string, issued: set<Issue>,
                      p: Payload)
  {
    p.Solution? && p.signature == sign(secret, p.salt + "|" + p.challenge) ==> Signed(hash, issued, p.salt, p.challenge)
  }

  predicate NoBars(hash: string -> string, issued: set<Issue>) {
    forall i | i in issued :: NoBar(i.hex) && NoBar(ChallengeOf(hash, i))
  }

  lemma SameDigitsSameNumber(a: int, b: nat)
    requires DecimalInt(a) == DecimalInt(b)
    ensures a == b
  {
    DecimalIntIsDigitsWhenNotNegative(a);
    DecimalIntIsDigitsWhenNotNegative(b);
    DecimalIsRead(b);
    if a >= 0 { DecimalIsRead(a); }
  }

  /** What verifies is a challenge the server issued, with the very number it drew, before its expiry. */
  lemma VerifiedIsIssued(hash: string -> string, sign: (string, string) -> string, secret: string, issued: set<Issue>,
                         p: Payload, now: int) returns (i: Issue)
    requires Injective(hash) && NoBars(hash, issued) && NotForged(hash, sign, secret, issued, p)
    requires VerifySolution(hash, sign, secret, p, now).Ok?
    ensures p.Solution? && i in issued && p.salt == SaltOf(i.hex, i.expires) && p.number == i.number
    ensures p.challenge == ChallengeOf(hash, i) && i.expires >= 0 && now < i.expires * 1_000_000
  {
    VerifiesExactly(hash, sign, secret, p, now);
    i := SignedIsOneIssue(hash, issued, p.salt, p.challenge);
    assert p.salt + DecimalInt(p.number) == p.salt + DecimalInt(i.number);
    assert (p.salt + DecimalInt(p.number))[|p.salt|..] == DecimalInt(p.number);
    assert (p.salt + DecimalInt(i.number))[|p.salt|..] == DecimalInt(i.number);
    SameDigitsSameNumber(p.number, i.number);
    LiveExactly(p.salt, now);
    LiveUntilExpiry(i.hex, i.expires, now);
  }

  // Runs of requests

  /** A guarded request: what its header says, and the clock it read. Requests are in the order they commit. */
  datatype Request = Request(header: Option<Payload>, now: int)

  /** The server's side of a run: its hash, its key, and all it issued. */
  datatype Server = Server(hash: string -> string, sign: (string, string) -> string, secret: string, issued: set<Issue>)

  predicate Verifies(v: Server, q: Request) {
    q.header.Some? && VerifySolution(v.hash, v.sign, v.secret, q.header.value, q.now).Ok?
  }

  function RowsBefore(v: Server, qs: seq<Request>): map<string, Row> {
    if qs == [] then map[]
    else
      var q := qs[|qs| - 1];
      AfterGuard(v.hash, v.sign, v.secret, RowsBefore(v, qs[..|qs| - 1]), q.header, q.now)
  }

  /** Whether request `k` got past the guard. */
  predicate Passed(v: Server, qs: seq<Request>, k: nat)
    requires k < |qs|
  {
    Passes(v.hash, v.sign, v.secret, RowsBefore(v, qs[..k]), qs[k].header, qs[k].now)
  }

  /** The server keeps its secret, its hash does not collide, its random parts are fresh, and nobody forges. */
  ghost predicate Trustworthy(v: Server, qs: seq<Request>) {
    && v.secret != "" && Injective(v.hash) && FreshHexes(v.issued) && NoBars(v.hash, v.issued)
    && forall i | 0 <= i < |qs| && qs[i].header.Some? :: NotForged(v.hash, v.sign, v.secret, v.issued, qs[i].header.value)
  }

  /** Whoever passes has an issued challenge and the number the server drew for it, before it expired. */
  lemma OnlySolversPass(v: Server, qs: seq<Request>, k: nat) returns (i: Issue)
    requires Trustworthy(v, qs) && k < |qs| && Passed(v, qs, k)
    ensures i in v.issued && qs[k].header.Some? && qs[k].header.value.Solution?
    ensures var p := qs[k].header.value;
      p.salt == SaltOf(i.hex, i.expires) && p.challenge == ChallengeOf(v.hash, i) && p.number == i.number
    ensures qs[k].now < i.expires * 1_000_000
  {
    i := VerifiedIsIssued(v.hash, v.sign, v.secret, v.issued, qs[k].header.value, qs[k].now);
  }

  /** Without a secret nothing passes and no challenge is made. */
  lemma NothingPassesWithoutASecret(v: Server, qs: seq<Request>, k: nat, hex: string, number: nat, max: nat, ttl: int)
    requires k < |qs|
    ensures v.secret == "" ==> !Passed(v, qs, k)
    ensures v.secret == "" <==> MakeChallenge(v.hash, v.sign, v.secret, hex, number, max, ttl, qs[k].now).Err?
  {
  }

  // Single use

  function UsesOf(v: Server, qs: seq<Request>): seq<Use> {
    if qs == [] then []
    else
      var q, before := qs[|qs| - 1], UsesOf(v, qs[..|qs| - 1]);
      if Verifies(v, q) then before + [Use(q.header.value.challenge, q.now)] else before
  }

  ghost function ExpiryOf(v: Server): string -> int {
    c =>
      if exists i :: i in v.issued && ChallengeOf(v.hash, i) == c
      then var i :| i in v.issued && ChallengeOf(v.hash, i) == c; i.expires * 1_000_000
      else 0
  }

  lemma ExpiryIsTheIssues(v: Server, i: Issue)
    requires Injective(v.hash) && FreshHexes(v.issued) && i in v.issued
    ensures ExpiryOf(v)(ChallengeOf(v.hash, i)) == i.expires * 1_000_000
  {
    forall j | j in v.issued && ChallengeOf(v.hash, j) == ChallengeOf(v.hash, i) ensures j == i {
      OneIssuePerChallenge(v.hash, v.issued, i, j);
    }
  }

  lemma IssueSaysItsExpiry(i: Issue)
    requires i.expires >= 0
    ensures AllDigits(ExpiresText(SaltOf(i.hex, i.expires))) && ExpiresAt(SaltOf(i.hex, i.expires)) == i.expires * 1_000_000
  {
    SaltCarriesItsExpiry(i.hex, i.expires);
    DecimalIntIsDigitsWhenNotNegative(i.expires);
    DecimalIsRead(i.expires);
  }

  /** The request verified, and what it writes is the expiry its challenge has. */
  predicate RightUse(v: Server, q: Request, expiry: string -> int) {
    Verifies(v, q) ==>
      var p := q.header.value;
      && p.Solution? && AllDigits(ExpiresText(p.salt)) && ExpiresAt(p.salt) == expiry(p.challenge)
      && q.now < expiry(p.challenge) && expiry(p.challenge) % SECOND == 0
  }

  lemma IssuedIsRightUse(v: Server, q: Request, i: Issue, expiry: string -> int)
    requires q.header.Some? && q.header.value.Solution? && q.header.value.salt == SaltOf(i.hex, i.expires)
    requires i.expires >= 0 && q.now < i.expires * 1_000_000 && expiry(q.header.value.challenge) == i.expires * 1_000_000
    ensures RightUse(v, q, expiry)
  {
    IssueSaysItsExpiry(i);
  }

  lemma VerifiedIsRightUse(v: Server, qs: seq<Request>, k: nat)
    requires Trustworthy(v, qs) && k < |qs|
    ensures RightUse(v, qs[k], ExpiryOf(v))
  {
    if Verifies(v, qs[k]) {
      var i := VerifiedIsIssued(v.hash, v.sign, v.secret, v.issued, qs[k].header.value, qs[k].now);
      ExpiryIsTheIssues(v, i);
      IssuedIsRightUse(v, qs[k], i, ExpiryOf(v));
    }
  }

  /** One request as a use: nothing at all when it does not verify. */
  lemma GuardIsAUse(v: Server, rows: map<string, Row>, q: Request, expiry: string -> int)
    requires v.secret != "" && RightUse(v, q, expiry)
    ensures AfterGuard(v.hash, v.sign, v.secret, rows, q.header, q.now) ==
      if Verifies(v, q) then Next(rows, q.header.value.challenge, q.now, expiry(q.header.value.challenge)) else rows
  {
  }

  /** What a trustworthy server's run gives: every request that verifies has the expiry of its issue. */
  predicate Rightful(v: Server, qs: seq<Request>, expiry: string -> int) {
    v.secret != "" && forall k: nat | k < |qs| :: RightUse(v, qs[k], expiry)
  }

  lemma TrustworthyIsRightful(v: Server, qs: seq<Request>)
    requires Trustworthy(v, qs)
    ensures Rightful(v, qs, ExpiryOf(v))
  {
    forall k: nat | k < |qs| ensures RightUse(v, qs[k], ExpiryOf(v)) {
      VerifiedIsRightUse(v, qs, k);
    }
  }

  /** The guard's rows are those of the verified uses; the other requests leave nothing. */
  predicate KeepsUses(v: Server, qs: seq<Request>, expiry: string -> int) {
    RowsBefore(v, qs) == RowsAfter(UsesOf(v, qs), expiry) && Verified(UsesOf(v, qs), expiry)
  }

  lemma OneRequestMore(v: Server, before: seq<Request>, q: Request, expiry: string -> int)
    requires v.secret != "" && RightUse(v, q, expiry) && KeepsUses(v, before, expiry)
    ensures KeepsUses(v, before + [q], expiry)
  {
    assert (before + [q])[..|before|] == before;
    GuardIsAUse(v, RowsBefore(v, before), q, expiry);
    if Verifies(v, q) {
      OneUseMore(UsesOf(v, before), Use(q.header.value.challenge, q.now), expiry);
    }
  }

  lemma {:induction false} RowsAreOfUses(v: Server, qs: seq<Request>, expiry: string -> int)
    requires Rightful(v, qs, expiry)
    ensures KeepsUses(v, qs, expiry)
    decreases |qs|
  {
    if qs != [] {
      var before, q := qs[..|qs| - 1], qs[|qs| - 1];
      RowsAreOfUses(v, before, expiry);
      assert KeepsUses(v, before + [q], expiry) by { OneRequestMore(v, before, q, expiry); }
      assert before + [q] == qs;
    }
  }

  lemma OneUseMore(us: seq<Use>, u: Use, expiry: string -> int)
    requires Verified(us, expiry) && u.now < expiry(u.challenge) && expiry(u.challenge) % SECOND == 0
    ensures RowsAfter(us + [u], expiry) == Next(RowsAfter(us, expiry), u.challenge, u.now, expiry(u.challenge))
    ensures Verified(us + [u], expiry)
  {
    assert (us + [u])[..|us|] == us;
  }

  predicate Presented(v: Server, qs: seq<Request>, n: nat, c: string)
    requires n <= |qs|
  {
    exists j | 0 <= j < n :: Verifies(v, qs[j]) && qs[j].header.value.challenge == c
  }

  lemma {:induction false} UsesArePresented(v: Server, qs: seq<Request>, n: nat, c: string)
    requires n <= |qs|
    ensures UsedBefore(UsesOf(v, qs[..n]), |UsesOf(v, qs[..n])|, c) <==> Presented(v, qs, n, c)
  {
    if n > 0 {
      var us, before := UsesOf(v, qs[..n]), UsesOf(v, qs[..n - 1]);
      assert qs[..n][..n - 1] == qs[..n - 1];
      UsesArePresented(v, qs, n - 1, c);
      if Verifies(v, qs[n - 1]) {
        assert forall j | 0 <= j < |before| :: us[j] == before[j];
        assert us[|before|].challenge == qs[n - 1].header.value.challenge;
      }
    }
  }

  /** No clean-up up to request `k` can have forgotten a use that could still be repeated. */
  ghost predicate NothingForgotten(v: Server, qs: seq<Request>, k: nat)
    requires k < |qs|
  {
    NeverForgets(Readings(UsesOf(v, qs[..k + 1])))
  }

  lemma PassedIsAccepted(v: Server, qs: seq<Request>, k: nat, expiry: string -> int)
    requires Rightful(v, qs, expiry) && k < |qs| && Verifies(v, qs[k])
    ensures var us := UsesOf(v, qs[..k + 1]);
      && us == UsesOf(v, qs[..k]) + [Use(qs[k].header.value.challenge, qs[k].now)]
      && Verified(us, expiry) && (Passed(v, qs, k) <==> Accepted(us, expiry, |us| - 1))
  {
    var us := UsesOf(v, qs[..k + 1]);
    assert qs[..k + 1][..k] == qs[..k];
    assert us[..|us| - 1] == UsesOf(v, qs[..k]);
    RowsAreOfUses(v, qs[..k], expiry);
    RowsAreOfUses(v, qs[..k + 1], expiry);
  }

  /**
   Over every run, while nothing is forgotten, a request passes exactly when its
   solution verifies and no earlier request presented the same challenge.
   */
  lemma OnlyTheFirstSolutionPasses(v: Server, qs: seq<Request>, k: nat)
    requires Trustworthy(v, qs) && k < |qs| && NothingForgotten(v, qs, k)
    ensures Passed(v, qs, k) <==> Verifies(v, qs[k]) && !Presented(v, qs, k, qs[k].header.value.challenge)
  {
    TrustworthyIsRightful(v, qs);
    FirstPasses(v, qs, k, ExpiryOf(v));
  }

  lemma FirstPasses(v: Server, qs: seq<Request>, k: nat, expiry: string -> int)
    requires Rightful(v, qs, expiry) && k < |qs| && NothingForgotten(v, qs, k)
    ensures Passed(v, qs, k) <==> Verifies(v, qs[k]) && !Presented(v, qs, k, qs[k].header.value.challenge)
  {
    if Verifies(v, qs[k]) {
      var us, c := UsesOf(v, qs[..k + 1]), qs[k].header.value.challenge;
      PassedIsAccepted(v, qs, k, expiry);
      OnlyTheFirstUseIsAccepted(us, expiry, |us| - 1);
      PrefixUses(us, |us| - 1, c);
      assert us[..|us| - 1] == UsesOf(v, qs[..k]);
      UsesArePresented(v, qs, k, c);
    }
  }

  // The passes are paid for

  function PassCount(v: Server, qs: seq<Request>, n: nat): nat
    requires n <= |qs|
  {
    if n == 0 then 0 else PassCount(v, qs, n - 1) + if Passed(v, qs, n - 1) then 1 else 0
  }

  function Spent(v: Server, qs: seq<Request>, n: nat): set<string>
    requires n <= |qs|
  {
    set k | 0 <= k < n && Passed(v, qs, k) :: qs[k].header.value.challenge
  }

  lemma SpentGrows(v: Server, qs: seq<Request>, n: nat)
    requires n < |qs|
    ensures Spent(v, qs, n + 1) == Spent(v, qs, n) + if Passed(v, qs, n) then {qs[n].header.value.challenge} else {}
  {
  }

  lemma NewlySpent(v: Server, qs: seq<Request>, n: nat, expiry: string -> int)
    requires Rightful(v, qs, expiry) && n < |qs| && NothingForgotten(v, qs, n) && Passed(v, qs, n)
    ensures qs[n].header.value.challenge !in Spent(v, qs, n)
  {
    FirstPasses(v, qs, n, expiry);
    forall k | 0 <= k < n && Passed(v, qs, k) ensures qs[k].header.value.challenge != qs[n].header.value.challenge {
      assert Verifies(v, qs[k]);
    }
  }

  lemma {:induction false} EveryPassSpendsOne(v: Server, qs: seq<Request>, n: nat, expiry: string -> int)
    requires Rightful(v, qs, expiry) && n <= |qs| && forall k | 0 <= k < n :: NothingForgotten(v, qs, k)
    ensures PassCount(v, qs, n) == |Spent(v, qs, n)|
  {
    if n > 0 {
      EveryPassSpendsOne(v, qs, n - 1, expiry);
      SpentGrows(v, qs, n - 1);
      if Passed(v, qs, n - 1) {
        NewlySpent(v, qs, n - 1, expiry);
      }
    }
  }

  function Challenges(hash: string -> string, issued: set<Issue>): set<string> {
    set i | i in issued :: ChallengeOf(hash, i)
  }

  lemma {:induction false} NoMoreChallengesThanIssues(hash: string -> string, issued: set<Issue>)
    ensures |Challenges(hash, issued)| <= |issued|
    decreases |issued|
  {
    if i :| i in issued {
      NoMoreChallengesThanIssues(hash, issued - {i});
      assert Challenges(hash, issued) == Challenges(hash, issued - {i}) + {ChallengeOf(hash, i)};
    }
  }

  lemma {:induction false} FewerOfASubset(a: set<string>, b: set<string>)
    requires a <= b
    ensures |a| <= |b|
  {
    assert b == a + (b - a);
  }

  /** However many requests come, no more pass than challenges were issued: one draw, one solution, one attempt. */
  lemma NoMorePassesThanIssues(v: Server, qs: seq<Request>)
    requires Trustworthy(v, qs) && forall k | 0 <= k < |qs| :: NothingForgotten(v, qs, k)
    ensures PassCount(v, qs, |qs|) <= |v.issued|
  {
    TrustworthyIsRightful(v, qs);
    EveryPassSpendsOne(v, qs, |qs|, ExpiryOf(v));
    forall k | 0 <= k < |qs| && Passed(v, qs, k)
      ensures qs[k].header.value.challenge in Challenges(v.hash, v.issued)
    {
      var i := OnlySolversPass(v, qs, k);
    }
    FewerOfASubset(Spent(v, qs, |qs|), Challenges(v.hash, v.issued));
    NoMoreChallengesThanIssues(v.hash, v.issued);
  }
}
