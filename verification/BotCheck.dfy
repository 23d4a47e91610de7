/** Single use of a solved challenge: a row per use, cleaned up a minute after it expired. */
module BotCheck {
  import opened Wrappers
  import opened Decimals
  import opened ProofOfWork

  const MARGIN: int := 60 * SECOND

  datatype Row = Row(usedAt: int, expiresAt: int)

  /** One verified request, in the order the requests commit; `now` is the clock it read when it began. */
  datatype Use = Use(challenge: string, now: int)

  function Cleaned(rows: map<string, Row>, now: int): map<string, Row> {
    map c | c in rows && !(rows[c].expiresAt < now - MARGIN) :: rows[c]
  }

  predicate Accepts(rows: map<string, Row>, challenge: string, now: int) {
    challenge !in Cleaned(rows, now)
  }

  /** A conflict rolls the clean-up back too. */
  function Next(rows: map<string, Row>, challenge: string, now: int, expiresAt: int): map<string, Row> {
    if Accepts(rows, challenge, now) then Cleaned(rows, now)[challenge := Row(now, expiresAt)] else rows
  }

  function ExpiresAt(salt: string): int
    requires AllDigits(ExpiresText(salt))
  {
    ParseDecimal(ExpiresText(salt)) * SECOND
  }

  /** A secret is set, a header came, its solution verifies and its challenge was not used. */
  predicate Passes(hash: string -> string, sign: (string, string) -> string, secret: string, rows: map<string, Row>,
                   header: Option<Payload>, now: int)
  {
    && header.Some? && secret != "" && VerifySolution(hash, sign, secret, header.value, now).Ok?
    && Accepts(rows, header.value.challenge, now)
  }

  /** Only a request that passes writes anything. */
  function AfterGuard(hash: string -> string, sign: (string, string) -> string, secret: string, rows: map<string, Row>,
                      header: Option<Payload>, now: int): map<string, Row>
  {
    if Passes(hash, sign, secret, rows, header, now)
    then Next(rows, header.value.challenge, now, ExpiresAt(header.value.salt)) else rows
  }

  class BotChecks {
    var rows: map<string, Row>

    constructor ()
      ensures rows == map[]
    {
      rows := map[];
    }

    /** Records the solution as used; false if it already was. */
    method UseOnce(challenge: string, now: int, expiresAt: int) returns (ok: bool)
      modifies this
      ensures ok == Accepts(old(rows), challenge, now) && rows == Next(old(rows), challenge, now, expiresAt)
    {
      var before := rows;
      rows := map c | c in rows && !(rows[c].expiresAt < now - MARGIN) :: rows[c];
      if challenge in rows {
        rows := before;
        return false;
      }
      rows := rows[challenge := Row(now, expiresAt)];
      return true;
    }

    /**
     The guard on a route. Switched off it passes everything; without a header or
     a secret, or with a payload that does not verify, it refuses and writes
     nothing; a solution that verifies pays for one attempt.
     */
    method Require(enabled: bool, header: Option<Payload>, secret: string, now: int,
                   hash: string -> string, sign: (string, string) -> string) returns (passes: bool)
      modifies this
      ensures !enabled ==> passes
      ensures !passes || !enabled ==> rows == old(rows)
      ensures passes && enabled ==>
        && header.Some? && header.value.Solution? && header.value.challenge in rows
        && rows[header.value.challenge].usedAt == now
        && forall c | c != header.value.challenge :: c in rows <==> c in Cleaned(old(rows), now)
      ensures passes == (!enabled || Passes(hash, sign, secret, old(rows), header, now))
      ensures rows == if enabled then AfterGuard(hash, sign, secret, old(rows), header, now) else old(rows)
    {
      if !enabled {
        return true;
      }
      if header.None? || secret == "" {
        return false;
      }
      var verified := VerifySolution(hash, sign, secret, header.value, now);
      if verified.Err? {
        return false;
      }
      passes := UseOnce(verified.value, now, ExpiresAt(header.value.salt));
    }
  }

  // Runs of verified requests. `expiry` gives each challenge id its one expiry, in microseconds
  // (`ProofOfWork.OneSaltPerChallenge`).

  function RowsAfter(us: seq<Use>, expiry: string -> int): map<string, Row> {
    if us == [] then map[]
    else
      var u := us[|us| - 1];
      Next(RowsAfter(us[..|us| - 1], expiry), u.challenge, u.now, expiry(u.challenge))
  }

  predicate Accepted(us: seq<Use>, expiry: string -> int, k: nat)
    requires k < |us|
  {
    Accepts(RowsAfter(us[..k], expiry), us[k].challenge, us[k].now)
  }

  predicate UsedBefore(us: seq<Use>, k: nat, c: string)
    requires k <= |us|
  {
    exists j | 0 <= j < k :: us[j].challenge == c
  }

  /** Every use was verified, so it began before its challenge expired; expiries are whole seconds. */
  predicate Verified(us: seq<Use>, expiry: string -> int) {
    forall i | 0 <= i < |us| :: us[i].now < expiry(us[i].challenge) && expiry(us[i].challenge) % SECOND == 0
  }

  function Readings(us: seq<Use>): seq<int> {
    seq(|us|, i requires 0 <= i < |us| => us[i].now)
  }

  /**
   The clean-up at `m` can forget a challenge that `j` used and `k` still
   presents: the second `e` lies ahead of what `j` and `k` read, and more than a
   minute behind what `m` read.
   */
  predicate ForgetsBetween(nows: seq<int>, j: nat, m: nat, k: nat, e: int) {
    && j < m < k < |nows|
    && nows[j] < e * 1_000_000 && nows[k] < e * 1_000_000 && e * 1_000_000 < nows[m] - 60_000_000
  }

  ghost predicate NeverForgets(nows: seq<int>) {
    forall j: nat, m: nat, k: nat, e: int :: !ForgetsBetween(nows, j, m, k, e)
  }

  lemma {:induction false} RowsAreUses(us: seq<Use>, expiry: string -> int, c: string)
    requires c in RowsAfter(us, expiry)
    ensures UsedBefore(us, |us|, c) && RowsAfter(us, expiry)[c].expiresAt == expiry(c)
    decreases |us|
  {
    var n := |us| - 1;
    if us[n].challenge != c {
      RowsAreUses(us[..n], expiry, c);
      var j :| 0 <= j < n && us[..n][j].challenge == c;
      assert us[j].challenge == c;
    } else if c in RowsAfter(us[..n], expiry) {
      RowsAreUses(us[..n], expiry, c);
    }
  }

  lemma PrefixUses(us: seq<Use>, k: nat, c: string)
    requires k <= |us|
    ensures UsedBefore(us[..k], k, c) <==> UsedBefore(us, k, c)
  {
    forall j | 0 <= j < k ensures us[..k][j] == us[j] {
    }
  }

  lemma FirstOfItsChallenge(us: seq<Use>, expiry: string -> int, k: nat)
    requires k < |us| && !UsedBefore(us, k, us[k].challenge)
    ensures Accepted(us, expiry, k)
  {
    PrefixUses(us, k, us[k].challenge);
    if us[k].challenge in RowsAfter(us[..k], expiry) {
      RowsAreUses(us[..k], expiry, us[k].challenge);
    }
  }

  /** A used challenge keeps its row until a clean-up reads a clock past its expiry and the margin. */
  lemma {:induction false} RowIsKept(us: seq<Use>, expiry: string -> int, j: nat)
    requires j < |us|
    requires forall m | j < m < |us| :: expiry(us[j].challenge) >= us[m].now - MARGIN
    ensures us[j].challenge in RowsAfter(us, expiry)
    decreases |us|
  {
    var n := |us| - 1;
    var c := us[j].challenge;
    if j < n {
      RowIsKept(us[..n], expiry, j);
      RowsAreUses(us[..n], expiry, c);
    }
  }

  lemma ReadingsForget(us: seq<Use>, j: nat, m: nat, k: nat, e: int)
    requires j < m < k < |us|
    ensures ForgetsBetween(Readings(us), j, m, k, e) <==>
      us[j].now < e * SECOND && us[k].now < e * SECOND && e * SECOND < us[m].now - MARGIN
  {
  }

  /** When the clocks never forget, a use is accepted if and only if it is the first of its challenge. */
  lemma OnlyTheFirstUseIsAccepted(us: seq<Use>, expiry: string -> int, k: nat)
    requires Verified(us, expiry) && NeverForgets(Readings(us)) && k < |us|
    ensures Accepted(us, expiry, k) <==> !UsedBefore(us, k, us[k].challenge)
  {
    var c, e := us[k].challenge, expiry(us[k].challenge) / SECOND;
    if j: nat :| j < k && us[j].challenge == c {
      forall m | j < m < k ensures expiry(c) >= us[m].now - MARGIN {
        ReadingsForget(us, j, m, k, e);
      }
      RowIsKept(us[..k], expiry, j);
      RowsAreUses(us[..k], expiry, c);
    }
    if !UsedBefore(us, k, c) {
      FirstOfItsChallenge(us, expiry, k);
    }
  }

  /** Clocks that run at most a minute behind any that committed earlier never forget. */
  predicate WithinMargin(nows: seq<int>) {
    forall m, k | 0 <= m < k < |nows| :: nows[m] <= nows[k] + 60_000_000
  }

  lemma MarginIsEnough(nows: seq<int>)
    requires WithinMargin(nows)
    ensures NeverForgets(nows)
  {
    forall j: nat, m: nat, k: nat, e: int ensures !ForgetsBetween(nows, j, m, k, e) {
      assert m < k < |nows| ==> nows[m] <= nows[k] + 60_000_000;
    }
  }

  // Readings that do forget let some challenge be used twice

  function Id(i: nat): string {
    seq(i + 1, _ => 'x')
  }

  /** `j` and `k` present one challenge, every other request its own. */
  function TwoOfOne(nows: seq<int>, j: nat, k: nat): seq<Use> {
    seq(|nows|, i requires 0 <= i < |nows| => Use(if i == j || i == k then "" else Id(i), nows[i]))
  }

  function ExpiryFor(nows: seq<int>, e: int): string -> int {
    c => if c == "" then e * SECOND else if |c| <= |nows| then (nows[|c| - 1] / SECOND + 1) * SECOND else 0
  }

  lemma WitnessIsVerified(nows: seq<int>, j: nat, k: nat, e: int)
    requires j < |nows| && k < |nows| && nows[j] < e * SECOND && nows[k] < e * SECOND
    ensures Verified(TwoOfOne(nows, j, k), ExpiryFor(nows, e)) && Readings(TwoOfOne(nows, j, k)) == nows
  {
    var us, expiry := TwoOfOne(nows, j, k), ExpiryFor(nows, e);
    forall i | 0 <= i < |us| ensures us[i].now < expiry(us[i].challenge) && expiry(us[i].challenge) % SECOND == 0 {
      assert |Id(i)| == i + 1;
    }
  }

  /** After a clean-up that forgets it, a challenge nobody presents stays forgotten. */
  lemma {:induction false} StaysForgotten(us: seq<Use>, expiry: string -> int, m: nat, c: string)
    requires m < |us| && Accepted(us, expiry, m) && expiry(c) < us[m].now - MARGIN
    requires forall i | m <= i < |us| :: us[i].challenge != c
    ensures c !in RowsAfter(us, expiry)
    decreases |us|
  {
    var n := |us| - 1;
    if m < n {
      assert us[..n][..m] == us[..m];
      StaysForgotten(us[..n], expiry, m, c);
    } else if c in RowsAfter(us[..n], expiry) {
      RowsAreUses(us[..n], expiry, c);
    }
  }

  predicate UsedTwice(us: seq<Use>, expiry: string -> int, j: nat, k: nat) {
    j < k < |us| && us[j].challenge == us[k].challenge && Accepted(us, expiry, j) && Accepted(us, expiry, k)
  }

  lemma ForgettingIsReplay(nows: seq<int>, j: nat, m: nat, k: nat, e: int)
    requires ForgetsBetween(nows, j, m, k, e)
    ensures UsedTwice(TwoOfOne(nows, j, k), ExpiryFor(nows, e), j, k)
  {
    var us, expiry := TwoOfOne(nows, j, k), ExpiryFor(nows, e);
    forall i | 0 <= i < |us| && i != j && i != k ensures |us[i].challenge| == i + 1 {
    }
    FirstOfItsChallenge(us, expiry, j);
    FirstOfItsChallenge(us, expiry, m);
    assert us[..k][..m] == us[..m];
    StaysForgotten(us[..k], expiry, m, "");
  }

  /** The clocks are good enough for single use: no verified requests with these readings use a challenge twice. */
  ghost predicate SafeReadings(nows: seq<int>) {
    forall us: seq<Use>, expiry: string -> int, j: nat, k: nat ::
      Verified(us, expiry) && Readings(us) == nows ==> !UsedTwice(us, expiry, j, k)
  }

  /**
   The exact condition on the clocks, readings being the times requests began in
   the order they commit: single use holds for every set of challenges if and
   only if no clean-up can forget between two uses.
   */
  lemma SingleUseExactlyWhenNothingIsForgotten(nows: seq<int>)
    ensures SafeReadings(nows) <==> NeverForgets(nows)
  {
    if NeverForgets(nows) {
      forall us: seq<Use>, expiry: string -> int, j: nat, k: nat | Verified(us, expiry) && Readings(us) == nows
        ensures !UsedTwice(us, expiry, j, k)
      {
        if j < k < |us| && us[j].challenge == us[k].challenge {
          OnlyTheFirstUseIsAccepted(us, expiry, k);
        }
      }
    }
    if SafeReadings(nows) {
      forall j: nat, m: nat, k: nat, e: int ensures !ForgetsBetween(nows, j, m, k, e) {
        if ForgetsBetween(nows, j, m, k, e) {
          WitnessIsVerified(nows, j, k, e);
          ForgettingIsReplay(nows, j, m, k, e);
          assert false;
        }
      }
    }
  }

  /**
   From the server's draw to the guard: a challenge it made, solved by the number
   `Solve` finds, sent before it expires and never used before, is accepted.
   */
  lemma AFreshSolutionIsAccepted(hash: string -> string, sign: (string, string) -> string, secret: string, hex: string,
                                 number: nat, maxNumber: nat, ttl: int, made: int, n: nat, now: int,
                                 us: seq<Use>, expiry: string -> int)
    requires secret != "" && number <= maxNumber && made + ttl >= 0 && now < (made + ttl) * SECOND
    requires Solves(hash, MakeChallenge(hash, sign, secret, hex, number, maxNumber, ttl, made).value, n)
    requires !UsedBefore(us, |us|, MakeChallenge(hash, sign, secret, hex, number, maxNumber, ttl, made).value.challenge)
    ensures var c := MakeChallenge(hash, sign, secret, hex, number, maxNumber, ttl, made).value;
      && VerifySolution(hash, sign, secret, Solution(c.salt, n, c.challenge, c.signature), now) == Ok(c.challenge)
      && Accepts(RowsAfter(us, expiry), c.challenge, now)
  {
    var c := MakeChallenge(hash, sign, secret, hex, number, maxNumber, ttl, made).value;
    MadeAndSolvedVerifies(hash, sign, secret, hex, number, maxNumber, ttl, made, n, now);
    if c.challenge in RowsAfter(us, expiry) {
      RowsAreUses(us, expiry, c.challenge);
    }
  }
}
