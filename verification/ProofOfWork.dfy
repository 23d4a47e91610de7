/** The proof-of-work challenge: made, solved and verified. */
module ProofOfWork {
  import opened Wrappers
  import opened Decimals

  // `hash` stands for SHA-256 and `sign` for HMAC under the server's secret; both are arbitrary functions
  // unless a lemma says more. Times are in microseconds.

  const MARK := "?expires="
  const SECOND: int := 1_000_000

  datatype Challenge = Challenge(salt: string, challenge: string, maxNumber: nat, signature: string)

  datatype Payload =
    | Malformed
    | Solution(salt: string, number: int, challenge: string, signature: string)

  datatype PowError = EmptySecret | MalformedSolution | NotIssued | WrongAnswer | Expired | NoSolution

  function Hash(hash: string -> string, salt: string, number: int): string {
    hash(salt + DecimalInt(number))
  }

  function Sign(sign: (string, string) -> string, secret: string, salt: string, challenge: string): string {
    sign(secret, salt + "|" + challenge)
  }

  function SaltOf(hex: string, expires: int): string {
    hex + MARK + DecimalInt(expires)
  }

  /** `hex` and `number` are drawn at random by the server; `now` is in whole seconds. */
  function MakeChallenge(hash: string -> string, sign: (string, string) -> string, secret: string,
                         hex: string, number: nat, maxNumber: nat, ttl: int, now: int): Result<Challenge, PowError>
  {
    if secret == "" then Err(EmptySecret)
    else
      var salt := SaltOf(hex, now + ttl);
      var challenge := Hash(hash, salt, number);
      Ok(Challenge(salt, challenge, maxNumber, Sign(sign, secret, salt, challenge)))
  }

  /** Where the text after the last mark starts, looking at positions up to `n`. */
  function AfterLastMark(salt: string, n: nat): string
    requires n <= |salt|
  {
    if MARK <= salt[n..] then salt[n + |MARK|..]
    else if n == 0 then salt
    else AfterLastMark(salt, n - 1)
  }

  /** The text a salt gives for its expiry: all of it when there is no mark. */
  function ExpiresText(salt: string): string {
    AfterLastMark(salt, |salt|)
  }

  predicate Live(salt: string, now: int) {
    AllDigits(ExpiresText(salt)) && now < ParseDecimal(ExpiresText(salt)) * SECOND
  }

  function VerifySolution(hash: string -> string, sign: (string, string) -> string, secret: string,
                          p: Payload, now: int): Result<string, PowError>
  {
    if p.Malformed? then Err(MalformedSolution)
    else if Sign(sign, secret, p.salt, p.challenge) != p.signature then Err(NotIssued)
    else if Hash(hash, p.salt, p.number) != p.challenge then Err(WrongAnswer)
    else if !Live(p.salt, now) then Err(Expired)
    else Ok(p.challenge)
  }

  predicate Solves(hash: string -> string, c: Challenge, n: nat) {
    n <= c.maxNumber && Hash(hash, c.salt, n) == c.challenge
  }

  /** The smallest number that solves, or none. */
  method Solve(hash: string -> string, c: Challenge) returns (r: Result<nat, PowError>)
    ensures r.Ok? ==> Solves(hash, c, r.value) && forall n: nat | n < r.value :: !Solves(hash, c, n)
    ensures r.Err? ==> forall n: nat :: !Solves(hash, c, n)
  {
    var n := 0;
    while n <= c.maxNumber
      invariant n <= c.maxNumber + 1 && forall k: nat | k < n :: !Solves(hash, c, k)
    {
      if Hash(hash, c.salt, n) == c.challenge {
        return Ok(n);
      }
      n := n + 1;
    }
    return Err(NoSolution);
  }

  // The expiry survives the salt

  lemma {:induction false} MarkIsFound(hex: string, text: string, n: nat)
    requires '?' !in text && |hex| <= n <= |hex + MARK + text|
    ensures AfterLastMark(hex + MARK + text, n) == text
    decreases n
  {
    var salt := hex + MARK + text;
    if n == |hex| {
      assert salt[n..] == MARK + text;
    } else {
      if MARK <= salt[n..] {
        MarkStartsEarlier(hex, text, n);
      }
      MarkIsFound(hex, text, n - 1);
    }
  }

  lemma MarkStartsEarlier(hex: string, text: string, n: nat)
    requires '?' !in text && |hex| < n <= |hex + MARK + text|
    ensures !(MARK <= (hex + MARK + text)[n..])
  {
    var salt := hex + MARK + text;
    assert MARK[0] == '?' && forall i | 0 < i < |MARK| :: MARK[i] != '?';
    assert n < |salt| ==> salt[n] != '?';
  }

  lemma SaltCarriesItsExpiry(hex: string, expires: int)
    ensures ExpiresText(SaltOf(hex, expires)) == DecimalInt(expires)
  {
    DigitsHaveNoMark(expires);
    MarkIsFound(hex, DecimalInt(expires), |SaltOf(hex, expires)|);
  }

  lemma DigitsHaveNoMark(n: int)
    ensures '?' !in DecimalInt(n)
  {
    DecimalIsRead(if n < 0 then -n else n);
  }

  lemma LiveUntilExpiry(hex: string, expires: int, now: int)
    ensures Live(SaltOf(hex, expires), now) <==> expires >= 0 && now < expires * SECOND
  {
    SaltCarriesItsExpiry(hex, expires);
    DecimalIntIsDigitsWhenNotNegative(expires);
    if expires >= 0 {
      DecimalIsRead(expires);
    }
  }

  /**
   A challenge the server made, solved by any number that solves it, verifies if
   and only if its expiry is not negative and the clock has not reached it.
   */
  lemma MadeAndSolvedVerifies(hash: string -> string, sign: (string, string) -> string, secret: string,
                              hex: string, number: nat, maxNumber: nat, ttl: int, made: int, n: nat, now: int)
    requires secret != "" && number <= maxNumber
    requires Solves(hash, MakeChallenge(hash, sign, secret, hex, number, maxNumber, ttl, made).value, n)
    ensures var c := MakeChallenge(hash, sign, secret, hex, number, maxNumber, ttl, made).value;
      VerifySolution(hash, sign, secret, Solution(c.salt, n, c.challenge, c.signature), now)
      == if made + ttl >= 0 && now < (made + ttl) * SECOND then Ok(c.challenge) else Err(Expired)
  {
    LiveUntilExpiry(hex, made + ttl, now);
  }

  /** The number the server drew solves, so `Solve` finds one. */
  lemma MadeIsSolvable(hash: string -> string, sign: (string, string) -> string, secret: string,
                       hex: string, number: nat, maxNumber: nat, ttl: int, made: int)
    requires secret != "" && number <= maxNumber
    ensures Solves(hash, MakeChallenge(hash, sign, secret, hex, number, maxNumber, ttl, made).value, number)
  {
  }

  // One expiry for each challenge

  ghost predicate Injective(hash: string -> string) {
    forall s, t :: hash(s) == hash(t) ==> s == t
  }

  datatype Issue = Issue(hex: string, expires: int, number: nat)

  function ChallengeOf(hash: string -> string, i: Issue): string {
    Hash(hash, SaltOf(i.hex, i.expires), i.number)
  }

  /** Random parts are as long as each other and never repeat. */
  predicate FreshHexes(issued: set<Issue>) {
    forall i, j | i in issued && j in issued :: |i.hex| == |j.hex| && (i.hex == j.hex ==> i == j)
  }

  /**
   A challenge id belongs to one issue, so to one expiry, although the id hashes
   salt and number with nothing between them.
   */
  lemma OneIssuePerChallenge(hash: string -> string, issued: set<Issue>, i: Issue, j: Issue)
    requires Injective(hash) && FreshHexes(issued) && i in issued && j in issued
    requires ChallengeOf(hash, i) == ChallengeOf(hash, j)
    ensures i == j
  {
    var s := SaltOf(i.hex, i.expires) + DecimalInt(i.number);
    var t := SaltOf(j.hex, j.expires) + DecimalInt(j.number);
    assert s == t;
    assert s[..|i.hex|] == i.hex && t[..|j.hex|] == j.hex;
  }

  /** The message is one the server signed: what a matching signature shows, HMAC not being forgeable. */
  predicate Signed(hash: string -> string, issued: set<Issue>, salt: string, challenge: string) {
    exists i | i in issued :: salt + "|" + challenge == SaltOf(i.hex, i.expires) + "|" + ChallengeOf(hash, i)
  }

  predicate NoBar(s: string) {
    '|' !in s
  }

  lemma BarSplitsOnce(a: string, b: string, c: string, d: string)
    requires NoBar(c) && NoBar(d) && a + "|" + b == c + "|" + d
    ensures a == c && b == d
  {
    var s := a + "|" + b;
    assert s[|a|] == '|';
    assert forall k | 0 <= k < |s| && k != |c| :: s[k] in c || s[k] in d;
    assert |a| == |c|;
    assert s[..|a|] == a && s[..|c|] == c && s[|a| + 1..] == b && s[|c| + 1..] == d;
  }

  /** Joining with a bar loses nothing, since neither part of a signed message has one. */
  lemma SignedIsOneIssue(hash: string -> string, issued: set<Issue>, salt: string, challenge: string) returns (i: Issue)
    requires forall i | i in issued :: NoBar(i.hex) && NoBar(ChallengeOf(hash, i))
    requires Signed(hash, issued, salt, challenge)
    ensures i in issued && salt == SaltOf(i.hex, i.expires) && challenge == ChallengeOf(hash, i)
  {
    i :| i in issued && salt + "|" + challenge == SaltOf(i.hex, i.expires) + "|" + ChallengeOf(hash, i);
    DigitsHaveNoBar(i.expires);
    BarSplitsOnce(salt, challenge, SaltOf(i.hex, i.expires), ChallengeOf(hash, i));
  }

  /** Two signed messages for one challenge id carry one salt, so one expiry, whoever sends them. */
  lemma OneSaltPerChallenge(hash: string -> string, issued: set<Issue>, salt: string, other: string, challenge: string)
    requires forall i | i in issued :: NoBar(i.hex) && NoBar(ChallengeOf(hash, i))
    requires Injective(hash) && FreshHexes(issued)
    requires Signed(hash, issued, salt, challenge) && Signed(hash, issued, other, challenge)
    ensures salt == other && ExpiresText(salt) == ExpiresText(other)
  {
    var i := SignedIsOneIssue(hash, issued, salt, challenge);
    var j := SignedIsOneIssue(hash, issued, other, challenge);
    OneIssuePerChallenge(hash, issued, i, j);
  }

  lemma DigitsHaveNoBar(n: int)
    ensures NoBar(DecimalInt(n))
  {
    DecimalIsRead(if n < 0 then -n else n);
  }
}
