/**
 The membership synchroniser as a protocol: Stripe changes subscriptions and
 sends events, any number of webhook handlers run interleaved, each one at its
 own program point, and every committed row comes from a read made while the
 handler held the lock on the account's user row.

 `version` numbers are the model's own: Stripe's subscription counts its
 changes, and a row or an event remembers the count it belongs to. No branch
 of a handler looks at one.
 */
module MembershipProtocol {
  import opened Wrappers
  import opened Memberships

  /** What an event names, read from its type and payload. */
  datatype Target = NotOurs | NoSubscription | Of(sub: string)

  /** An event Stripe has sent; `version` is the subscription's at that moment. */
  datatype Notice = Notice(target: Target, version: nat)

  datatype Live = Live(sub: Subscription, version: nat)

  datatype Outcome = Applied | AppliedAccountMismatch | Unmatched | Ignored

  /** Where one handler is in `apply_event` / `_sync`. */
  datatype Phase =
    | Begun
    | NotSeen
    | ReadOnce(first: Subscription)
    | Resolved(account: string)
    | Locked(account: string)
    | ReadTwice(account: string, sub: Subscription, version: nat)
    | RowRead(account: string, sub: Subscription, version: nat, row: Option<Row>)
    | Logging(outcome: Outcome, named: Option<string>)

  /** One delivery: `now` is the clock the route read before anything else. */
  datatype Handler = Handler(event: string, target: Target, now: int, phase: Phase)

  /** One applied event, in the order the transactions committed. */
  datatype Effect = Effect(event: string, sub: string, seen: Observation, version: nat)

  datatype Logged = Logged(outcome: Outcome, account: Option<string>)

  datatype State = State(
    graceDays: nat,
    live: map<string, Live>,
    sent: map<string, Notice>,
    users: set<string>,
    rows: map<string, Row>,
    rowVersion: map<string, nat>,
    log: map<string, Logged>,
    locks: map<string, nat>,
    handlers: map<nat, Handler>,
    history: seq<Effect>)

  function Init(graceDays: nat): State {
    State(graceDays, map[], map[], {}, map[], map[], map[], map[], map[], [])
  }

  datatype Step =
    | StripeChange(x: string, sub: Subscription, event: string)
    | StripeNotice(event: string, target: Target)
    | UserJoins(user: string)
    | Deliver(h: nat, event: string, now: int)
    | CheckLog(h: nat)
    | FirstRead(h: nat)
    | Resolve(h: nat)
    | Lock(h: nat)
    | SecondRead(h: nat)
    | ReadRow(h: nat)
    | Commit(h: nat)
    | LogOnly(h: nat)
    | Fail(h: nat)

  function Lookup(rows: map<string, Row>, x: string): Option<Row> {
    if x in rows then Some(rows[x]) else None
  }

  function Advance(s: State, h: nat, phase: Phase): State
    requires h in s.handlers
  {
    s.(handlers := s.handlers[h := s.handlers[h].(phase := phase)])
  }

  /** The transaction ends and the handler with it: its lock goes too. */
  function Finish(s: State, h: nat): State {
    s.(handlers := s.handlers - {h},
    locks := map a | a in s.locks && s.locks[a] != h :: s.locks[a])
  }

  predicate Enabled(s: State, step: Step) {
    match step
    case StripeChange(_, _, event) => event != "" && event !in s.sent
    case StripeNotice(event, target) => event !in s.sent && (target.Of? ==> target.sub in s.live)
    case UserJoins(_) => true
    case Deliver(h, event, _) => h !in s.handlers && event in s.sent
    case CheckLog(h) => h in s.handlers && s.handlers[h].phase.Begun?
    // A read of a subscription Stripe does not know fails: see `Fail`.
    case FirstRead(h) =>
      && h in s.handlers && s.handlers[h].phase.NotSeen?
      && s.handlers[h].target.Of? && s.handlers[h].target.sub in s.live
    case Resolve(h) => h in s.handlers && s.handlers[h].phase.ReadOnce? && s.handlers[h].target.Of?
    // A user row that exists is locked only once nobody else holds it.
    case Lock(h) =>
      && h in s.handlers && s.handlers[h].phase.Resolved?
      && (s.handlers[h].phase.account in s.users ==> s.handlers[h].phase.account !in s.locks)
    case SecondRead(h) =>
      && h in s.handlers && s.handlers[h].phase.Locked?
      && s.handlers[h].target.Of? && s.handlers[h].target.sub in s.live
    case ReadRow(h) => h in s.handlers && s.handlers[h].phase.ReadTwice? && s.handlers[h].target.Of?
    case Commit(h) => h in s.handlers && s.handlers[h].phase.RowRead? && s.handlers[h].target.Of?
    case LogOnly(h) => h in s.handlers && s.handlers[h].phase.Logging?
    case Fail(h) => h in s.handlers
  }

  /** `_sync` past its row read, and `apply_event` after it, as one commit. */
  function Committed(s: State, h: nat): State
    requires Enabled(s, Step.Commit(h))
  {
    var hd := s.handlers[h];
    var p := hd.phase;
    var x := hd.target.sub;
    // The event id is a primary key and the subscription id is unique.
    if hd.event in s.log || (p.row.None? && x in s.rows) then Finish(s, h)
    else
      var m := Stored(if p.row.Some? then p.row.value else NewRow(p.account, hd.now), p.sub, hd.now, s.graceDays);
      var outcome := if p.sub.claimed == Some(m.account) then Outcome.Applied else AppliedAccountMismatch;
      Finish(
        s.(rows := s.rows[x := m],
        rowVersion := s.rowVersion[x := p.version],
        log := s.log[hd.event := Logged(outcome, Some(m.account))],
        history := s.history + [Effect(hd.event, x, Observation(p.sub, hd.now), p.version)]), h)
  }

  // One function a step. Each is what the handler, Stripe or the sign-up page does in one atomic action.

  function ChangedByStripe(s: State, x: string, sub: Subscription, event: string): State {
    var version := if x in s.live then s.live[x].version + 1 else 0;
    s.(live := s.live[x := Live(sub, version)], sent := s.sent[event := Notice(Of(x), version)])
  }

  function Noticed(s: State, event: string, target: Target): State
    requires target.Of? ==> target.sub in s.live
  {
    s.(sent := s.sent[event := Notice(target, if target.Of? then s.live[target.sub].version else 0)])
  }

  function Joined(s: State, user: string): State {
    s.(users := s.users + {user})
  }

  function Delivered(s: State, h: nat, event: string, now: int): State
    requires event in s.sent
  {
    s.(handlers := s.handlers[h := Handler(event, s.sent[event].target, now, Begun)])
  }

  function LogChecked(s: State, h: nat): State
    requires h in s.handlers
  {
    var hd := s.handlers[h];
    if hd.event == "" || hd.event in s.log then Finish(s, h)
    else Advance(s, h, if hd.target.NotOurs? then Logging(Ignored, None)
                       else if hd.target.NoSubscription? then Logging(Unmatched, None)
                       else NotSeen)
  }

  function FirstReadDone(s: State, h: nat): State
    requires Enabled(s, FirstRead(h))
  {
    Advance(s, h, ReadOnce(s.live[s.handlers[h].target.sub].sub))
  }

  function AccountResolved(s: State, h: nat): State
    requires Enabled(s, Resolve(h))
  {
    var known := Lookup(s.rows, s.handlers[h].target.sub);
    var account := if known.Some? then Some(known.value.account) else s.handlers[h].phase.first.claimed;
    Advance(s, h, if account.None? then Logging(Unmatched, None) else Resolved(account.value))
  }

  function LockTaken(s: State, h: nat): State
    requires Enabled(s, Lock(h))
  {
    var account := s.handlers[h].phase.account;
    if account !in s.users then Advance(s, h, Logging(Unmatched, Some(account)))
    else Advance(s, h, Locked(account)).(locks := s.locks[account := h])
  }

  function SecondReadDone(s: State, h: nat): State
    requires Enabled(s, SecondRead(h))
  {
    var now := s.live[s.handlers[h].target.sub];
    Advance(s, h, ReadTwice(s.handlers[h].phase.account, now.sub, now.version))
  }

  function RowReadDone(s: State, h: nat): State
    requires Enabled(s, ReadRow(h))
  {
    var p := s.handlers[h].phase;
    Advance(s, h, RowRead(p.account, p.sub, p.version, Lookup(s.rows, s.handlers[h].target.sub)))
  }

  function OnlyLogged(s: State, h: nat): State
    requires Enabled(s, LogOnly(h))
  {
    var hd := s.handlers[h];
    if hd.event in s.log then Finish(s, h)
    else Finish(s.(log := s.log[hd.event := Logged(hd.phase.outcome, hd.phase.named)]), h)
  }

  function Apply(s: State, step: Step): State
    requires Enabled(s, step)
  {
    match step
    case StripeChange(x, sub, event) => ChangedByStripe(s, x, sub, event)
    case StripeNotice(event, target) => Noticed(s, event, target)
    case UserJoins(user) => Joined(s, user)
    case Deliver(h, event, now) => Delivered(s, h, event, now)
    case CheckLog(h) => LogChecked(s, h)
    case FirstRead(h) => FirstReadDone(s, h)
    case Resolve(h) => AccountResolved(s, h)
    case Lock(h) => LockTaken(s, h)
    case SecondRead(h) => SecondReadDone(s, h)
    case ReadRow(h) => RowReadDone(s, h)
    case Commit(h) => Committed(s, h)
    case LogOnly(h) => OnlyLogged(s, h)
    case Fail(h) => Finish(s, h)
  }

  // What a handler leaves alone until it commits

  predicate SameLedger(s: State, s2: State) {
    && s2.graceDays == s.graceDays && s2.live == s.live && s2.sent == s.sent && s2.users == s.users
    && s2.rows == s.rows && s2.rowVersion == s.rowVersion && s2.history == s.history
  }

  lemma AdvanceKeepsLedger(s: State, h: nat, phase: Phase)
    requires h in s.handlers
    ensures SameLedger(s, Advance(s, h, phase)) && Advance(s, h, phase).log == s.log
  {
  }

  lemma FinishKeepsLedger(s: State, h: nat)
    ensures SameLedger(s, Finish(s, h)) && Finish(s, h).log == s.log
  {
  }

  lemma CheckLogKeepsLedger(s: State, h: nat)
    requires Enabled(s, CheckLog(h))
    ensures SameLedger(s, LogChecked(s, h)) && LogChecked(s, h).log == s.log
  {
    var hd := s.handlers[h];
    if hd.event == "" || hd.event in s.log {
      FinishKeepsLedger(s, h);
    } else {
      AdvanceKeepsLedger(s, h, LogChecked(s, h).handlers[h].phase);
    }
  }

  lemma LockKeepsLedger(s: State, h: nat)
    requires Enabled(s, Lock(h))
    ensures SameLedger(s, LockTaken(s, h)) && LockTaken(s, h).log == s.log
  {
  }

  lemma DeliverKeepsLedger(s: State, h: nat, event: string, now: int)
    requires Enabled(s, Deliver(h, event, now))
    ensures SameLedger(s, Delivered(s, h, event, now)) && Delivered(s, h, event, now).log == s.log
  {
  }

  lemma LogOnlyKeepsLedger(s: State, h: nat)
    requires Enabled(s, LogOnly(h))
    ensures SameLedger(s, OnlyLogged(s, h))
  {
    FinishKeepsLedger(s, h);
  }

  predicate HandlerStep(step: Step) {
    !step.StripeChange? && !step.StripeNotice? && !step.UserJoins?
  }

  lemma HandlerStepKeepsLedger(s: State, step: Step)
    requires Enabled(s, step) && HandlerStep(step) && !step.Commit?
    ensures SameLedger(s, Apply(s, step))
    ensures !step.LogOnly? ==> Apply(s, step).log == s.log
  {
    match step
    case Deliver(h, event, now) => DeliverKeepsLedger(s, h, event, now);
    case CheckLog(h) => CheckLogKeepsLedger(s, h);
    case FirstRead(h) => AdvanceKeepsLedger(s, h, FirstReadDone(s, h).handlers[h].phase);
    case Resolve(h) => AdvanceKeepsLedger(s, h, AccountResolved(s, h).handlers[h].phase);
    case Lock(h) => LockKeepsLedger(s, h);
    case SecondRead(h) => AdvanceKeepsLedger(s, h, SecondReadDone(s, h).handlers[h].phase);
    case ReadRow(h) => AdvanceKeepsLedger(s, h, RowReadDone(s, h).handlers[h].phase);
    case LogOnly(h) => LogOnlyKeepsLedger(s, h);
    case Fail(h) => FinishKeepsLedger(s, h);
  }

  /** `steps` is an execution from `s` to `t`: any interleaving, any delivery order, any failures. */
  predicate Runs(s: State, steps: seq<Step>, t: State)
    decreases |steps|
  {
    if steps == [] then s == t
    else Enabled(s, steps[0]) && Runs(Apply(s, steps[0]), steps[1..], t)
  }

  /** The account a handler of `x` resolves to. */
  function Owner(s: State, x: string): Option<string> {
    if x in s.rows then Some(s.rows[x].account)
    else if x in s.live then s.live[x].sub.claimed
    else None
  }

  /** The commit of `h` stores its read and logs its event; otherwise it runs into a key conflict and rolls back. */
  predicate Writes(s: State, h: nat) {
    && Enabled(s, Step.Commit(h))
    && s.handlers[h].event !in s.log
    && (s.handlers[h].phase.row.None? ==> s.handlers[h].target.sub !in s.rows)
  }

  /** `h` has decided to log `e` and to do nothing else. */
  predicate Logs(s: State, h: nat, e: string) {
    h in s.handlers && s.handlers[h].phase.Logging? && s.handlers[h].event == e
  }

  /** The event is logged, or a handler has decided to log it and nothing else. */
  predicate Settled(s: State, e: string) {
    e in s.log || exists h | h in s.handlers :: Logs(s, h, e)
  }

  /** `e` is an event for the newest state of `x`. */
  predicate Announces(s: State, e: string, x: string) {
    e in s.sent && e != "" && x in s.live && s.sent[e] == Notice(Of(x), s.live[x].version)
  }

  /** An event for `x` that Stripe has sent and nothing has logged yet. */
  predicate Pending(s: State, e: string, x: string) {
    e in s.sent && e != "" && s.sent[e].target == Of(x) && e !in s.log
  }

  predicate Drained(s: State) {
    forall e | e in s.sent && e != "" :: e in s.log
  }

  function StatesOfStep(step: Step, x: string): seq<Subscription> {
    if step.StripeChange? && step.x == x then [step.sub] else []
  }

  /** The states Stripe gives `x` in a run, in order. */
  function StatesOf(steps: seq<Step>, x: string): seq<Subscription> {
    if steps == [] then [] else StatesOfStep(steps[0], x) + StatesOf(steps[1..], x)
  }

  // Hypotheses on a run

  /** Until a subscription is bound, Stripe's changes leave the account named in its metadata alone. */
  predicate Steady(s: State, step: Step) {
    step.StripeChange? && step.x in s.live && step.x !in s.rows ==>
      step.sub.claimed == s.live[step.x].sub.claimed
  }

  predicate SteadyRun(s: State, steps: seq<Step>)
    decreases |steps|
  {
    steps == [] || (Steady(s, steps[0]) && Enabled(s, steps[0]) && SteadyRun(Apply(s, steps[0]), steps[1..]))
  }

  /** An account exists before Stripe holds an unbound subscription that names it. */
  predicate Founded(s: State, step: Step) {
    step.UserJoins? ==> forall x | x in s.live && x !in s.rows :: s.live[x].sub.claimed != Some(step.user)
  }

  predicate FoundedRun(s: State, steps: seq<Step>)
    decreases |steps|
  {
    steps == [] || (Founded(s, steps[0]) && Enabled(s, steps[0]) && FoundedRun(Apply(s, steps[0]), steps[1..]))
  }
}
