/** The answer allowance and the usage page: two counts of the same rows. */
module Quota {
  import opened Wrappers
  import opened Calendar

  datatype Answer = Answer(user: string, platform: bool, pro: bool, at: Moment, mcp: bool)

  datatype Allowance = NoAllowance | Once | Monthly
  datatype Account = Account(verified: bool, carried: nat)
  datatype Usage = Usage(used: nat, limit: nat, resetsAt: Option<Moment>, verified: bool)

  datatype DayUsage = DayUsage(date: Date, chat: nat, mcp: nat)

  /** One definition for both counts: platform-paid, and with `since` only Pro answers from then on. */
  predicate Counts(a: Answer, user: string, since: Option<Moment>) {
    && a.user == user && a.platform
    && (since.Some? ==> NotLater(since.value, a.at) && a.pro)
  }

  function CountedRows(rows: seq<Answer>, user: string, since: Option<Moment>): seq<Answer> {
    if rows == [] then []
    else
      CountedRows(rows[..|rows| - 1], user, since)
      + if Counts(rows[|rows| - 1], user, since) then [rows[|rows| - 1]] else []
  }

  /** `carried` is what deleted accounts with the same address had used. */
  function UsageFor(rows: seq<Answer>, user: string, account: Option<Account>, allowance: Allowance,
                    trial: nat, perMonth: nat, now: Moment): Usage
  {
    var verified := account.Some? && account.value.verified;
    match allowance
    case NoAllowance => Usage(0, 0, None, verified)
    case Once =>
      var carried := if account.Some? then account.value.carried else 0;
      Usage(|CountedRows(rows, user, None)| + carried, if verified then trial else 0, None, verified)
    case Monthly =>
      var since := MonthStart(now);
      Usage(|CountedRows(rows, user, Some(since))|, perMonth, Some(NextMonth(since)), verified)
  }

  /** The day an answer is shown on: its own, or today when it is stamped ahead of the clock. */
  function DayOf(a: Answer, today: Date): Date {
    if NotAfter(a.at.date, today) then a.at.date else today
  }

  predicate IsOn(a: Answer, today: Date, day: Date, mcp: bool) {
    DayOf(a, today) == day && a.mcp == mcp
  }

  function CountOn(rows: seq<Answer>, today: Date, day: Date, mcp: bool): nat {
    if rows == [] then 0
    else CountOn(rows[..|rows| - 1], today, day, mcp) + if IsOn(rows[|rows| - 1], today, day, mcp) then 1 else 0
  }

  predicate RightFor(d: DayUsage, rows: seq<Answer>, today: Date) {
    d.chat == CountOn(rows, today, d.date, false) && d.mcp == CountOn(rows, today, d.date, true)
  }

  lemma {:induction false} CountedInThisMonth(rows: seq<Answer>, user: string, now: Moment)
    requires IsMoment(now) && forall a | a in rows :: IsMoment(a.at)
    ensures forall a | a in CountedRows(rows, user, Some(MonthStart(now))) ::
      var day := DayOf(a, now.date);
      day == Date(now.date.year, now.date.month, day.day) && 1 <= day.day <= now.date.day
  {
    if rows != [] {
      CountedInThisMonth(rows[..|rows| - 1], user, now);
    }
  }

  function MonthDay(today: Date, i: int): Date {
    Date(today.year, today.month, i)
  }

  /** The zero-filled days from the first to today. */
  method EmptyDays(today: Date) returns (days: seq<DayUsage>)
    requires IsDate(today)
    ensures |days| == today.day
    ensures forall i | 0 <= i < |days| :: days[i] == DayUsage(MonthDay(today, i + 1), 0, 0)
  {
    days := [];
    var day := Date(today.year, today.month, 1);
    while NotAfter(day, today)
      invariant |days| <= today.day
      invariant |days| < today.day ==> day == MonthDay(today, |days| + 1)
      invariant |days| == today.day ==> !NotAfter(day, today)
      invariant forall i | 0 <= i < |days| :: days[i] == DayUsage(MonthDay(today, i + 1), 0, 0)
      decreases today.day - |days|
    {
      days := days + [DayUsage(day, 0, 0)];
      day := NextDay(day);
    }
  }

  /**
   This month's counted answers by day and channel. No answer misses a day: the
   days run from the first of the month to today and hold every counted one.
   */
  method DailyUsage(rows: seq<Answer>, user: string, now: Moment) returns (start: Moment, days: seq<DayUsage>)
    requires IsMoment(now) && forall a | a in rows :: IsMoment(a.at)
    ensures start == MonthStart(now) && |days| == now.date.day
    ensures forall i | 0 <= i < |days| :: days[i].date == MonthDay(now.date, i + 1)
    ensures forall i | 0 <= i < |days| :: RightFor(days[i], CountedRows(rows, user, Some(start)), now.date)
    ensures forall i | 0 <= i < |days| ::
              && days[i].chat == |ShownOn(rows, user, now, days[i].date, false)|
              && days[i].mcp == |ShownOn(rows, user, now, days[i].date, true)|
  {
    start := MonthStart(now);
    var counted := CountedRows(rows, user, Some(start));
    var today := now.date;
    days := EmptyDays(today);
    CountedInThisMonth(rows, user, now);
    var k := 0;
    while k < |counted|
      invariant k <= |counted| && |days| == today.day
      invariant forall i | 0 <= i < |days| :: days[i].date == MonthDay(today, i + 1)
      invariant forall i | 0 <= i < |days| :: RightFor(days[i], counted[..k], today)
    {
      var answer := counted[k];
      var at := DayOf(answer, today).day - 1;
      var entry := days[at];
      assert answer in counted && entry.date == DayOf(answer, today);
      days := days[at := if answer.mcp then entry.(mcp := entry.mcp + 1) else entry.(chat := entry.chat + 1)];
      assert counted[..k + 1][..k] == counted[..k];
      k := k + 1;
    }
    assert counted[..k] == counted;
    forall i | 0 <= i < |days|
      ensures days[i].chat == |ShownOn(rows, user, now, days[i].date, false)|
      ensures days[i].mcp == |ShownOn(rows, user, now, days[i].date, true)|
    {
      DaysAreExact(rows, user, now, days[i].date, false);
      DaysAreExact(rows, user, now, days[i].date, true);
    }
  }

  // The days add up

  function Total(days: seq<DayUsage>): nat {
    if days == [] then 0 else Total(days[..|days| - 1]) + days[|days| - 1].chat + days[|days| - 1].mcp
  }

  /** The rows on the first `n` days of the month. */
  function OnFirstDays(rows: seq<Answer>, today: Date, n: nat): nat {
    if n == 0 then 0
    else OnFirstDays(rows, today, n - 1)
         + CountOn(rows, today, MonthDay(today, n), false) + CountOn(rows, today, MonthDay(today, n), true)
  }

  lemma {:induction false} NoRowsNoDays(today: Date, n: nat)
    ensures OnFirstDays([], today, n) == 0
  {
    if n > 0 {
      NoRowsNoDays(today, n - 1);
    }
  }

  /** One row more adds one to the days it falls in, and nothing if it falls in none. */
  lemma {:induction false} OneRowOnOneDay(rows: seq<Answer>, a: Answer, today: Date, n: nat)
    requires DayOf(a, today) == MonthDay(today, DayOf(a, today).day) && 1 <= DayOf(a, today).day
    ensures OnFirstDays(rows + [a], today, n)
         == OnFirstDays(rows, today, n) + if DayOf(a, today).day <= n then 1 else 0
  {
    assert (rows + [a])[..|rows|] == rows;
    if n > 0 {
      OneRowOnOneDay(rows, a, today, n - 1);
    }
  }

  lemma {:induction false} EveryRowIsOnADay(rows: seq<Answer>, today: Date)
    requires forall a | a in rows ::
      DayOf(a, today) == MonthDay(today, DayOf(a, today).day) && 1 <= DayOf(a, today).day <= today.day
    requires today.day >= 0
    ensures OnFirstDays(rows, today, today.day) == |rows|
    decreases |rows|
  {
    if rows == [] {
      NoRowsNoDays(today, today.day);
    } else {
      var n := |rows| - 1;
      EveryRowIsOnADay(rows[..n], today);
      assert rows == rows[..n] + [rows[n]] && rows[n] in rows;
      OneRowOnOneDay(rows[..n], rows[n], today, today.day);
    }
  }

  lemma {:induction false} TotalIsTheDays(days: seq<DayUsage>, rows: seq<Answer>, today: Date)
    requires forall i | 0 <= i < |days| :: days[i].date == MonthDay(today, i + 1) && RightFor(days[i], rows, today)
    ensures Total(days) == OnFirstDays(rows, today, |days|)
    decreases |days|
  {
    if days != [] {
      TotalIsTheDays(days[..|days| - 1], rows, today);
    }
  }

  /**
   The usage page and the allowance never disagree: the chat and mcp counts of
   the days add up to exactly what a Pro account has used, answers stamped after
   today included.
   */
  lemma TheDaysAddUpToTheAllowance(rows: seq<Answer>, user: string, account: Option<Account>,
                                   trial: nat, perMonth: nat, now: Moment, days: seq<DayUsage>)
    requires IsMoment(now) && forall a | a in rows :: IsMoment(a.at)
    requires |days| == now.date.day
    requires forall i | 0 <= i < |days| :: days[i].date == MonthDay(now.date, i + 1)
    requires forall i | 0 <= i < |days| :: RightFor(days[i], CountedRows(rows, user, Some(MonthStart(now))), now.date)
    ensures Total(days) == UsageFor(rows, user, account, Monthly, trial, perMonth, now).used
  {
    var counted := CountedRows(rows, user, Some(MonthStart(now)));
    CountedInThisMonth(rows, user, now);
    TotalIsTheDays(days, counted, now.date);
    EveryRowIsOnADay(counted, now.date);
  }

  // When a month's count starts again

  lemma {:induction false} NothingCountsYet(rows: seq<Answer>, user: string, since: Moment)
    requires forall a | a in rows :: IsMoment(a.at) && Earlier(a.at, since)
    ensures CountedRows(rows, user, Some(since)) == []
  {
    if rows != [] {
      NothingCountsYet(rows[..|rows| - 1], user, since);
    }
  }

  /** At the moment the page says the count resets, every answer given until then has stopped counting. */
  lemma TheMonthResetsWhenItSays(rows: seq<Answer>, user: string, account: Option<Account>, trial: nat, perMonth: nat,
                                 now: Moment, later: Moment)
    requires IsMoment(now) && IsMoment(later) && forall a | a in rows :: IsMoment(a.at) && NotLater(a.at, now)
    ensures var resets := UsageFor(rows, user, account, Monthly, trial, perMonth, now).resetsAt.value;
      NotLater(resets, later) ==> UsageFor(rows, user, account, Monthly, trial, perMonth, later).used == 0
  {
    var resets := NextMonth(MonthStart(now));
    if NotLater(resets, later) {
      NowIsInItsMonth(now);
      assert forall a | a in rows :: Earlier(a.at, MonthStart(later));
      NothingCountsYet(rows, user, MonthStart(later));
    }
  }

  // What counts, for whom

  /** The rows a count is over, by position: the user's own that the platform paid for, in a month only its Pro ones. */
  function CountedAt(rows: seq<Answer>, user: string, now: Option<Moment>): set<nat> {
    set i: nat | i < |rows| && IsCounted(rows[i], user, now) :: i
  }

  predicate IsCounted(a: Answer, user: string, now: Option<Moment>) {
    a.user == user && a.platform && (now.Some? ==> a.pro && InMonthOrLater(a.at, now.value))
  }

  /** The answer's stamp is in the month of `now`, or ahead of it. */
  predicate InMonthOrLater(at: Moment, now: Moment) {
    at.date.year > now.date.year || (at.date.year == now.date.year && at.date.month >= now.date.month)
  }

  lemma MonthStartsAtItsMonth(at: Moment, now: Moment)
    requires IsMoment(at) && IsMoment(now)
    ensures NotLater(MonthStart(now), at) <==> InMonthOrLater(at, now)
  {
  }

  function Since(now: Option<Moment>): Option<Moment> {
    if now.Some? then Some(MonthStart(now.value)) else None
  }

  lemma CountsExactly(a: Answer, user: string, now: Option<Moment>)
    requires IsMoment(a.at) && (now.Some? ==> IsMoment(now.value))
    ensures Counts(a, user, Since(now)) <==> IsCounted(a, user, now)
  {
    if now.Some? { MonthStartsAtItsMonth(a.at, now.value); }
  }

  lemma OneRowMore(rows: seq<Answer>, a: Answer, user: string, now: Option<Moment>)
    requires IsMoment(a.at) && (now.Some? ==> IsMoment(now.value))
    ensures CountedAt(rows + [a], user, now)
         == CountedAt(rows, user, now) + if Counts(a, user, Since(now)) then {|rows|} else {}
  {
    CountsExactly(a, user, now);
    var all, before := rows + [a], CountedAt(rows, user, now);
    forall i: nat ensures i in CountedAt(all, user, now) <==> i in before || (i == |rows| && IsCounted(a, user, now)) {
      assert i < |rows| ==> all[i] == rows[i];
      assert all[|rows|] == a;
    }
  }

  lemma {:induction false} RowsAreCounted(rows: seq<Answer>, user: string, now: Option<Moment>)
    requires (forall a | a in rows :: IsMoment(a.at)) && (now.Some? ==> IsMoment(now.value))
    ensures |CountedRows(rows, user, Since(now))| == |CountedAt(rows, user, now)|
    decreases |rows|
  {
    if rows != [] {
      var n := |rows| - 1;
      RowsAreCounted(rows[..n], user, now);
      OneRowMore(rows[..n], rows[n], user, now);
      assert rows[..n] + [rows[n]] == rows;
    }
  }

  /**
   What each allowance counts and gives: the trial once, to a verified address, all
   the user's answers and those carried over; the month its Pro answers since it
   began, or stamped ahead. Other users' answers and those the platform did not pay
   for count for neither.
   */
  lemma AllowanceIsExact(rows: seq<Answer>, user: string, account: Option<Account>, allowance: Allowance,
                         trial: nat, perMonth: nat, now: Moment)
    requires IsMoment(now) && forall a | a in rows :: IsMoment(a.at)
    ensures var u, verified := UsageFor(rows, user, account, allowance, trial, perMonth, now),
                               account.Some? && account.value.verified;
      && (u.verified <==> verified)
      && (allowance == Once ==>
            && u.used == |CountedAt(rows, user, None)| + (if account.Some? then account.value.carried else 0)
            && u.limit == (if verified then trial else 0) && u.resetsAt == None)
      && (allowance == Monthly ==>
            u.used == |CountedAt(rows, user, Some(now))| && u.limit == perMonth && u.resetsAt.Some?)
      && (allowance == NoAllowance ==> u.used == 0 && u.limit == 0 && u.resetsAt == None)
  {
    RowsAreCounted(rows, user, None);
    RowsAreCounted(rows, user, Some(now));
  }

  /** Answers of others, and answers the platform did not pay for, change nobody's usage. */
  lemma OthersDoNotCount(rows: seq<Answer>, more: Answer, user: string, account: Option<Account>, allowance: Allowance,
                         trial: nat, perMonth: nat, now: Moment)
    requires more.user != user || !more.platform
    ensures UsageFor(rows + [more], user, account, allowance, trial, perMonth, now)
         == UsageFor(rows, user, account, allowance, trial, perMonth, now)
  {
    assert (rows + [more])[..|rows|] == rows;
    forall since ensures CountedRows(rows + [more], user, since) == CountedRows(rows, user, since) {
      assert CountedRows(rows, user, since) + [] == CountedRows(rows, user, since);
    }
  }

  // Who may ask

  datatype Verdict = MayAsk | VerifyFirst | Upgrade | WaitUntil(resetsAt: Option<Moment>)

  /** `refuse_if_used_up`: what helps a caller who has nothing left. */
  function Gate(u: Usage, allowance: Allowance, pro: bool): Verdict {
    if u.limit > u.used then MayAsk
    else if allowance == Once && !u.verified then VerifyFirst
    else if pro then WaitUntil(u.resetsAt)
    else Upgrade
  }

  /**
   A free account may ask exactly while it is verified and its answers, with those
   carried over, are fewer than the trial; a Pro account exactly while this month's
   are fewer than the month's. The refusal names what helps.
   */
  lemma WhoMayAsk(rows: seq<Answer>, user: string, account: Option<Account>, trial: nat, perMonth: nat, now: Moment)
    requires IsMoment(now) && forall a | a in rows :: IsMoment(a.at)
    ensures var verified := account.Some? && account.value.verified;
      var used := |CountedAt(rows, user, None)| + if account.Some? then account.value.carried else 0;
      Gate(UsageFor(rows, user, account, Once, trial, perMonth, now), Once, false)
      == if !verified then VerifyFirst else if used < trial then MayAsk else Upgrade
    ensures Gate(UsageFor(rows, user, account, Monthly, trial, perMonth, now), Monthly, true)
      == if |CountedAt(rows, user, Some(now))| < perMonth then MayAsk else WaitUntil(Some(NextMonth(MonthStart(now))))
  {
    AllowanceIsExact(rows, user, account, Once, trial, perMonth, now);
    AllowanceIsExact(rows, user, account, Monthly, trial, perMonth, now);
  }

  // The days, by position

  /** The counted rows of one channel that are shown on `day`. */
  function ShownOn(rows: seq<Answer>, user: string, now: Moment, day: Date, mcp: bool): set<nat> {
    set i: nat | i < |rows| && IsCounted(rows[i], user, Some(now)) && DayOf(rows[i], now.date) == day && rows[i].mcp == mcp :: i
  }

  lemma OneMoreShown(rows: seq<Answer>, a: Answer, user: string, now: Moment, day: Date, mcp: bool)
    ensures ShownOn(rows + [a], user, now, day, mcp) == ShownOn(rows, user, now, day, mcp)
      + if IsCounted(a, user, Some(now)) && DayOf(a, now.date) == day && a.mcp == mcp then {|rows|} else {}
  {
    var all, before := rows + [a], ShownOn(rows, user, now, day, mcp);
    forall i: nat
      ensures i in ShownOn(all, user, now, day, mcp) <==>
        i in before || (i == |rows| && IsCounted(a, user, Some(now)) && DayOf(a, now.date) == day && a.mcp == mcp)
    {
      assert i < |rows| ==> all[i] == rows[i];
      assert all[|rows|] == a;
    }
  }

  lemma CountOneMore(rows: seq<Answer>, a: Answer, today: Date, day: Date, mcp: bool)
    ensures CountOn(rows + [a], today, day, mcp) == CountOn(rows, today, day, mcp) + if IsOn(a, today, day, mcp) then 1 else 0
  {
    assert (rows + [a])[..|rows|] == rows;
  }

  lemma CountedOneMore(rows: seq<Answer>, a: Answer, user: string, since: Option<Moment>)
    ensures CountedRows(rows + [a], user, since) ==
      if Counts(a, user, since) then CountedRows(rows, user, since) + [a] else CountedRows(rows, user, since)
  {
    assert (rows + [a])[..|rows|] == rows;
    assert CountedRows(rows, user, since) + [] == CountedRows(rows, user, since);
  }

  lemma DayOneMore(rows: seq<Answer>, a: Answer, user: string, now: Moment, day: Date, mcp: bool)
    requires IsMoment(now) && IsMoment(a.at)
    requires CountOn(CountedRows(rows, user, Some(MonthStart(now))), now.date, day, mcp)
          == |ShownOn(rows, user, now, day, mcp)|
    ensures CountOn(CountedRows(rows + [a], user, Some(MonthStart(now))), now.date, day, mcp)
         == |ShownOn(rows + [a], user, now, day, mcp)|
  {
    OneMoreShown(rows, a, user, now, day, mcp);
    CountsExactly(a, user, Some(now));
    CountedOneMore(rows, a, user, Some(MonthStart(now)));
    CountOneMore(CountedRows(rows, user, Some(MonthStart(now))), a, now.date, day, mcp);
  }

  /** A day's count of a channel is the number of the user's counted answers of that channel shown on it. */
  lemma {:induction false} DaysAreExact(rows: seq<Answer>, user: string, now: Moment, day: Date, mcp: bool)
    requires IsMoment(now) && forall a | a in rows :: IsMoment(a.at)
    ensures CountOn(CountedRows(rows, user, Some(MonthStart(now))), now.date, day, mcp)
         == |ShownOn(rows, user, now, day, mcp)|
    decreases |rows|
  {
    if rows != [] {
      var n := |rows| - 1;
      DaysAreExact(rows[..n], user, now, day, mcp);
      DayOneMore(rows[..n], rows[n], user, now, day, mcp);
      assert rows[..n] + [rows[n]] == rows;
    }
  }
}
