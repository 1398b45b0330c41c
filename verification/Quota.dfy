// Ingest quotas: spans are counted per tenant, minute and day before a request is ruled on.
module Quota {
  import opened Text
  import opened ArchiveKey
  import opened QuotaStore

  datatype Plan = Plan(spansPerMinute: int, spansPerDay: int)

  const PLANS: map<string, Plan> := map[
    "trial" := Plan(2_000, 200_000),
    "pro" := Plan(50_000, 20_000_000),
    "enterprise" := Plan(0, 0),
    "local" := Plan(0, 0)
  ]

  const DEFAULT_PLAN: string := "trial"
  const SOFT_FRACTION: real := 0.8
  const MINUTE_TTL: real := 120.0
  const DAY_TTL: real := 172_800.0

  /** A UTC wall-clock time. */
  datatype Time = Time(hour: UtcHour, minute: nat, second: real) {
    predicate Valid() {
      minute < 60 && 0.0 <= second < 60.0
    }
  }

  type UtcTime = t: Time | t.Valid() witness Time(Hour(2026, 1, 1, 0), 0, 0.0)

  /** One check: the request, the wall clock, and the monotonic clock at the two increments. */
  datatype Request = Request(
    tenant: string, plan: string, spans: nat, overrideMinute: Option<int>, overrideDay: Option<int>,
    at: UtcTime, mono: real, monoDay: real)

  datatype Reason = NoReason | RateLimit | DailyVolume

  datatype Verdict = Verdict(
    allowed: bool, softExceeded: bool, reason: Reason, retryAfter: int,
    usedMinute: nat, usedDay: nat, limitMinute: int, limitDay: int)

  function PlanFor(name: string): Plan {
    var n := if name == "" then DEFAULT_PLAN else name;
    if n in PLANS then PLANS[n] else PLANS[DEFAULT_PLAN]
  }

  function LimitMinute(r: Request): int {
    if r.overrideMinute.Some? then r.overrideMinute.value else PlanFor(r.plan).spansPerMinute
  }

  function LimitDay(r: Request): int {
    if r.overrideDay.Some? then r.overrideDay.value else PlanFor(r.plan).spansPerDay
  }

  /** Whether the request is counted at all. */
  predicate Metered(r: Request) {
    r.spans != 0 && !(LimitMinute(r) == 0 && LimitDay(r) == 0)
  }

  /** A counted stretch of time of one tenant. */
  datatype Window =
    | MinuteOf(tenant: string, hour: UtcHour, minute: nat)
    | DayOf(tenant: string, year: nat, month: nat, day: nat)

  function InMinute(r: Request): Window {
    MinuteOf(r.tenant, r.at.hour, r.at.minute)
  }

  function InDay(r: Request): Window {
    DayOf(r.tenant, r.at.hour.year, r.at.hour.month, r.at.hour.day)
  }

  predicate Inside(r: Request, w: Window) {
    Metered(r) && (w == InMinute(r) || w == InDay(r))
  }

  function Limit(r: Request, w: Window): int {
    if w.MinuteOf? then LimitMinute(r) else LimitDay(r)
  }

  function Date(year: nat, month: nat, day: nat): string {
    Padded(year, 4) + Padded(month, 2) + Padded(day, 2)
  }

  function CounterKey(w: Window): string {
    match w
    case MinuteOf(tenant, h, minute) =>
      "q:" + tenant + (":m:" + (Date(h.year, h.month, h.day) + Padded(h.hour, 2) + Padded(minute, 2)))
    case DayOf(tenant, year, month, day) => "q:" + tenant + (":d:" + Date(year, month, day))
  }

  function MinuteOp(r: Request): Op {
    Op(CounterKey(InMinute(r)), r.spans, MINUTE_TTL, r.mono)
  }

  function DayOp(r: Request): Op {
    Op(CounterKey(InDay(r)), r.spans, DAY_TTL, r.monoDay)
  }

  /** The ruling, once both counters are known. */
  function Rule(r: Request, usedMinute: nat, usedDay: nat): Verdict {
    var lm, ld := LimitMinute(r), LimitDay(r);
    var second := r.at.second.Floor;
    if lm != 0 && usedMinute > lm then
      Verdict(false, false, RateLimit, if 60 - second > 1 then 60 - second else 1, usedMinute, usedDay, lm, ld)
    else if ld != 0 && usedDay > ld then
      var left := 86_400 - (r.at.hour.hour * 3600 + r.at.minute * 60 + second);
      Verdict(false, false, DailyVolume, if left > 1 then left else 1, usedMinute, usedDay, lm, ld)
    else
      var soft := (lm != 0 && usedMinute as real > lm as real * SOFT_FRACTION)
                  || (ld != 0 && usedDay as real > ld as real * SOFT_FRACTION);
      Verdict(true, soft, NoReason, 0, usedMinute, usedDay, lm, ld)
  }

  function AfterCheck(local: Local, r: Request): Local {
    if Metered(r) then After(After(local, MinuteOp(r), true), DayOp(r), true) else local
  }

  function Verdicted(local: Local, r: Request): Verdict {
    if !Metered(r) then Verdict(true, false, NoReason, 0, 0, 0, LimitMinute(r), LimitDay(r))
    else Rule(r, Updated(local, MinuteOp(r)).count, Updated(After(local, MinuteOp(r), true), DayOp(r)).count)
  }

  function Counters(requests: seq<Request>): Local {
    if requests == [] then map[] else AfterCheck(Counters(requests[..|requests| - 1]), requests[|requests| - 1])
  }

  function LastVerdict(requests: seq<Request>): Verdict
    requires requests != []
  {
    Verdicted(Counters(requests[..|requests| - 1]), requests[|requests| - 1])
  }

  // ---------------------------------------------------------------------- clocks

  /** Days before a date, by the Gregorian rule; dates that do not exist get some number too. */
  function DayNumber(h: UtcHour): int {
    var y := if h.month <= 2 then h.year - 1 else h.year;
    var m := if h.month <= 2 then h.month + 9 else h.month - 3;
    365 * y + y / 4 - y / 100 + y / 400 + BeforeMonth(m) + h.day
  }

  predicate Leap(year: nat) {
    year % 4 == 0 && (year % 100 != 0 || year % 400 == 0)
  }

  function DaysIn(year: nat, month: nat): nat {
    if month == 2 then (if Leap(year) then 29 else 28)
    else if month == 4 || month == 6 || month == 9 || month == 11 then 30
    else 31
  }

  /** Day numbers count the calendar: each date that exists is one more than the date before it. */
  lemma DaysCount(h: UtcHour, next: UtcHour)
    requires h.day <= DaysIn(h.year, h.month)
    requires if h.day < DaysIn(h.year, h.month) then next.year == h.year && next.month == h.month && next.day == h.day + 1
      else next.day == 1 && if h.month < 12 then next.year == h.year && next.month == h.month + 1
        else next.year == h.year + 1 && next.month == 1
    ensures DayNumber(next) == DayNumber(h) + 1
  {
    if h.day == DaysIn(h.year, h.month) {
      if h.month == 2 { LeapDay(h.year); } else { MonthLength(h.month); }
    }
  }

  /** Days of the year, from March on, before the month that `m` months after March starts. */
  function BeforeMonth(m: nat): nat {
    (153 * m + 2) / 5
  }

  lemma MonthLength(month: nat)
    requires 1 <= month <= 12 && month != 2
    ensures var m, next := if month <= 2 then month + 9 else month - 3, if month == 12 then 10 else if month == 1 then 11 else month - 2;
      BeforeMonth(next) == BeforeMonth(m) + DaysIn(0, month)
  {
    assert month == 1 || month == 3 || month == 4 || month == 5 || month == 6 || month == 7 || month == 8 || month == 9
      || month == 10 || month == 11 || month == 12;
  }

  /** The leap days up to a year are one more than those up to the year before exactly in a leap year. */
  lemma LeapDay(year: nat)
    requires year > 0
    ensures var y := year - 1;
      year / 4 - year / 100 + year / 400 - (y / 4 - y / 100 + y / 400) == if Leap(year) then 1 else 0
  {
    Multiples(year, 4);
    Multiples(year, 100);
    Multiples(year, 400);
    if year % 100 == 0 { HundredsAreFours(year); }
    if year % 400 == 0 { FourHundredsAreHundreds(year); }
  }

  /** Going on by one year passes a multiple of k exactly when it reaches one. */
  lemma Multiples(year: nat, k: nat)
    requires year > 0 && (k == 4 || k == 100 || k == 400)
    ensures year / k - (year - 1) / k == if year % k == 0 then 1 else 0
  {
    var q, r := year / k, year % k;
    assert year == k * q + r;
    if r > 0 {
      Quotient(year - 1, k, q, r - 1);
    } else {
      Product(k, q - 1);
      Quotient(year - 1, k, q - 1, k - 1);
    }
  }

  lemma Product(k: nat, q: int)
    ensures k * (q + 1) == k * q + k
  {}

  lemma Quotient(n: nat, k: nat, q: int, r: nat)
    requires r < k && n == k * q + r
    ensures n / k == q
  {
    var d := n / k - q;
    assert n == k * (n / k) + n % k;
    assert k * d == k * (n / k) - k * q;
    if d >= 1 { Grows(k, 1, d); }
    if d <= -1 { Grows(k, d, -1); }
  }

  lemma Grows(k: nat, a: int, b: int)
    requires a <= b
    ensures k * a <= k * b
  {}

  lemma HundredsAreFours(year: nat)
    requires year % 100 == 0
    ensures year % 4 == 0
  {
    var q := 25 * (year / 100);
    assert year == 4 * q;
  }

  lemma FourHundredsAreHundreds(year: nat)
    requires year % 400 == 0
    ensures year % 100 == 0
  {
    var q := 4 * (year / 400);
    assert year == 100 * q;
  }

  function Seconds(t: UtcTime): real {
    (DayNumber(t.hour) * 86_400 + t.hour.hour * 3600 + t.minute * 60) as real + t.second
  }

  /** The monotonic clock is past zero and does not run backwards, and gains at most a minute on the wall
      clock. */
  ghost predicate Steady(requests: seq<Request>) {
    && (forall i :: 0 <= i < |requests| ==> 0.0 < requests[i].mono <= requests[i].monoDay)
    && (forall i, j :: 0 <= i < j < |requests| ==> requests[i].monoDay <= requests[j].mono)
    && forall i, j :: 0 <= i <= j < |requests| ==>
         requests[j].monoDay - requests[i].mono <= Seconds(requests[j].at) - Seconds(requests[i].at) + 60.0
  }

  lemma SteadyFront(requests: seq<Request>, n: nat)
    requires Steady(requests) && n <= |requests|
    ensures Steady(requests[..n])
  {
    forall i | 0 <= i < n ensures requests[..n][i] == requests[i] {}
  }

  /** Times in one window are less than that window apart. */
  lemma WindowLength(a: Request, b: Request, w: Window)
    requires Inside(a, w) && Inside(b, w)
    ensures Seconds(b.at) - Seconds(a.at) < if w.MinuteOf? then 60.0 else 86_400.0
  {
    hide DayNumber, LimitMinute, LimitDay;
    SameDate(a.at.hour, b.at.hour);
    var x, y := a.at.hour, b.at.hour;
    assert x.hour <= 23 && y.hour <= 23 && a.at.minute <= 59 && b.at.minute <= 59;
    assert DayNumber(x) == DayNumber(y);
  }

  lemma SameDate(a: UtcHour, b: UtcHour)
    requires a.year == b.year && a.month == b.month && a.day == b.day
    ensures DayNumber(a) == DayNumber(b)
  {}

  /** The limits of each plan; a request without a plan, or with an unknown one, is on trial. Zero is no limit. */
  lemma PlanLimits(name: string)
    ensures PlanFor(name) ==
      if name == "pro" then Plan(50_000, 20_000_000)
      else if name == "enterprise" || name == "local" then Plan(0, 0)
      else Plan(2_000, 200_000)
  {}

  /** A client that waits as long as a refusal says finds the window over, and by less than a second. */
  lemma RetryReachesNextWindow(r: Request, usedMinute: nat, usedDay: nat)
    requires !Rule(r, usedMinute, usedDay).allowed
    ensures var v := Rule(r, usedMinute, usedDay); var t := r.at;
      var over := (DayNumber(t.hour) * 86_400
               + if v.reason == RateLimit then t.hour.hour * 3600 + (t.minute + 1) * 60 else 86_400) as real;
      v.retryAfter > 0 && over <= Seconds(t) + v.retryAfter as real < over + 1.0
  {
    hide DayNumber;
    var second := r.at.second.Floor;
    assert second as real <= r.at.second && 0 <= second < 60;
    assert r.at.minute <= 59 && r.at.hour.hour <= 23;
  }

  // ------------------------------------------------------------------------ keys

  lemma DateLength(h: UtcHour)
    ensures |Date(h.year, h.month, h.day)| == 8
  {
    FourDigits(h.year);
    TwoDigits(h.month);
    TwoDigits(h.day);
  }

  /** A date as written: year, month, day. */
  lemma DateReads(h: UtcHour)
    ensures var s := Date(h.year, h.month, h.day);
      && |s| == 8 && AllDigits(s[..4]) && ValueOf(s[..4]) == h.year
      && AllDigits(s[4..6]) && ValueOf(s[4..6]) == h.month && AllDigits(s[6..]) && ValueOf(s[6..]) == h.day
  {
    hide Padded;
    DateLength(h);
    FourDigits(h.year); TwoDigits(h.month); TwoDigits(h.day);
    PaddedValue(h.year, 4); PaddedValue(h.month, 2); PaddedValue(h.day, 2);
    var s := Date(h.year, h.month, h.day);
    assert s[..4] == Padded(h.year, 4) && s[4..6] == Padded(h.month, 2) && s[6..] == Padded(h.day, 2);
  }

  lemma DateInjective(a: UtcHour, b: UtcHour)
    requires Date(a.year, a.month, a.day) == Date(b.year, b.month, b.day)
    ensures a.year == b.year && a.month == b.month && a.day == b.day
  {
    hide Date, ValueOf, AllDigits;
    DateReads(a);
    DateReads(b);
  }

  lemma TenantSplit(t: string, x: string, t': string, y: string)
    requires "q:" + t + x == "q:" + t' + y && |x| == |y|
    ensures t == t' && x == y
  {
    TailSplit("q:" + t, x, "q:" + t', y);
    assert t == ("q:" + t)[2..] == ("q:" + t')[2..] == t';
  }

  lemma MinuteKeyInjective(a: Request, b: Request)
    requires CounterKey(InMinute(a)) == CounterKey(InMinute(b))
    ensures InMinute(a) == InMinute(b)
  {
    hide Padded, Date;
    var x, y := a.at, b.at;
    DateLength(x.hour); DateLength(y.hour);
    TwoDigits(x.hour.hour); TwoDigits(x.minute); TwoDigits(y.hour.hour); TwoDigits(y.minute);
    var d, e := Date(x.hour.year, x.hour.month, x.hour.day), Date(y.hour.year, y.hour.month, y.hour.day);
    var u, v := d + Padded(x.hour.hour, 2) + Padded(x.minute, 2), e + Padded(y.hour.hour, 2) + Padded(y.minute, 2);
    TenantSplit(a.tenant, ":m:" + u, b.tenant, ":m:" + v);
    assert u == (":m:" + u)[3..] == (":m:" + v)[3..] == v;
    TailSplit(d + Padded(x.hour.hour, 2), Padded(x.minute, 2), e + Padded(y.hour.hour, 2), Padded(y.minute, 2));
    TailSplit(d, Padded(x.hour.hour, 2), e, Padded(y.hour.hour, 2));
    PaddedInjective(x.minute, y.minute, 2);
    PaddedInjective(x.hour.hour, y.hour.hour, 2);
    DateInjective(x.hour, y.hour);
  }

  lemma {:induction false} DayKeyInjective(a: Request, b: Request)
    requires CounterKey(InDay(a)) == CounterKey(InDay(b))
    ensures InDay(a) == InDay(b)
  {
    hide Padded, Date;
    var x, y := a.at.hour, b.at.hour;
    DateLength(x); DateLength(y);
    var d, e := Date(x.year, x.month, x.day), Date(y.year, y.month, y.day);
    TenantSplit(a.tenant, ":d:" + d, b.tenant, ":d:" + e);
    assert d == (":d:" + d)[3..] == (":d:" + e)[3..] == e;
    DateInjective(x, y);
  }

  lemma DateIsDigits(h: UtcHour)
    ensures AllDigits(Date(h.year, h.month, h.day))
  {
    PaddedValue(h.year, 4);
    PaddedValue(h.month, 2);
    PaddedValue(h.day, 2);
  }

  /** A minute's counter is never a day's counter. */
  lemma MinuteIsNotDay(a: Request, b: Request)
    ensures CounterKey(InMinute(a)) != CounterKey(InDay(b))
  {
    hide Padded, Date;
    var x, y := a.at, b.at;
    DateLength(x.hour); DateLength(y.hour); DateIsDigits(x.hour);
    TwoDigits(x.hour.hour); TwoDigits(x.minute);
    PaddedValue(x.hour.hour, 2); PaddedValue(x.minute, 2);
    var d := Date(x.hour.year, x.hour.month, x.hour.day);
    var k, l := CounterKey(InMinute(a)), CounterKey(InDay(b));
    assert l[|l| - 9] == ':';
    var head := "q:" + a.tenant + ":m:";
    assert k == head + (d + Padded(x.hour.hour, 2) + Padded(x.minute, 2));
    assert k[|k| - 9] == d[3] && IsDigit(d[3]);
  }

  /** The keys as written: the date, and for a minute's counter the hour and the minute behind it. */
  lemma CounterKeysRead(r: Request)
    ensures var h := r.at.hour; var date := Date(h.year, h.month, h.day);
      var clock := Padded(h.hour, 2) + Padded(r.at.minute, 2);
      && CounterKey(InDay(r)) == "q:" + r.tenant + (":d:" + date)
      && CounterKey(InMinute(r)) == "q:" + r.tenant + (":m:" + (date + clock))
      && |clock| == 4 && AllDigits(clock[..2]) && ValueOf(clock[..2]) == h.hour
      && AllDigits(clock[2..]) && ValueOf(clock[2..]) == r.at.minute
  {
    hide Padded, Date;
    var h := r.at.hour;
    TwoDigits(h.hour); TwoDigits(r.at.minute);
    PaddedValue(h.hour, 2); PaddedValue(r.at.minute, 2);
    var date, clock := Date(h.year, h.month, h.day), Padded(h.hour, 2) + Padded(r.at.minute, 2);
    assert clock[..2] == Padded(h.hour, 2) && clock[2..] == Padded(r.at.minute, 2);
    assert date + Padded(h.hour, 2) + Padded(r.at.minute, 2) == date + clock;
  }

  /** Counters belong to exactly one tenant and one stretch of time. */
  lemma {:induction false} KeysNeverCollide(a: Request, w: Window, b: Request, v: Window)
    requires (w == InMinute(a) || w == InDay(a)) && (v == InMinute(b) || v == InDay(b))
    ensures CounterKey(w) == CounterKey(v) <==> w == v
  {
    hide CounterKey;
    if CounterKey(w) == CounterKey(v) {
      if w.MinuteOf? {
        MinuteIsNotDay(a, b);
        MinuteKeyInjective(a, b);
      } else {
        MinuteIsNotDay(b, a);
        DayKeyInjective(a, b);
      }
    }
  }

  // -------------------------------------------------------------------- counting

  function Ops(requests: seq<Request>): seq<Op> {
    if requests == [] then []
    else
      var front, last := Ops(requests[..|requests| - 1]), requests[|requests| - 1];
      if Metered(last) then front + [MinuteOp(last)] + [DayOp(last)] else front
  }

  lemma {:induction false} CountersAreStore(requests: seq<Request>)
    ensures Counters(requests) == Store(Ops(requests), true)
  {
    hide After, MinuteOp, DayOp, Metered;
    if requests != [] {
      var front, last := requests[..|requests| - 1], requests[|requests| - 1];
      CountersAreStore(front);
      if Metered(last) {
        var ops := Ops(front);
        var mid := ops + [MinuteOp(last)];
        assert mid[..|ops|] == ops && (mid + [DayOp(last)])[..|mid|] == mid;
      }
    }
  }

  /** All spans counted in a window: those of every metered request of that tenant at that time. */
  function SpansIn(requests: seq<Request>, w: Window): nat {
    if requests == [] then 0
    else
      SpansIn(requests[..|requests| - 1], w)
      + if Inside(requests[|requests| - 1], w) then requests[|requests| - 1].spans else 0
  }

  lemma {:induction false} SumIsSpans(requests: seq<Request>, a: Request, w: Window)
    requires w == InMinute(a) || w == InDay(a)
    ensures Sum(Ops(requests), CounterKey(w)) == SpansIn(requests, w)
  {
    hide CounterKey, Metered;
    if requests != [] {
      var front, last := requests[..|requests| - 1], requests[|requests| - 1];
      SumIsSpans(front, a, w);
      if Metered(last) {
        KeysNeverCollide(a, w, last, InMinute(last));
        KeysNeverCollide(a, w, last, InDay(last));
        SumTwo(Ops(front), MinuteOp(last), DayOp(last), CounterKey(w));
      }
    }
  }

  lemma SumTwo(ops: seq<Op>, x: Op, y: Op, key: string)
    ensures Sum(ops + [x] + [y], key)
         == Sum(ops, key) + (if x.key == key then x.amount else 0) + if y.key == key then y.amount else 0
  {
    var mid := ops + [x];
    assert mid[..|ops|] == ops && (mid + [y])[..|mid|] == mid;
  }

  /** Where an increment comes from. */
  ghost predicate From(op: Op, r: Request) {
    Metered(r) && (op == MinuteOp(r) || op == DayOp(r))
  }

  lemma {:induction false} OpsFrom(requests: seq<Request>, i: nat) returns (j: nat)
    requires i < |Ops(requests)|
    ensures j < |requests| && From(Ops(requests)[i], requests[j])
  {
    hide MinuteOp, DayOp, Metered;
    var front := requests[..|requests| - 1];
    if i < |Ops(front)| {
      j := OpsFrom(front, i);
      assert Ops(requests)[i] == Ops(front)[i];
    } else {
      j := |requests| - 1;
    }
  }

  lemma {:induction false} OpsOrdered(requests: seq<Request>)
    requires Steady(requests)
    ensures Ordered(Ops(requests))
  {
    hide CounterKey, Metered, Seconds;
    if requests != [] {
      var n := |requests| - 1;
      var front, last := requests[..n], requests[n];
      SteadyFront(requests, n);
      OpsOrdered(front);
      var ops := Ops(front);
      forall i | 0 <= i < |ops| ensures ops[i].now <= last.mono {
        var j := OpsFrom(front, i);
        assert front[j] == requests[j];
      }
      assert last.mono <= last.monoDay;
    }
  }

  /** The first increment of a window's key is by a request in that window. */
  lemma {:induction false} FirstInWindow(requests: seq<Request>, a: Request, w: Window) returns (j: nat)
    requires w == InMinute(a) || w == InDay(a)
    requires Steady(requests) && FirstExpiry(Ops(requests), CounterKey(w)) != 0.0
    ensures j < |requests| && Inside(requests[j], w)
    ensures FirstExpiry(Ops(requests), CounterKey(w)) >= requests[j].mono + if w.MinuteOf? then MINUTE_TTL else DAY_TTL
    decreases |requests|
  {
    hide CounterKey, Metered, MinuteOp, DayOp;
    var front, last := requests[..|requests| - 1], requests[|requests| - 1];
    assert requests == front + [last];
    if FirstExpiry(Ops(front), CounterKey(w)) != 0.0 {
      SteadyFront(requests, |requests| - 1);
      j := FirstInWindow(front, a, w);
      FirstExpiryStays(front, last, CounterKey(w));
    } else {
      j := |requests| - 1;
      assert last.mono <= last.monoDay;
      FirstByLast(front, last, a, w);
    }
  }

  lemma {:induction false} FirstByLast(front: seq<Request>, last: Request, a: Request, w: Window)
    requires (w == InMinute(a) || w == InDay(a)) && last.mono <= last.monoDay
    requires FirstExpiry(Ops(front), CounterKey(w)) == 0.0
    requires FirstExpiry(Ops(front + [last]), CounterKey(w)) != 0.0
    ensures Inside(last, w)
    ensures FirstExpiry(Ops(front + [last]), CounterKey(w)) >= last.mono + if w.MinuteOf? then MINUTE_TTL else DAY_TTL
  {
    hide CounterKey, Metered;
    KeysNeverCollide(a, w, last, InMinute(last));
    KeysNeverCollide(a, w, last, InDay(last));
    var ops := Ops(front);
    var mid := ops + [MinuteOp(last)];
    assert (front + [last])[..|front|] == front && mid[..|ops|] == ops && (mid + [DayOp(last)])[..|mid|] == mid;
  }

  lemma FirstExpiryStays(front: seq<Request>, last: Request, key: string)
    requires FirstExpiry(Ops(front), key) != 0.0
    ensures FirstExpiry(Ops(front + [last]), key) == FirstExpiry(Ops(front), key)
  {}

  lemma {:induction false} FirstExpiryFixed(ops: seq<Op>, n: nat, key: string)
    requires n <= |ops| && FirstExpiry(ops[..n], key) != 0.0
    ensures FirstExpiry(ops, key) == FirstExpiry(ops[..n], key)
  {
    if n == |ops| {
      assert ops[..n] == ops;
    } else {
      assert ops[..|ops| - 1][..n] == ops[..n];
      FirstExpiryFixed(ops[..|ops| - 1], n, key);
    }
  }

  lemma OrderedPrefix(ops: seq<Op>, n: nat)
    requires Ordered(ops) && n <= |ops|
    ensures Ordered(ops[..n])
  {
    forall i | 0 <= i < n ensures ops[..n][i] == ops[i] {}
  }

  lemma OpOfWindow(op: Op, r: Request, a: Request, w: Window)
    requires From(op, r) && op.key == CounterKey(w) && (w == InMinute(a) || w == InDay(a))
    requires r.mono <= r.monoDay
    ensures Inside(r, w) && op.now <= r.monoDay
  {
    hide CounterKey;
    KeysNeverCollide(a, w, r, InMinute(r));
    KeysNeverCollide(a, w, r, InDay(r));
  }

  /** 120 s outlasts a minute and 172 800 s a day, by more than the clocks can drift apart. */
  lemma {:induction false} NoResetInsideWindow(requests: seq<Request>, a: Request, w: Window)
    requires Steady(requests) && (w == InMinute(a) || w == InDay(a))
    ensures Ordered(Ops(requests)) && InTime(Ops(requests), CounterKey(w))
  {
    hide CounterKey, Metered, Seconds, MinuteOp, DayOp;
    OpsOrdered(requests);
    var ops := Ops(requests);
    forall i | 0 <= i < |ops| && ops[i].key == CounterKey(w) ensures ops[i].now <= FirstExpiry(ops[..i + 1], CounterKey(w)) {
      OrderedPrefix(ops, i + 1);
      FirstExpiryPositive(ops[..i + 1], CounterKey(w));
      FirstExpiryFixed(ops, i + 1, CounterKey(w));
      var j := FirstInWindow(requests, a, w);
      var k := OpsFrom(requests, i);
      OpOfWindow(ops[i], requests[k], a, w);
      if j <= k {
        WindowLength(requests[j], requests[k], w);
      } else {
        assert requests[k].monoDay <= requests[j].mono;
      }
    }
  }

  lemma RuleReports(r: Request, usedMinute: nat, usedDay: nat)
    ensures Rule(r, usedMinute, usedDay).usedMinute == usedMinute && Rule(r, usedMinute, usedDay).usedDay == usedDay
  {}

  /** The counters a verdict reports are the totals of its two increments. */
  lemma {:induction false} VerdictTotals(front: seq<Request>, last: Request)
    requires Metered(last)
    ensures var ops, v := Ops(front), LastVerdict(front + [last]);
      && Ops(front + [last]) == ops + [MinuteOp(last)] + [DayOp(last)]
      && v.usedMinute == Total(ops + [MinuteOp(last)], true)
      && v.usedDay == Total(ops + [MinuteOp(last)] + [DayOp(last)], true)
  {
    hide Metered, MinuteOp, DayOp, Updated, After, Rule, Counters;
    var ops := Ops(front);
    var mid := ops + [MinuteOp(last)];
    assert (front + [last])[..|front|] == front && mid[..|ops|] == ops && (mid + [DayOp(last)])[..|mid|] == mid;
    CountersAreStore(front);
    RuleReports(last, Total(mid, true), Total(mid + [DayOp(last)], true));
  }

  lemma InTimePrefix(ops: seq<Op>, n: nat, key: string)
    requires Ordered(ops) && InTime(ops, key) && n <= |ops|
    ensures Ordered(ops[..n]) && InTime(ops[..n], key)
  {
    OrderedPrefix(ops, n);
    forall i | 0 <= i < n ensures ops[..n][i] == ops[i] && ops[..n][..i + 1] == ops[..i + 1] {}
  }

  lemma SumOfOthers(ops: seq<Op>, op: Op, key: string)
    requires op.key != key
    ensures Sum(ops + [op], key) == Sum(ops, key)
  {
    assert (ops + [op])[..|ops|] == ops;
  }

  lemma {:induction false} MinuteTotal(front: seq<Request>, last: Request)
    requires Steady(front + [last]) && Metered(last)
    ensures LastVerdict(front + [last]).usedMinute == SpansIn(front + [last], InMinute(last))
  {
    hide CounterKey, Metered, Steady, LastVerdict, Total, Ordered, InTime, Ops, SpansIn, Sum;
    var w, mid := InMinute(last), Ops(front) + [MinuteOp(last)];
    VerdictTotals(front, last);
    NoResetInsideWindow(front + [last], last, w);
    var ops := mid + [DayOp(last)];
    assert ops[..|mid|] == mid;
    InTimePrefix(ops, |mid|, CounterKey(w));
    TotalIsSum(mid);
    MinuteIsNotDay(last, last);
    SumOfOthers(mid, DayOp(last), CounterKey(w));
    SumIsSpans(front + [last], last, w);
  }

  lemma {:induction false} DayTotal(front: seq<Request>, last: Request)
    requires Steady(front + [last]) && Metered(last)
    ensures LastVerdict(front + [last]).usedDay == SpansIn(front + [last], InDay(last))
  {
    hide CounterKey, Metered, Steady, LastVerdict, Total, Ordered, InTime, Ops, SpansIn, Sum;
    VerdictTotals(front, last);
    NoResetInsideWindow(front + [last], last, InDay(last));
    TotalIsSum(Ops(front + [last]));
    SumIsSpans(front + [last], last, InDay(last));
  }

  ghost predicate Over(requests: seq<Request>, w: Window) {
    requests != [] && Inside(requests[|requests| - 1], w)
    && Limit(requests[|requests| - 1], w) != 0 && SpansIn(requests, w) > Limit(requests[|requests| - 1], w)
  }

  /** A request is refused if and only if the spans its tenant has sent in its minute or its day,
      this request and refused ones included, exceed a limit that is not zero. */
  lemma {:induction false} RefusedExactly(requests: seq<Request>)
    requires requests != [] && Steady(requests)
    ensures var last := requests[|requests| - 1];
      !LastVerdict(requests).allowed <==> Over(requests, InMinute(last)) || Over(requests, InDay(last))
  {
    hide Updated, LimitMinute, LimitDay, SpansIn;
    var front, last := requests[..|requests| - 1], requests[|requests| - 1];
    assert requests == front + [last];
    if Metered(last) {
      MinuteTotal(front, last);
      DayTotal(front, last);
    }
  }

  // ---------------------------------------------------------------------- theorems

  /** The spans admitted in a window. */
  function AdmittedIn(requests: seq<Request>, w: Window): nat {
    if requests == [] then 0
    else
      AdmittedIn(requests[..|requests| - 1], w)
      + if Inside(requests[|requests| - 1], w) && LastVerdict(requests).allowed then requests[|requests| - 1].spans else 0
  }

  lemma {:induction false} AdmittedAreCounted(requests: seq<Request>, w: Window)
    ensures AdmittedIn(requests, w) <= SpansIn(requests, w)
  {
    if requests != [] {
      AdmittedAreCounted(requests[..|requests| - 1], w);
    }
  }

  /** Under a fixed limit other than zero, no tenant gets more spans admitted in one minute, or in one
      day, than that limit. */
  lemma {:induction false} AdmittedWithinLimit(requests: seq<Request>, w: Window, limit: int)
    requires Steady(requests) && limit != 0
    requires forall r :: r in requests && Inside(r, w) ==> Limit(r, w) == limit
    ensures AdmittedIn(requests, w) <= if limit > 0 then limit else 0
  {
    hide Inside, LastVerdict, SpansIn;
    if requests != [] {
      var front, last := requests[..|requests| - 1], requests[|requests| - 1];
      SteadyFront(requests, |requests| - 1);
      assert last in requests && forall r :: r in front ==> r in requests;
      AdmittedWithinLimit(front, w, limit);
      if Inside(last, w) && LastVerdict(requests).allowed {
        RefusedExactly(requests);
        WindowOf(last, w);
        AdmittedAreCounted(requests, w);
      }
    }
  }

  lemma WindowOf(r: Request, w: Window)
    requires Inside(r, w)
    ensures w == InMinute(r) || w == InDay(r)
  {}

  lemma {:induction false} SpansOnlyGrow(requests: seq<Request>, n: nat, w: Window)
    requires n <= |requests|
    ensures SpansIn(requests[..n], w) <= SpansIn(requests, w)
  {
    if n == |requests| {
      assert requests[..n] == requests;
    } else {
      assert requests[..|requests| - 1][..n] == requests[..n];
      SpansOnlyGrow(requests[..|requests| - 1], n, w);
    }
  }

  /** Once a window's limit has refused a request, every later non-empty request in that window under
      that limit, or a lower one, is refused too. */
  lemma {:induction false} OnceRefusedStaysRefused(requests: seq<Request>, n: nat, w: Window)
    requires Steady(requests) && 0 < n <= |requests| && Over(requests[..n], w)
    requires var later := requests[|requests| - 1];
      Inside(later, w) && Limit(later, w) != 0 && Limit(later, w) <= Limit(requests[n - 1], w)
    ensures !LastVerdict(requests[..n]).allowed && !LastVerdict(requests).allowed
  {
    hide LastVerdict, SpansIn, Limit, Steady, Metered;
    SteadyFront(requests, n);
    SpansOnlyGrow(requests, n, w);
    assert requests[..n][n - 1] == requests[n - 1];
    WindowOf(requests[n - 1], w);
    WindowOf(requests[|requests| - 1], w);
    RefusedExactly(requests[..n]);
    RefusedExactly(requests);
  }

  /** The prefix that ends with the last request counted in a window. */
  lemma {:induction false} LastInside(requests: seq<Request>, w: Window) returns (n: nat)
    requires SpansIn(requests, w) > 0
    ensures 0 < n <= |requests| && Inside(requests[n - 1], w) && SpansIn(requests[..n], w) == SpansIn(requests, w)
    decreases |requests|
  {
    hide Inside;
    n := |requests|;
    assert requests[..n] == requests;
    if !Inside(requests[n - 1], w) {
      n := LastInside(requests[..n - 1], w);
      assert requests[..|requests| - 1][..n] == requests[..n];
    }
  }

  lemma SoftWhenAllowed(requests: seq<Request>, w: Window, limit: int)
    requires requests != [] && Steady(requests) && Inside(requests[|requests| - 1], w)
    requires Limit(requests[|requests| - 1], w) == limit > 0
    requires LastVerdict(requests).allowed && SpansIn(requests, w) * 5 > limit * 4
    ensures LastVerdict(requests).softExceeded
  {
    hide Updated, PlanFor, SpansIn, Counters, Steady;
    var front, last := requests[..|requests| - 1], requests[|requests| - 1];
    assert requests == front + [last];
    MinuteTotal(front, last);
    DayTotal(front, last);
    assert SpansIn(requests, w) as real > limit as real * SOFT_FRACTION;
  }

  /** Of all requests: the flag goes up exactly with an admitted request that leaves a limited window of its own
      more than four fifths full; the verdict names the window that refused, and carries both totals and both
      limits. */
  lemma VerdictExactly(requests: seq<Request>)
    requires requests != [] && Steady(requests) && Metered(requests[|requests| - 1])
    ensures var r, v := requests[|requests| - 1], LastVerdict(requests);
      var minute, day := SpansIn(requests, InMinute(r)), SpansIn(requests, InDay(r));
      var lm, ld := LimitMinute(r), LimitDay(r);
      && (v.softExceeded <==> v.allowed && ((lm != 0 && minute * 5 > lm * 4) || (ld != 0 && day * 5 > ld * 4)))
      && (v.reason == RateLimit <==> lm != 0 && minute > lm)
      && (v.reason == DailyVolume <==> !(lm != 0 && minute > lm) && ld != 0 && day > ld)
      && (v.allowed <==> v.reason == NoReason) && (v.allowed ==> v.retryAfter == 0)
      && v.usedMinute == minute && v.usedDay == day && v.limitMinute == lm && v.limitDay == ld
  {
    hide Rule, SpansIn, LastVerdict, Metered, LimitMinute, LimitDay;
    var r := requests[|requests| - 1];
    LastIsRuled(requests);
    RuleMeans(r, SpansIn(requests, InMinute(r)), SpansIn(requests, InDay(r)));
  }

  lemma LastIsRuled(requests: seq<Request>)
    requires requests != [] && Steady(requests) && Metered(requests[|requests| - 1])
    ensures var r := requests[|requests| - 1];
      LastVerdict(requests) == Rule(r, SpansIn(requests, InMinute(r)), SpansIn(requests, InDay(r)))
  {
    hide Updated, Rule, SpansIn, Counters, Steady, Metered, LimitMinute, LimitDay, InMinute, InDay, After, MinuteOp, DayOp;
    var front, last := requests[..|requests| - 1], requests[|requests| - 1];
    assert requests == front + [last];
    var local := Counters(front);
    var minute := Updated(local, MinuteOp(last)).count;
    var day := Updated(After(local, MinuteOp(last), true), DayOp(last)).count;
    assert LastVerdict(requests) == Rule(last, minute, day);
    RuleMeans(last, minute, day);
    MinuteTotal(front, last);
    DayTotal(front, last);
  }

  lemma RuleMeans(r: Request, minute: nat, day: nat)
    ensures var v, lm, ld := Rule(r, minute, day), LimitMinute(r), LimitDay(r);
      && (v.softExceeded <==> v.allowed && ((lm != 0 && minute * 5 > lm * 4) || (ld != 0 && day * 5 > ld * 4)))
      && (v.reason == RateLimit <==> lm != 0 && minute > lm)
      && (v.reason == DailyVolume <==> !(lm != 0 && minute > lm) && ld != 0 && day > ld)
      && (v.allowed <==> v.reason == NoReason) && (v.allowed ==> v.retryAfter == 0)
      && v.usedMinute == minute && v.usedDay == day && v.limitMinute == lm && v.limitDay == ld
  {
    hide LimitMinute, LimitDay;
    FourFifths(minute, LimitMinute(r));
    FourFifths(day, LimitDay(r));
  }

  lemma FourFifths(used: nat, limit: int)
    ensures used as real > limit as real * SOFT_FRACTION <==> used * 5 > limit * 4
  {
    assert (used * 5) as real == used as real * 5.0 && (limit * 4) as real == limit as real * 4.0;
  }

  /** What is added where, and for how long: the minute's counter lives two minutes, the day's two days. */
  lemma OpsRead(r: Request)
    ensures MinuteOp(r) == Op(CounterKey(InMinute(r)), r.spans, 120.0, r.mono)
    ensures DayOp(r) == Op(CounterKey(InDay(r)), r.spans, 172_800.0, r.monoDay)
  {
    hide CounterKey;
  }

  /** What is counted against which limit: an override comes before the plan, nothing is counted for a request
      without spans or without limits. */
  lemma MeteredMeans(r: Request)
    ensures r.overrideMinute.Some? ==> LimitMinute(r) == r.overrideMinute.value
    ensures r.overrideMinute.None? ==> LimitMinute(r) == PlanFor(r.plan).spansPerMinute
    ensures r.overrideDay.Some? ==> LimitDay(r) == r.overrideDay.value
    ensures r.overrideDay.None? ==> LimitDay(r) == PlanFor(r.plan).spansPerDay
    ensures Metered(r) <==> r.spans > 0 && (LimitMinute(r) != 0 || LimitDay(r) != 0)
    ensures InMinute(r) == MinuteOf(r.tenant, r.at.hour, r.at.minute)
    ensures InDay(r) == DayOf(r.tenant, r.at.hour.year, r.at.hour.month, r.at.hour.day)
  {
    hide PlanFor;
  }

  /** The customer hears of it first: when no request is larger than a fifth of a window's limit, the
      first refusal under that limit comes after an admitted request that carried the soft flag. */
  lemma SoftFlagPrecedesRefusal(requests: seq<Request>, w: Window, limit: int) returns (n: nat)
    requires Steady(requests) && limit > 0 && Over(requests, w)
    requires forall r :: r in requests && Inside(r, w) ==> Limit(r, w) == limit && r.spans * 5 <= limit
    requires forall k :: 0 < k < |requests| && Inside(requests[k - 1], w) ==> LastVerdict(requests[..k]).allowed
    ensures 0 < n < |requests| && Inside(requests[n - 1], w)
    ensures LastVerdict(requests[..n]).allowed && LastVerdict(requests[..n]).softExceeded
  {
    hide LastVerdict, Inside, Limit, Steady;
    var front, last := requests[..|requests| - 1], requests[|requests| - 1];
    assert last in requests;
    n := LastInside(front, w);
    assert front[..n] == requests[..n] && requests[n - 1] in requests;
    SteadyFront(requests, n);
    assert requests[..n][n - 1] == requests[n - 1];
    SoftWhenAllowed(requests[..n], w, limit);
  }

  // ---------------------------------------------------------------------- the object

  class QuotaEnforcer {
    const store: LocalStore

    constructor (store: LocalStore)
      ensures this.store == store
    {
      this.store := store;
    }

    /** Counts before deciding. */
    method Check(r: Request) returns (v: Verdict)
      modifies store
      ensures store.local == AfterCheck(old(store.local), r)
      ensures v == Verdicted(old(store.local), r)
    {
      var limitMinute := LimitMinute(r);
      var limitDay := LimitDay(r);
      if r.spans == 0 || (limitMinute == 0 && limitDay == 0) {
        return Verdict(true, false, NoReason, 0, 0, 0, limitMinute, limitDay);
      }
      var usedMinute := store.IncrLocal(CounterKey(InMinute(r)), r.spans, MINUTE_TTL, r.mono);
      var usedDay := store.IncrLocal(CounterKey(InDay(r)), r.spans, DAY_TTL, r.monoDay);
      v := Rule(r, usedMinute, usedDay);
    }
  }
}
