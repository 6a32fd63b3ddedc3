/** The cron scheduler: the day-first search for an entry's next minute, and the poll that
    trusts a cached next minute.

    Minutes count from the epoch.  Local time is a fixed offset in minutes.  An entry's
    five fields are one predicate on the local day (month, day of month and day of week all
    have to match) and one each on the hour and the minute.
  */
module Cron {
  import opened Machine

  const NEVER: nat := 0xFFFF_FFFF
  const DAY: nat := 1440
  const HORIZON: nat := 400 * 24 * 60

  datatype Entry = Entry(day: int -> bool, hour: int -> bool, minute: int -> bool, awake: bool, network: bool)

  /** A line of the tab: an entry, or one that does not parse and is passed over. */
  datatype Line = Bad | Good(entry: Entry)

  predicate Matches(e: Entry, offset: int, m: nat) {
    var local := m + offset;
    e.day(local / DAY) && e.hour(local % DAY / 60) && e.minute(local % DAY % 60)
  }

  datatype Found = At(minute: nat) | Nowhere

  /** The first matching minute from `from` up to and including `limit`. */
  function First(e: Entry, offset: int, from: nat, limit: int): (r: Found)
    decreases limit + 1 - from
  {
    if from > limit then Nowhere
    else if Matches(e, offset, from) then At(from)
    else First(e, offset, from + 1, limit)
  }

  /** It is a matching minute in range and none comes before it, or there is none. */
  lemma {:induction false} FirstIsFirst(e: Entry, offset: int, from: nat, limit: int)
    ensures var r := First(e, offset, from, limit);
            && (r.At? ==> from <= r.minute <= limit && Matches(e, offset, r.minute))
            && (forall m: nat :: from <= m <= limit && (r.At? ==> m < r.minute) ==> !Matches(e, offset, m))
    decreases limit + 1 - from
  {
    if from > limit {
    } else {
      FirstIsFirst(e, offset, from + 1, limit);
    }
  }

  // ---- The search ----

  lemma {:induction false} FirstFrom(e: Entry, offset: int, from: nat, t: nat, limit: int)
    requires from <= t <= limit + 1 && forall m: nat :: from <= m < t ==> !Matches(e, offset, m)
    ensures First(e, offset, from, limit) == First(e, offset, t, limit)
    decreases t - from
  {
    if from == t {
    } else {
      FirstFrom(e, offset, from + 1, t, limit);
    }
  }

  lemma NoneIsNowhere(e: Entry, offset: int, from: nat, limit: int)
    requires forall m: nat :: from <= m <= limit ==> !Matches(e, offset, m)
    ensures First(e, offset, from, limit) == Nowhere
  {
    FirstIsFirst(e, offset, from, limit);
  }

  /** Some hour and some minute of the day can match at all. */
  ghost predicate Possible(e: Entry) {
    (exists h :: 0 <= h < 24 && e.hour(h)) && (exists m :: 0 <= m < 60 && e.minute(m))
  }

  /** Broken-down local time, as struct tm keeps it. */
  datatype Tm = Tm(day: int, hour: int, minute: int)

  predicate InRange(tm: Tm) { 0 <= tm.hour < 24 && 0 <= tm.minute < 60 }

  function LocalTime(m: nat, offset: int): (tm: Tm)
    ensures InRange(tm) && LocalMinute(tm) == m + offset
  {
    Tm((m + offset) / DAY, (m + offset) % DAY / 60, (m + offset) % DAY % 60)
  }

  function LocalMinute(tm: Tm): int { tm.day * DAY + tm.hour * 60 + tm.minute }

  /** mktime's normalising of a field that is one past its range. */
  function Normal(tm: Tm): Tm {
    var tm1 := if tm.minute == 60 then Tm(tm.day, tm.hour + 1, 0) else tm;
    if tm1.hour == 24 then Tm(tm1.day + 1, 0, tm1.minute) else tm1
  }

  predicate Fits(e: Entry, tm: Tm) { e.day(tm.day) && e.hour(tm.hour) && e.minute(tm.minute) }

  /** On to the next day, hour or minute, by the first field that does not match. */
  function Advance(e: Entry, tm: Tm): Tm {
    Normal(if !e.day(tm.day) then Tm(tm.day + 1, 0, 0)
           else if !e.hour(tm.hour) then Tm(tm.day, tm.hour + 1, 0)
           else Tm(tm.day, tm.hour, tm.minute + 1))
  }

  /** What the search has ruled out when it stands at `tm` having started at `tm0`: on a
      later day every earlier hour, and in a later hour every earlier minute. */
  ghost predicate Ruled(e: Entry, tm0: Tm, tm: Tm) {
    && (tm.day > tm0.day || (tm.day == tm0.day && tm.hour >= tm0.hour))
    && (tm.day == tm0.day && tm != tm0 ==> e.day(tm.day))
    && (tm.day > tm0.day ==>
          (tm.hour > 0 || tm.minute > 0 ==> e.day(tm.day)) && forall h :: 0 <= h < tm.hour ==> !e.hour(h))
    && ((tm.day > tm0.day || tm.hour > tm0.hour) ==>
          (tm.minute > 0 ==> e.hour(tm.hour)) && forall m :: 0 <= m < tm.minute ==> !e.minute(m))
  }

  /** How many rounds the search can have taken to stand there: in the first hour one a
      minute, then one an hour, then one a day, and those of the hour and minute it is at. */
  function Rounds(tm0: Tm, tm: Tm): int {
    if tm.day == tm0.day && tm.hour == tm0.hour then tm.minute - tm0.minute
    else if tm.day == tm0.day then 60 + (tm.hour - tm0.hour) + tm.minute
    else 84 + (tm.day - tm0.day) + tm.hour + tm.minute
  }

  lemma AdvanceRules(e: Entry, tm0: Tm, tm: Tm)
    requires InRange(tm0) && InRange(tm) && Possible(e) && Ruled(e, tm0, tm) && !Fits(e, tm)
    ensures Ruled(e, tm0, Advance(e, tm)) && Rounds(tm0, Advance(e, tm)) >= Rounds(tm0, tm) + 1
  {
    var h :| 0 <= h < 24 && e.hour(h);
    var m :| 0 <= m < 60 && e.minute(m);
  }

  lemma SameDay(x: int, day: int)
    requires day * DAY <= x < (day + 1) * DAY
    ensures x / DAY == day
  {
  }

  lemma SameHour(x: int, day: int, hour: int)
    requires 0 <= hour < 24 && day * DAY + hour * 60 <= x < day * DAY + (hour + 1) * 60
    ensures x / DAY == day && x % DAY / 60 == hour && x % DAY % 60 == x - day * DAY - hour * 60
  {
    SameDay(x, day);
    assert x % DAY == x - day * DAY;
    var y := x - day * DAY;
    assert y / 60 == hour && y % 60 == y - hour * 60;
  }

  /** Nothing is stepped over that could match. */
  lemma AdvanceSkipsNothing(e: Entry, offset: int, t: nat, tm: Tm)
    requires InRange(tm) && LocalMinute(tm) == t + offset && !Fits(e, tm)
    ensures InRange(Advance(e, tm)) && t < LocalMinute(Advance(e, tm)) - offset <= t + DAY
    ensures forall m: nat :: t <= m < LocalMinute(Advance(e, tm)) - offset ==> !Matches(e, offset, m)
  {
    AdvanceEnds(e, tm);
    forall m: nat | t <= m < LocalMinute(Advance(e, tm)) - offset ensures !Matches(e, offset, m) {
      if !e.day(tm.day) { SameDay(m + offset, tm.day); } else { SameHour(m + offset, tm.day, tm.hour); }
    }
  }

  lemma AdvanceEnds(e: Entry, tm: Tm)
    requires InRange(tm)
    ensures InRange(Advance(e, tm))
    ensures LocalMinute(Advance(e, tm)) ==
            if !e.day(tm.day) then (tm.day + 1) * DAY
            else if !e.hour(tm.hour) then tm.day * DAY + (tm.hour + 1) * 60
            else LocalMinute(tm) + 1
  {
  }

  lemma FitsIsMatches(e: Entry, offset: int, t: nat, tm: Tm)
    requires InRange(tm) && LocalMinute(tm) == t + offset
    ensures Fits(e, tm) <==> Matches(e, offset, t)
  {
    SameHour(t + offset, tm.day, tm.hour);
  }

  lemma ImpossibleNeverMatches(e: Entry, offset: int, m: nat)
    requires !Possible(e)
    ensures !Matches(e, offset, m)
  {
  }

  // ---- Where the search goes ----

  /** The n-th stop of the search. */
  function Stop(e: Entry, tm: Tm, n: nat): Tm {
    if n == 0 then tm else Advance(e, Stop(e, tm, n - 1))
  }

  const ROUNDS: nat := 1000

  /** The minute the thousandth round would look at, were nothing found before. */
  function Reach(e: Entry, offset: int, from: nat): int {
    LocalMinute(Stop(e, LocalTime(from, offset), ROUNDS)) - offset
  }

  /** The first stop past a minute that does not match: the end of the local day, hour or
      minute whose field fails there. */
  function StopPast(e: Entry, offset: int, m: nat): int {
    LocalMinute(Advance(e, LocalTime(m, offset))) - offset
  }

  /** What cronNextRun returns, for every 32-bit start: the first matching minute within
      the horizon; failing that NEVER, unless the first stop past the horizon lies beyond
      the 32-bit range, where the search goes on and may find a minute that has wrapped. */
  function Next(e: Entry, offset: int, from: nat): nat {
    var horizon := from + HORIZON;
    if horizon >= U32 then NEVER
    else
      var r := First(e, offset, from, horizon);
      if r.At? then r.minute
      else if Wraps(e, offset, from) then Low32(First(e, offset, StopPast(e, offset, horizon), Reach(e, offset, from) - 1).minute)
      else NEVER
  }

  /** The one case in which a search with no answer returns a minute all the same. */
  predicate Wraps(e: Entry, offset: int, from: nat) {
    && from + HORIZON < U32
    && StopPast(e, offset, from + HORIZON) >= U32
    && First(e, offset, StopPast(e, offset, from + HORIZON), Reach(e, offset, from) - 1).At?
  }

  /** The search is past the horizon only at the first stop there, or after that stop lay
      beyond the 32-bit range. */
  ghost predicate PastOk(e: Entry, offset: int, from: nat, t: nat) {
    var past := StopPast(e, offset, from + HORIZON);
    t <= from + HORIZON || t == past || U32 <= past < t
  }

  /** Where the search is after `guard` rounds: nothing matched on the way, and it is not
      past the horizon unless it jumped clear of the 32-bit range. */
  ghost predicate Searching(e: Entry, offset: int, from: nat, t: nat, tm: Tm, guard: nat) {
    && InRange(tm) && LocalMinute(tm) == t + offset && tm == Stop(e, LocalTime(from, offset), guard)
    && from <= t <= from + guard * DAY
    && (forall m: nat :: from <= m < t ==> !Matches(e, offset, m))
    && PastOk(e, offset, from, t)
    && (Possible(e) ==> Ruled(e, LocalTime(from, offset), tm) && guard <= Rounds(LocalTime(from, offset), tm))
  }

  /** A stop that leaves the horizon behind is the stop past the horizon. */
  lemma LeavesHorizon(e: Entry, offset: int, t: nat, tm: Tm, m: nat)
    requires InRange(tm) && LocalMinute(tm) == t + offset && !Fits(e, tm)
    requires t <= m < LocalMinute(Advance(e, tm)) - offset
    ensures StopPast(e, offset, m) == LocalMinute(Advance(e, tm)) - offset
  {
    AdvanceEnds(e, tm);
    AdvanceEnds(e, LocalTime(m, offset));
    if !e.day(tm.day) { SameDay(m + offset, tm.day); } else { SameHour(m + offset, tm.day, tm.hour); }
  }

  lemma NextRound(e: Entry, offset: int, from: nat, t: nat, tm: Tm, guard: nat)
    requires Searching(e, offset, from, t, tm, guard) && !Fits(e, tm) && (t <= from + HORIZON || t >= U32)
    ensures LocalMinute(Advance(e, tm)) - offset >= 0
    ensures Searching(e, offset, from, LocalMinute(Advance(e, tm)) - offset, Advance(e, tm), guard + 1)
  {
    AdvanceSkipsNothing(e, offset, t, tm);
    if Possible(e) { AdvanceRules(e, LocalTime(from, offset), tm); }
    assert Stop(e, LocalTime(from, offset), guard + 1) == Advance(e, tm);
    PastAfterRound(e, offset, from, t, tm);
  }

  lemma PastAfterRound(e: Entry, offset: int, from: nat, t: nat, tm: Tm)
    requires InRange(tm) && LocalMinute(tm) == t + offset && !Fits(e, tm) && LocalMinute(Advance(e, tm)) - offset > t
    requires PastOk(e, offset, from, t) && (t <= from + HORIZON || t >= U32)
    ensures PastOk(e, offset, from, LocalMinute(Advance(e, tm)) - offset)
  {
    if t <= from + HORIZON < LocalMinute(Advance(e, tm)) - offset { LeavesHorizon(e, offset, t, tm, from + HORIZON); }
  }

  lemma {:induction false} StopsRise(e: Entry, offset: int, tm: Tm, n: nat, k: nat)
    requires InRange(tm) && n <= k
    ensures InRange(Stop(e, tm, k)) && InRange(Stop(e, tm, n))
    ensures LocalMinute(Stop(e, tm, k)) >= LocalMinute(Stop(e, tm, n)) + (k - n)
    decreases k
  {
    if k == 0 {
    } else if n == k {
      StopsRise(e, offset, tm, k - 1, k - 1);
      AdvanceEnds(e, Stop(e, tm, k - 1));
    } else {
      StopsRise(e, offset, tm, n, k - 1);
      AdvanceEnds(e, Stop(e, tm, k - 1));
    }
  }

  /** The search stops at a fitting minute. */
  lemma FoundIt(e: Entry, offset: int, from: nat, t: nat, tm: Tm, guard: nat)
    requires from + HORIZON < U32 && guard < ROUNDS && Searching(e, offset, from, t, tm, guard) && Fits(e, tm)
    requires t <= from + HORIZON || t >= U32
    ensures Next(e, offset, from) == Low32(t)
  {
    var horizon := from + HORIZON;
    FitsIsMatches(e, offset, t, tm);
    if t <= horizon {
      FirstFrom(e, offset, from, t, horizon);
    } else {
      NoneIsNowhere(e, offset, from, horizon);
      StopsRise(e, offset, LocalTime(from, offset), guard, ROUNDS);
      PastIsLater(e, offset, horizon);
      FirstFrom(e, offset, StopPast(e, offset, horizon), t, Reach(e, offset, from) - 1);
      assert First(e, offset, t, Reach(e, offset, from) - 1) == At(t);
    }
  }

  lemma PastIsLater(e: Entry, offset: int, m: nat)
    ensures m < StopPast(e, offset, m) <= m + DAY
  {
    AdvanceEnds(e, LocalTime(m, offset));
  }

  /** It stops empty-handed, past the horizon within the 32-bit range or out of rounds. */
  lemma FoundNothing(e: Entry, offset: int, from: nat, t: nat, tm: Tm, guard: nat)
    requires from + HORIZON < U32 && Searching(e, offset, from, t, tm, guard)
    requires from + HORIZON < t < U32 || guard == ROUNDS
    ensures Next(e, offset, from) == NEVER
  {
    var horizon := from + HORIZON;
    PastIsLater(e, offset, horizon);
    if guard == ROUNDS {
      if t <= horizon { OutOfRounds(e, LocalTime(from, offset), tm, from, t, offset); }
      NoneIsNowhere(e, offset, from, horizon);
      NoneIsNowhere(e, offset, StopPast(e, offset, horizon), Reach(e, offset, from) - 1);
    } else {
      NoneIsNowhere(e, offset, from, horizon);
    }
  }

  /** Where the loop is: searching, or about to stop at once because the horizon wrapped. */
  ghost predicate Going(e: Entry, offset: int, from: nat, t: nat, tm: Tm, guard: nat) {
    if from + HORIZON < U32 then guard <= ROUNDS && Searching(e, offset, from, t, tm, guard)
    else guard == 0 && t == from
  }

  lemma StartsGoing(e: Entry, offset: int, from: nat)
    ensures Going(e, offset, from, from, LocalTime(from, offset), 0)
  {
  }

  /** The horizon test of the loop, on the 32-bit minute. */
  lemma HorizonTest(e: Entry, offset: int, from: nat, t: nat, tm: Tm, guard: nat)
    requires from < U32 && Going(e, offset, from, t, tm, guard)
    ensures Low32(t) > Low32(from + HORIZON) ==> Next(e, offset, from) == NEVER
    ensures Low32(t) <= Low32(from + HORIZON) ==> from + HORIZON < U32 && (t <= from + HORIZON || t >= U32)
  {
    if from + HORIZON < U32 && Low32(t) > Low32(from + HORIZON) { FoundNothing(e, offset, from, t, tm, guard); }
  }

  lemma KeepsGoing(e: Entry, offset: int, from: nat, t: nat, tm: Tm, guard: nat)
    requires guard < ROUNDS && Going(e, offset, from, t, tm, guard) && !Fits(e, tm)
    requires from + HORIZON < U32 && (t <= from + HORIZON || t >= U32)
    ensures LocalMinute(Advance(e, tm)) - offset >= 0
    ensures Going(e, offset, from, LocalMinute(Advance(e, tm)) - offset, Advance(e, tm), guard + 1)
  {
    NextRound(e, offset, from, t, tm, guard);
  }

  /** The step of a round: bump the first field that fails, then let mktime normalise. */
  method StepOn(e: Entry, tm: Tm) returns (next: Tm)
    ensures next == Advance(e, tm)
  {
    if !e.day(tm.day) {
      next := Tm(tm.day + 1, 0, 0);
    } else if !e.hour(tm.hour) {
      next := Tm(tm.day, tm.hour + 1, 0);
    } else {
      next := Tm(tm.day, tm.hour, tm.minute + 1);
    }
    next := Normal(next);
  }

  /** cronNextRun.  The guard of 1000 rounds never cuts off an answer within the horizon. */
  method NextRun(e: Entry, offset: int, from: nat) returns (r: nat)
    requires from < U32
    ensures r == Next(e, offset, from)
  {
    var tm := LocalTime(from, offset);
    var t: int := from;
    var horizon := Low32(from + HORIZON);
    var guard := 0;
    StartsGoing(e, offset, from);
    while guard < ROUNDS
      invariant guard <= ROUNDS && t >= 0 && Going(e, offset, from, t, tm, guard)
    {
      HorizonTest(e, offset, from, t, tm, guard);
      if Low32(t) > horizon { return NEVER; }
      if Fits(e, tm) {
        FoundIt(e, offset, from, t, tm, guard);
        return Low32(t);
      }
      KeepsGoing(e, offset, from, t, tm, guard);
      tm := StepOn(e, tm);
      t := LocalMinute(tm) - offset;
      guard := guard + 1;
    }
    FoundNothing(e, offset, from, t, tm, guard);
    return NEVER;
  }

  /** A thousand rounds on, a possible entry is past the horizon. */
  lemma OutOfRounds(e: Entry, tm0: Tm, tm: Tm, from: nat, t: nat, offset: int)
    requires InRange(tm0) && InRange(tm) && LocalMinute(tm0) == from + offset && LocalMinute(tm) == t + offset
    requires Possible(e) ==> Ruled(e, tm0, tm) && ROUNDS <= Rounds(tm0, tm)
    requires forall m: nat :: from <= m < t ==> !Matches(e, offset, m)
    ensures forall m: nat :: from <= m <= from + HORIZON ==> !Matches(e, offset, m)
  {
    if Possible(e) {
      assert tm.day - tm0.day > 800;
    } else {
      forall m: nat | from <= m <= from + HORIZON ensures !Matches(e, offset, m) { ImpossibleNeverMatches(e, offset, m); }
    }
  }

  // ---- What the search returns, in terms of matching minutes ----

  /** An answer within the horizon is always found, however late the start. */
  lemma AnswerIsFound(e: Entry, offset: int, from: nat, m: nat)
    requires from <= m <= from + HORIZON < U32 && Matches(e, offset, m)
    requires forall k: nat :: from <= k < m ==> !Matches(e, offset, k)
    ensures Next(e, offset, from) == m
  {
    FirstFrom(e, offset, from, m, from + HORIZON);
  }

  /** Without one, the search returns NEVER if and only if it does not wrap. */
  lemma NoAnswerIffNoWrap(e: Entry, offset: int, from: nat)
    requires from + HORIZON < U32 && forall m: nat :: from <= m <= from + HORIZON ==> !Matches(e, offset, m)
    ensures Next(e, offset, from) == NEVER <==> !Wraps(e, offset, from)
  {
    NoneIsNowhere(e, offset, from, from + HORIZON);
    if Wraps(e, offset, from) {
      var past, end := StopPast(e, offset, from + HORIZON), Reach(e, offset, from);
      FirstIsFirst(e, offset, past, end - 1);
      ReachBound(e, offset, from);
    }
  }

  lemma ReachBound(e: Entry, offset: int, from: nat)
    ensures Reach(e, offset, from) <= from + ROUNDS * DAY
  {
    StopBound(e, LocalTime(from, offset), ROUNDS);
  }

  lemma {:induction false} StopBound(e: Entry, tm: Tm, n: nat)
    requires InRange(tm)
    ensures InRange(Stop(e, tm, n)) && LocalMinute(Stop(e, tm, n)) <= LocalMinute(tm) + n * DAY
  {
    if n == 0 {
    } else {
      StopBound(e, tm, n - 1);
      AdvanceEnds(e, Stop(e, tm, n - 1));
    }
  }

  /** It cannot wrap more than a day short of the last start whose horizon fits. */
  lemma EarlyStartsNeverWrap(e: Entry, offset: int, from: nat)
    requires from + HORIZON + DAY < U32
    ensures !Wraps(e, offset, from)
  {
    PastIsLater(e, offset, from + HORIZON);
  }

  /** An entry for one day, any time. */
  function OnDay(day: int): Entry { Entry(d => d == day, _ => true, _ => true, false, false) }

  lemma {:induction false} DaysPass(day: int, tm: Tm, n: nat)
    requires 1 <= n && tm.day + n <= day
    ensures Stop(OnDay(day), tm, n) == Tm(tm.day + n, 0, 0)
  {
    if n == 1 {
      assert Stop(OnDay(day), tm, 0) == tm;
    } else {
      DaysPass(day, tm, n - 1);
    }
  }

  /** A search that wraps: no minute within the horizon matches, the last day step leaves
      the 32-bit range, and the answer is a minute of the first day after the epoch. */
  lemma LateSearchWraps()
    ensures var e, from := OnDay(2982617), 4294391294;
            && from + HORIZON < U32 && Wraps(e, 0, from) && Next(e, 0, from) == 1184
            && forall m: nat :: from <= m <= from + HORIZON ==> !Matches(e, 0, m)
  {
    var e, from, past := OnDay(2982617), 4294391294, 4294968480;
    var tm := LocalTime(from, 0);
    assert tm.day == 2982216 && LocalTime(from + HORIZON, 0).day == 2982616;
    assert StopPast(e, 0, from + HORIZON) == past;
    DaysPass(2982617, tm, 401);
    StopsRise(e, 0, tm, 401, ROUNDS);
    assert Matches(e, 0, past);
    assert First(e, 0, past, Reach(e, 0, from) - 1) == At(past);
    NoneIsNowhere(e, 0, from, from + HORIZON);
  }

  // ---- Polling ----

  function Lesser(a: nat, b: nat): nat { if a < b then a else b }

  /** The earliest next minute over the tab, skipping awake-only entries if told to. */
  function NextOf(tab: seq<Line>, offset: int, from: nat, skipAwake: bool): (r: nat)
    ensures r <= NEVER
    decreases |tab|
  {
    if tab == [] then NEVER
    else
      var init, last := tab[..|tab| - 1], tab[|tab| - 1];
      var r := NextOf(init, offset, from, skipAwake);
      if Counts(last, skipAwake) then Lesser(r, Next(last.entry, offset, from)) else r
  }

  /** It is the minimum. */
  lemma {:induction false} NextOfIsLeast(tab: seq<Line>, offset: int, from: nat, skipAwake: bool)
    ensures var r := NextOf(tab, offset, from, skipAwake);
            && (forall i :: 0 <= i < |tab| && Counts(tab[i], skipAwake) ==> r <= Next(tab[i].entry, offset, from))
            && (r != NEVER ==> exists i :: 0 <= i < |tab| && Counts(tab[i], skipAwake) && r == Next(tab[i].entry, offset, from))
    decreases |tab|
  {
    if tab == [] {
    } else {
      var init := tab[..|tab| - 1];
      NextOfIsLeast(init, offset, from, skipAwake);
      assert forall i :: 0 <= i < |init| ==> tab[i] == init[i];
    }
  }

  predicate Counts(line: Line, skipAwake: bool) { line.Good? && !(skipAwake && line.entry.awake) }

  datatype Poll = Poll(now: nat, netUp: bool, deepWake: bool)

  /** The anchor is within a day of now. */
  predicate Sane(last: nat, now: nat) { last != 0 && now >= last && now - last <= DAY }

  /** Where the search for entries due after `last` starts, a 32-bit addition. */
  function After(last: nat): nat { Low32(last + 1) }

  /** Due in the window (last, now]. */
  predicate Due(line: Line, offset: int, last: nat, now: nat) {
    line.Good? && Next(line.entry, offset, After(last)) <= now
  }

  predicate Allowed(line: Line, p: Poll) {
    line.Good? && !(line.entry.awake && p.deepWake) && !(line.entry.network && !p.netUp)
  }

  /** The lines among the first k that are due and allowed, in tab order. */
  function Queued(tab: seq<Line>, offset: int, last: nat, p: Poll, k: nat): seq<nat>
    requires k <= |tab|
  {
    if k == 0 then []
    else Queued(tab, offset, last, p, k - 1) +
         if Due(tab[k - 1], offset, last, p.now) && Allowed(tab[k - 1], p) then [k - 1] else []
  }

  /** The anchor after a sane poll: unmoved when the cached minute lies ahead. */
  function Anchor(tab: seq<Line>, offset: int, last: nat, p: Poll): nat {
    if p.now < NextOf(tab, offset, After(last), false) then last else p.now
  }

  /** The search after `last` can be trusted: its horizon is a 32-bit minute, and for no
      entry does it wrap. */
  ghost predicate Trusted(tab: seq<Line>, offset: int, last: nat) {
    && last + 1 + HORIZON < U32
    && forall i :: 0 <= i < |tab| && tab[i].Good? ==> !Wraps(tab[i].entry, offset, last + 1)
  }

  /** As it always is until a day and 400 before the end of the range. */
  lemma EarlyIsTrusted(tab: seq<Line>, offset: int, last: nat)
    requires last + 1 + HORIZON + DAY < U32
    ensures Trusted(tab, offset, last)
  {
    forall i | 0 <= i < |tab| && tab[i].Good? ensures !Wraps(tab[i].entry, offset, last + 1) {
      EarlyStartsNeverWrap(tab[i].entry, offset, last + 1);
    }
  }

  /** Due means some minute of the window matches, as the window is within the horizon;
      the one exception is a search that wrapped. */
  lemma DueExactly(line: Line, offset: int, last: nat, now: nat)
    requires line.Good? && last + 1 + HORIZON < U32 && Sane(last, now) && now < NEVER
    ensures Due(line, offset, last, now) <==>
            || (exists m :: last < m <= now && Matches(line.entry, offset, m))
            || (Wraps(line.entry, offset, last + 1) && Next(line.entry, offset, last + 1) <= now)
  {
    var e := line.entry;
    FirstIsFirst(e, offset, last + 1, last + 1 + HORIZON);
    var r := First(e, offset, last + 1, last + 1 + HORIZON);
    if r.At? && r.minute <= now { assert last < r.minute <= now && Matches(e, offset, r.minute); }
  }

  lemma DueIffWindowMatches(tab: seq<Line>, offset: int, last: nat, now: nat, i: nat)
    requires i < |tab| && Trusted(tab, offset, last) && Sane(last, now) && now < NEVER
    ensures Due(tab[i], offset, last, now) <==>
            tab[i].Good? && exists m :: last < m <= now && Matches(tab[i].entry, offset, m)
  {
    if tab[i].Good? { DueExactly(tab[i], offset, last, now); }
  }

  /** The early return agrees with looking at every entry. */
  lemma EarlyReturnAgrees(tab: seq<Line>, offset: int, last: nat, now: nat)
    requires now < NEVER
    ensures now < NextOf(tab, offset, After(last), false) <==> forall i :: 0 <= i < |tab| ==> !Due(tab[i], offset, last, now)
  {
    var r := NextOf(tab, offset, After(last), false);
    NextOfIsLeast(tab, offset, After(last), false);
    if r <= now {
      var i :| 0 <= i < |tab| && Counts(tab[i], false) && r == Next(tab[i].entry, offset, After(last));
      assert Due(tab[i], offset, last, now);
    } else {
      forall i | 0 <= i < |tab| ensures !Due(tab[i], offset, last, now) {
        assert Counts(tab[i], false) ==> r <= Next(tab[i].entry, offset, After(last));
      }
    }
  }

  lemma {:induction false} NothingDueNothingQueued(tab: seq<Line>, offset: int, last: nat, p: Poll, k: nat)
    requires k <= |tab| && forall i :: 0 <= i < |tab| ==> !Due(tab[i], offset, last, p.now)
    ensures Queued(tab, offset, last, p, k) == []
  {
    if k == 0 {
    } else {
      NothingDueNothingQueued(tab, offset, last, p, k - 1);
    }
  }

  // ---- Runs of polls ----

  /** Sane polls of a fixed tab one after the other, and the anchors between them. */
  ghost predicate IsRun(tab: seq<Line>, offset: int, polls: seq<Poll>, anchors: seq<nat>) {
    && |anchors| == |polls| + 1
    && forall k :: 0 <= k < |polls| ==> PollAt(tab, offset, polls, anchors, k)
  }

  ghost predicate PollAt(tab: seq<Line>, offset: int, polls: seq<Poll>, anchors: seq<nat>, k: nat)
    requires k < |polls| && |anchors| == |polls| + 1
  {
    && Trusted(tab, offset, anchors[k]) && polls[k].now < NEVER && Sane(anchors[k], polls[k].now)
    && (k > 0 ==> polls[k - 1].now <= polls[k].now)
    && anchors[k + 1] == Anchor(tab, offset, anchors[k], polls[k])
  }

  lemma {:induction false} AnchorsRise(tab: seq<Line>, offset: int, polls: seq<Poll>, anchors: seq<nat>, j: nat, k: nat)
    requires IsRun(tab, offset, polls, anchors) && j <= k < |anchors|
    ensures anchors[j] <= anchors[k]
    decreases k - j
  {
    if j == k {
    } else {
      assert PollAt(tab, offset, polls, anchors, k - 1);
      AnchorsRise(tab, offset, polls, anchors, j, k - 1);
    }
  }

  /** The poll whose window holds a minute between the first and the last anchor. */
  lemma {:induction false} WindowOf(tab: seq<Line>, offset: int, polls: seq<Poll>, anchors: seq<nat>, m: nat, n: nat) returns (k: nat)
    requires IsRun(tab, offset, polls, anchors) && n < |anchors| && anchors[0] < m <= anchors[n]
    ensures k < n && anchors[k] < m <= anchors[k + 1]
    decreases n
  {
    if anchors[n - 1] < m { return n - 1; }
    k := WindowOf(tab, offset, polls, anchors, m, n - 1);
  }

  /** Served once: a minute at which an entry matches falls into the window of exactly one
      poll, and that poll finds the entry due and queues it if and only if its flags allow. */
  lemma ServedExactlyOnce(tab: seq<Line>, offset: int, polls: seq<Poll>, anchors: seq<nat>, i: nat, m: nat) returns (k: nat)
    requires IsRun(tab, offset, polls, anchors) && i < |tab| && tab[i].Good? && Matches(tab[i].entry, offset, m)
    requires anchors[0] < m <= anchors[|polls|]
    ensures k < |polls| && anchors[k] < m <= anchors[k + 1] == polls[k].now
    ensures forall j :: 0 <= j < |polls| && anchors[j] < m <= anchors[j + 1] ==> j == k
    ensures PollAt(tab, offset, polls, anchors, k) && Due(tab[i], offset, anchors[k], polls[k].now)
    ensures i in Queued(tab, offset, anchors[k], polls[k], |tab|) <==> Allowed(tab[i], polls[k])
  {
    k := WindowOf(tab, offset, polls, anchors, m, |polls|);
    assert PollAt(tab, offset, polls, anchors, k);
    forall j | 0 <= j < |polls| && anchors[j] < m <= anchors[j + 1] ensures j == k {
      if j < k { AnchorsRise(tab, offset, polls, anchors, j + 1, k); }
      if k < j { AnchorsRise(tab, offset, polls, anchors, k + 1, j); }
    }
    DueIffWindowMatches(tab, offset, anchors[k], polls[k].now, i);
    InQueue(tab, offset, anchors[k], polls[k], |tab|, i);
  }

  lemma {:induction false} InQueue(tab: seq<Line>, offset: int, last: nat, p: Poll, k: nat, i: nat)
    requires k <= |tab|
    ensures i in Queued(tab, offset, last, p, k) <==> i < k && Due(tab[i], offset, last, p.now) && Allowed(tab[i], p)
  {
    if k == 0 {
    } else {
      InQueue(tab, offset, last, p, k - 1, i);
    }
  }

  /** Nothing queued for nothing: a queued entry matches in its poll's own window. */
  lemma QueuedHasItsMinute(tab: seq<Line>, offset: int, polls: seq<Poll>, anchors: seq<nat>, k: nat, i: nat)
    requires IsRun(tab, offset, polls, anchors) && k < |polls| && PollAt(tab, offset, polls, anchors, k)
    requires i in Queued(tab, offset, anchors[k], polls[k], |tab|)
    ensures i < |tab| && tab[i].Good? && anchors[k + 1] == polls[k].now
    ensures exists m :: anchors[k] < m <= polls[k].now && Matches(tab[i].entry, offset, m)
  {
    InQueue(tab, offset, anchors[k], polls[k], |tab|, i);
    DueIffWindowMatches(tab, offset, anchors[k], polls[k].now, i);
    EarlyReturnAgrees(tab, offset, anchors[k], polls[k].now);
  }

  /** Nothing skipped: up to the latest poll, every minute beyond the anchor is one at
      which no entry matches. */
  lemma NothingPending(tab: seq<Line>, offset: int, polls: seq<Poll>, anchors: seq<nat>, i: nat, m: nat)
    requires IsRun(tab, offset, polls, anchors) && |polls| > 0 && i < |tab| && tab[i].Good?
    requires anchors[|polls|] < m <= polls[|polls| - 1].now
    ensures !Matches(tab[i].entry, offset, m)
  {
    var k := |polls| - 1;
    assert PollAt(tab, offset, polls, anchors, k);
    EarlyReturnAgrees(tab, offset, anchors[k], polls[k].now);
    DueIffWindowMatches(tab, offset, anchors[k], polls[k].now, i);
    assert !Due(tab[i], offset, anchors[k], polls[k].now);
  }

  // ---- The scheduler's own state ----

  class Scheduler {
    const offset: int
    const tab: seq<Line>
    var last: nat             // cronLastMinute
    var next: nat             // cronNextMinute
    var wake: nat             // cronWakeMinute
    var stream: seq<nat>      // lines handed to the CLI

    /** The cached minutes belong to the anchor. */
    ghost predicate Cached()
      reads this
    {
      && last < U32
      && next == NextOf(tab, offset, After(last), false)
      && wake == NextOf(tab, offset, After(last), true)
    }

    constructor (offset: int, tab: seq<Line>)
      ensures this.offset == offset && this.tab == tab && last == 0 && stream == []
    {
      this.offset, this.tab := offset, tab;
      last, next, wake, stream := 0, 0, 0, [];
    }

    method ComputeNext(from: nat)
      requires from < U32
      modifies this`next, this`wake
      ensures next == NextOf(tab, offset, from, false) && wake == NextOf(tab, offset, from, true)
    {
      var n, w := NEVER, NEVER;
      var i := 0;
      while i < |tab|
        invariant i <= |tab| && n == NextOf(tab[..i], offset, from, false) && w == NextOf(tab[..i], offset, from, true)
      {
        assert tab[..i + 1][..i] == tab[..i];
        if tab[i].Good? {
          var r := NextRun(tab[i].entry, offset, from);
          if r < n { n := r; }
          if !tab[i].entry.awake && r < w { w := r; }
        }
        i := i + 1;
      }
      assert tab[..|tab|] == tab;
      next, wake := n, w;
    }

    /** The test of one line in cronPoll's loop. */
    method Runs(line: Line, p: Poll) returns (runs: bool)
      requires last < U32
      ensures runs == (Due(line, offset, last, p.now) && Allowed(line, p))
    {
      if line.Bad? { return false; }
      var n := NextRun(line.entry, offset, Low32(last + 1));
      return n <= p.now && !(line.entry.awake && p.deepWake) && !(line.entry.network && !p.netUp);
    }

    /** The loop of cronPoll over the tab. */
    method QueueDue(p: Poll)
      requires last < U32
      modifies this`stream
      ensures stream == old(stream) + Queued(tab, offset, last, p, |tab|)
    {
      var i := 0;
      while i < |tab|
        invariant i <= |tab| && stream == old(stream) + Queued(tab, offset, last, p, i)
      {
        var runs := Runs(tab[i], p);
        if runs { stream := stream + [i]; }
        i := i + 1;
      }
    }

    /** cronPoll, with the clock, the network and the wake reason as parameters. */
    method Poll(p: Poll)
      requires p.now < U32 && last < U32
      requires Sane(last, p.now) ==> Cached()
      modifies this
      ensures Cached()
      ensures Sane(old(last), p.now) ==>
                && last == Anchor(tab, offset, old(last), p)
                && stream == old(stream) + Queued(tab, offset, old(last), p, |tab|)
      ensures !Sane(old(last), p.now) ==> last == p.now && stream == old(stream)
    {
      if !(last != 0 && p.now >= last && p.now - last <= DAY) {
        last := p.now;
        ComputeNext(Low32(p.now + 1));
        return;
      }
      if p.now < next {
        EarlyReturnAgrees(tab, offset, last, p.now);
        NothingDueNothingQueued(tab, offset, last, p, |tab|);
        return;
      }
      QueueDue(p);
      last := p.now;
      ComputeNext(Low32(p.now + 1));
    }
  }
}
