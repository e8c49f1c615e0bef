/**
 HTTP monitors: the alerting rule, the incident bookkeeping around it, and what
 holds over every run of configuration saves, ticks and checks.
 */
module HttpMonitors {
  import opened Options

  /** The least time between two messages of one outage: six hours. */
  const REALERT_MS := 6 * 60 * 60000

  // ---- the rule -----------------------------------------------------------------

  datatype Status = Unknown | Up | Down

  datatype Change = NoChange | WentDown | Recovered

  datatype Transition = Transition(status: Status, failures: nat, event: Change)

  function NextState(status: Status, failures: nat, ok: bool, threshold: int): Transition {
    if ok then Transition(Up, 0, if status == Down then Recovered else NoChange)
    else if failures + 1 >= threshold
    then Transition(Down, failures + 1, if status == Down then NoChange else WentDown)
    else Transition(status, failures + 1, NoChange)
  }

  function IsDue(lastCheckedAt: Option<int>, intervalMinutes: int, now: int): bool {
    lastCheckedAt.None? || now - lastCheckedAt.value >= intervalMinutes * 60000 - 10000
  }

  function ShouldRealert(lastAlertAt: Option<int>, now: int): bool {
    lastAlertAt.None? || now - lastAlertAt.value >= REALERT_MS
  }

  // ---- rows -----------------------------------------------------------------------

  datatype Config = Config(enabled: bool, threshold: int, intervalMinutes: int)

  datatype Monitor = Monitor(
    config: Config,
    status: Status,
    failures: nat,
    statusSince: Option<int>,
    lastCheckedAt: Option<int>,
    lastAlertAt: Option<int>
  )

  datatype Check = Check(at: int, ok: bool)

  datatype Incident = Incident(startedAt: int, endedAt: Option<int>, failedChecks: nat)

  /** What happened to a monitor: messages sent, and resets of its state. */
  datatype Entry = DownSent(at: int) | ReminderSent(at: int) | RecoverySent(at: int) | Reset

  /** A monitor with its rows: checks and incidents in the order they were stored. */
  datatype Account = Account(
    monitor: Monitor,
    checks: seq<Check>,
    incidents: seq<Incident>,
    log: seq<Entry>
  )

  // ---- operations ------------------------------------------------------------------

  function CloseOpen(incidents: seq<Incident>, now: int): seq<Incident> {
    if incidents == [] then []
    else
      var i := incidents[|incidents| - 1];
      CloseOpen(incidents[..|incidents| - 1], now) + [if i.endedAt.None? then i.(endedAt := Some(now)) else i]
  }

  /** Back to "not checked"; open incidents are closed. */
  function ResetState(a: Account, now: int): Account {
    a.(monitor := a.monitor.(status := Unknown, failures := 0, statusSince := None),
       incidents := CloseOpen(a.incidents, now),
       log := a.log + [Reset])
  }

  const DEFAULTS := Monitor(Config(false, 2, 5), Unknown, 0, None, None, None)

  /** A saved configuration; switching a monitor on or off starts it afresh. */
  function SaveConfig(existing: Option<Account>, config: Config, now: int): Account {
    var a := if existing.Some? then existing.value else Account(DEFAULTS, [], [], []);
    var wasEnabled := a.monitor.config.enabled;
    var b := a.(monitor := a.monitor.(config := config));
    if !config.enabled && (wasEnabled || existing.Some?) then ResetState(b, now)
    else if config.enabled && !wasEnabled then
      b.(monitor := b.monitor.(status := Unknown, failures := 0, statusSince := None, lastCheckedAt := None),
         log := b.log + [Reset])
    else b
  }

  /** The time of the oldest of the `n` latest checks. */
  function StreakStart(checks: seq<Check>, n: nat, now: int): int {
    if n == 0 || checks == [] then now
    else checks[if n <= |checks| then |checks| - n else 0].at
  }

  /** Closes the latest open incident, if any. */
  function CloseLatest(incidents: seq<Incident>, now: int): seq<Incident> {
    if incidents == [] then []
    else
      var n := |incidents| - 1;
      if incidents[n].endedAt.None? then incidents[..n] + [incidents[n].(endedAt := Some(now))]
      else CloseLatest(incidents[..n], now) + [incidents[n]]
  }

  /** Incident bookkeeping and the message for a check that was just stored. */
  function Book(a: Account, event: Change, now: int): Account {
    match event
    case WentDown =>
      var startedAt := StreakStart(a.checks, a.monitor.failures, now);
      a.(incidents := a.incidents + [Incident(startedAt, None, a.monitor.failures)],
         monitor := a.monitor.(statusSince := Some(startedAt), lastAlertAt := Some(now)),
         log := a.log + [DownSent(now)])
    case Recovered =>
      a.(incidents := CloseLatest(a.incidents, now),
         monitor := a.monitor.(statusSince := Some(now), lastAlertAt := None),
         log := a.log + [RecoverySent(now)])
    case NoChange =>
      if a.monitor.status == Down && ShouldRealert(a.monitor.lastAlertAt, now)
      then a.(monitor := a.monitor.(lastAlertAt := Some(now)), log := a.log + [ReminderSent(now)])
      else a
  }

  /** One check; `reachable` is false when the application has no address to probe. */
  function CheckOnce(a: Account, reachable: bool, ok: bool, now: int): Account {
    var m := a.monitor;
    if !reachable then a.(monitor := m.(lastCheckedAt := Some(now)))
    else
      var t := NextState(m.status, m.failures, ok, m.config.threshold);
      var m' := m.(status := t.status, failures := t.failures,
                   statusSince := if t.status != m.status then Some(now) else m.statusSince,
                   lastCheckedAt := Some(now));
      Book(a.(monitor := m', checks := a.checks + [Check(now, ok)]), t.event, now)
  }

  /** What a tick finds out about a monitor's application. */
  datatype World = World(running: bool, deploying: bool, reachable: bool, ok: bool)

  /** Whether a tick checks a monitor; one whose check is still `busy` is left alone. */
  predicate ChecksAt(a: Account, w: World, now: int, busy: bool) {
    && a.monitor.config.enabled && w.running && !w.deploying
    && !busy && IsDue(a.monitor.lastCheckedAt, a.monitor.config.intervalMinutes, now)
  }

  function Tick(a: Account, w: World, now: int, busy: bool): Account {
    var m := a.monitor;
    if !m.config.enabled then a
    else if !w.running then (if m.status != Unknown then ResetState(a, now) else a)
    else if w.deploying then
      (if m.status != Down && m.failures > 0 then a.(monitor := m.(failures := 0)) else a)
    else if !busy && IsDue(m.lastCheckedAt, m.config.intervalMinutes, now) then CheckOnce(a, w.reachable, w.ok, now)
    else a
  }

  // ---- the invariant ---------------------------------------------------------------

  function OpenCount(incidents: seq<Incident>): nat {
    if incidents == [] then 0
    else OpenCount(incidents[..|incidents| - 1]) + if incidents[|incidents| - 1].endedAt.None? then 1 else 0
  }

  /** The last `n` checks all failed. */
  ghost predicate FailedLast(checks: seq<Check>, n: nat) {
    n <= |checks| && forall i | |checks| - n <= i < |checks| :: !checks[i].ok
  }

  ghost predicate InOrder(checks: seq<Check>, clock: int) {
    && (forall i, j | 0 <= i < j < |checks| :: checks[i].at < checks[j].at)
    && (forall i | 0 <= i < |checks| :: checks[i].at <= clock)
  }

  /** Whether the log, read to its end, leaves an outage announced. */
  function Announced(log: seq<Entry>): bool {
    if log == [] then false
    else match log[|log| - 1]
      case DownSent(_) => true
      case ReminderSent(_) => Announced(log[..|log| - 1])
      case _ => false
  }

  /** Time of the last message about an outage, while one is announced. */
  function LastAlert(log: seq<Entry>): Option<int> {
    if log == [] then None
    else match log[|log| - 1]
      case DownSent(t) => Some(t)
      case ReminderSent(t) => Some(t)
      case _ => None
  }

  /**
   Every entry fits what came before: an outage is announced once, reminders and
   the recovery belong to the announced outage, reminders keep their distance.
   */
  ghost predicate Fits(before: seq<Entry>, e: Entry) {
    match e
    case DownSent(_) => !Announced(before)
    case RecoverySent(_) => Announced(before)
    case ReminderSent(t) => Announced(before) && LastAlert(before).Some? && t - LastAlert(before).value >= 6 * 3600000
    case Reset => true
  }

  ghost predicate Coherent(log: seq<Entry>) {
    forall k | 0 <= k < |log| :: Fits(log[..k], log[k])
  }

  /** The incident is dated from the first of the failed checks that opened it. */
  ghost predicate Backed(checks: seq<Check>, i: Incident) {
    i.failedChecks >= 1 &&
    exists s :: 0 <= s && s + i.failedChecks <= |checks| && checks[s].at == i.startedAt
      && forall k | s <= k < s + i.failedChecks :: !checks[k].ok
  }

  ghost predicate AllBacked(checks: seq<Check>, incidents: seq<Incident>) {
    forall k | 0 <= k < |incidents| :: Backed(checks, incidents[k])
  }

  ghost predicate Inv(a: Account, clock: int) {
    var m := a.monitor;
    && OpenCount(a.incidents) == (if m.status == Down then 1 else 0)
    && (m.status == Down <==> Announced(a.log))
    && (m.status == Down ==> m.lastAlertAt.Some? && m.lastAlertAt == LastAlert(a.log))
    && (!m.config.enabled ==> m.status == Unknown)
    && FailedLast(a.checks, m.failures)
    && InOrder(a.checks, clock)
    && Coherent(a.log)
    && AllBacked(a.checks, a.incidents)
  }

  // ---- every operation keeps it --------------------------------------------------------

  /** Closing changes nothing but end times. */
  ghost predicate SameIncidents(before: seq<Incident>, now: seq<Incident>) {
    && |before| == |now|
    && forall k | 0 <= k < |before| :: now[k] == before[k].(endedAt := now[k].endedAt)
  }

  lemma BackedStays(checks: seq<Check>, c: Check, incidents: seq<Incident>)
    requires AllBacked(checks, incidents)
    ensures AllBacked(checks + [c], incidents)
  {
    forall k | 0 <= k < |incidents| ensures Backed(checks + [c], incidents[k]) {
      var i := incidents[k];
      assert Backed(checks, i);
      var s :| 0 <= s && s + i.failedChecks <= |checks| && checks[s].at == i.startedAt
        && forall k | s <= k < s + i.failedChecks :: !checks[k].ok;
      assert (checks + [c])[s].at == i.startedAt;
    }
  }

  lemma SameBacked(checks: seq<Check>, before: seq<Incident>, now: seq<Incident>)
    requires AllBacked(checks, before) && SameIncidents(before, now)
    ensures AllBacked(checks, now)
  {
    forall k | 0 <= k < |now| ensures Backed(checks, now[k]) {
      assert Backed(checks, before[k]);
    }
  }

  /** What holds of a list and its closed form also holds with one more row. */
  lemma OneMoreIncident(before: seq<Incident>, now: seq<Incident>, i: Incident, j: Incident)
    requires SameIncidents(before, now) && j == i.(endedAt := j.endedAt)
    ensures SameIncidents(before + [i], now + [j])
    ensures OpenCount(now + [j]) == OpenCount(now) + if j.endedAt.None? then 1 else 0
  {
    assert (now + [j])[..|now|] == now;
  }

  lemma SameAsItself(incidents: seq<Incident>)
    ensures SameIncidents(incidents, incidents)
  {
  }

  lemma {:induction false} CloseOpenCount(incidents: seq<Incident>, now: int)
    ensures OpenCount(CloseOpen(incidents, now)) == 0 && SameIncidents(incidents, CloseOpen(incidents, now))
  {
    if incidents != [] {
      var n := |incidents| - 1;
      var i, rest := incidents[n], CloseOpen(incidents[..n], now);
      CloseOpenCount(incidents[..n], now);
      OneMoreIncident(incidents[..n], rest, i, if i.endedAt.None? then i.(endedAt := Some(now)) else i);
      assert incidents[..n] + [i] == incidents;
    }
  }

  lemma {:induction false} CloseLatestCount(incidents: seq<Incident>, now: int)
    ensures SameIncidents(incidents, CloseLatest(incidents, now))
    ensures OpenCount(CloseLatest(incidents, now)) == if OpenCount(incidents) == 0 then 0 else OpenCount(incidents) - 1
  {
    if incidents != [] {
      var n := |incidents| - 1;
      var i := incidents[n];
      assert incidents[..n] + [i] == incidents;
      if i.endedAt.None? {
        SameAsItself(incidents[..n]);
        OneMoreIncident(incidents[..n], incidents[..n], i, i.(endedAt := Some(now)));
      } else {
        CloseLatestCount(incidents[..n], now);
        OneMoreIncident(incidents[..n], CloseLatest(incidents[..n], now), i, i);
      }
    }
  }

  lemma LogGrows(log: seq<Entry>, e: Entry)
    requires Coherent(log) && Fits(log, e)
    ensures Coherent(log + [e])
    ensures LastAlert(log + [e]) == match e case DownSent(t) => Some(t) case ReminderSent(t) => Some(t) case _ => None
    ensures Announced(log + [e]) == match e case DownSent(_) => true case ReminderSent(_) => true case _ => false
  {
    var l := log + [e];
    assert l[..|log|] == log;
    forall k | 0 <= k < |l| ensures Fits(l[..k], l[k]) {
      if k < |log| { assert l[..k] == log[..k]; }
    }
  }

  lemma ResetInv(a: Account, clock: int, now: int)
    requires Coherent(a.log) && InOrder(a.checks, clock) && clock <= now && AllBacked(a.checks, a.incidents)
    ensures Inv(ResetState(a, now), now)
  {
    CloseOpenCount(a.incidents, now);
    SameBacked(a.checks, a.incidents, CloseOpen(a.incidents, now));
    LogGrows(a.log, Reset);
  }

  lemma SaveInv(existing: Option<Account>, config: Config, clock: int, now: int)
    requires (existing.Some? ==> Inv(existing.value, clock)) && clock <= now
    ensures Inv(SaveConfig(existing, config, now), now)
  {
    var a := if existing.Some? then existing.value else Account(DEFAULTS, [], [], []);
    var b := a.(monitor := a.monitor.(config := config));
    ResetInv(b, clock, now);
    LogGrows(a.log, Reset);
  }

  lemma IncidentOpens(checks: seq<Check>, failures: nat, incidents: seq<Incident>, now: int)
    requires failures >= 1 && FailedLast(checks, failures) && AllBacked(checks, incidents)
    ensures var more := incidents + [Incident(StreakStart(checks, failures, now), None, failures)];
            AllBacked(checks, more) && OpenCount(more) == OpenCount(incidents) + 1
  {
    var i := Incident(StreakStart(checks, failures, now), None, failures);
    assert (incidents + [i])[..|incidents|] == incidents;
    assert checks[|checks| - failures].at == i.startedAt;
    assert Backed(checks, i);
  }

  lemma BookInv(a: Account, event: Change, prev: Status, now: int)
    requires Coherent(a.log) && InOrder(a.checks, now) && FailedLast(a.checks, a.monitor.failures)
    requires a.monitor.config.enabled && AllBacked(a.checks, a.incidents)
    requires event == WentDown ==> a.monitor.failures >= 1
    requires OpenCount(a.incidents) == (if prev == Down then 1 else 0) && (prev == Down <==> Announced(a.log))
    requires prev == Down ==> a.monitor.lastAlertAt.Some? && a.monitor.lastAlertAt == LastAlert(a.log)
    requires match event
             case WentDown => prev != Down && a.monitor.status == Down
             case Recovered => prev == Down && a.monitor.status == Up
             case NoChange => (a.monitor.status == Down <==> prev == Down)
    ensures Inv(Book(a, event, now), now)
  {
    match event
    case WentDown =>
      LogGrows(a.log, DownSent(now));
      IncidentOpens(a.checks, a.monitor.failures, a.incidents, now);
    case Recovered =>
      LogGrows(a.log, RecoverySent(now));
      CloseLatestCount(a.incidents, now);
      SameBacked(a.checks, a.incidents, CloseLatest(a.incidents, now));
    case NoChange =>
      if a.monitor.status == Down && ShouldRealert(a.monitor.lastAlertAt, now) {
        LogGrows(a.log, ReminderSent(now));
      }
  }

  lemma CheckInv(a: Account, reachable: bool, ok: bool, clock: int, now: int)
    requires Inv(a, clock) && clock < now && a.monitor.config.enabled
    ensures Inv(CheckOnce(a, reachable, ok, now), now)
  {
    if reachable {
      var m := a.monitor;
      var t := NextState(m.status, m.failures, ok, m.config.threshold);
      var m' := m.(status := t.status, failures := t.failures,
                   statusSince := if t.status != m.status then Some(now) else m.statusSince,
                   lastCheckedAt := Some(now));
      var b := a.(monitor := m', checks := a.checks + [Check(now, ok)]);
      assert FailedLast(b.checks, t.failures);
      BackedStays(a.checks, Check(now, ok), a.incidents);
      BookInv(b, t.event, m.status, now);
    }
  }

  /** All that a tick can do to a monitor. */
  lemma TickShapes(a: Account, w: World, now: int, busy: bool)
    ensures var t := Tick(a, w, now, busy);
            || t == a
            || (a.monitor.config.enabled && t == ResetState(a, now))
            || (a.monitor.config.enabled && a.monitor.status != Down && t == a.(monitor := a.monitor.(failures := 0)))
            || (a.monitor.config.enabled && t == CheckOnce(a, w.reachable, w.ok, now))
  {
  }

  lemma ClearedInv(a: Account, now: int)
    requires Inv(a, now) && a.monitor.status != Down
    ensures Inv(a.(monitor := a.monitor.(failures := 0)), now)
  {
  }

  lemma TickInv(a: Account, w: World, clock: int, now: int, busy: bool)
    requires Inv(a, clock) && clock < now
    ensures Inv(Tick(a, w, now, busy), now)
  {
    TickShapes(a, w, now, busy);
    Settled(a, clock, now);
    ResetInv(a, clock, now);
    if a.monitor.status != Down { ClearedInv(a, now); }
    if a.monitor.config.enabled { CheckInv(a, w.reachable, w.ok, clock, now); }
  }

  // ---- every run ----------------------------------------------------------------------

  datatype Event =
    | Save(id: string, config: Config, at: int)
    | RunDue(at: int, worlds: string -> World, busy: set<string>)
    | CheckNow(id: string, reachable: bool, ok: bool, at: int)

  datatype System = System(accounts: map<string, Account>, clock: int)

  function Next(s: System, e: Event): System {
    match e
    case Save(id, config, at) =>
      var existing := if id in s.accounts then Some(s.accounts[id]) else None;
      System(s.accounts[id := SaveConfig(existing, config, at)], at)
    case RunDue(at, worlds, busy) =>
      System(map id | id in s.accounts :: Tick(s.accounts[id], worlds(id), at, id in busy), at)
    case CheckNow(id, reachable, ok, at) =>
      if id in s.accounts
      then System(s.accounts[id := CheckOnce(s.accounts[id], reachable, ok, at)], at)
      else s
  }

  /** Time moves on, and only enabled monitors are checked on request. */
  predicate Possible(s: System, e: Event) {
    && e.at > s.clock
    && (e.CheckNow? && e.id in s.accounts ==> s.accounts[e.id].monitor.config.enabled)
  }

  ghost predicate PossibleRun(s: System, events: seq<Event>)
    decreases |events|
  {
    events == [] || (Possible(s, events[0]) && PossibleRun(Next(s, events[0]), events[1..]))
  }

  ghost function Run(s: System, events: seq<Event>): System
    decreases |events|
  {
    if events == [] then s else Run(Next(s, events[0]), events[1..])
  }

  ghost predicate SystemInv(s: System) {
    forall id | id in s.accounts :: Inv(s.accounts[id], s.clock)
  }

  lemma Settled(a: Account, clock: int, now: int)
    requires Inv(a, clock) && clock <= now
    ensures Inv(a, now)
  {
  }

  lemma NextInv(s: System, e: Event)
    requires SystemInv(s) && Possible(s, e)
    ensures SystemInv(Next(s, e))
  {
    var t := Next(s, e);
    forall id | id in t.accounts ensures Inv(t.accounts[id], t.clock) {
      if id in s.accounts {
        Settled(s.accounts[id], s.clock, e.at);
      }
      match e
      case Save(i, config, at) =>
        if i == id {
          SaveInv(if id in s.accounts then Some(s.accounts[id]) else None, config, s.clock, at);
        }
      case RunDue(at, worlds, busy) => TickInv(s.accounts[id], worlds(id), s.clock, at, id in busy);
      case CheckNow(i, reachable, ok, at) =>
        if i == id {
          CheckInv(s.accounts[id], reachable, ok, s.clock, at);
        }
    }
  }

  lemma {:induction false} RunInv(s: System, events: seq<Event>)
    requires SystemInv(s) && PossibleRun(s, events)
    ensures SystemInv(Run(s, events))
    decreases |events|
  {
    if events != [] {
      NextInv(s, events[0]);
      RunInv(Next(s, events[0]), events[1..]);
    }
  }

  /**
   Incidents follow the status: in every run a monitor has exactly one open
   incident while it is down and none otherwise.
   */
  lemma OneOpenIncidentWhileDown(events: seq<Event>, start: int, id: string)
    requires PossibleRun(System(map[], start), events)
    ensures var s := Run(System(map[], start), events);
            id in s.accounts ==> OpenCount(s.accounts[id].incidents) == if s.accounts[id].monitor.status == Down then 1 else 0
  {
    RunInv(System(map[], start), events);
  }

  /** The counted failures are real: that many latest checks failed, and every
      incident starts at the first failed check of the streak that opened it. */
  lemma IncidentsStartWithTheStreak(events: seq<Event>, start: int, id: string)
    requires PossibleRun(System(map[], start), events)
    ensures var s := Run(System(map[], start), events);
            id in s.accounts ==>
              && FailedLast(s.accounts[id].checks, s.accounts[id].monitor.failures)
              && AllBacked(s.accounts[id].checks, s.accounts[id].incidents)
  {
    RunInv(System(map[], start), events);
  }

  /** When a check opens an incident, it is dated from the first of the counted failures. */
  lemma OpeningCheck(a: Account, clock: int, now: int)
    requires Inv(a, clock) && clock < now && a.monitor.config.enabled && a.monitor.status != Down
    requires CheckOnce(a, true, false, now).monitor.status == Down
    ensures var b := CheckOnce(a, true, false, now);
            var first := |a.checks| - a.monitor.failures;
            && |b.incidents| == |a.incidents| + 1
            && 0 <= first < |b.checks| && b.incidents[|a.incidents|].startedAt == b.checks[first].at
            && (forall k | first <= k < |b.checks| :: !b.checks[k].ok)
            && b.incidents[|a.incidents|].failedChecks == |b.checks| - first
  {
  }

  lemma {:induction false} AnnouncedBy(log: seq<Entry>) returns (j: nat)
    requires Announced(log)
    ensures j < |log| && log[j].DownSent? && forall i | j < i < |log| :: log[i].ReminderSent?
  {
    var n := |log| - 1;
    if log[n].DownSent? {
      j := n;
    } else {
      j := AnnouncedBy(log[..n]);
    }
  }

  /**
   Each recovery message answers the latest down message: only reminders lie
   between them, no reset and no other outage.
   */
  lemma RecoveryAnswersDown(events: seq<Event>, start: int, id: string, k: nat)
    requires PossibleRun(System(map[], start), events)
    requires var s := Run(System(map[], start), events);
             id in s.accounts && k < |s.accounts[id].log| && s.accounts[id].log[k].RecoverySent?
    ensures var log := Run(System(map[], start), events).accounts[id].log;
            exists j :: 0 <= j < k && log[j].DownSent? && forall i | j < i < k :: log[i].ReminderSent?
  {
    RunInv(System(map[], start), events);
    var log := Run(System(map[], start), events).accounts[id].log;
    assert Fits(log[..k], log[k]);
    var j := AnnouncedBy(log[..k]);
    assert log[j].DownSent? && forall i | j < i < k :: log[i].ReminderSent? by {
      assert forall i | 0 <= i < k :: log[..k][i] == log[i];
    }
  }

  function AlertTime(e: Entry): int {
    match e
    case DownSent(t) => t
    case ReminderSent(t) => t
    case RecoverySent(t) => t
    case Reset => 0
  }

  lemma {:induction false} AlertsSpaced(log: seq<Entry>, i: nat, j: nat)
    requires Coherent(log) && i < j < |log| && (log[i].DownSent? || log[i].ReminderSent?)
    requires forall k | i < k <= j :: log[k].ReminderSent?
    ensures AlertTime(log[j]) - AlertTime(log[i]) >= 6 * 3600000
    decreases j
  {
    assert Fits(log[..j], log[j]);
    assert log[..j][j - 1] == log[j - 1];
    if i < j - 1 {
      AlertsSpaced(log, i, j - 1);
    }
  }

  /** Two messages about the same outage are at least six hours apart. */
  lemma AlertsKeepTheirDistance(events: seq<Event>, start: int, id: string, i: nat, j: nat)
    requires PossibleRun(System(map[], start), events)
    requires var s := Run(System(map[], start), events);
             && id in s.accounts && i < j < |s.accounts[id].log|
             && (s.accounts[id].log[i].DownSent? || s.accounts[id].log[i].ReminderSent?)
             && forall k | i < k <= j :: s.accounts[id].log[k].ReminderSent?
    ensures var log := Run(System(map[], start), events).accounts[id].log;
            AlertTime(log[j]) - AlertTime(log[i]) >= 6 * 3600000
  {
    RunInv(System(map[], start), events);
    AlertsSpaced(Run(System(map[], start), events).accounts[id].log, i, j);
  }

  // ---- when a monitor goes down and comes back ---------------------------------------

  /** Failing checks at the given times, one after another. */
  function Streak(a: Account, times: seq<int>): Account {
    if times == [] then a else CheckOnce(Streak(a, times[..|times| - 1]), true, false, times[|times| - 1])
  }

  function DownMessages(log: seq<Entry>): nat {
    if log == [] then 0 else DownMessages(log[..|log| - 1]) + if log[|log| - 1].DownSent? then 1 else 0
  }

  lemma OneMoreEntry(log: seq<Entry>, e: Entry)
    ensures DownMessages(log + [e]) == DownMessages(log) + if e.DownSent? then 1 else 0
  {
    assert (log + [e])[..|log|] == log;
  }

  lemma FailingCheck(a: Account, now: int)
    ensures var b := CheckOnce(a, true, false, now);
            && b.monitor.config == a.monitor.config && b.monitor.failures == a.monitor.failures + 1
            && (b.monitor.status == Down <==>
                a.monitor.status == Down || a.monitor.failures + 1 >= a.monitor.config.threshold)
            && (b.monitor.status != Down ==> b.monitor.status == a.monitor.status)
            && DownMessages(b.log) == DownMessages(a.log) + if a.monitor.status != b.monitor.status then 1 else 0
  {
    OneMoreEntry(a.log, DownSent(now));
    OneMoreEntry(a.log, ReminderSent(now));
  }

  /**
   A streak of failures makes a monitor down exactly when, with the failures
   counted before it, it reaches the threshold; that is announced once.
   */
  lemma {:induction false} StreakDecides(a: Account, times: seq<int>)
    requires times != []
    ensures var b := Streak(a, times);
            && b.monitor.config == a.monitor.config && b.monitor.failures == a.monitor.failures + |times|
            && (b.monitor.status == Down <==>
                a.monitor.status == Down || b.monitor.failures >= a.monitor.config.threshold)
            && (b.monitor.status != Down ==> b.monitor.status == a.monitor.status)
            && DownMessages(b.log) == DownMessages(a.log) + if a.monitor.status != b.monitor.status then 1 else 0
    decreases |times|
  {
    var n := |times| - 1;
    if n > 0 { StreakDecides(a, times[..n]); }
    FailingCheck(Streak(a, times[..n]), times[n]);
  }

  lemma HealthyCheck(a: Account, now: int)
    ensures var b := CheckOnce(a, true, true, now);
            && b.monitor.status == Up && b.monitor.failures == 0
            && b.log == if a.monitor.status == Down then a.log + [RecoverySent(now)] else a.log
  {
  }

  /** One healthy check ends it, whatever was counted; the recovery is announced if it was down. */
  lemma HealthyCheckEnds(a: Account, times: seq<int>, now: int)
    requires times != []
    ensures var before, b := Streak(a, times), CheckOnce(Streak(a, times), true, true, now);
            && b.monitor.status == Up && b.monitor.failures == 0
            && b.log == if a.monitor.status == Down || a.monitor.failures + |times| >= a.monitor.config.threshold
                        then before.log + [RecoverySent(now)] else before.log
  {
    StreakDecides(a, times);
    HealthyCheck(Streak(a, times), now);
  }

  // ---- the service ---------------------------------------------------------------------

  class HttpMonitorService {
    var accounts: map<string, Account>
    var inFlight: set<string>

    constructor ()
      ensures accounts == map[] && inFlight == {}
    {
      accounts, inFlight := map[], {};
    }

    method SaveMonitor(id: string, config: Config, now: int)
      modifies this`accounts
      ensures var existing := if id in old(accounts) then Some(old(accounts)[id]) else None;
              accounts == old(accounts)[id := SaveConfig(existing, config, now)]
      ensures forall clock :: Next(System(old(accounts), clock), Save(id, config, now)) == System(accounts, now)
    {
      var a := if id in accounts then accounts[id] else Account(DEFAULTS, [], [], []);
      var wasEnabled := a.monitor.config.enabled;
      a := a.(monitor := a.monitor.(config := config));
      if !config.enabled && (wasEnabled || id in accounts) {
        a := ResetState(a, now);
      } else if config.enabled && !wasEnabled {
        a := a.(monitor := a.monitor.(status := Unknown, failures := 0, statusSince := None, lastCheckedAt := None),
                log := a.log + [Reset]);
      }
      accounts := accounts[id := a];
    }

    /** The check of one monitor, unless one of it is in flight. */
    method CheckMonitor(id: string, reachable: bool, ok: bool, now: int) returns (ran: bool)
      requires id in accounts
      modifies this
      ensures ran <==> id !in old(inFlight)
      ensures inFlight == old(inFlight)
      ensures accounts == if ran then old(accounts)[id := CheckOnce(old(accounts)[id], reachable, ok, now)] else old(accounts)
      ensures ran ==> forall clock :: Next(System(old(accounts), clock), CheckNow(id, reachable, ok, now)) == System(accounts, now)
    {
      if id in inFlight { return false; }
      inFlight := inFlight + {id};
      var a := accounts[id];
      if !reachable {
        a := a.(monitor := a.monitor.(lastCheckedAt := Some(now)));
      } else {
        a := a.(checks := a.checks + [Check(now, ok)]);
        var prev := a.monitor.status;
        var t := NextState(prev, a.monitor.failures, ok, a.monitor.config.threshold);
        a := a.(monitor := a.monitor.(status := t.status, failures := t.failures));
        if t.status != prev {
          a := a.(monitor := a.monitor.(statusSince := Some(now)));
        }
        a := a.(monitor := a.monitor.(lastCheckedAt := Some(now)));
        a := Book(a, t.event, now);
      }
      accounts := accounts[id := a];
      inFlight := inFlight - {id};
      ran := true;
    }

    /** What a tick does to one monitor before any probe; true when its check is due. */
    method Prepare(id: string, w: World, now: int) returns (due: bool)
      requires id in accounts
      modifies this`accounts
      ensures due <==> ChecksAt(old(accounts)[id], w, now, id in inFlight)
      // Due means: switched on, the application running and not being deployed, no check in flight, the interval over.
      ensures var m := old(accounts)[id].monitor;
              due <==> && m.config.enabled && w.running && !w.deploying && id !in inFlight
                       && (m.lastCheckedAt == None || now >= m.lastCheckedAt.value + m.config.intervalMinutes * 60000 - 10000)
      ensures accounts == if due then old(accounts) else old(accounts)[id := Tick(old(accounts)[id], w, now, id in inFlight)]
    {
      var a := accounts[id];
      due := false;
      if !a.monitor.config.enabled { return; }
      if !w.running {
        if a.monitor.status != Unknown {
          accounts := accounts[id := ResetState(a, now)];
        }
        return;
      }
      if w.deploying {
        if a.monitor.status != Down && a.monitor.failures > 0 {
          accounts := accounts[id := a.(monitor := a.monitor.(failures := 0))];
        }
        return;
      }
      if id in inFlight || !IsDue(a.monitor.lastCheckedAt, a.monitor.config.intervalMinutes, now) { return; }
      due := true;
    }

    /** One tick: resets and streak clearing at once, then the due checks from a queue. */
    method RunDueMonitors(now: int, worlds: string -> World) returns (total: nat)
      modifies this
      ensures inFlight == old(inFlight)
      ensures accounts == map id | id in old(accounts) :: Tick(old(accounts)[id], worlds(id), now, id in inFlight)
      ensures forall clock :: Next(System(old(accounts), clock), RunDue(now, worlds, inFlight)) == System(accounts, now)
      ensures total == |set id | id in old(accounts) && ChecksAt(old(accounts)[id], worlds(id), now, id in inFlight)|
    {
      var rows := accounts.Keys;
      var queue: seq<string> := [];
      ghost var before, busy := accounts, inFlight;
      while rows != {}
        invariant inFlight == busy && rows <= accounts.Keys == before.Keys
        invariant forall id | id in rows :: accounts[id] == before[id]
        invariant Queued(queue, before, accounts, rows, worlds, now, busy)
        invariant |queue| == |DueIn(before, before.Keys - rows, worlds, now, busy)|
        decreases rows
      {
        var id :| id in rows;
        ghost var was := accounts;
        var due := Prepare(id, worlds(id), now);
        QueuedNext(queue, before, was, accounts, rows, worlds, now, busy, id, due);
        DueGrows(before, rows, worlds, now, busy, id);
        rows := rows - {id};
        if due {
          queue := queue + [id];
        }
      }
      total := |queue|;
      assert DueIn(before, before.Keys - rows, worlds, now, busy)
          == set id | id in before && ChecksAt(before[id], worlds(id), now, id in busy);
      DrainQueue(queue, now, worlds, before);
    }

    method DrainQueue(jobs: seq<string>, now: int, worlds: string -> World, ghost before: map<string, Account>)
      requires accounts.Keys == before.Keys && Queued(jobs, before, accounts, {}, worlds, now, inFlight)
      modifies this
      ensures inFlight == old(inFlight)
      ensures accounts == map id | id in before :: Tick(before[id], worlds(id), now, id in inFlight)
    {
      var queue := jobs;
      while queue != []
        invariant inFlight == old(inFlight) && accounts.Keys == before.Keys
        invariant Queued(queue, before, accounts, {}, worlds, now, inFlight)
        decreases |queue|
      {
        var id := queue[0];
        ghost var was := accounts;
        var ran := CheckMonitor(id, worlds(id).reachable, worlds(id).ok, now);
        QueuedShift(queue, before, was, accounts, worlds, now, inFlight);
        queue := queue[1..];
      }
    }
  }

  type Accounts = map<string, Account>

  /** The monitors of `ids` that a tick checks. */
  ghost function DueIn(before: Accounts, ids: set<string>, worlds: string -> World, now: int, busy: set<string>): set<string>
    requires ids <= before.Keys
  {
    set id | id in ids && ChecksAt(before[id], worlds(id), now, id in busy)
  }

  lemma DueGrows(before: Accounts, rows: set<string>, worlds: string -> World, now: int, busy: set<string>, id: string)
    requires rows <= before.Keys && id in rows
    ensures |DueIn(before, before.Keys - (rows - {id}), worlds, now, busy)| ==
            |DueIn(before, before.Keys - rows, worlds, now, busy)|
            + if ChecksAt(before[id], worlds(id), now, id in busy) then 1 else 0
  {
    var less, more := DueIn(before, before.Keys - rows, worlds, now, busy),
                      DueIn(before, before.Keys - (rows - {id}), worlds, now, busy);
    assert id !in less;
    assert more == less + if ChecksAt(before[id], worlds(id), now, id in busy) then {id} else {};
  }

  lemma QueuedNext(queue: seq<string>, before: Accounts, was: Accounts, after: Accounts, rows: set<string>,
                   worlds: string -> World, now: int, busy: set<string>, id: string, due: bool)
    requires rows <= was.Keys == before.Keys && id in rows && was[id] == before[id]
    requires Queued(queue, before, was, rows, worlds, now, busy)
    requires after == if due then was else was[id := Tick(was[id], worlds(id), now, id in busy)]
    requires due ==> ChecksAt(was[id], worlds(id), now, id in busy)
    ensures after.Keys == before.Keys
    ensures Queued(if due then queue + [id] else queue, before, after, rows - {id}, worlds, now, busy)
  {
  }

  lemma QueuedShift(queue: seq<string>, before: Accounts, was: Accounts, after: Accounts,
                    worlds: string -> World, now: int, busy: set<string>)
    requires queue != [] && was.Keys == before.Keys && Queued(queue, before, was, {}, worlds, now, busy)
    requires after == was[queue[0] := CheckOnce(was[queue[0]], worlds(queue[0]).reachable, worlds(queue[0]).ok, now)]
    ensures after.Keys == before.Keys && Queued(queue[1..], before, after, {}, worlds, now, busy)
  {
    var first, rest := queue[0], queue[1..];
    assert queue == [first] + rest;
    CheckedTick(before[first], worlds(first), now, first in busy);
    forall i | 0 <= i < |rest|
      ensures rest[i] in after && after[rest[i]] == before[rest[i]]
      ensures ChecksAt(before[rest[i]], worlds(rest[i]), now, rest[i] in busy)
    {
      assert rest[i] == queue[i + 1] != first;
    }
    forall id | id in after && id !in rest ensures after[id] == Tick(before[id], worlds(id), now, id in busy) {
      assert id != first ==> id !in queue;
    }
  }

  lemma CheckedTick(a: Account, w: World, now: int, busy: bool)
    ensures ChecksAt(a, w, now, busy) ==> Tick(a, w, now, busy) == CheckOnce(a, w.reachable, w.ok, now)
  {
  }

  /** Queued monitors are unchanged and due; all others outside `rows` are finished. */
  ghost predicate Queued(queue: seq<string>, before: Accounts, after: Accounts, rows: set<string>,
                         worlds: string -> World, now: int, busy: set<string>)
    requires rows <= after.Keys == before.Keys
  {
    && (forall i, j | 0 <= i < j < |queue| :: queue[i] != queue[j])
    && (forall i | 0 <= i < |queue| ::
          && queue[i] in after && queue[i] !in rows && after[queue[i]] == before[queue[i]]
          && ChecksAt(before[queue[i]], worlds(queue[i]), now, queue[i] in busy))
    && (forall id | id in after && id !in rows && id !in queue :: after[id] == Tick(before[id], worlds(id), now, id in busy))
  }
}
