/**
 What happened to a monitor decides what it shows: its status and its stored
 checks, read off the history of probes, deploys and stops alone; and how far
 apart in time the checks of the minute tick lie.
 */
module MonitorHistory {
  import opened HttpMonitors
  import opened Options

  // ---- histories ---------------------------------------------------------------

  /** One thing that happened to an enabled monitor, and when. */
  datatype Happening =
    | Probed(at: int, ok: bool)
    | Unreachable(at: int)   // a check without an address to probe
    | Deploying(at: int)     // a tick while the application is being deployed
    | Stopped(at: int)       // a tick while it is not running

  predicate Good(h: Happening) { h.Probed? && h.ok }
  predicate Bad(h: Happening) { h.Probed? && !h.ok }

  ghost function Step(a: Account, h: Happening): Account {
    match h
    case Probed(at, ok) => CheckOnce(a, true, ok, at)
    case Unreachable(at) => CheckOnce(a, false, false, at)
    case Deploying(at) => Tick(a, World(true, true, true, true), at, false)
    case Stopped(at) => Tick(a, World(false, false, true, true), at, false)
  }

  /** The monitor after the first `n` happenings. */
  ghost function After(a: Account, hs: seq<Happening>, n: nat): Account
    requires n <= |hs|
  {
    if n == 0 then a else Step(After(a, hs, n - 1), hs[n - 1])
  }

  /** Nothing counted, nothing announced: as after switching the monitor on. */
  ghost predicate Fresh(a: Account) {
    a.monitor.config.enabled && a.monitor.status == Unknown && a.monitor.failures == 0
  }

  function Bads(hs: seq<Happening>, i: nat, j: nat): nat
    requires i <= j <= |hs|
  {
    if i == j then 0 else Bads(hs, i, j - 1) + if Bad(hs[j - 1]) then 1 else 0
  }

  /** Some probe was good, and no stop has made that void. */
  ghost predicate SeenUp(hs: seq<Happening>, n: nat)
    requires n <= |hs|
  {
    exists i :: 0 <= i < n && Good(hs[i]) && forall k | i < k < n :: !hs[k].Stopped?
  }

  /** A good probe or a deploy ends a streak; so does a stop, of a monitor that shows anything. */
  ghost predicate Breaks(hs: seq<Happening>, k: nat, threshold: int)
    requires k < |hs|
    decreases k, 4
  {
    || Good(hs[k]) || hs[k].Deploying?
    || (hs[k].Stopped? && (SeenUp(hs, k) || IsDown(hs, k, threshold)))
  }

  ghost predicate Unbroken(hs: seq<Happening>, i: nat, j: nat, threshold: int)
    requires i <= j <= |hs|
    decreases j, 1
  {
    forall k: nat | i <= k < j :: !Breaks(hs, k, threshold)
  }

  /** As many bad probes as the threshold asks for, one at least, and nothing between that ends a streak. */
  ghost predicate Outage(hs: seq<Happening>, i: nat, j: nat, threshold: int)
    requires i <= j <= |hs|
    decreases j, 2
  {
    Unbroken(hs, i, j, threshold) && Bads(hs, i, j) >= 1 && Bads(hs, i, j) >= threshold
  }

  /** There was an outage that no good probe and no stop has ended. */
  ghost predicate IsDown(hs: seq<Happening>, n: nat, threshold: int)
    requires n <= |hs|
    decreases n, 3
  {
    exists i: nat, j: nat :: i <= j <= n && Outage(hs, i, j, threshold)
                             && forall k | j <= k < n :: !Good(hs[k]) && !hs[k].Stopped?
  }

  ghost function ProbesOf(hs: seq<Happening>, n: nat): seq<Check>
    requires n <= |hs|
  {
    if n == 0 then []
    else ProbesOf(hs, n - 1) + if hs[n - 1].Probed? then [Check(hs[n - 1].at, hs[n - 1].ok)] else []
  }

  // ---- the status is what the history says ------------------------------------------

  lemma {:induction false} BadsSplit(hs: seq<Happening>, i: nat, k: nat, j: nat)
    requires i <= k <= j <= |hs|
    ensures Bads(hs, i, j) == Bads(hs, i, k) + Bads(hs, k, j)
  {
    if k < j { BadsSplit(hs, i, k, j - 1); }
  }

  lemma UnbrokenMeans(hs: seq<Happening>, i: nat, j: nat, threshold: int)
    requires i <= j <= |hs|
    ensures Unbroken(hs, i, j, threshold) ==> forall k: nat | i <= k < j :: !Breaks(hs, k, threshold)
    ensures (forall k: nat | i <= k < j :: !Breaks(hs, k, threshold)) ==> Unbroken(hs, i, j, threshold)
  {
    if Unbroken(hs, i, j, threshold) {
      forall k: nat | i <= k < j ensures !Breaks(hs, k, threshold) { }
    }
  }

  lemma OutageMeans(hs: seq<Happening>, i: nat, j: nat, threshold: int)
    requires i <= j <= |hs|
    ensures Outage(hs, i, j, threshold) ==>
            && (forall k: nat | i <= k < j :: !Breaks(hs, k, threshold))
            && Bads(hs, i, j) >= 1 && Bads(hs, i, j) >= threshold
    ensures (forall k: nat | i <= k < j :: !Breaks(hs, k, threshold)) && Bads(hs, i, j) >= 1 && Bads(hs, i, j) >= threshold
            ==> Outage(hs, i, j, threshold)
  {
    UnbrokenMeans(hs, i, j, threshold);
    if Outage(hs, i, j, threshold) { assert Unbroken(hs, i, j, threshold); }
  }

  lemma DownWitness(hs: seq<Happening>, n: nat, threshold: int) returns (i: nat, j: nat)
    requires n <= |hs| && IsDown(hs, n, threshold)
    ensures i <= j <= n && Outage(hs, i, j, threshold)
    ensures forall k | j <= k < n :: !Good(hs[k]) && !hs[k].Stopped?
  {
    i, j :| i <= j <= n && Outage(hs, i, j, threshold) && forall k | j <= k < n :: !Good(hs[k]) && !hs[k].Stopped?;
  }

  lemma DownBy(hs: seq<Happening>, n: nat, threshold: int, i: nat, j: nat)
    requires i <= j <= n <= |hs| && Outage(hs, i, j, threshold)
    requires forall k | j <= k < n :: !Good(hs[k]) && !hs[k].Stopped?
    ensures IsDown(hs, n, threshold)
  {
  }

  /** The counted failures begin behind what last broke a streak. */
  ghost predicate CountedFrom(hs: seq<Happening>, n: nat, failures: nat, threshold: int, s: nat)
    requires n <= |hs|
  {
    && s <= n && Unbroken(hs, s, n, threshold) && Bads(hs, s, n) == failures
    && (s > 0 ==> Breaks(hs, s - 1, threshold))
  }

  lemma DownStays(hs: seq<Happening>, n: nat, threshold: int)
    requires n < |hs| && !Good(hs[n]) && !hs[n].Stopped? && IsDown(hs, n, threshold)
    ensures IsDown(hs, n + 1, threshold)
  {
    var i, j := DownWitness(hs, n, threshold);
    DownBy(hs, n + 1, threshold, i, j);
  }

  /** A monitor comes down only by an outage that ends in the last happening, which is a bad probe. */
  lemma ComesDown(hs: seq<Happening>, n: nat, threshold: int) returns (i: nat)
    requires n < |hs| && IsDown(hs, n + 1, threshold) && !IsDown(hs, n, threshold)
    ensures i <= n && Outage(hs, i, n + 1, threshold) && Bad(hs[n])
  {
    var j: nat;
    i, j := DownWitness(hs, n + 1, threshold);
    if j <= n { DownBy(hs, n, threshold, i, j); }
    OutageMeans(hs, i, j, threshold);
    if !Bad(hs[n]) {
      OutageMeans(hs, i, n, threshold);
      DownBy(hs, n, threshold, i, n);
    }
  }

  /** Where the count begins, no outage lies, unless enough is counted. */
  lemma NoOutageCounted(hs: seq<Happening>, n: nat, failures: nat, threshold: int, s: nat, i: nat)
    requires n < |hs| && i <= n && CountedFrom(hs, n, failures, threshold, s) && Outage(hs, i, n + 1, threshold) && Bad(hs[n])
    ensures failures + 1 >= threshold
  {
    OutageMeans(hs, i, n + 1, threshold);
    if i >= s { BadsSplit(hs, s, i, n); }
  }

  lemma CountedFalls(hs: seq<Happening>, n: nat, failures: nat, threshold: int, s: nat)
    requires n < |hs| && CountedFrom(hs, n, failures, threshold, s) && Bad(hs[n]) && failures + 1 >= threshold
    requires !Breaks(hs, n, threshold)
    ensures IsDown(hs, n + 1, threshold)
  {
    CountGoesOn(hs, n, failures, threshold, s);
    OutageMeans(hs, s, n + 1, threshold);
    DownBy(hs, n + 1, threshold, s, n + 1);
  }

  /** What the history says of a monitor, and how many failures it counts. */
  ghost predicate Says(a: Account, hs: seq<Happening>, n: nat, threshold: int, m: Monitor, s: nat)
    requires n <= |hs|
  {
    && (m.status == Down <==> IsDown(hs, n, threshold))
    && (m.status == Up <==> !IsDown(hs, n, threshold) && SeenUp(hs, n))
    && (m.status != Down ==> CountedFrom(hs, n, m.failures, threshold, s))
    && m.config == a.monitor.config
  }

  lemma SeenUpNext(hs: seq<Happening>, n: nat)
    requires n < |hs|
    ensures SeenUp(hs, n + 1) <==> Good(hs[n]) || (SeenUp(hs, n) && !hs[n].Stopped?)
  {
    if SeenUp(hs, n) && !hs[n].Stopped? {
      var i :| 0 <= i < n && Good(hs[i]) && forall k | i < k < n :: !hs[k].Stopped?;
      assert Good(hs[i]);
    }
    if Good(hs[n]) { assert 0 <= n < n + 1; }
  }

  /** A good probe or a stop ends any outage. */
  lemma DownEnds(hs: seq<Happening>, n: nat, threshold: int)
    requires n < |hs| && (Good(hs[n]) || hs[n].Stopped?)
    ensures !IsDown(hs, n + 1, threshold)
  {
    if IsDown(hs, n + 1, threshold) {
      var i, j := DownWitness(hs, n + 1, threshold);
      OutageMeans(hs, i, j, threshold);
      if i <= n {
        OutageMeans(hs, i, n, threshold);
        EndBreaks(hs, i, n, threshold);
      }
    }
  }

  lemma EndBreaks(hs: seq<Happening>, i: nat, n: nat, threshold: int)
    requires i <= n < |hs|
    ensures Good(hs[n]) || hs[n].Deploying? ==> Breaks(hs, n, threshold)
    ensures hs[n].Stopped? && Outage(hs, i, n, threshold) ==> Breaks(hs, n, threshold)
  {
    if hs[n].Stopped? && Outage(hs, i, n, threshold) { StopBreaks(hs, i, n, threshold); }
  }

  lemma StopBreaks(hs: seq<Happening>, i: nat, n: nat, threshold: int)
    requires i <= n < |hs| && hs[n].Stopped? && Outage(hs, i, n, threshold)
    ensures Breaks(hs, n, threshold)
  {
    DownBy(hs, n, threshold, i, n);
  }

  lemma CountBroken(hs: seq<Happening>, n: nat, threshold: int)
    requires n < |hs| && Breaks(hs, n, threshold)
    ensures CountedFrom(hs, n + 1, 0, threshold, n + 1)
  {
  }

  lemma CountGoesOn(hs: seq<Happening>, n: nat, failures: nat, threshold: int, s: nat)
    requires n < |hs| && !Breaks(hs, n, threshold) && CountedFrom(hs, n, failures, threshold, s)
    ensures CountedFrom(hs, n + 1, failures + (if Bad(hs[n]) then 1 else 0), threshold, s)
  {
  }

  /** One happening more. */
  lemma SaysNext(a: Account, b: Account, hs: seq<Happening>, n: nat, threshold: int, s: nat) returns (s': nat)
    requires n < |hs| && b.monitor.config.enabled && threshold == b.monitor.config.threshold
    requires Says(a, hs, n, threshold, b.monitor, s)
    ensures Says(a, hs, n + 1, threshold, Step(b, hs[n]).monitor, s')
  {
    var h := hs[n];
    s' := if Breaks(hs, n, threshold) then n + 1 else s;
    SeenUpNext(hs, n);
    if Breaks(hs, n, threshold) { CountBroken(hs, n, threshold); }
    else if b.monitor.status != Down { CountGoesOn(hs, n, b.monitor.failures, threshold, s); }
    match h
    case Probed(at, ok) =>
      if ok { DownEnds(hs, n, threshold); } else { BadNext(a, b, hs, n, threshold, s); }
    case Stopped(at) => DownEnds(hs, n, threshold);
    case _ => SameDown(hs, n, threshold);
  }

  lemma SameDown(hs: seq<Happening>, n: nat, threshold: int)
    requires n < |hs| && (hs[n].Unreachable? || hs[n].Deploying?)
    ensures IsDown(hs, n + 1, threshold) <==> IsDown(hs, n, threshold)
  {
    if IsDown(hs, n, threshold) { DownStays(hs, n, threshold); }
    if IsDown(hs, n + 1, threshold) && !IsDown(hs, n, threshold) { var i := ComesDown(hs, n, threshold); }
  }

  lemma BadNext(a: Account, b: Account, hs: seq<Happening>, n: nat, threshold: int, s: nat)
    requires n < |hs| && Bad(hs[n]) && Says(a, hs, n, threshold, b.monitor, s)
    ensures IsDown(hs, n + 1, threshold) <==> b.monitor.status == Down || b.monitor.failures + 1 >= threshold
  {
    if b.monitor.status == Down {
      DownStays(hs, n, threshold);
    } else {
      if b.monitor.failures + 1 >= threshold { CountedFalls(hs, n, b.monitor.failures, threshold, s); }
      if IsDown(hs, n + 1, threshold) {
        var i := ComesDown(hs, n, threshold);
        NoOutageCounted(hs, n, b.monitor.failures, threshold, s, i);
      }
    }
  }

  lemma {:induction false} HistorySays(a: Account, hs: seq<Happening>, n: nat) returns (s: nat)
    requires Fresh(a) && n <= |hs|
    ensures Says(a, hs, n, a.monitor.config.threshold, After(a, hs, n).monitor, s)
    ensures After(a, hs, n).checks == a.checks + ProbesOf(hs, n)
  {
    s := 0;
    if n > 0 {
      s := HistorySays(a, hs, n - 1);
      var b := After(a, hs, n - 1);
      s := SaysNext(a, b, hs, n - 1, a.monitor.config.threshold, s);
      StepChecks(b, hs[n - 1]);
    } else {
      assert a.checks + [] == a.checks;
    }
  }

  lemma StepChecks(a: Account, h: Happening)
    ensures Step(a, h).checks == a.checks + if h.Probed? then [Check(h.at, h.ok)] else []
  {
  }

  /**
   The status of a monitor is decided by its history: it is down exactly when an
   outage has not ended, up exactly when it is not down and was seen up; and what
   it has stored is what was probed.
   */
  lemma StatusByHistory(a: Account, hs: seq<Happening>)
    requires Fresh(a)
    ensures var b, threshold := After(a, hs, |hs|), a.monitor.config.threshold;
            && (b.monitor.status == Down <==> IsDown(hs, |hs|, threshold))
            && (b.monitor.status == Up <==> !IsDown(hs, |hs|, threshold) && SeenUp(hs, |hs|))
            && b.checks == a.checks + ProbesOf(hs, |hs|)
  {
    var s := HistorySays(a, hs, |hs|);
  }

  // ---- when ticks check ------------------------------------------------------------------

  /** A tick, what it finds out about the application, and whether a check is still in flight. */
  datatype TickAt = TickAt(at: int, w: World, busy: bool)

  /** The monitor after the first `n` ticks. */
  ghost function Ticked(a: Account, ts: seq<TickAt>, n: nat): Account
    requires n <= |ts|
  {
    if n == 0 then a else Tick(Ticked(a, ts, n - 1), ts[n - 1].w, ts[n - 1].at, ts[n - 1].busy)
  }

  /** The ticks come one after another, behind the last check. */
  ghost predicate InTime(a: Account, ts: seq<TickAt>) {
    && (forall i, j | 0 <= i < j < |ts| :: ts[i].at < ts[j].at)
    && (a.monitor.lastCheckedAt.Some? ==> forall i | 0 <= i < |ts| :: a.monitor.lastCheckedAt.value < ts[i].at)
  }

  /** The `i`-th tick checks the monitor. */
  ghost predicate ChecksIn(a: Account, ts: seq<TickAt>, i: nat)
    requires i < |ts|
  {
    Ticked(a, ts, i + 1).monitor.lastCheckedAt == Some(ts[i].at)
  }

  lemma OneTick(a: Account, t: TickAt)
    requires a.monitor.lastCheckedAt.Some? ==> a.monitor.lastCheckedAt.value < t.at
    ensures var b := Tick(a, t.w, t.at, t.busy);
            && b.monitor.config == a.monitor.config
            && (b.monitor.lastCheckedAt == a.monitor.lastCheckedAt || b.monitor.lastCheckedAt == Some(t.at))
            && (a.monitor.lastCheckedAt.Some? && b.monitor.lastCheckedAt == Some(t.at) ==>
                  t.at - a.monitor.lastCheckedAt.value >= a.monitor.config.intervalMinutes * 60000 - 10000)
            && (a.monitor.config.enabled && t.w.running && !t.w.deploying && !t.busy ==>
                  (b.monitor.lastCheckedAt == Some(t.at) <==>
                     || a.monitor.lastCheckedAt.None?
                     || t.at - a.monitor.lastCheckedAt.value >= a.monitor.config.intervalMinutes * 60000 - 10000))
  {
  }

  /** Ticks leave the settings alone, and the last check lies before the ticks to come. */
  lemma {:induction false} TickedKeeps(a: Account, ts: seq<TickAt>, n: nat)
    requires InTime(a, ts) && n <= |ts|
    ensures var b := Ticked(a, ts, n).monitor;
            && b.config == a.monitor.config
            && (b.lastCheckedAt.Some? ==> forall k | n <= k < |ts| :: b.lastCheckedAt.value < ts[k].at)
  {
    if n > 0 {
      TickedKeeps(a, ts, n - 1);
      OneTick(Ticked(a, ts, n - 1), ts[n - 1]);
    }
  }

  lemma {:induction false} LastCheckMovesOn(a: Account, ts: seq<TickAt>, i: nat, n: nat)
    requires InTime(a, ts) && i <= n <= |ts| && Ticked(a, ts, i).monitor.lastCheckedAt.Some?
    ensures var b, c := Ticked(a, ts, i).monitor, Ticked(a, ts, n).monitor;
            c.lastCheckedAt.Some? && c.lastCheckedAt.value >= b.lastCheckedAt.value
  {
    if i < n {
      LastCheckMovesOn(a, ts, i, n - 1);
      TickedKeeps(a, ts, n - 1);
      OneTick(Ticked(a, ts, n - 1), ts[n - 1]);
    }
  }

  /** Two checks of a monitor by ticks are never closer than its interval, but for ten seconds. */
  lemma NeverTooSoon(a: Account, ts: seq<TickAt>, i: nat, j: nat)
    requires InTime(a, ts) && i < j < |ts| && ChecksIn(a, ts, i) && ChecksIn(a, ts, j)
    ensures ts[j].at - ts[i].at >= a.monitor.config.intervalMinutes * 60000 - 10000
  {
    LastCheckMovesOn(a, ts, i + 1, j);
    TickedKeeps(a, ts, j);
    OneTick(Ticked(a, ts, j), ts[j]);
  }

  /** Ticks at most a minute apart, of an application that just runs. */
  ghost predicate Steady(ts: seq<TickAt>, from: nat) {
    && (forall k | from <= k < |ts| :: ts[k].w.running && !ts[k].w.deploying && !ts[k].busy)
    && (forall k | from < k < |ts| :: ts[k].at - ts[k - 1].at <= 60000)
  }

  /** ... and never farther apart than the interval and fifty seconds, while nothing comes between. */
  lemma NeverTooLate(a: Account, ts: seq<TickAt>, i: nat) returns (j: nat)
    requires InTime(a, ts) && i < |ts| && ChecksIn(a, ts, i) && Steady(ts, i)
    requires a.monitor.config.enabled && a.monitor.config.intervalMinutes >= 1
    requires ts[|ts| - 1].at - ts[i].at >= a.monitor.config.intervalMinutes * 60000 - 10000
    ensures i < j < |ts| && ChecksIn(a, ts, j)
    ensures ts[j].at - ts[i].at <= a.monitor.config.intervalMinutes * 60000 + 50000
  {
    j := i + 1;
    TickedKeeps(a, ts, j);
    while ts[j].at - ts[i].at < a.monitor.config.intervalMinutes * 60000 - 10000
      invariant i < j < |ts|
      invariant Ticked(a, ts, j).monitor.config == a.monitor.config
      invariant Ticked(a, ts, j).monitor.lastCheckedAt == Some(ts[i].at)
      invariant j == i + 1 || ts[j - 1].at - ts[i].at < a.monitor.config.intervalMinutes * 60000 - 10000
    {
      OneTick(Ticked(a, ts, j), ts[j]);
      j := j + 1;
    }
    OneTick(Ticked(a, ts, j), ts[j]);
  }

  /** A monitor that was never checked is checked by the first tick that finds its application running. */
  lemma FirstTickChecks(a: Account, ts: seq<TickAt>)
    requires ts != [] && a.monitor.config.enabled && a.monitor.lastCheckedAt.None? && Steady(ts, 0)
    ensures ChecksIn(a, ts, 0)
  {
    assert Ticked(a, ts, 0) == a;
    OneTick(a, ts[0]);
  }

  // ---- reminders, incidents and times -------------------------------------------------------

  /** While an outage goes on, a failed check sends a reminder exactly six hours or more after the last message. */
  lemma ReminderIff(a: Account, clock: int, now: int)
    requires Inv(a, clock) && a.monitor.status == Down
    ensures a.log != [] && (a.log[|a.log| - 1].DownSent? || a.log[|a.log| - 1].ReminderSent?)
    ensures CheckOnce(a, true, false, now).log ==
            if now - AlertTime(a.log[|a.log| - 1]) >= 6 * 3600000 then a.log + [ReminderSent(now)] else a.log
  {
  }

  /** Open incidents end now, the others stay as they are. */
  ghost predicate EndedAt(before: seq<Incident>, after: seq<Incident>, now: int) {
    && |before| == |after|
    && forall k | 0 <= k < |before| ::
         after[k] == if before[k].endedAt.None? then before[k].(endedAt := Some(now)) else before[k]
  }

  lemma {:induction false} CloseOpenEnds(incidents: seq<Incident>, now: int)
    ensures EndedAt(incidents, CloseOpen(incidents, now), now)
  {
    if incidents != [] { CloseOpenEnds(incidents[..|incidents| - 1], now); }
  }

  lemma {:induction false} NoneOpen(incidents: seq<Incident>)
    requires OpenCount(incidents) == 0
    ensures forall k | 0 <= k < |incidents| :: incidents[k].endedAt.Some?
  {
    if incidents != [] { NoneOpen(incidents[..|incidents| - 1]); }
  }

  lemma {:induction false} CloseLatestEnds(incidents: seq<Incident>, now: int)
    requires OpenCount(incidents) <= 1
    ensures EndedAt(incidents, CloseLatest(incidents, now), now)
  {
    if incidents != [] {
      var n := |incidents| - 1;
      if incidents[n].endedAt.None? { NoneOpen(incidents[..n]); } else { CloseLatestEnds(incidents[..n], now); }
    }
  }

  /** A recovery ends the open incident at the time of the healthy check. */
  lemma RecoveryEndsIncident(a: Account, clock: int, now: int)
    requires Inv(a, clock)
    ensures EndedAt(a.incidents, CheckOnce(a, true, true, now).incidents, now)
    ensures var b := CheckOnce(a, true, true, now);
            b.monitor.statusSince == if a.monitor.status == Up then a.monitor.statusSince else Some(now)
  {
    if a.monitor.status == Down { CloseLatestEnds(a.incidents, now); } else { NoneOpen(a.incidents); }
  }

  /** A tick that finds the application stopped takes the monitor back to "not checked", without a message of recovery. */
  lemma StopForgets(a: Account, clock: int, w: World, now: int, busy: bool)
    requires Inv(a, clock) && a.monitor.config.enabled && !w.running && a.monitor.status != Unknown
    ensures var b := Tick(a, w, now, busy);
            && b.monitor == a.monitor.(status := Unknown, failures := 0, statusSince := None)
            && EndedAt(a.incidents, b.incidents, now) && b.checks == a.checks && b.log == a.log + [Reset]
  {
    CloseOpenEnds(a.incidents, now);
  }

  /** The time a monitor is down since is that of the incident. */
  lemma DownSince(a: Account, now: int)
    requires a.monitor.status != Down && CheckOnce(a, true, false, now).monitor.status == Down
    ensures var b := CheckOnce(a, true, false, now);
            && |b.incidents| == |a.incidents| + 1 && b.incidents[|a.incidents|].endedAt.None?
            && b.monitor.statusSince == Some(b.incidents[|a.incidents|].startedAt)
            && b.log == a.log + [DownSent(now)]
  {
  }

  /** Switching on starts afresh, switching off ends what is open; else only the settings change. */
  lemma SavedSettings(a: Account, clock: int, config: Config, now: int)
    requires Inv(a, clock)
    ensures var b := SaveConfig(Some(a), config, now);
            && b.monitor.config == config && b.checks == a.checks
            && (config.enabled && a.monitor.config.enabled ==> b == a.(monitor := a.monitor.(config := config)))
            && (config.enabled && !a.monitor.config.enabled ==>
                  Fresh(b) && b.monitor.lastCheckedAt.None? && b.incidents == a.incidents)
            && (!config.enabled ==>
                  b.monitor.status == Unknown && b.monitor.failures == 0 && EndedAt(a.incidents, b.incidents, now))
  {
    CloseOpenEnds(a.incidents, now);
  }

  /** A new monitor starts with the given settings, never checked. */
  lemma NewMonitor(config: Config, now: int)
    ensures var b := SaveConfig(None, config, now);
            && b.monitor.config == config && b.monitor.status == Unknown && b.monitor.failures == 0
            && b.monitor.lastCheckedAt.None? && b.checks == [] && b.incidents == []
  {
  }
}
