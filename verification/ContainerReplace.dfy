/**
 Replacing an application's container against a Docker daemon in which every
 call may fail, with or without having taken effect: blue/green swap, plain
 replace, and the recovery that puts the previous image back.
 */
module ContainerReplace {
  import opened Options

  datatype Container = Container(name: string, image: string, running: bool)

  /** What a daemon call came to: an error may hide a change that was made. */
  datatype Outcome = Done | Refused | Lost

  datatype Health = NoHealth | Booting | Healthy | Unhealthy

  datatype Inspection = Unanswered | Gone | Seen(running: bool, health: Health, probeImpossible: bool)

  /** What a start came to; `Busy` is the error of a port that is still held. */
  datatype StartAnswer = Began | Busy | Broken

  /** An answered inspection, and when it was asked for. */
  datatype Reply = Reply(id: nat, r: Inspection, at: nat)

  /** What the daemon was last asked, and what it answered. */
  datatype Query =
    | NoQuery
    | LookupFailed(name: string)
    | LookedUp(name: string, found: Option<nat>)
    | Inspected(id: nat, r: Inspection)

  /** A stop or remove that was issued, and what had been seen healthy by then. */
  datatype Touch = Touch(id: nat, healthy: set<nat>, failedRemove: bool)

  /** What happened so far, for the claims below; no operation reads it. */
  datatype History = History(
    made: map<nat, Container>,  // containers as they were created
    healthy: set<nat>,          // some inspection saw them running and healthy
    touches: seq<Touch>,
    renameErrors: set<nat>,     // renames that answered with an error
    cleanupFailed: bool,        // a call that removes a failed container errored
    logFailed: bool             // a log step could not be written
  )

  /** The application settings that decide how a replacement runs. */
  datatype App = App(name: string, healthcheck: bool, hostPort: bool, currentImage: Option<string>)

  function NextName(name: string): string {
    name + "-next"
  }

  // ---- what single calls leave ------------------------------------------------

  type Containers = map<nat, Container>

  predicate NameFree(c: Containers, name: string) {
    forall i | i in c :: c[i].name != name
  }

  function Stopped(c: Containers, id: nat, o: Outcome): Containers {
    if o != Refused && id in c then c[id := c[id].(running := false)] else c
  }

  function Removed(c: Containers, id: nat, o: Outcome): Containers {
    if o != Refused then c - {id} else c
  }

  function Renamed(c: Containers, id: nat, name: string, o: Outcome): Containers {
    if o != Refused && id in c && NameFree(c, name) then c[id := c[id].(name := name)] else c
  }

  ghost predicate SeenHealthy(r: Inspection) {
    r.Seen? && r.running && r.health == Healthy
  }

  /** Neither healthy nor hopeless: worth another poll. */
  ghost predicate Pending(r: Inspection) {
    r.Seen? && r.running && r.health != Healthy && r.health != Unhealthy && !r.probeImpossible
  }

  // ---- the daemon -----------------------------------------------------------

  class Daemon {
    var containers: map<nat, Container>
    var next: nat
    ghost var history: History
    /** Replacements begun, and the images of those that completed. */
    ghost var attempts: nat
    ghost var completed: seq<string>
    /** The time in milliseconds, as far as waiting and inspecting take any. */
    var clock: nat
    /** Calls that answered with an error, or with something hopeless. */
    ghost var errors: nat
    /** The answers to all inspections, and to all starts. */
    ghost var answers: seq<Reply>
    ghost var starts: seq<StartAnswer>
    /** How long each sleep was asked to be. */
    ghost var naps: seq<nat>
    ghost var query: Query
    /** Who holds a name, for every name in use: no two containers share one. */
    ghost var holder: map<string, nat>

    ghost predicate Valid()
      reads this
    {
      && (forall i | i in containers :: i < next)
      && (forall i | i in containers :: containers[i].name in holder && holder[containers[i].name] == i)
      && (forall i | i in containers :: i in history.made && history.made[i].image == containers[i].image)
      && (forall i | i in history.made :: i < next)
    }

    ghost predicate Free(name: string)
      reads this
    {
      NameFree(containers, name)
    }

    method Find(name: string, cleanup: bool) returns (ok: bool, found: Option<nat>)
      requires Valid()
      modifies this`history, this`errors, this`query
      ensures query == if ok then LookedUp(name, found) else LookupFailed(name)
      ensures !cleanup ==> history == old(history)
      ensures Valid() && history == old(history).(cleanupFailed := old(history).cleanupFailed || (cleanup && !ok))
      ensures ok && found.Some? ==> found.value in containers && containers[found.value].name == name
      ensures ok && found.None? ==> Free(name)
      ensures errors == old(errors) + (if ok then 0 else 1)
    {
      ok, found := *, None;
      if ok {
        if i :| i in containers && containers[i].name == name {
          found := Some(i);
        }
      }
      history := history.(cleanupFailed := history.cleanupFailed || (cleanup && !ok));
      errors := errors + if ok then 0 else 1;
      query := if ok then LookedUp(name, found) else LookupFailed(name);
    }

    method Create(name: string, image: string) returns (id: Option<nat>)
      requires Valid()
      modifies this`containers, this`next, this`history, this`errors, this`holder
      ensures Valid() && old(next) <= next <= old(next) + 1
      ensures next == old(next) ==> containers == old(containers) && history == old(history)
      ensures next > old(next) ==>
                && old(Free(name))
                && containers == old(containers)[old(next) := Container(name, image, false)]
                && history == old(history).(made := old(history).made[old(next) := Container(name, image, false)])
      ensures id.Some? ==> id.value == old(next) < next
      ensures errors == old(errors) + (if id.Some? then 0 else 1)
    {
      var o: Outcome := *;
      id := None;
      var taken := exists i :: i in containers && containers[i].name == name;
      if o == Refused || taken {
        errors := errors + 1;
        return;
      }
      var c := Container(name, image, false);
      if o == Done { id := Some(next); } else { errors := errors + 1; }
      containers, holder := containers[next := c], holder[name := next];
      history := history.(made := history.made[next := c]);
      next := next + 1;
    }

    method Start(id: nat) returns (a: StartAnswer)
      requires Valid()
      modifies this`containers, this`errors, this`starts
      ensures Valid() && starts == old(starts) + [a]
      ensures containers == old(containers) ||
              (id in old(containers) && containers == old(containers)[id := old(containers)[id].(running := true)])
      ensures a == Began ==> id in containers && containers[id].running
      ensures errors == old(errors) + (if a == Began then 0 else 1)
    {
      var o: Outcome, busy: bool := *, *;
      a := if o == Done && id in containers then Began else if busy then Busy else Broken;
      if o != Refused && id in containers {
        containers := containers[id := containers[id].(running := true)];
      }
      errors, starts := errors + (if a == Began then 0 else 1), starts + [a];
    }

    method Sleep(ms: nat)
      modifies this`clock, this`naps
      ensures clock >= old(clock) + ms && naps == old(naps) + [ms]
    {
      var slept: nat :| slept >= ms;
      clock, naps := clock + slept, naps + [ms];
    }

    method Inspect(id: nat) returns (r: Inspection)
      requires Valid()
      modifies this`history, this`answers, this`errors, this`query, this`clock
      ensures Valid() && clock >= old(clock) && answers == old(answers) + [Reply(id, r, old(clock))]
      ensures query == Inspected(id, r)
      ensures history == if r.Seen? && r.running && r.health == Healthy
                         then old(history).(healthy := old(history).healthy + {id}) else old(history)
      ensures errors == old(errors) + (if SeenHealthy(r) || Pending(r) then 0 else 1)
    {
      r := *;
      var took: nat :| took >= 0;
      answers, query, clock := answers + [Reply(id, r, clock)], Inspected(id, r), clock + took;
      if r.Seen? && r.running && r.health == Healthy {
        history := history.(healthy := history.healthy + {id});
      }
      errors := errors + if SeenHealthy(r) || Pending(r) then 0 else 1;
    }

    method Stop(id: nat) returns (ok: bool, ghost o: Outcome)
      requires Valid()
      modifies this`containers, this`history, this`errors
      ensures Valid() && containers == Stopped(old(containers), id, o)
      ensures containers == old(containers) ||
              (id in old(containers) && containers == old(containers)[id := old(containers)[id].(running := false)])
      ensures history == old(history).(touches := old(history).touches + [Touch(id, old(history).healthy, false)])
      ensures errors == old(errors) + (if ok then 0 else 1)
    {
      var outcome: Outcome := *;
      o := outcome;
      history := history.(touches := history.touches + [Touch(id, history.healthy, false)]);
      ok := outcome == Done;
      if outcome != Refused && id in containers {
        containers := containers[id := containers[id].(running := false)];
      }
      errors := errors + if ok then 0 else 1;
    }

    method Remove(id: nat, cleanup: bool) returns (ok: bool, ghost o: Outcome)
      requires Valid()
      modifies this`containers, this`history, this`errors
      ensures Valid() && containers == Removed(old(containers), id, o) && (ok <==> o == Done)
      ensures containers == old(containers) || containers == old(containers) - {id}
      ensures ok ==> containers == old(containers) - {id}
      ensures history == old(history).(
                touches := old(history).touches + [Touch(id, old(history).healthy, !ok)],
                cleanupFailed := old(history).cleanupFailed || (cleanup && !ok))
      ensures errors == old(errors) + (if ok then 0 else 1)
    {
      var outcome: Outcome := *;
      o, ok := outcome, outcome == Done;
      history := history.(
        touches := history.touches + [Touch(id, history.healthy, !ok)],
        cleanupFailed := history.cleanupFailed || (cleanup && !ok));
      if outcome != Refused {
        containers := containers - {id};
      }
      errors := errors + if ok then 0 else 1;
    }

    method Rename(id: nat, name: string) returns (ok: bool, ghost o: Outcome)
      requires Valid()
      modifies this`containers, this`history, this`errors, this`holder
      ensures Valid() && containers == Renamed(old(containers), id, name, o)
      ensures ok <==> o == Done && id in old(containers) && NameFree(old(containers), name)
      ensures containers == old(containers) ||
              (id in old(containers) && old(Free(name))
               && containers == old(containers)[id := old(containers)[id].(name := name)])
      ensures ok ==> id in containers && containers[id].name == name
      ensures history == if ok then old(history) else old(history).(renameErrors := old(history).renameErrors + {id})
      ensures errors == old(errors) + (if ok then 0 else 1)
    {
      var outcome: Outcome := *;
      o := outcome;
      var free := NameFree(containers, name);
      ok := outcome == Done && id in containers && free;
      if outcome != Refused && id in containers && free {
        containers, holder := containers[id := containers[id].(name := name)], holder[name := id];
      }
      if !ok {
        history := history.(renameErrors := history.renameErrors + {id});
      }
      errors := errors + if ok then 0 else 1;
    }

    /** Settings, environment, network and mounts. */
    method Prepare() returns (ok: bool)
      modifies this`errors
      ensures errors == old(errors) + (if ok then 0 else 1)
    {
      ok := *;
      errors := errors + if ok then 0 else 1;
    }

    /** Writes a step line to the deployment log. */
    method LogStep() returns (ok: bool)
      requires Valid()
      modifies this`history, this`errors
      ensures Valid() && history == old(history).(logFailed := old(history).logFailed || !ok)
      ensures errors == old(errors) + (if ok then 0 else 1)
    {
      ok := *;
      history := history.(logFailed := history.logFailed || !ok);
      errors := errors + if ok then 0 else 1;
    }
  }

  // ---- claims about one replacement -------------------------------------------

  /** How a replacement ends; `Recovered` and `Unrecovered` are failures too. */
  datatype Result = Replaced(id: nat) | Failed | Recovered | Unrecovered

  /** A failure has an answer for its reason, or a wait of 105 seconds. */
  ghost predicate Excused(d: Daemon, errors: nat, clock: nat, ok: bool)
    reads d
  {
    && d.errors >= errors && d.clock >= clock
    && (!ok ==> d.errors > errors || d.clock >= clock + 105000)
  }

  ghost predicate SameExcept(c0: Containers, c1: Containers, ids: set<nat>) {
    && (forall i | i in c0 && i !in ids :: i in c1 && c1[i] == c0[i])
    && (forall i | i in c1 && i !in ids :: i in c0)
  }

  ghost predicate HeldBy(c: Containers, name: string, i: nat) {
    i in c && c[i].name == name
  }

  /**
   Every stop or remove of `old` came after an inspection had seen a container
   made by this replacement, with its image, running and healthy.
   */
  ghost predicate TouchedOnlyAfterHealthy(h0: History, h1: History, oldId: nat, next0: nat, image: string) {
    forall k | |h0.touches| <= k < |h1.touches| && h1.touches[k].id == oldId ::
      exists n :: n in h1.touches[k].healthy && n >= next0 && n in h1.made && h1.made[n].image == image
  }

  /** A container of the image runs under the name, seen healthy if there is a health check. */
  ghost predicate Serves(app: App, c: Containers, h: History, image: string, i: nat) {
    i in c && c[i] == Container(app.name, image, true) && (app.healthcheck ==> i in h.healthy)
  }

  /** A removal of `i` answered with an error between the two histories. */
  ghost predicate RemoveFailedOn(h0: History, h1: History, i: nat) {
    exists k :: |h0.touches| <= k < |h1.touches| && h1.touches[k].id == i && h1.touches[k].failedRemove
  }

  /**
   Who may hold the application's name after a failed replacement: the old
   container exactly as it was; a container of the current image; the old
   container of a blue/green swap whose removal errored; or the new container,
   seen healthy, when its rename errored after all.
   */
  ghost predicate AllowedHolder(app: App, c0: Containers, c1: Containers, h0: History, h1: History, next0: nat, i: nat)
    requires i in c1
  {
    || (i in c0 && c1[i] == c0[i])
    || (app.currentImage == Some(c1[i].image) && i >= next0 && Serves(app, c1, h1, c1[i].image, i))
    || (BlueGreen(app) && i in c0 && c1[i] == c0[i].(running := c1[i].running) && RemoveFailedOn(h0, h1, i))
    || (BlueGreen(app) && i >= next0 && i in h1.healthy && i in h1.renameErrors)
  }

  ghost predicate NameSettled(app: App, c0: Containers, c1: Containers, h0: History, h1: History, next0: nat) {
    forall i | HeldBy(c1, app.name, i) :: AllowedHolder(app, c0, c1, h0, h1, next0, i)
  }

  /** Containers of other names are none of this application's business. */
  ghost predicate OthersUntouched(app: App, c0: Containers, c1: Containers) {
    forall i | i in c0 && c0[i].name != app.name && c0[i].name != app.name + "-next" :: i in c1 && c1[i] == c0[i]
  }

  ghost predicate BlueGreen(app: App) {
    app.healthcheck && !app.hostPort
  }

  /** History only grows. */
  ghost predicate Later(h0: History, h1: History) {
    && (forall i | i in h0.made :: i in h1.made && h1.made[i] == h0.made[i])
    && h0.healthy <= h1.healthy
    && |h0.touches| <= |h1.touches| && h1.touches[..|h0.touches|] == h0.touches
    && (h0.cleanupFailed ==> h1.cleanupFailed)
    && (h0.logFailed ==> h1.logFailed)
  }

  lemma LaterTrans(h0: History, h1: History, h2: History)
    requires Later(h0, h1) && Later(h1, h2)
    ensures Later(h0, h2)
  {
    assert h2.touches[..|h0.touches|] == h2.touches[..|h1.touches|][..|h0.touches|];
  }

  /** No stop or remove of `i` was issued between the two histories. */
  ghost predicate NotTouched(h0: History, h1: History, i: nat) {
    forall k | |h0.touches| <= k < |h1.touches| :: h1.touches[k].id != i
  }

  lemma TouchesSplit(h0: History, h1: History, h2: History, k: nat)
    requires Later(h0, h1) && Later(h1, h2) && |h0.touches| <= k < |h1.touches|
    ensures k < |h2.touches| && h2.touches[k] == h1.touches[k]
  {
    assert h2.touches[k] == h2.touches[..|h1.touches|][k];
  }

  lemma NotTouchedTrans(h0: History, h1: History, h2: History, i: nat)
    requires Later(h0, h1) && Later(h1, h2) && NotTouched(h0, h1, i) && NotTouched(h1, h2, i)
    ensures NotTouched(h0, h2, i)
  {
    forall k | |h0.touches| <= k < |h2.touches| ensures h2.touches[k].id != i {
      if k < |h1.touches| { TouchesSplit(h0, h1, h2, k); }
    }
  }

  /** A swap adds two touches of the old container, both after `id` was seen healthy. */
  lemma SwapHistory(h0: History, h1: History, oldId: nat, id: nat, err: bool)
    requires id in h0.healthy && id in h0.made
    requires h1 == h0.(renameErrors := h1.renameErrors,
                       touches := h0.touches + [Touch(oldId, h0.healthy, false), Touch(oldId, h0.healthy, err)])
    ensures Later(h0, h1)
    ensures TouchedOnlyAfterHealthy(h0, h1, oldId, id, h0.made[id].image)
  {
    forall k | |h0.touches| <= k < |h1.touches| && h1.touches[k].id == oldId
      ensures exists n :: n in h1.touches[k].healthy && n >= id && n in h1.made && h1.made[n].image == h0.made[id].image
    {
      assert h1.touches[k].healthy == h0.healthy;
      assert id in h1.touches[k].healthy && id in h1.made;
    }
  }

  /** Calm first, then guarded touches only. */
  lemma GuardedAfterCalm(h0: History, h1: History, h2: History, oldId: nat, next0: nat, image: string)
    requires Later(h0, h1) && Later(h1, h2) && NotTouched(h0, h1, oldId)
    requires TouchedOnlyAfterHealthy(h1, h2, oldId, next0, image)
    ensures TouchedOnlyAfterHealthy(h0, h2, oldId, next0, image)
  {
    forall k | |h0.touches| <= k < |h2.touches| && h2.touches[k].id == oldId
      ensures exists n :: n in h2.touches[k].healthy && n >= next0 && n in h2.made && h2.made[n].image == image
    {
      if k < |h1.touches| { TouchesSplit(h0, h1, h2, k); }
    }
  }

  lemma RemoveFailedLater(h0: History, h1: History, h2: History, i: nat)
    requires Later(h0, h1) && Later(h1, h2) && RemoveFailedOn(h1, h2, i)
    ensures RemoveFailedOn(h0, h2, i)
  {
  }

  lemma SwapCarries(h0: History, h1: History, h2: History, oldId: nat, id: nat, image: string)
    requires Later(h0, h1) && NotTouched(h0, h1, oldId)
    requires id in h1.healthy && id in h1.made && h1.made[id].image == image
    requires exists err :: h2 == h1.(renameErrors := h2.renameErrors,
               touches := h1.touches + [Touch(oldId, h1.healthy, false), Touch(oldId, h1.healthy, err)])
    ensures Later(h1, h2) && Later(h0, h2) && TouchedOnlyAfterHealthy(h0, h2, oldId, id, image)
    ensures RemoveFailedOn(h1, h2, oldId) ==> RemoveFailedOn(h0, h2, oldId)
  {
    var err :| h2 == h1.(renameErrors := h2.renameErrors,
               touches := h1.touches + [Touch(oldId, h1.healthy, false), Touch(oldId, h1.healthy, err)]);
    SwapHistory(h1, h2, oldId, id, err);
    LaterTrans(h0, h1, h2);
    GuardedAfterCalm(h0, h1, h2, oldId, id, image);
    if RemoveFailedOn(h1, h2, oldId) { RemoveFailedLater(h0, h1, h2, oldId); }
  }

  // ---- the operations ------------------------------------------------------------

  const POLL_MS := 2000
  const WAIT_MS := 3000 * 30 + 15000
  const RETRY_DELAYS_MS: seq<nat> := [800, 1500, 2500]

  /** The same sleep, so many times. */
  ghost predicate Naps(n0: seq<nat>, n1: seq<nat>, count: nat, ms: nat) {
    n0 <= n1 && |n1| == |n0| + count && forall k | |n0| <= k < |n1| :: n1[k] == ms
  }

  /** Polls the daemon until an answer is decisive or time is up; the last answer decides. */
  method WaitHealthy(d: Daemon, id: nat) returns (ok: bool)
    requires d.Valid()
    modifies d`history, d`answers, d`errors, d`query, d`clock, d`naps
    ensures d.errors >= old(d.errors) && d.clock >= old(d.clock)
    ensures d.Valid() && (ok ==> id in d.history.healthy)
    ensures |d.answers| > |old(d.answers)| && old(d.answers) <= d.answers
    ensures forall k | |old(d.answers)| <= k < |d.answers| :: d.answers[k].id == id
    ensures forall k | |old(d.answers)| <= k < |d.answers| - 1 :: Pending(d.answers[k].r)
    ensures ok <==> SeenHealthy(d.answers[|d.answers| - 1].r)
    ensures d.history == old(d.history).(healthy := d.history.healthy) && old(d.history).healthy <= d.history.healthy
    // A container that is still booting is given up after 105 seconds, not before; and it is not asked again after them.
    ensures !ok && Pending(d.answers[|d.answers| - 1].r) ==> d.clock >= old(d.clock) + 105000
    ensures !ok && !Pending(d.answers[|d.answers| - 1].r) ==> d.errors > old(d.errors)
    ensures forall k | |old(d.answers)| <= k < |d.answers| :: d.answers[k].at < old(d.clock) + 105000
    // Two seconds of sleep behind every answer that decides nothing.
    ensures Naps(old(d.naps), d.naps,
                 |d.answers| - |old(d.answers)| - (if Pending(d.answers[|d.answers| - 1].r) then 0 else 1), 2000)
  {
    var deadline := d.clock + WAIT_MS;
    while d.clock < deadline
      decreases deadline - d.clock
      invariant d.Valid()
      invariant |d.answers| >= |old(d.answers)| && old(d.answers) <= d.answers
      invariant forall k | |old(d.answers)| <= k < |d.answers| ::
                  d.answers[k].id == id && Pending(d.answers[k].r) && d.answers[k].at < deadline
      invariant d.clock >= old(d.clock) && (d.clock == old(d.clock) || |d.answers| > |old(d.answers)|)
      invariant Naps(old(d.naps), d.naps, |d.answers| - |old(d.answers)|, 2000)
      invariant d.errors >= old(d.errors)
      invariant d.history == old(d.history).(healthy := d.history.healthy) && old(d.history).healthy <= d.history.healthy
    {
      var c := d.Inspect(id);
      if c.Unanswered? || c.Gone? || !c.running { return false; }
      if c.health == Healthy { return true; }
      if c.probeImpossible || c.health == Unhealthy { return false; }
      d.Sleep(POLL_MS);
    }
    ok := false;
  }

  /** So many starts that found the port held, and then one that came to `last`. */
  ghost predicate Retried(s0: seq<StartAnswer>, s1: seq<StartAnswer>, busy: nat, last: StartAnswer) {
    s1 == s0 + seq(busy, _ => Busy) + [last]
  }

  lemma RetriedOnce(s0: seq<StartAnswer>, s1: seq<StartAnswer>, busy: nat)
    requires s1 == s0 + seq(busy, _ => Busy)
    ensures s1 + [Busy] == s0 + seq(busy + 1, _ => Busy)
  {
  }

  /** So many pauses of 800, 1500 and 2500 milliseconds, in this order. */
  ghost predicate Pauses(n0: seq<nat>, n1: seq<nat>, count: int) {
    && n0 <= n1 && |n1| == |n0| + count <= |n0| + 3
    && (count > 0 ==> n1[|n0|] == 800) && (count > 1 ==> n1[|n0| + 1] == 1500) && (count > 2 ==> n1[|n0| + 2] == 2500)
  }

  lemma OnePauseMore(n0: seq<nat>, n1: seq<nat>, n2: seq<nat>, count: nat)
    requires Pauses(n0, n1, count) && count < 3 && n2 == n1 + [RETRY_DELAYS_MS[count]]
    ensures Pauses(n0, n2, count + 1)
  {
    assert n2[|n1|] == RETRY_DELAYS_MS[count];
  }

  /** At most the running flag of this container is set. */
  ghost predicate OnlyStarted(c0: Containers, c1: Containers, id: nat)
    requires id in c0
  {
    c1 == c0 || c1 == c0[id := c0[id].(running := true)]
  }

  lemma OnlyStartedAgain(c0: Containers, c1: Containers, c2: Containers, id: nat)
    requires id in c0 && OnlyStarted(c0, c1, id) && OnlyStarted(c1, c2, id)
    ensures OnlyStarted(c0, c2, id)
  {
  }

  /** A published port may still be held by the old listener: a few retries. */
  method StartWithPortRetry(d: Daemon, id: nat, hostPort: bool)
    returns (ok: bool, ghost busy: nat, ghost last: StartAnswer)
    requires d.Valid() && id in d.containers
    modifies d`containers, d`errors, d`starts, d`clock, d`naps
    ensures d.errors >= old(d.errors) && (!ok ==> d.errors > old(d.errors))
    ensures d.Valid() && id in d.containers && d.clock >= old(d.clock)
    ensures OnlyStarted(old(d.containers), d.containers, id) && (ok ==> d.containers[id].running)
    // Only the error of a held port is met by another start: up to four with a published port, one without.
    // It gives up only at another error, without a published port, or after the fourth start.
    ensures busy <= (if hostPort then 3 else 0) && (ok <==> last == Began)
    ensures last == Busy ==> !hostPort || busy == 3
    ensures Retried(old(d.starts), d.starts, busy, last) && Pauses(old(d.naps), d.naps, busy)
  {
    var attempt := 0;
    while true
      invariant d.Valid() && id in d.containers && d.clock >= old(d.clock)
      invariant OnlyStarted(old(d.containers), d.containers, id)
      invariant 0 <= attempt <= 3 && d.errors == old(d.errors) + attempt && (!hostPort ==> attempt == 0)
      invariant d.starts == old(d.starts) + seq(attempt, _ => Busy)
      invariant Pauses(old(d.naps), d.naps, attempt)
      decreases 3 - attempt
    {
      ghost var c1 := d.containers;
      var a := d.Start(id);
      OnlyStartedAgain(old(d.containers), c1, d.containers, id);
      ok, busy, last := a == Began, attempt, a;
      if ok || !(hostPort && a == Busy && attempt < |RETRY_DELAYS_MS|) { return; }
      RetriedOnce(old(d.starts), d.starts[..|d.starts| - 1], attempt);
      ghost var n := d.naps;
      d.Sleep(RETRY_DELAYS_MS[attempt]);
      OnePauseMore(old(d.naps), n, d.naps, attempt);
      attempt := attempt + 1;
    }
  }

  /** Only containers made since, all of the given name and image, were added. */
  ghost predicate OnlyAdded(c0: Containers, c1: Containers, next0: nat, name: string, image: string) {
    && (forall i | i in c0 :: i in c1 && c1[i] == c0[i])
    && (forall i | i in c1 && i !in c0 :: i >= next0 && c1[i].name == name && c1[i].image == image)
  }

  lemma AddedOne(c0: Containers, id: nat, c: Container)
    requires id !in c0
    ensures OnlyAdded(c0, c0[id := c], id, c.name, c.image)
  {
  }

  /** Creates and starts the new container; touches nothing else. */
  method Launch(d: Daemon, image: string, createName: string, hostPort: bool) returns (ok: bool, id: Option<nat>)
    requires d.Valid() && d.Free(createName)
    modifies d`containers, d`next, d`history, d`errors, d`answers, d`query, d`holder, d`starts, d`clock, d`naps
    ensures d.errors >= old(d.errors) && (!ok ==> d.errors > old(d.errors)) && d.clock >= old(d.clock)
    ensures d.Valid() && d.next >= old(d.next)
    ensures OnlyAdded(old(d.containers), d.containers, old(d.next), createName, image)
    ensures id.Some? ==> id.value in d.containers && id.value !in old(d.containers)
    ensures ok ==> id.Some? && d.containers[id.value] == Container(createName, image, true)
    ensures d.history == old(d.history).(made := d.history.made)
    ensures forall i | i in old(d.history).made :: i in d.history.made && d.history.made[i] == old(d.history).made[i]
  {
    ghost var n := d.next;
    id := d.Create(createName, image);
    if id.None? {
      if d.next > n { AddedOne(old(d.containers), n, d.containers[n]); }
      return false, id;
    }
    ghost var busy, last;
    ok, busy, last := StartWithPortRetry(d, id.value, hostPort);
    assert d.containers == old(d.containers)[n := d.containers[n]];
    AddedOne(old(d.containers), n, d.containers[n]);
  }

  /** The log line and the wait for a healthy answer. */
  method CheckHealth(d: Daemon, id: nat) returns (ok: bool)
    requires d.Valid()
    modifies d`history, d`answers, d`errors, d`query, d`clock, d`naps
    ensures Excused(d, old(d.errors), old(d.clock), ok)
    ensures d.Valid() && (ok ==> id in d.history.healthy)
    ensures d.history == old(d.history).(healthy := d.history.healthy, logFailed := d.history.logFailed)
    ensures old(d.history).healthy <= d.history.healthy && (old(d.history).logFailed ==> d.history.logFailed)
  {
    ok := d.LogStep();
    if ok { ok := WaitHealthy(d, id); }
  }

  /** Launches and checks the new container. */
  method BringUp(d: Daemon, app: App, image: string, createName: string) returns (ok: bool, id: Option<nat>)
    requires d.Valid() && d.Free(createName)
    modifies d`containers, d`next, d`history, d`errors, d`answers, d`query, d`holder, d`starts, d`clock, d`naps
    ensures Excused(d, old(d.errors), old(d.clock), ok)
    ensures d.Valid() && d.next >= old(d.next)
    ensures OnlyAdded(old(d.containers), d.containers, old(d.next), createName, image)
    ensures id.Some? ==> id.value in d.containers && id.value !in old(d.containers)
    ensures ok ==> id.Some? && d.containers[id.value] == Container(createName, image, true)
    ensures ok && app.healthcheck ==> id.value in d.history.healthy
    ensures Later(old(d.history), d.history)
    ensures d.history == old(d.history).(made := d.history.made, healthy := d.history.healthy, logFailed := d.history.logFailed)
  {
    ok, id := Launch(d, image, createName, app.hostPort);
    if ok && app.healthcheck { ok := CheckHealth(d, id.value); }
  }

  /** Cleans up after a failed start: the created container, or whatever holds its name. */
  method RemoveFailed(d: Daemon, id: Option<nat>, name: string)
    requires d.Valid() && (id.Some? ==> id.value in d.containers && d.containers[id.value].name == name)
    modifies d`containers, d`history, d`errors, d`query, d`holder
    ensures d.errors >= old(d.errors)
    ensures d.Valid() && Later(old(d.history), d.history)
    ensures forall i | i in d.containers :: i in old(d.containers) && d.containers[i] == old(d.containers)[i]
    ensures forall i | i in old(d.containers) && old(d.containers)[i].name != name :: i in d.containers
    ensures !d.history.cleanupFailed ==> d.Free(name)
    ensures forall k | |old(d.history).touches| <= k < |d.history.touches| ::
              d.history.touches[k].id in old(d.containers) && old(d.containers)[d.history.touches[k].id].name == name
    ensures d.history == old(d.history).(touches := d.history.touches, cleanupFailed := d.history.cleanupFailed)
  {
    var target := id;
    if id.None? {
      var found;
      var ok;
      ok, found := d.Find(name, true);
      if !ok { return; }
      target := found;
    }
    if target.Some? {
      var ok, o := d.Remove(target.value, true);
    }
  }

  /** The end of the old container; a stop that errs does not keep it from being removed. */
  method Retire(d: Daemon, oldId: nat) returns (ok: bool, ghost stop: Outcome, ghost remove: Outcome)
    requires d.Valid()
    modifies d`containers, d`history, d`errors, d`query, d`holder
    ensures d.errors >= old(d.errors) && (!ok ==> d.errors > old(d.errors))
    ensures d.Valid() && (ok <==> remove == Done)
    ensures d.containers == Removed(Stopped(old(d.containers), oldId, stop), oldId, remove)
    ensures SameExcept(old(d.containers), d.containers, {oldId})
    ensures oldId in d.containers ==>
              && oldId in old(d.containers)
              && d.containers[oldId] == old(d.containers)[oldId].(running := d.containers[oldId].running)
    ensures ok ==> oldId !in d.containers
    ensures d.history == old(d.history).(touches := old(d.history).touches
              + [Touch(oldId, old(d.history).healthy, false), Touch(oldId, old(d.history).healthy, !ok)])
  {
    var stopped;
    stopped, stop := d.Stop(oldId);
    ok, remove := d.Remove(oldId, false);
  }

  /** Stop and remove `old`, then give its name to `id`; whether no error came back. */
  function SwapResult(c: Containers, oldId: nat, id: nat, name: string, stop: Outcome, remove: Outcome, rename: Outcome)
    : (Containers, bool)
  {
    var c1 := Removed(Stopped(c, oldId, stop), oldId, remove);
    if remove != Done then (c1, false)
    else (Renamed(c1, id, name, rename), rename == Done && id in c1 && NameFree(c1, name))
  }

  /** The name is held by a container exactly as it was, or by nothing. */
  ghost predicate HolderUntouched(c0: Containers, c1: Containers, name: string) {
    forall i | HeldBy(c1, name, i) :: i in c0 && c1[i] == c0[i]
  }

  /** What the calls of a swap came to, and what they found; or no swap was begun. */
  datatype SwapRun = NoSwap | Swapped(before: Containers, id: nat, stop: Outcome, remove: Outcome, rename: Outcome)

  /** The outcomes that leave the name as it was, or free. */
  predicate LeavesName(running: bool, stop: Outcome, remove: Outcome, rename: Outcome) {
    !(remove == Refused && stop != Refused && running) && !(remove == Done && rename != Refused)
  }

  /**
   A swap leaves the name with the old container as it was, or with nothing,
   except when the old container was stopped and could not be removed, or when
   the rename went through, be it answered with an error.
   */
  lemma UntouchedSwapIff(c: Containers, oldId: nat, id: nat, name: string, stop: Outcome, remove: Outcome, rename: Outcome)
    requires HeldBy(c, name, oldId) && id in c && id != oldId
    requires forall i | HeldBy(c, name, i) :: i == oldId
    ensures HolderUntouched(c, SwapResult(c, oldId, id, name, stop, remove, rename).0, name) <==>
            LeavesName(c[oldId].running, stop, remove, rename)
  {
    var c1 := Removed(Stopped(c, oldId, stop), oldId, remove);
    var c2 := SwapResult(c, oldId, id, name, stop, remove, rename).0;
    if remove == Refused {
      assert HeldBy(c1, name, oldId);
    } else {
      forall i | i in c1 ensures c1[i].name != name {
        assert i in c && c[i].name == c1[i].name;
        assert !HeldBy(c, name, i);
      }
      if remove == Done && rename != Refused { assert HeldBy(c2, name, id); }
    }
  }

  /** A blue/green replacement, seen from the name: exactly when its holder is as it was before. */
  ghost predicate Accounted(c0: Containers, c1: Containers, name: string, oldId: nat, swap: SwapRun)
    requires oldId in c0
  {
    match swap
    case NoSwap => HolderUntouched(c0, c1, name)
    case Swapped(before, id, stop, remove, rename) =>
      && oldId in before && before[oldId] == c0[oldId]
      && c1 == SwapResult(before, oldId, id, name, stop, remove, rename).0
      && (HolderUntouched(c0, c1, name) <==> LeavesName(c0[oldId].running, stop, remove, rename))
  }

  /** What holds of the holder since the swap began holds of it since the replacement began. */
  lemma AccountedEarlier(c0: Containers, before: Containers, c1: Containers, name: string, oldId: nat, swap: SwapRun)
    requires oldId in c0 && oldId in before && before[oldId] == c0[oldId]
    requires swap.Swapped? && swap.before == before && Accounted(before, c1, name, oldId, swap)
    requires swap.id in before && swap.id !in c0 && before[swap.id].name != name
    requires forall i: nat | HeldBy(c1, name, i) :: i == oldId || i == swap.id
    ensures Accounted(c0, c1, name, oldId, swap)
  {
    assert HolderUntouched(before, c1, name) ==> !HeldBy(c1, name, swap.id);
  }

  /** The first case on a running application: the name stays with a stopped container. */
  lemma StoppedOldKeepsTheName()
    ensures var c := map[0 := Container("app", "v1", true), 1 := Container("app-next", "v2", true)];
            SwapResult(c, 0, 1, "app", Done, Refused, Done) == (c[0 := Container("app", "v1", false)], false)
  {
  }

  /** The second case: the new image holds the name although the deployment failed. */
  lemma RenamedNewKeepsTheName()
    ensures var c := map[0 := Container("app", "v1", true), 1 := Container("app-next", "v2", true)];
            SwapResult(c, 0, 1, "app", Done, Done, Lost) == (map[1 := Container("app", "v2", true)], false)
  {
    var c: Containers := map[0 := Container("app", "v1", true), 1 := Container("app-next", "v2", true)];
    var c1 := Removed(Stopped(c, 0, Done), 0, Done);
    assert c1 == map[1 := Container("app-next", "v2", true)];
    assert |"app-next"| == 8 && |"app"| == 3;
    assert NameFree(c1, "app");
    assert Renamed(c1, 1, "app", Lost) == map[1 := Container("app", "v2", true)];
  }

  /** The blue/green swap, once the new container was seen healthy. */
  method Swap(d: Daemon, oldId: nat, id: nat, name: string)
    returns (ok: bool, ghost stop: Outcome, ghost remove: Outcome, ghost rename: Outcome)
    requires d.Valid() && id != oldId && id in d.containers && oldId in d.containers
    requires d.containers[oldId].name == name
    modifies d`containers, d`history, d`errors, d`query, d`holder
    ensures d.errors >= old(d.errors) && (!ok ==> d.errors > old(d.errors))
    ensures d.Valid()
    ensures (d.containers, ok) == SwapResult(old(d.containers), oldId, id, name, stop, remove, rename)
    ensures SameExcept(old(d.containers), d.containers, {oldId, id})
    ensures id in d.containers && d.containers[id] == old(d.containers)[id].(name := d.containers[id].name)
    ensures ok ==> d.containers[id].name == name && oldId !in d.containers
    ensures oldId in d.containers ==>
              && d.containers[oldId] == old(d.containers)[oldId].(running := d.containers[oldId].running)
              && RemoveFailedOn(old(d.history), d.history, oldId)
    ensures !ok ==> d.containers[id].name == old(d.containers)[id].name || id in d.history.renameErrors
    ensures exists err :: d.history == old(d.history).(renameErrors := d.history.renameErrors,
              touches := old(d.history).touches
              + [Touch(oldId, old(d.history).healthy, false), Touch(oldId, old(d.history).healthy, err)])
  {
    ok, stop, remove := Retire(d, oldId);
    rename := Refused;
    assert !ok ==> d.history.touches[|old(d.history).touches| + 1].failedRemove;
    if ok {
      ok, rename := d.Rename(id, name);
    }
  }

  /** How many nested replacements a replacement of `image` may start. */
  ghost function Nesting(app: App, image: string): nat {
    if app.currentImage == Some(image) then 0 else 1
  }

  /** All containers that were there are there, unchanged; new ones are numbered from `next0`. */
  ghost predicate Extends(c0: Containers, c1: Containers, next0: nat) {
    && (forall i | i in c0 :: i in c1 && c1[i] == c0[i])
    && (forall i | i in c1 && i !in c0 :: i >= next0)
  }

  lemma OnlyNewTouched(h0: History, h1: History, h2: History, c1: Containers, name: string, next0: nat)
    requires h1.touches == h0.touches && |h1.touches| <= |h2.touches|
    requires forall i | i in c1 && c1[i].name == name :: i >= next0
    requires forall k | |h1.touches| <= k < |h2.touches| :: h2.touches[k].id in c1 && c1[h2.touches[k].id].name == name
    ensures forall i: nat | i < next0 :: NotTouched(h0, h2, i)
  {
  }

  lemma OneNew(c0: Containers, c1: Containers, holder: map<string, nat>, name: string, id: nat)
    requires forall i | i in c0 :: i in c1 && c1[i] == c0[i]
    requires forall i | i in c1 && i !in c0 :: c1[i].name == name
    requires forall i | i in c1 :: c1[i].name in holder && holder[c1[i].name] == i
    requires id in c1 && id !in c0
    ensures c1 == c0[id := c1[id]]
  {
  }

  /** Taking away what was added under the name leads back to where it started. */
  lemma BackToStart(c0: Containers, c1: Containers, c2: Containers, next0: nat, name: string, image: string)
    requires OnlyAdded(c0, c1, next0, name, image) && NameFree(c0, name)
    requires forall i | i in c2 :: i in c1 && c2[i] == c1[i]
    requires forall i | i in c1 && c1[i].name != name :: i in c2
    ensures Extends(c0, c2, next0)
    ensures NameFree(c2, name) ==> c2 == c0
  {
  }

  /** Brings the new container up, or takes away whatever came up wrong. */
  method TryBringUp(d: Daemon, app: App, image: string, createName: string) returns (id: Option<nat>)
    requires d.Valid() && d.Free(createName)
    modifies d`containers, d`next, d`history, d`errors, d`answers, d`query, d`holder, d`starts, d`clock, d`naps
    ensures Excused(d, old(d.errors), old(d.clock), id.Some?)
    ensures d.Valid() && Later(old(d.history), d.history) && d.next >= old(d.next)
    ensures Extends(old(d.containers), d.containers, old(d.next))
    ensures id.None? && !d.history.cleanupFailed ==> d.containers == old(d.containers)
    ensures id.Some? ==>
              && id.value >= old(d.next) && id.value in d.containers
              && d.containers == old(d.containers)[id.value := Container(createName, image, true)]
              && id.value in d.history.made && d.history.made[id.value].image == image
              && (app.healthcheck ==> id.value in d.history.healthy)
    ensures forall i: nat | i < old(d.next) :: NotTouched(old(d.history), d.history, i)
  {
    var ok;
    ok, id := BringUp(d, app, image, createName);
    if !ok {
      ghost var c1, h1 := d.containers, d.history;
      RemoveFailed(d, id, createName);
      LaterTrans(old(d.history), h1, d.history);
      OnlyNewTouched(old(d.history), h1, d.history, c1, createName, old(d.next));
      BackToStart(old(d.containers), c1, d.containers, old(d.next), createName, image);
      id := None;
    } else {
      OneNew(old(d.containers), d.containers, d.holder, createName, id.value);
    }
  }

  /** Frees the `-next` name, which an earlier replacement may have left in use. */
  method DropStale(d: Daemon, app: App, oldId: nat) returns (ok: bool)
    requires d.Valid() && HeldBy(d.containers, app.name, oldId)
    modifies d`containers, d`history, d`errors, d`query, d`holder
    ensures d.errors >= old(d.errors) && (!ok ==> d.errors > old(d.errors))
    ensures d.Valid() && Later(old(d.history), d.history)
    ensures forall i | i in d.containers :: i in old(d.containers) && d.containers[i] == old(d.containers)[i]
    ensures forall i | i in old(d.containers) && old(d.containers)[i].name != app.name + "-next" :: i in d.containers
    ensures ok ==> d.Free(NextName(app.name))
    ensures NotTouched(old(d.history), d.history, oldId)
    ensures d.history == old(d.history).(touches := d.history.touches)
  {
    var stale;
    ok, stale := d.Find(NextName(app.name), false);
    if ok && stale.Some? {
      ghost var o;
      ok, o := d.Remove(stale.value, false);
    }
  }

  /** Brings the new container up under the `-next` name; the holder of the name stays as it is. */
  method BringUpBeside(d: Daemon, app: App, image: string, oldId: nat) returns (id: Option<nat>)
    requires d.Valid() && HeldBy(d.containers, app.name, oldId)
    modifies d`containers, d`next, d`history, d`errors, d`answers, d`query, d`holder, d`starts, d`clock, d`naps
    ensures Excused(d, old(d.errors), old(d.clock), id.Some?)
    ensures d.Valid() && Later(old(d.history), d.history) && NotTouched(old(d.history), d.history, oldId)
    ensures d.next >= old(d.next) && OthersUntouched(app, old(d.containers), d.containers)
    ensures HeldBy(d.containers, app.name, oldId) && d.containers[oldId] == old(d.containers)[oldId]
    ensures id.Some? ==>
              && id.value >= old(d.next) && id.value in d.containers
              && d.containers[id.value] == Container(NextName(app.name), image, true)
              && id.value in d.history.made && d.history.made[id.value].image == image
              && (app.healthcheck ==> id.value in d.history.healthy)
  {
    var ok := DropStale(d, app, oldId);
    if !ok { return None; }
    ghost var h1 := d.history;
    id := TryBringUp(d, app, image, NextName(app.name));
    LaterTrans(old(d.history), h1, d.history);
    NotTouchedTrans(old(d.history), h1, d.history, oldId);
  }

  lemma OnlyHolder(d: Daemon, name: string, oldId: nat)
    requires d.Valid() && HeldBy(d.containers, name, oldId)
    ensures forall i: nat | HeldBy(d.containers, name, i) :: i == oldId
  {
  }

  /** The old container keeps serving while `-next` comes up beside it. */
  method ReplaceBeside(d: Daemon, app: App, image: string, oldId: nat) returns (r: Result, ghost swap: SwapRun)
    requires d.Valid() && BlueGreen(app) && HeldBy(d.containers, app.name, oldId)
    modifies d`containers, d`next, d`history, d`errors, d`answers, d`query, d`holder, d`starts, d`clock, d`naps
    ensures Excused(d, old(d.errors), old(d.clock), r.Replaced?)
    ensures d.Valid() && Later(old(d.history), d.history) && d.next >= old(d.next)
    ensures OthersUntouched(app, old(d.containers), d.containers)
    ensures r.Replaced? || r == Failed
    ensures r.Replaced? ==> r.id >= old(d.next) && Serves(app, d.containers, d.history, image, r.id)
    ensures TouchedOnlyAfterHealthy(old(d.history), d.history, oldId, old(d.next), image)
    ensures !r.Replaced? && !d.history.cleanupFailed && !d.history.logFailed ==>
              NameSettled(app, old(d.containers), d.containers, old(d.history), d.history, old(d.next))
    ensures Accounted(old(d.containers), d.containers, app.name, oldId, swap)
  {
    ghost var h0 := d.history;
    var id := BringUpBeside(d, app, image, oldId);
    if id.None? { return Failed, NoSwap; }
    ghost var before := d.containers;
    r, swap := SwapIn(d, app, oldId, id.value, image, h0);
    AccountedEarlier(old(d.containers), before, d.containers, app.name, oldId, swap);
  }

  /** Only the two containers of a swap can hold the name after it. */
  lemma HoldersAfterSwap(c0: Containers, c1: Containers, oldId: nat, id: nat, name: string)
    requires SameExcept(c0, c1, {oldId, id}) && forall i: nat | HeldBy(c0, name, i) :: i == oldId
    ensures forall i: nat | HeldBy(c1, name, i) :: i == oldId || i == id
  {
    forall i: nat | HeldBy(c1, name, i) ensures i == oldId || i == id {
      assert i !in {oldId, id} ==> HeldBy(c0, name, i);
    }
  }

  /** The swap, and what it leaves of the name. */
  method SwapAccounted(d: Daemon, oldId: nat, id: nat, name: string) returns (ok: bool, ghost swap: SwapRun)
    requires d.Valid() && id != oldId && id in d.containers && HeldBy(d.containers, name, oldId)
    modifies d`containers, d`history, d`errors, d`query, d`holder
    ensures d.errors >= old(d.errors) && (!ok ==> d.errors > old(d.errors))
    ensures d.Valid() && SameExcept(old(d.containers), d.containers, {oldId, id})
    ensures id in d.containers && d.containers[id] == old(d.containers)[id].(name := d.containers[id].name)
    ensures ok ==> d.containers[id].name == name && oldId !in d.containers
    ensures oldId in d.containers ==>
              && d.containers[oldId] == old(d.containers)[oldId].(running := d.containers[oldId].running)
              && RemoveFailedOn(old(d.history), d.history, oldId)
    ensures !ok ==> d.containers[id].name == old(d.containers)[id].name || id in d.history.renameErrors
    ensures exists err :: d.history == old(d.history).(renameErrors := d.history.renameErrors,
              touches := old(d.history).touches
              + [Touch(oldId, old(d.history).healthy, false), Touch(oldId, old(d.history).healthy, err)])
    ensures swap.Swapped? && swap.before == old(d.containers) && swap.id == id
    ensures Accounted(old(d.containers), d.containers, name, oldId, swap)
    ensures forall i: nat | HeldBy(d.containers, name, i) :: i == oldId || i == id
  {
    OnlyHolder(d, name, oldId);
    ghost var stop, remove, rename;
    ok, stop, remove, rename := Swap(d, oldId, id, name);
    swap := Swapped(old(d.containers), id, stop, remove, rename);
    UntouchedSwapIff(old(d.containers), oldId, id, name, stop, remove, rename);
    HoldersAfterSwap(old(d.containers), d.containers, oldId, id, name);
  }

  /** The swap and its final log line, with the claims carried over from `h0`. */
  method SwapIn(d: Daemon, app: App, oldId: nat, id: nat, image: string, ghost h0: History)
    returns (r: Result, ghost swap: SwapRun)
    requires d.Valid() && BlueGreen(app) && HeldBy(d.containers, app.name, oldId) && id != oldId
    requires id in d.containers && d.containers[id] == Container(NextName(app.name), image, true)
    requires id in d.history.healthy && id in d.history.made && d.history.made[id].image == image
    requires Later(h0, d.history) && NotTouched(h0, d.history, oldId)
    modifies d`containers, d`history, d`errors, d`query, d`holder
    ensures Excused(d, old(d.errors), old(d.clock), r.Replaced?)
    ensures d.Valid() && Later(h0, d.history)
    ensures OthersUntouched(app, old(d.containers), d.containers)
    ensures r == Replaced(id) || r == Failed
    ensures id in d.history.healthy
    ensures r.Replaced? ==> Serves(app, d.containers, d.history, image, id)
    ensures TouchedOnlyAfterHealthy(h0, d.history, oldId, id, image)
    ensures r == Failed && !d.history.logFailed ==> forall i | HeldBy(d.containers, app.name, i) ::
              || (i == id && id in d.history.renameErrors)
              || (i == oldId && d.containers[i] == old(d.containers)[i].(running := d.containers[i].running)
                  && RemoveFailedOn(h0, d.history, i))
    ensures d.history.cleanupFailed == old(d.history).cleanupFailed
    ensures swap.Swapped? && swap.before == old(d.containers) && swap.id == id
    ensures Accounted(old(d.containers), d.containers, app.name, oldId, swap)
    ensures forall i: nat | HeldBy(d.containers, app.name, i) :: i == oldId || i == id
  {
    var ok;
    ok, swap := SwapCarried(d, app, oldId, id, image, h0);
    if !ok { return Failed, swap; }
    ghost var h1 := d.history;
    ok := d.LogStep();
    LineWritten(h0, h1, d.history, oldId, id, image);
    r := if ok then Replaced(id) else Failed;
  }

  lemma LineWritten(h0: History, h1: History, h2: History, oldId: nat, id: nat, image: string)
    requires Later(h0, h1) && TouchedOnlyAfterHealthy(h0, h1, oldId, id, image)
    requires h2 == h1.(logFailed := h2.logFailed) && (h1.logFailed ==> h2.logFailed)
    ensures Later(h0, h2) && TouchedOnlyAfterHealthy(h0, h2, oldId, id, image)
  {
  }

  /** The swap, with the claims carried over from `h0`. */
  method SwapCarried(d: Daemon, app: App, oldId: nat, id: nat, image: string, ghost h0: History)
    returns (ok: bool, ghost swap: SwapRun)
    requires d.Valid() && HeldBy(d.containers, app.name, oldId) && id != oldId
    requires id in d.containers && d.containers[id] == Container(NextName(app.name), image, true)
    requires id in d.history.healthy && id in d.history.made && d.history.made[id].image == image
    requires Later(h0, d.history) && NotTouched(h0, d.history, oldId)
    modifies d`containers, d`history, d`errors, d`query, d`holder
    ensures d.errors >= old(d.errors) && (!ok ==> d.errors > old(d.errors))
    ensures d.Valid() && Later(h0, d.history) && OthersUntouched(app, old(d.containers), d.containers)
    ensures id in d.history.healthy && TouchedOnlyAfterHealthy(h0, d.history, oldId, id, image)
    ensures ok ==> id in d.containers && d.containers[id] == Container(app.name, image, true)
    ensures !ok ==> forall i | HeldBy(d.containers, app.name, i) ::
              || (i == id && id in d.history.renameErrors)
              || (i == oldId && d.containers[i] == old(d.containers)[i].(running := d.containers[i].running)
                  && RemoveFailedOn(h0, d.history, i))
    ensures d.history.cleanupFailed == old(d.history).cleanupFailed
    ensures swap.Swapped? && swap.before == old(d.containers) && swap.id == id
    ensures Accounted(old(d.containers), d.containers, app.name, oldId, swap)
    ensures forall i: nat | HeldBy(d.containers, app.name, i) :: i == oldId || i == id
  {
    ghost var h1 := d.history;
    ok, swap := SwapAccounted(d, oldId, id, app.name);
    SwapCarries(h0, h1, d.history, oldId, id, image);
  }

  /** Old containers as they were, or gone, settle the name. */
  lemma OldSettles(app: App, c0: Containers, c1: Containers, h0: History, h1: History, next0: nat)
    requires forall i | i in c1 :: i in c0 && c1[i] == c0[i]
    ensures NameSettled(app, c0, c1, h0, h1, next0)
  {
  }

  /** What is settled since some step is settled since before it, if the step only took containers away. */
  lemma EarlierSettles(app: App, c0: Containers, c1: Containers, c2: Containers,
                        h0: History, h1: History, h2: History, next0: nat, next1: nat)
    requires !BlueGreen(app) && NameSettled(app, c1, c2, h1, h2, next1) && next0 <= next1
    requires forall i | i in c1 :: i in c0 && c1[i] == c0[i]
    ensures NameSettled(app, c0, c2, h0, h2, next0)
  {
    forall i | HeldBy(c2, app.name, i) ensures AllowedHolder(app, c0, c2, h0, h2, next0, i) {
      assert AllowedHolder(app, c1, c2, h1, h2, next1, i);
    }
  }

  /** Brings the new container up under the free name; a failure is repaired if a container was `replaced`. */
  method Recreate(d: Daemon, app: App, image: string, replaced: bool) returns (r: Result)
    requires d.Valid() && d.Free(app.name) && (replaced ==> !BlueGreen(app))
    modifies d
    ensures Excused(d, old(d.errors), old(d.clock), r.Replaced?)
    ensures d.Valid() && Later(old(d.history), d.history) && d.next >= old(d.next)
    ensures OthersUntouched(app, old(d.containers), d.containers)
    ensures r.Replaced? ==> r.id >= old(d.next) && Serves(app, d.containers, d.history, image, r.id)
    ensures !r.Replaced? && !d.history.cleanupFailed && !d.history.logFailed ==>
              NameSettled(app, old(d.containers), d.containers, old(d.history), d.history, old(d.next))
    ensures d.attempts == old(d.attempts) + Retries(r)
    ensures Reports(app, r, old(d.completed), d.completed, image)
    ensures r.Replaced? ==> d.completed == old(d.completed)
    ensures r == Failed && replaced && !d.history.logFailed ==> !Truthy(app.currentImage) || app.currentImage.value == image
    ensures !replaced ==> r.Replaced? || r == Failed
    decreases Nesting(app, image), 1, 0
  {
    var id := TryBringUp(d, app, image, app.name);
    if id.None? {
      r := Failed;
      if replaced {
        r := Recover(d, app, image, old(d.containers), old(d.history), old(d.next));
      } else if !d.history.cleanupFailed {
        OldSettles(app, old(d.containers), d.containers, old(d.history), d.history, old(d.next));
      }
      return;
    }
    r := Replaced(id.value);
    if app.healthcheck {
      var ok := d.LogStep();
      if !ok { r := Failed; }
    }
  }

  /** The recovery, with its claims carried over to the replacement it belongs to. */
  method Recover(d: Daemon, app: App, image: string, ghost c0: Containers, ghost h0: History, ghost next0: nat)
    returns (r: Result)
    requires d.Valid() && !BlueGreen(app) && Later(h0, d.history) && next0 <= d.next
    requires OthersUntouched(app, c0, d.containers)
    requires !d.history.cleanupFailed ==> d.containers == c0
    modifies d
    ensures !r.Replaced? && d.errors >= old(d.errors) && d.clock >= old(d.clock)
    ensures d.Valid() && Later(h0, d.history) && d.next >= old(d.next)
    ensures OthersUntouched(app, c0, d.containers)
    ensures !d.history.cleanupFailed && !d.history.logFailed ==> NameSettled(app, c0, d.containers, h0, d.history, next0)
    ensures d.attempts == old(d.attempts) + Retries(r)
    ensures Reports(app, r, old(d.completed), d.completed, image)
    ensures r == Failed <==> !Truthy(app.currentImage) || app.currentImage.value == image
    decreases Nesting(app, image), 0, 1
  {
    ghost var c1, h1, next1 := d.containers, d.history, d.next;
    r := RecoverPrevious(d, app, image);
    LaterTrans(h0, h1, d.history);
    if !d.history.cleanupFailed && !d.history.logFailed {
      EarlierSettles(app, c0, c1, d.containers, h0, h1, d.history, next0, next1);
    }
  }

  /** Without blue/green the old container goes first; a failure is then repaired. */
  method ReplaceInPlace(d: Daemon, app: App, image: string, existing: Option<nat>) returns (r: Result)
    requires d.Valid() && (existing.Some? ==> HeldBy(d.containers, app.name, existing.value))
    requires if existing.None? then d.Free(app.name) else !BlueGreen(app)
    modifies d
    ensures Excused(d, old(d.errors), old(d.clock), r.Replaced?)
    ensures d.Valid() && Later(old(d.history), d.history) && d.next >= old(d.next)
    ensures OthersUntouched(app, old(d.containers), d.containers)
    ensures r.Replaced? ==> r.id >= old(d.next) && Serves(app, d.containers, d.history, image, r.id)
    ensures !r.Replaced? && !d.history.cleanupFailed && !d.history.logFailed ==>
              NameSettled(app, old(d.containers), d.containers, old(d.history), d.history, old(d.next))
    ensures d.attempts == old(d.attempts) + Retries(r)
    ensures Reports(app, r, old(d.completed), d.completed, image)
    ensures r.Replaced? ==> d.completed == old(d.completed)
    // A removed container is not given up while there is another image to go back to.
    ensures r == Failed && existing.Some? && !d.history.logFailed ==>
              || RemoveFailedOn(old(d.history), d.history, existing.value)
              || !Truthy(app.currentImage) || app.currentImage.value == image
    ensures existing.None? ==> r.Replaced? || r == Failed
    decreases Nesting(app, image), 2
  {
    if existing.None? {
      r := Recreate(d, app, image, false);
      return;
    }
    ghost var c0, h0, next0 := d.containers, d.history, d.next;
    ghost var o;
    var ok;
    ok, o := d.Remove(existing.value, false);
    if !ok {
      assert d.history.touches[|h0.touches|] == Touch(existing.value, h0.healthy, true);
      OldSettles(app, c0, d.containers, h0, d.history, next0);
      return Failed;
    }
    ghost var c1, h1, next1 := d.containers, d.history, d.next;
    r := Recreate(d, app, image, true);
    LaterTrans(h0, h1, d.history);
    if !r.Replaced? && !d.history.cleanupFailed && !d.history.logFailed {
      EarlierSettles(app, c0, c1, d.containers, h0, h1, d.history, next0, next1);
    }
  }

  /** What a failed result says about replacements that completed on the way. */
  ghost predicate Reports(app: App, r: Result, before: seq<string>, now: seq<string>, image: string) {
    match r
    case Replaced(_) => true
    case Recovered =>
      && app.currentImage.Some? && app.currentImage.value != image
      && now == before + [app.currentImage.value]
    case Unrecovered => now == before && Truthy(app.currentImage) && app.currentImage.value != image
    case Failed => now == before
  }

  /** Replacements begun inside another: one to go back to the image before, or none. */
  function Retries(r: Result): nat {
    if r.Recovered? || r.Unrecovered? then 1 else 0
  }

  /** Why a failed replacement in place did not go back: nothing was taken away, or there is no other image. */
  ghost predicate NoWayBack(app: App, image: string, h0: History, h1: History, i: nat) {
    NotTouched(h0, h1, i) || RemoveFailedOn(h0, h1, i) || !Truthy(app.currentImage) || app.currentImage.value == image
  }

  /** The branch that fits the container found under the name. */
  method ReplaceFound(d: Daemon, app: App, image: string, existing: Option<nat>)
    returns (r: Result, ghost swap: SwapRun)
    requires d.Valid()
    requires if existing.Some? then HeldBy(d.containers, app.name, existing.value) else d.Free(app.name)
    modifies d
    ensures Excused(d, old(d.errors), old(d.clock), r.Replaced?)
    ensures d.Valid() && Later(old(d.history), d.history) && d.next >= old(d.next)
    ensures OthersUntouched(app, old(d.containers), d.containers)
    ensures r.Replaced? ==> r.id >= old(d.next) && Serves(app, d.containers, d.history, image, r.id)
    ensures r.Replaced? ==> d.completed == old(d.completed)
    ensures BlueGreen(app) && existing.Some? ==>
              TouchedOnlyAfterHealthy(old(d.history), d.history, existing.value, old(d.next), image)
    ensures !r.Replaced? && !d.history.cleanupFailed && !d.history.logFailed ==>
              NameSettled(app, old(d.containers), d.containers, old(d.history), d.history, old(d.next))
    ensures d.attempts == old(d.attempts) + Retries(r)
    ensures Reports(app, r, old(d.completed), d.completed, image)
    ensures BlueGreen(app) && existing.Some? ==> Accounted(old(d.containers), d.containers, app.name, existing.value, swap)
    ensures BlueGreen(app) || existing.None? ==> r.Replaced? || r == Failed
    ensures r == Failed && !BlueGreen(app) && existing.Some? && !d.history.logFailed ==>
              NoWayBack(app, image, old(d.history), d.history, existing.value)
    decreases Nesting(app, image), 3
  {
    if app.healthcheck && !app.hostPort && existing.Some? {
      r, swap := ReplaceBeside(d, app, image, existing.value);
    } else {
      swap := NoSwap;
      r := ReplaceInPlace(d, app, image, existing);
    }
  }

  /** Prepares a replacement and looks up the container it replaces. */
  method Locate(d: Daemon, app: App) returns (ok: bool, existing: Option<nat>)
    requires d.Valid()
    modifies d`history, d`errors, d`query
    ensures d.Valid() && d.history == old(d.history)
    ensures d.errors >= old(d.errors) && (!ok ==> d.errors > old(d.errors))
    ensures ok ==> if existing.Some? then HeldBy(d.containers, app.name, existing.value) else d.Free(app.name)
    ensures ok ==> forall i: nat | HeldBy(d.containers, app.name, i) :: existing == Some(i)
  {
    ok := d.Prepare();
    existing := None;
    if ok { ok, existing := d.Find(app.name, false); }
  }

  /** Looks the container up, and replaces what it finds. */
  method ReplaceLocated(d: Daemon, app: App, image: string)
    returns (r: Result, ghost swap: SwapRun)
    requires d.Valid()
    modifies d
    ensures Excused(d, old(d.errors), old(d.clock), r.Replaced?)
    ensures d.Valid() && Later(old(d.history), d.history) && d.next >= old(d.next)
    ensures OthersUntouched(app, old(d.containers), d.containers)
    ensures r.Replaced? ==> r.id >= old(d.next) && Serves(app, d.containers, d.history, image, r.id)
    ensures r.Replaced? ==> d.completed == old(d.completed)
    ensures BlueGreen(app) ==> forall i | HeldBy(old(d.containers), app.name, i) ::
              && TouchedOnlyAfterHealthy(old(d.history), d.history, i, old(d.next), image)
              && Accounted(old(d.containers), d.containers, app.name, i, swap)
    ensures !r.Replaced? && !d.history.cleanupFailed && !d.history.logFailed ==>
              NameSettled(app, old(d.containers), d.containers, old(d.history), d.history, old(d.next))
    ensures d.attempts == old(d.attempts) + Retries(r)
    ensures Reports(app, r, old(d.completed), d.completed, image)
    ensures BlueGreen(app) || old(d.Free(app.name)) ==> r.Replaced? || r == Failed
    ensures r == Failed && !BlueGreen(app) && !d.history.logFailed ==> forall i | HeldBy(old(d.containers), app.name, i) ::
              NoWayBack(app, image, old(d.history), d.history, i)
    decreases Nesting(app, image), 4
  {
    var ok, existing := Locate(d, app);
    if !ok {
      OldSettles(app, d.containers, d.containers, d.history, d.history, d.next);
      return Failed, NoSwap;
    }
    r, swap := ReplaceFound(d, app, image, existing);
  }

  /** Replaces the application's container by one of `image`. */
  method ReplaceContainer(d: Daemon, app: App, image: string)
    returns (r: Result, ghost swap: SwapRun)
    requires d.Valid()
    modifies d
    ensures Excused(d, old(d.errors), old(d.clock), r.Replaced?)
    ensures d.Valid() && Later(old(d.history), d.history) && d.next >= old(d.next)
    ensures OthersUntouched(app, old(d.containers), d.containers)
    // Success whenever no call errs; then the new container holds the name, and was seen healthy if there is a health check.
    ensures r.Replaced? ==> r.id >= old(d.next) && Serves(app, d.containers, d.history, image, r.id)
    ensures r.Replaced? ==> d.completed == old(d.completed) + [image]
    // Blue/green: the old container is not touched before the new one was seen healthy.
    ensures BlueGreen(app) ==> forall i | HeldBy(old(d.containers), app.name, i) ::
              TouchedOnlyAfterHealthy(old(d.history), d.history, i, old(d.next), image)
    // Failure: the name is left with something known good, or with nothing.
    ensures !r.Replaced? && !d.history.cleanupFailed && !d.history.logFailed ==>
              NameSettled(app, old(d.containers), d.containers, old(d.history), d.history, old(d.next))
    // Blue/green: exactly which outcomes of the swap leave the name as it was, or free.
    ensures BlueGreen(app) ==> forall i | HeldBy(old(d.containers), app.name, i) ::
              Accounted(old(d.containers), d.containers, app.name, i, swap)
    // One nested replacement, to go back, exactly where it is reported; none where nothing was taken away.
    // A container that was taken away is given up only when there is no other image to go back to.
    ensures BlueGreen(app) || old(d.Free(app.name)) ==> r.Replaced? || r == Failed
    ensures r == Failed && !BlueGreen(app) && !d.history.logFailed ==> forall i | HeldBy(old(d.containers), app.name, i) ::
              NoWayBack(app, image, old(d.history), d.history, i)
    ensures d.attempts == old(d.attempts) + 1 + Retries(r)
    ensures Reports(app, r, old(d.completed), d.completed, image)
    decreases Nesting(app, image), 5
  {
    d.attempts := d.attempts + 1;
    r, swap := ReplaceLocated(d, app, image);
    if r.Replaced? {
      d.completed := d.completed + [image];
    }
  }

  /** Puts the current image back after a plain replace failed. */
  method RecoverPrevious(d: Daemon, app: App, failed: string) returns (r: Result)
    requires d.Valid()
    modifies d
    ensures d.errors >= old(d.errors) && d.clock >= old(d.clock)
    ensures !r.Replaced?
    ensures d.Valid() && Later(old(d.history), d.history) && d.next >= old(d.next)
    ensures OthersUntouched(app, old(d.containers), d.containers)
    ensures !d.history.cleanupFailed && !d.history.logFailed ==>
              NameSettled(app, old(d.containers), d.containers, old(d.history), d.history, old(d.next))
    ensures Reports(app, r, old(d.completed), d.completed, failed)
    // Recovery is tried whenever there is another image to go back to.
    ensures r == Failed <==> !Truthy(app.currentImage) || app.currentImage.value == failed
    ensures d.attempts == old(d.attempts) + if r == Failed then 0 else 1
    decreases Nesting(app, failed), 0, 0
  {
    if !Truthy(app.currentImage) || app.currentImage.value == failed {
      return Failed;
    }
    var nested;
    ghost var swap;
    nested, swap := ReplaceContainer(d, app, app.currentImage.value);
    r := if nested.Replaced? then Recovered else Unrecovered;
  }

  /** The answer of an inspection that counts as serving. */
  ghost predicate LooksServing(r: Inspection) {
    r.Seen? && r.running && r.health != Unhealthy && r.health != Booting
  }

  /** The verdict that the last question to the daemon supports. */
  ghost predicate Supported(d: Daemon, app: App, serving: bool)
    reads d
  {
    match d.query
    case NoQuery => false
    case LookupFailed(name) => name == app.name && !serving
    case LookedUp(name, found) => name == app.name && found.None? && d.Free(name) && !serving
    case Inspected(i, r) => HeldBy(d.containers, app.name, i) && (serving <==> LooksServing(r))
  }

  /** Whether something that looks healthy still answers under the name. */
  method StatusAfterFailure(d: Daemon, app: App) returns (serving: bool)
    requires d.Valid()
    modifies d`history, d`answers, d`errors, d`query, d`clock, d`naps
    ensures d.Valid() && d.history == old(d.history).(healthy := d.history.healthy)
    ensures old(d.history).healthy <= d.history.healthy
    ensures Supported(d, app, serving)
    ensures d.errors >= old(d.errors) && d.clock >= old(d.clock)
    ensures d.answers == old(d.answers) && !d.Free(app.name) ==> d.errors > old(d.errors)
  {
    var ok, found := d.Find(app.name, false);
    if !ok || found.None? { return false; }
    var info := d.Inspect(found.value);
    serving := info.Seen? && info.running && info.health != Unhealthy && info.health != Booting;
  }

  lemma StillAllowed(app: App, c0: Containers, c1: Containers, h0: History, h1: History, h2: History, next0: nat, i: nat)
    requires NameSettled(app, c0, c1, h0, h1, next0) && HeldBy(c1, app.name, i)
    requires h2 == h1.(healthy := h2.healthy) && h1.healthy <= h2.healthy
    ensures AllowedHolder(app, c0, c1, h0, h2, next0, i)
  {
    if RemoveFailedOn(h0, h1, i) {
      var k :| |h0.touches| <= k < |h1.touches| && h1.touches[k].id == i && h1.touches[k].failedRemove;
      assert h2.touches[k].failedRemove;
    }
  }

  /**
   A deployment's start step and the application status it ends with. When the
   status says something still serves, it is the old container, a container of
   the current image, or one left by a swap that failed half way; never a
   container of the new image that nobody saw healthy.
   */
  method Deploy(d: Daemon, app: App, image: string) returns (r: Result, running: bool)
    requires d.Valid()
    modifies d
    ensures d.Valid()
    ensures r.Replaced? ==> running && Serves(app, d.containers, d.history, image, r.id)
    // After a failure the status is what the daemon says about the name at the end.
    ensures !r.Replaced? ==> Supported(d, app, running)
    // A replacement was begun, and it fails only for a reason.
    ensures old(d.attempts) < d.attempts && Excused(d, old(d.errors), old(d.clock), r.Replaced?)
    ensures !r.Replaced? && running && !d.history.cleanupFailed && !d.history.logFailed ==>
              && d.query.Inspected? && HeldBy(d.containers, app.name, d.query.id)
              && AllowedHolder(app, old(d.containers), d.containers, old(d.history), d.history, old(d.next), d.query.id)
  {
    ghost var swap;
    r, swap := ReplaceContainer(d, app, image);
    ghost var h1 := d.history;
    running := true;
    if !r.Replaced? {
      running := StatusAfterFailure(d, app);
      if running && !d.history.cleanupFailed && !d.history.logFailed {
        StillAllowed(app, old(d.containers), d.containers, old(d.history), h1, d.history, old(d.next), d.query.id);
      }
    }
  }
}
