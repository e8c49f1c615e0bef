/**
 The life of a deployment's log text: the runner emits masked chunks, the event
 bus keeps the whole text while the deployment runs, the row receives it in
 batches, and clients get a snapshot followed by the later chunks.
 */
module DeploymentLogs {
  import opened LogRedaction
  import opened Masking
  import opened Options

  datatype Status = Queued | Building | Pushing | Starting | Success | Failed

  predicate Active(s: Status) {
    s != Success && s != Failed
  }

  /** The columns of a deployment row that carry text of the log, and its status. */
  datatype Row = Row(logs: string, status: Status, errorMessage: Option<string>)

  datatype Phase = Running | Finishing | Finished

  /** One deployment, as the runner, the bus and the database hold it. */
  datatype Pipe = Pipe(
    emitted: string,       // everything ever emitted
    live: Option<string>,  // the bus's copy, while it has one
    entity: Row,           // the row object the runner holds
    buffer: string,        // emitted, not yet in the row object
    writes: seq<Row>,      // saves under way, oldest first
    row: Row,              // the stored row
    phase: Phase
  )

  /** A client between its subscribe message and its snapshot, or after it. */
  datatype Client =
    | Reading                  // row query under way
    | HasRow(row: Row)         // row answered, the handler not resumed yet
    | Refetching               // listeners on, second row query under way
    | HasFresh(row: Row)
    | Watching(view: string)   // snapshot received, chunks follow
    | Complete(view: string)   // snapshot of a finished deployment received

  datatype System = System(pipe: Pipe, clients: map<nat, Client>)

  // ---- the runner's side ----------------------------------------------------

  /** Right after `start()` returned: the first line is emitted and being saved. */
  function Started(first: string): Pipe {
    var e := Row(first, Queued, None);
    Pipe(first, Some(first), e, "", [e], Row("", Queued, None), Running)
  }

  function Emit(p: Pipe, chunk: string): Pipe {
    if chunk == "" then p
    else
      p.(emitted := p.emitted + chunk,
         live := Some((if p.live.Some? then p.live.value else "") + chunk),
         buffer := p.buffer + chunk)
  }

  function Announce(p: Pipe, s: Status): Pipe {
    p.(entity := p.entity.(status := s), live := if Active(s) then p.live else None)
  }

  function Flush(p: Pipe): Pipe {
    var e := p.entity.(logs := p.entity.logs + p.buffer);
    p.(entity := e, buffer := "", writes := p.writes + [e])
  }

  /** The part of `finish` before its await: the terminal row is being saved. */
  function BeginFinish(p: Pipe, s: Status, error: Option<string>): Pipe {
    Flush(p.(entity := p.entity.(status := s, errorMessage := error), phase := Finishing))
  }

  /** The part after the await: the terminal status is announced. */
  function EndFinish(p: Pipe): Pipe {
    Announce(p, p.entity.status).(phase := Finished)
  }

  /** The error message as it is stored. */
  function MaskedError(forms: seq<string>, error: Option<string>): Option<string>
    requires NonEmptyForms(forms)
  {
    if error.Some? then Some(Apply(forms, error.value)) else None
  }

  // ---- steps of the whole system ----------------------------------------------

  datatype Event =
    | Emits(chunk: string)
    | Announces(status: Status)
    | Flushes
    | Saved
    | BeginsFinish(status: Status, error: Option<string>)
    | EndsFinish
    | Subscribes(client: nat)
    | RowAnswered(client: nat)
    | RowResumed(client: nat)
    | FreshAnswered(client: nat)
    | FreshResumed(client: nat)
    | Leaves(client: nat)

  function Hear(c: Client, chunk: string): Client {
    if c.Watching? then Watching(c.view + chunk) else c
  }

  /** Registers the listeners and takes the snapshot, with no await in between. */
  function Snapshot(p: Pipe, row: Row): Client {
    match p.live
    case Some(text) => if Active(row.status) then Watching(text) else Complete(text)
    case None => if Active(row.status) then Refetching else Complete(row.logs)
  }

  function FreshSnapshot(row: Row): Client {
    if Active(row.status) then Watching(row.logs) else Complete(row.logs)
  }

  function Next(s: System, e: Event): System {
    var p := s.pipe;
    match e
    case Emits(chunk) => System(Emit(p, chunk), map c | c in s.clients :: Hear(s.clients[c], chunk))
    case Announces(st) => s.(pipe := Announce(p, st))
    case Flushes => s.(pipe := Flush(p))
    case Saved => if p.writes == [] then s else s.(pipe := p.(row := p.writes[0], writes := p.writes[1..]))
    case BeginsFinish(st, error) => s.(pipe := BeginFinish(p, st, error))
    case EndsFinish => s.(pipe := EndFinish(p))
    case Subscribes(c) => s.(clients := s.clients[c := Reading])
    case RowAnswered(c) =>
      if c in s.clients && s.clients[c].Reading? then s.(clients := s.clients[c := HasRow(p.row)]) else s
    case RowResumed(c) =>
      if c in s.clients && s.clients[c].HasRow? then s.(clients := s.clients[c := Snapshot(p, s.clients[c].row)]) else s
    case FreshAnswered(c) =>
      if c in s.clients && s.clients[c].Refetching? then s.(clients := s.clients[c := HasFresh(p.row)]) else s
    case FreshResumed(c) =>
      if c in s.clients && s.clients[c].HasFresh? then s.(clients := s.clients[c := FreshSnapshot(s.clients[c].row)]) else s
    case Leaves(c) => s.(clients := s.clients - {c})
  }

  /**
   What the runner does: only while running it emits, announces active steps
   and flushes; it finishes once, and announces the end when its last save is
   done (saves complete in the order they were issued).
   */
  predicate Possible(s: System, e: Event) {
    match e
    case Emits(_) => s.pipe.phase == Running
    case Announces(st) => s.pipe.phase == Running && Active(st)
    case Flushes => s.pipe.phase == Running
    case BeginsFinish(st, _) => s.pipe.phase == Running && st in {Success, Failed}
    case EndsFinish => s.pipe.phase == Finishing && s.pipe.writes == []
    case _ => true
  }

  ghost predicate PossibleRun(s: System, events: seq<Event>)
    decreases |events|
  {
    events == [] || (Possible(s, events[0]) && PossibleRun(Next(s, events[0]), events[1..]))
  }

  ghost function Run(s: System, events: seq<Event>): System
    decreases |events|
  {
    if events == [] then s else Run(Next(s, events[0]), events[1..])
  }

  // ---- the invariant -----------------------------------------------------------

  /** A row that says "finished" holds the whole text. */
  ghost predicate Honest(p: Pipe, r: Row) {
    !Active(r.status) ==> p.phase != Running && r.logs == p.emitted
  }

  ghost predicate PipeInv(p: Pipe) {
    && p.live == (if p.phase == Finished then None else Some(p.emitted))
    && p.entity.logs + p.buffer == p.emitted
    && Honest(p, p.row) && (forall w | w in p.writes :: Honest(p, w))
    && (Active(p.entity.status) <==> p.phase == Running)
    && (p.phase != Running ==> p.buffer == "" && ([p.row] + p.writes)[|p.writes|] == p.entity)
    && (p.phase == Finished ==> p.writes == [])
  }

  ghost predicate ClientInv(p: Pipe, c: Client) {
    match c
    case Reading => true
    case HasRow(r) => Honest(p, r)
    case Refetching => p.phase == Finished
    case HasFresh(r) => p.phase == Finished && r == p.entity
    case Watching(v) => v == p.emitted
    case Complete(v) => v == p.emitted && p.phase != Running
  }

  ghost predicate Inv(s: System) {
    PipeInv(s.pipe) && forall c | c in s.clients :: ClientInv(s.pipe, s.clients[c])
  }

  lemma NextInv(s: System, e: Event)
    requires Inv(s) && Possible(s, e)
    ensures Inv(Next(s, e))
  {
    var p, t := s.pipe, Next(s, e);
    match e
    case Emits(chunk) =>
      assert (p.entity.logs + p.buffer) + chunk == p.entity.logs + (p.buffer + chunk);
    case Flushes => FlushInv(p);
    case BeginsFinish(st, error) => BeginFinishInv(p, st, error);
    case Saved =>
      if p.writes != [] {
        SavedInv(p);
      }
    case _ =>
  }

  lemma FlushInv(p: Pipe)
    requires PipeInv(p) && p.phase == Running
    ensures PipeInv(Flush(p))
  {
  }

  lemma SavedInv(p: Pipe)
    requires PipeInv(p) && p.writes != []
    ensures PipeInv(p.(row := p.writes[0], writes := p.writes[1..]))
  {
    assert p.writes[0] in p.writes;
    assert p.writes == [p.writes[0]] + p.writes[1..];
    assert forall w | w in p.writes[1..] :: w in p.writes;
    assert ([p.row] + p.writes)[|p.writes|] == p.writes[|p.writes| - 1];
  }

  lemma BeginFinishInv(p: Pipe, st: Status, error: Option<string>)
    requires PipeInv(p) && p.phase == Running && !Active(st)
    ensures PipeInv(BeginFinish(p, st, error))
  {
    var q := BeginFinish(p, st, error);
    assert ([q.row] + q.writes)[|q.writes|] == q.entity;
    assert forall w | w in q.writes :: w in p.writes || w == q.entity;
  }

  lemma {:induction false} RunInv(s: System, events: seq<Event>)
    requires Inv(s) && PossibleRun(s, events)
    ensures Inv(Run(s, events))
    decreases |events|
  {
    if events != [] {
      NextInv(s, events[0]);
      RunInv(Next(s, events[0]), events[1..]);
    }
  }

  /** What a client shows once it has a snapshot; nothing before. */
  function Shown(c: Client): Option<string> {
    match c
    case Watching(v) => Some(v)
    case Complete(v) => Some(v)
    case _ => None
  }

  /**
   Exactness: at every moment of every run after `start()`, each client that
   has its snapshot shows exactly the text emitted so far, nothing lost and
   nothing twice, whenever it subscribed and however the reads interleave.
   */
  lemma ClientsShowExactlyTheLog(first: string, events: seq<Event>)
    requires PossibleRun(System(Started(first), map[]), events)
    ensures var s := Run(System(Started(first), map[]), events);
            forall c | c in s.clients && Shown(s.clients[c]).Some? :: Shown(s.clients[c]).value == s.pipe.emitted
  {
    var s0 := System(Started(first), map[]);
    assert PipeInv(s0.pipe);
    RunInv(s0, events);
  }

  /**
   The row catches up: before the bus drops its copy the stored row holds the
   whole text, and a row that says "finished" always does.
   */
  lemma FinishedRowIsComplete(first: string, events: seq<Event>)
    requires PossibleRun(System(Started(first), map[]), events)
    ensures var p := Run(System(Started(first), map[]), events).pipe;
            && (p.live.None? ==> p.row.logs == p.emitted && !Active(p.row.status))
            && (!Active(p.row.status) ==> p.row.logs == p.emitted)
            && (p.live.Some? ==> p.live.value == p.entity.logs + p.buffer == p.emitted)
  {
    var s0 := System(Started(first), map[]);
    assert PipeInv(s0.pipe);
    RunInv(s0, events);
  }

  // ---- emitted text ------------------------------------------------------------------

  function ChunkOf(e: Event): string {
    if e.Emits? then e.chunk else ""
  }

  /** The text emitted by the events. */
  ghost function Chunks(events: seq<Event>): string {
    if events == [] then "" else ChunkOf(events[0]) + Chunks(events[1..])
  }

  lemma NextEmits(s: System, e: Event)
    ensures Next(s, e).pipe.emitted == s.pipe.emitted + ChunkOf(e)
  {
    Joined(s.pipe.emitted, "", "");
  }

  lemma {:induction false} RunEmits(s: System, events: seq<Event>)
    ensures Run(s, events).pipe.emitted == s.pipe.emitted + Chunks(events)
    decreases |events|
  {
    if events == [] {
      Joined(s.pipe.emitted, "", "");
    } else {
      NextEmits(s, events[0]);
      RunEmits(Next(s, events[0]), events[1..]);
      Joined(s.pipe.emitted, ChunkOf(events[0]), Chunks(events[1..]));
    }
  }

  // ---- the row follows ---------------------------------------------------------------

  /** The status that was announced last, or that the deployment ended with. */
  ghost function LastStatus(events: seq<Event>): Status {
    if events == [] then Queued
    else match events[|events| - 1]
      case Announces(st) => st
      case BeginsFinish(st, _) => st
      case _ => LastStatus(events[..|events| - 1])
  }

  ghost function LastError(events: seq<Event>): Option<string> {
    if events == [] then None
    else match events[|events| - 1]
      case BeginsFinish(_, error) => error
      case _ => LastError(events[..|events| - 1])
  }

  lemma {:induction false} RunLast(s: System, events: seq<Event>, e: Event)
    requires PossibleRun(s, events + [e])
    ensures PossibleRun(s, events) && Possible(Run(s, events), e)
    ensures Run(s, events + [e]) == Next(Run(s, events), e)
    decreases |events|
  {
    var all := events + [e];
    if events == [] {
      assert all[1..] == [];
    } else {
      assert all[0] == events[0] && all[1..] == events[1..] + [e];
      RunLast(Next(s, events[0]), events[1..], e);
    }
  }

  function StatusAfter(e: Event, before: Status): Status {
    match e
    case Announces(st) => st
    case BeginsFinish(st, _) => st
    case _ => before
  }

  function ErrorAfter(e: Event, before: Option<string>): Option<string> {
    match e
    case BeginsFinish(_, error) => error
    case _ => before
  }

  lemma EntityNext(s: System, e: Event)
    ensures var p, q := s.pipe.entity, Next(s, e).pipe.entity;
            q.status == StatusAfter(e, p.status) && q.errorMessage == ErrorAfter(e, p.errorMessage)
  {
  }

  lemma LastAfter(events: seq<Event>, e: Event)
    ensures LastStatus(events + [e]) == StatusAfter(e, LastStatus(events))
    ensures LastError(events + [e]) == ErrorAfter(e, LastError(events))
  {
    assert (events + [e])[..|events|] == events;
  }

  /** What the runner holds of the row: the last status, and the error message of the end. */
  lemma {:induction false} EntityFollows(first: string, events: seq<Event>)
    requires PossibleRun(System(Started(first), map[]), events)
    ensures var p := Run(System(Started(first), map[]), events).pipe;
            && p.entity.status == LastStatus(events) && p.entity.errorMessage == LastError(events)
            && p.entity.logs + p.buffer == first + Chunks(events)
    decreases |events|
  {
    var s0 := System(Started(first), map[]);
    TextFollows(first, events);
    if events != [] {
      var init, e := events[..|events| - 1], events[|events| - 1];
      assert events == init + [e];
      RunLast(s0, init, e);
      EntityFollows(first, init);
      LastAfter(init, e);
      EntityNext(Run(s0, init), e);
    }
  }

  lemma TextFollows(first: string, events: seq<Event>)
    requires PossibleRun(System(Started(first), map[]), events)
    ensures var p := Run(System(Started(first), map[]), events).pipe; p.entity.logs + p.buffer == first + Chunks(events)
  {
    var s0 := System(Started(first), map[]);
    assert PipeInv(s0.pipe);
    RunInv(s0, events);
    RunEmits(s0, events);
  }

  /** Saves being stored, and what clients do. */
  predicate LeavesEntity(e: Event) {
    !e.Emits? && !e.Announces? && !e.Flushes? && !e.BeginsFinish? && !e.EndsFinish?
  }

  lemma {:induction false} SavesDrain(s: System, events: seq<Event>)
    requires ([s.pipe.row] + s.pipe.writes)[|s.pipe.writes|] == s.pipe.entity
    requires forall k | 0 <= k < |events| :: LeavesEntity(events[k])
    ensures var p := Run(s, events).pipe;
            && p.entity == s.pipe.entity && p.emitted == s.pipe.emitted && p.buffer == s.pipe.buffer
            && ([p.row] + p.writes)[|p.writes|] == p.entity
    decreases |events|
  {
    if events != [] {
      assert LeavesEntity(events[0]);
      SavesDrain(Next(s, events[0]), events[1..]);
    }
  }

  /**
   Once the buffer has been flushed and the saves are through, the stored row
   holds all that was emitted, the last status, and the error message.
   */
  lemma RowCatchesUp(first: string, before: seq<Event>, e: Event, after: seq<Event>)
    requires e.Flushes? || e.BeginsFinish?
    requires PossibleRun(System(Started(first), map[]), before + [e])
    requires forall k | 0 <= k < |after| :: LeavesEntity(after[k])
    requires Run(Run(System(Started(first), map[]), before + [e]), after).pipe.writes == []
    ensures Run(Run(System(Started(first), map[]), before + [e]), after).pipe.row
            == Row(first + Chunks(before + [e]), LastStatus(before + [e]), LastError(before + [e]))
  {
    var s0 := System(Started(first), map[]);
    var s := Run(s0, before + [e]);
    RunLast(s0, before, e);
    EntityFollows(first, before + [e]);
    FlushIssues(Run(s0, before), e);
    SavesDrain(s, after);
    Joined(s.pipe.entity.logs, "", "");
  }

  /** The saves under way go through one by one, and the latest is what the row holds then. */
  lemma {:induction false} SavesComplete(s: System)
    ensures var p := Run(s, seq(|s.pipe.writes|, _ => Saved)).pipe;
            p.writes == [] && p.row == ([s.pipe.row] + s.pipe.writes)[|s.pipe.writes|]
    decreases |s.pipe.writes|
  {
    var p, saves := s.pipe, seq(|s.pipe.writes|, _ => Saved);
    if p.writes != [] {
      var t := Next(s, Saved);
      assert t.pipe.writes == p.writes[1..] && t.pipe.row == p.writes[0];
      SavesComplete(t);
      assert saves[0] == Saved && saves[1..] == seq(|t.pipe.writes|, _ => Saved);
    }
  }

  lemma FlushIssues(s: System, e: Event)
    requires e.Flushes? || e.BeginsFinish?
    ensures var p := Next(s, e).pipe;
            p.buffer == "" && ([p.row] + p.writes)[|p.writes|] == p.entity
  {
    var p := Next(s, e).pipe;
    assert p.writes == s.pipe.writes + [p.entity];
  }

  // ---- a client that subscribed too early ------------------------------------------------

  predicate MovesClient(e: Event, c: nat) {
    match e
    case Subscribes(d) => d == c
    case Leaves(d) => d == c
    case FreshResumed(d) => d == c
    case _ => false
  }

  lemma {:induction false} ClientWaits(s: System, events: seq<Event>, c: nat)
    requires c in s.clients && s.clients[c].HasFresh? && forall i | 0 <= i < |events| :: !MovesClient(events[i], c)
    ensures var t := Run(s, events); c in t.clients && t.clients[c] == s.clients[c]
    decreases |events|
  {
    if events != [] {
      assert !MovesClient(events[0], c);
      ClientWaits(Next(s, events[0]), events[1..], c);
    }
  }

  // ---- every client gets its snapshot ----------------------------------------------------

  /** A message of the client, or an answer that it waits for. */
  predicate IsOf(e: Event, c: nat) {
    match e
    case Subscribes(d) => d == c
    case RowAnswered(d) => d == c
    case RowResumed(d) => d == c
    case FreshAnswered(d) => d == c
    case FreshResumed(d) => d == c
    case Leaves(d) => d == c
    case _ => false
  }

  lemma {:induction false} StillWaits(s: System, events: seq<Event>, c: nat)
    requires c in s.clients && Shown(s.clients[c]).None? && forall i | 0 <= i < |events| :: !IsOf(events[i], c)
    ensures var t := Run(s, events); c in t.clients && t.clients[c] == s.clients[c]
    decreases |events|
  {
    if events != [] {
      assert !IsOf(events[0], c);
      StillWaits(Next(s, events[0]), events[1..], c);
    }
  }

  /** A wait, and then the step it was for. */
  lemma WaitsAndMoves(s: System, wait: seq<Event>, e: Event, c: nat) returns (t: System)
    requires Inv(s) && PossibleRun(s, wait + [e]) && forall i | 0 <= i < |wait| :: !IsOf(wait[i], c)
    requires c in s.clients && Shown(s.clients[c]).None?
    ensures t == Run(s, wait) && Inv(t) && Possible(t, e) && c in t.clients && t.clients[c] == s.clients[c]
    ensures Run(s, wait + [e]) == Next(t, e) && Inv(Next(t, e))
  {
    RunLast(s, wait, e);
    t := Run(s, wait);
    RunInv(s, wait);
    NextInv(t, e);
    StillWaits(s, wait, c);
  }

  /** A state that some run after `start()` comes to. */
  ghost predicate Reached(s: System, first: string, events: seq<Event>) {
    PossibleRun(System(Started(first), map[]), events) && s == Run(System(Started(first), map[]), events)
  }

  lemma ReachedInv(s: System, first: string, events: seq<Event>)
    requires Reached(s, first, events)
    ensures Inv(s)
  {
    var s0 := System(Started(first), map[]);
    assert PipeInv(s0.pipe);
    RunInv(s0, events);
  }

  ghost predicate Waits(wait: seq<Event>, c: nat) {
    forall i | 0 <= i < |wait| :: !IsOf(wait[i], c)
  }

  /**
   A client that subscribes and whose row is read has its snapshot at once, and it
   is the whole text; unless the deployment finished behind that read: then
   the row is read again.
   */
  lemma SubscriberIsServed(s: System, first: string, events: seq<Event>, c: nat, w1: seq<Event>, w2: seq<Event>)
    requires Reached(s, first, events) && Waits(w1, c) && Waits(w2, c)
    requires PossibleRun(Next(s, Subscribes(c)), w1 + [RowAnswered(c)])
    requires PossibleRun(Run(Next(s, Subscribes(c)), w1 + [RowAnswered(c)]), w2 + [RowResumed(c)])
    ensures var t := Run(Run(Next(s, Subscribes(c)), w1 + [RowAnswered(c)]), w2 + [RowResumed(c)]);
            c in t.clients &&
            (Shown(t.clients[c]) == Some(t.pipe.emitted) || (t.clients[c] == Refetching && t.pipe.phase == Finished))
  {
    ReachedInv(s, first, events);
    NextInv(s, Subscribes(c));
    var t1 := WaitsAndMoves(Next(s, Subscribes(c)), w1, RowAnswered(c), c);
    assert Next(t1, RowAnswered(c)).clients[c] == HasRow(t1.pipe.row);
    var t2 := WaitsAndMoves(Next(t1, RowAnswered(c)), w2, RowResumed(c), c);
    SnapshotTaken(t2, c);
  }

  /** A client that has its snapshot goes on showing the log until it leaves or subscribes again. */
  lemma {:induction false} KeepsItsView(s: System, events: seq<Event>, c: nat)
    requires c in s.clients && Shown(s.clients[c]).Some? && Waits(events, c)
    ensures var t := Run(s, events); c in t.clients && Shown(t.clients[c]).Some?
    decreases |events|
  {
    if events != [] {
      assert !IsOf(events[0], c);
      KeepsItsView(Next(s, events[0]), events[1..], c);
    }
  }

  lemma SnapshotTaken(s: System, c: nat)
    requires Inv(s) && c in s.clients && s.clients[c].HasRow? && Inv(Next(s, RowResumed(c)))
    ensures var t := Next(s, RowResumed(c));
            c in t.clients &&
            (Shown(t.clients[c]) == Some(t.pipe.emitted) || (t.clients[c] == Refetching && t.pipe.phase == Finished))
  {
    assert ClientInv(Next(s, RowResumed(c)).pipe, Next(s, RowResumed(c)).clients[c]);
  }

  /** ... and after that the client has the whole text. */
  lemma RefetchIsServed(s: System, first: string, events: seq<Event>, c: nat, w1: seq<Event>, w2: seq<Event>)
    requires Reached(s, first, events) && c in s.clients && s.clients[c] == Refetching && Waits(w1, c) && Waits(w2, c)
    requires PossibleRun(s, w1 + [FreshAnswered(c)])
    requires PossibleRun(Run(s, w1 + [FreshAnswered(c)]), w2 + [FreshResumed(c)])
    ensures var t := Run(Run(s, w1 + [FreshAnswered(c)]), w2 + [FreshResumed(c)]);
            c in t.clients && Shown(t.clients[c]) == Some(t.pipe.emitted)
  {
    ReachedInv(s, first, events);
    var t1 := WaitsAndMoves(s, w1, FreshAnswered(c), c);
    assert Next(t1, FreshAnswered(c)).clients[c] == HasFresh(t1.pipe.row);
    var t2 := WaitsAndMoves(Next(t1, FreshAnswered(c)), w2, FreshResumed(c), c);
    FreshTaken(t2, c);
  }

  lemma FreshTaken(s: System, c: nat)
    requires Inv(s) && c in s.clients && s.clients[c].HasFresh? && Inv(Next(s, FreshResumed(c)))
    ensures var t := Next(s, FreshResumed(c)); c in t.clients && Shown(t.clients[c]) == Some(t.pipe.emitted)
  {
    assert ClientInv(Next(s, FreshResumed(c)).pipe, Next(s, FreshResumed(c)).clients[c]);
  }

  lemma SameLength(a: string, b: string)
    ensures (a + b == a) <==> (b == "")
  {
    assert |a + b| == |a| + |b|;
  }

  /** A client that subscribes before there is live text, up to the answer of its second read. */
  function Early(s: System): System {
    s.(clients := s.clients[0 := HasFresh(s.pipe.row)])
  }

  lemma SubscribedEarly(s: System)
    requires s.pipe.live.None? && Active(s.pipe.row.status)
    ensures Next(Next(Next(Next(s, Subscribes(0)), RowAnswered(0)), RowResumed(0)), FreshAnswered(0)) == Early(s)
  {
    var s1 := Next(Next(s, Subscribes(0)), RowAnswered(0));
    assert s1 == s.(clients := s.clients[0 := HasRow(s.pipe.row)]);
    assert Next(s1, RowResumed(0)) == s.(clients := s.clients[0 := Refetching]);
  }

  lemma ResumedEarly(s: System, row: Row)
    requires 0 in s.clients && s.clients[0] == HasFresh(row) && Active(row.status)
    ensures var t := Next(s, FreshResumed(0));
            t.pipe == s.pipe && 0 in t.clients && Shown(t.clients[0]) == Some(row.logs)
  {
  }

  /**
   Subscribing before `start()` is outside the guarantee: with no live text yet
   the handler reads the row again. Whatever happens until that answer is
   handled, the client is right exactly when nothing is emitted meanwhile.
   */
  lemma EarlySubscriberExactIff(s: System, events: seq<Event>)
    requires s.pipe.live.None? && s.pipe.emitted == s.pipe.row.logs && Active(s.pipe.row.status)
    requires forall i | 0 <= i < |events| :: !MovesClient(events[i], 0)
    ensures Next(Next(Next(Next(s, Subscribes(0)), RowAnswered(0)), RowResumed(0)), FreshAnswered(0)) == Early(s)
    ensures var t := Next(Run(Early(s), events), FreshResumed(0));
            0 in t.clients && ((Shown(t.clients[0]) == Some(t.pipe.emitted)) <==> (Chunks(events) == ""))
  {
    SubscribedEarly(s);
    ClientWaits(Early(s), events, 0);
    RunEmits(Early(s), events);
    ResumedEarly(Run(Early(s), events), s.pipe.row);
    SameLength(s.pipe.emitted, Chunks(events));
  }

  /** Such a run: the first chunk comes between the second answer and its handling. */
  lemma EarlySubscriberMisses(s: System, chunk: string)
    requires s.pipe.phase == Running && s.pipe.live.None? && s.pipe.emitted == s.pipe.row.logs == ""
    requires Active(s.pipe.row.status) && chunk != "" && 0 !in s.clients
    ensures var t := Next(Next(Early(s), Emits(chunk)), FreshResumed(0));
            && Possible(Early(s), Emits(chunk))
            && t.pipe.emitted == chunk && 0 in t.clients && t.clients[0] == Watching("")
  {
  }

  // ---- the bus, the row and the log sink as objects -----------------------------

  class DeploymentEvents {
    /** What each unfinished deployment has emitted so far. */
    var liveLogs: map<string, string>

    constructor ()
      ensures liveLogs == map[]
    {
      liveLogs := map[];
    }

    method EmitLog(id: string, chunk: string)
      modifies this
      ensures liveLogs == old(liveLogs)[id := (if id in old(liveLogs) then old(liveLogs)[id] else "") + chunk]
    {
      liveLogs := liveLogs[id := (if id in liveLogs then liveLogs[id] else "") + chunk];
    }

    method EmitStatus(id: string, status: Status)
      modifies this
      ensures liveLogs == if status in {Success, Failed} then old(liveLogs) - {id} else old(liveLogs)
    {
      if status == Success || status == Failed {
        liveLogs := liveLogs - {id};
      }
    }

    function Copy(id: string): Option<string>
      reads this
    {
      if id in liveLogs then Some(liveLogs[id]) else None
    }
  }

  class Deployments {
    var row: Row
    /** Saves issued and not stored yet, oldest first. */
    var writes: seq<Row>

    constructor ()
      ensures row == Row("", Queued, None) && writes == []
    {
      row, writes := Row("", Queued, None), [];
    }

    method Save(entity: Row)
      modifies this`writes
      ensures writes == old(writes) + [entity]
    {
      writes := writes + [entity];
    }
  }

  class DeploymentLog {
    const id: string
    const events: DeploymentEvents
    const deployments: Deployments
    const redactor: Redactor
    const stream: StreamRedactor
    var deployment: Row
    var buffer: string
    ghost var emitted: string
    ghost var phase: Phase

    ghost predicate Valid()
      reads this, redactor
    {
      stream.redactor == redactor && redactor.Valid()
    }

    ghost function Now(): Pipe
      reads this, events, deployments
    {
      Pipe(emitted, events.Copy(id), deployment, buffer, deployments.writes, deployments.row, phase)
    }

    constructor (id: string, events: DeploymentEvents, deployments: Deployments, encode: string -> string)
      ensures Valid() && fresh(redactor) && fresh(stream)
      ensures this.id == id && this.events == events && this.deployments == deployments
      ensures deployment == deployments.row && buffer == "" && emitted == "" && phase == Running
      ensures redactor.forms == [] && redactor.known == {} && redactor.encode == encode && stream.pending == ""
    {
      this.id, this.events, this.deployments := id, events, deployments;
      var r := new Redactor(encode);
      redactor := r;
      stream := new StreamRedactor(r);
      deployment := deployments.row;
      buffer, emitted, phase := "", "", Running;
    }

    method EmitChunk(chunk: string)
      modifies this`buffer, this`emitted, events
      ensures Now() == Emit(old(Now()), chunk)
      ensures forall clients :: Next(System(old(Now()), clients), Emits(chunk)).pipe == Now()
    {
      if chunk == "" { return; }
      buffer := buffer + chunk;
      emitted := emitted + chunk;
      events.EmitLog(id, chunk);
    }

    /** Appends text: what the masker releases is emitted at once. */
    method Append(raw: string)
      requires Valid()
      modifies this`buffer, this`emitted, events, stream
      ensures Valid()
      ensures Now() == Emit(old(Now()), Released(redactor.forms, old(stream.pending), raw))
      ensures stream.pending == Held(redactor.forms, old(stream.pending), raw)
    {
      var out := stream.Push(raw);
      EmitChunk(out);
    }

    method Drain()
      requires Valid()
      modifies this`buffer, this`emitted, events, stream
      ensures Valid() && stream.pending == ""
      ensures Now() == Emit(old(Now()), Apply(redactor.forms, old(stream.pending)))
    {
      var out := stream.Flush();
      EmitChunk(out);
    }

    method SetStatus(status: Status)
      modifies this`deployment, events
      ensures Now() == Announce(old(Now()), status)
      ensures forall clients :: Next(System(old(Now()), clients), Announces(status)).pipe == Now()
    {
      deployment := deployment.(status := status);
      events.EmitStatus(id, status);
    }

    method FlushBuffer(force: bool)
      modifies this`deployment, this`buffer, deployments
      ensures force || old(buffer) != "" ==> Now() == Flush(old(Now()))
      ensures force || old(buffer) != "" ==> forall clients :: Next(System(old(Now()), clients), Flushes).pipe == Now()
      ensures !force && old(buffer) == "" ==> Now() == old(Now())
    {
      if buffer == "" && !force { return; }
      deployment := deployment.(logs := deployment.logs + buffer);
      buffer := "";
      deployments.Save(deployment);
    }

    /** A step line: held text first, then the new status, then the line. */
    method Step(status: Status, line: string)
      requires Valid()
      modifies this, events, stream, deployments
      ensures Valid() && stream.pending == Held(redactor.forms, "", "\n==> " + line + "\n")
      ensures Now() == Flush(Emit(Announce(Emit(old(Now()), Apply(redactor.forms, old(stream.pending))), status),
                                  Released(redactor.forms, "", "\n==> " + line + "\n")))
    {
      Drain();
      SetStatus(status);
      Append("\n==> " + line + "\n");
      FlushBuffer(true);
    }

    method Note(line: string)
      requires Valid()
      modifies this, events, stream, deployments
      ensures Valid() && stream.pending == Held(redactor.forms, old(stream.pending), "==> " + line + "\n")
      ensures Now() == Flush(Emit(old(Now()), Released(redactor.forms, old(stream.pending), "==> " + line + "\n")))
    {
      Append("==> " + line + "\n");
      FlushBuffer(true);
    }

    method SetError(error: Option<string>)
      requires Valid()
      modifies this`deployment
      ensures deployment == old(deployment).(errorMessage := MaskedError(redactor.forms, error))
    {
      if error == None {
        deployment := deployment.(errorMessage := None);
      } else {
        var masked := redactor.Mask(error.value);
        deployment := deployment.(errorMessage := Some(masked));
      }
    }

    /** Appends the last text, and nothing stays held. */
    method AppendLast(raw: string)
      requires Valid()
      modifies this`buffer, this`emitted, events, stream
      ensures Valid() && stream.pending == ""
      ensures Now() == Emit(Emit(old(Now()), Released(redactor.forms, old(stream.pending), raw)),
                            Apply(redactor.forms, Held(redactor.forms, old(stream.pending), raw)))
    {
      Append(raw);
      Drain();
    }

    /** `finish` up to its await: everything is emitted and the terminal row is being saved. */
    method FinishUpToSave(status: Status, line: string, errorMessage: Option<string>)
      requires Valid()
      modifies this, events, stream, deployments
      ensures Valid() && stream.pending == ""
      ensures var raw := "\n" + line + "\n";
              Now() == BeginFinish(Emit(Emit(old(Now()), Released(redactor.forms, old(stream.pending), raw)),
                                        Apply(redactor.forms, Held(redactor.forms, old(stream.pending), raw))),
                                   status, MaskedError(redactor.forms, errorMessage))
      ensures deployment.errorMessage == match errorMessage
                                         case Some(message) => Some(Apply(redactor.forms, message))
                                         case None => None
    {
      SetError(errorMessage);
      AppendLast("\n" + line + "\n");
      deployment := deployment.(status := status);
      phase := Finishing;
      FlushBuffer(true);
    }

    /** `finish` after its await. */
    method FinishAfterSave()
      modifies this, events
      ensures Now() == EndFinish(old(Now()))
      ensures forall clients :: Next(System(old(Now()), clients), EndsFinish).pipe == Now()
    {
      SetStatus(deployment.status);
      phase := Finished;
    }
  }
}
