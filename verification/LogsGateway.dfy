/**
 The realtime log gateway: one subscription per socket, started by handlers
 that await several times and can be overtaken by newer messages between two
 awaits. Each stretch of code between two awaits is one atomic step.
 */
module LogsGateway {

  type Socket = nat

  /** What a subscription holds open: bus listeners or a daemon log stream. */
  datatype Resource = Resource(id: nat, socket: Socket, generation: nat)

  /** The await a subscribe call is suspended at. */
  datatype Stage =
    | RowRead | FreshRead                               // subscribe:deployment
    | AppRead | ServerRead | ServiceRead | ContainerRead // subscribe:container

  /** A subscribe call in flight, with the generation it captured. */
  datatype Call = Call(socket: Socket, generation: nat, stage: Stage)

  /** What the awaited operation came back with. */
  datatype Answer =
    | Failed                            // the awaited operation threw
    | Missing                           // no such row, application or container
    | Row(active: bool, live: bool)     // deployment row: still active? live text in memory?
    | Found(service: bool)              // application, daemon, service or container found

  datatype Event =
    | SubscribeDeployment(socket: Socket)
    | SubscribeContainer(socket: Socket)
    | Unsubscribe(socket: Socket)
    | Disconnect(socket: Socket)
    | Resume(call: nat, answer: Answer)
    | StreamEnd(resource: Resource)

  datatype State = State(
    subscriptions: map<Socket, Resource>,
    generations: map<Socket, nat>,
    calls: map<nat, Call>,   // in-flight subscribe calls
    open: set<Resource>,     // listeners and streams that exist right now
    ever: set<Resource>,     // all that ever existed
    gone: set<Socket>,       // sockets that have disconnected
    next: nat                // fresh identities
  )

  const INITIAL := State(map[], map[], map[], {}, {}, {}, 0)

  // ---- what each stretch does ------------------------------------------------

  function Generation(s: State, c: Socket): nat {
    if c in s.generations then s.generations[c] else 0
  }

  predicate IsStale(s: State, c: Socket, generation: nat) {
    c !in s.generations || s.generations[c] != generation
  }

  function Unsubscribed(s: State, c: Socket): State {
    var bumped := s.(generations := s.generations[c := Generation(s, c) + 1]);
    if c in s.subscriptions
    then bumped.(subscriptions := s.subscriptions - {c}, open := s.open - {s.subscriptions[c]})
    else bumped
  }

  function Disconnected(s: State, c: Socket): State {
    var u := Unsubscribed(s, c);
    u.(generations := u.generations - {c}, gone := u.gone + {c})
  }

  function Subscribing(s: State, c: Socket, stage: Stage): State {
    var u := Unsubscribed(s, c);
    u.(calls := u.calls[u.next := Call(c, Generation(u, c), stage)], next := u.next + 1)
  }

  /** Opens listeners or a stream and records the cleanup for the socket. */
  function Opened(s: State, k: Call): State {
    var r := Resource(s.next, k.socket, k.generation);
    s.(subscriptions := s.subscriptions[k.socket := r],
       open := s.open + {r}, ever := s.ever + {r}, next := s.next + 1)
  }

  function Returned(s: State, id: nat): State {
    s.(calls := s.calls - {id})
  }

  function Waiting(s: State, id: nat, k: Call, stage: Stage): State {
    s.(calls := s.calls[id := k.(stage := stage)])
  }

  function Resumed(s: State, id: nat, a: Answer): State
    requires id in s.calls
  {
    var k := s.calls[id];
    if a.Failed? || IsStale(s, k.socket, k.generation) then Returned(s, id)
    else match k.stage
      case RowRead =>
        if !a.Row? then Returned(s, id)
        else if a.active && !a.live then Waiting(Opened(s, k), id, k, FreshRead)
        else if a.active then Returned(Opened(s, k), id)
        else Returned(Unsubscribed(Opened(s, k), k.socket), id)
      case FreshRead =>
        if a.Row? && !a.active then Returned(Unsubscribed(s, k.socket), id) else Returned(s, id)
      case AppRead =>
        if a.Found? then Waiting(s, id, k, ServerRead) else Returned(s, id)
      case ServerRead =>
        if a.Found? then Waiting(s, id, k, if a.service then ServiceRead else ContainerRead) else Returned(s, id)
      case ServiceRead =>
        if a.Found? then Returned(Opened(s, k), id) else Waiting(s, id, k, ContainerRead)
      case ContainerRead =>
        if a.Found? then Returned(Opened(s, k), id) else Returned(s, id)
  }

  /** A stream ends by itself, or an aborted one reports its end late. */
  function Ended(s: State, r: Resource): State {
    var closed := s.(open := s.open - {r});
    if IsStale(s, r.socket, r.generation) then closed
    else closed.(subscriptions := s.subscriptions - {r.socket})
  }

  function Next(s: State, e: Event): State {
    match e
    case SubscribeDeployment(c) => Subscribing(s, c, RowRead)
    case SubscribeContainer(c) => Subscribing(s, c, AppRead)
    case Unsubscribe(c) => Unsubscribed(s, c)
    case Disconnect(c) => Disconnected(s, c)
    case Resume(id, a) => if id in s.calls then Resumed(s, id, a) else s
    case StreamEnd(r) => Ended(s, r)
  }

  /** A socket sends nothing after its disconnect; only existing streams end. */
  ghost predicate Possible(s: State, e: Event) {
    match e
    case Resume(_, _) => true
    case StreamEnd(r) => r in s.ever
    case _ => e.socket !in s.gone
  }

  // ---- runs ------------------------------------------------------------------

  ghost function Run(s: State, events: seq<Event>): State
    decreases |events|
  {
    if events == [] then s else Run(Next(s, events[0]), events[1..])
  }

  ghost predicate PossibleRun(s: State, events: seq<Event>)
    decreases |events|
  {
    events == [] || (Possible(s, events[0]) && PossibleRun(Next(s, events[0]), events[1..]))
  }

  // ---- the invariant -----------------------------------------------------------

  /** What is open is what the subscriptions hold, one resource per socket. */
  ghost predicate ExactlyHeld(s: State) {
    && (forall c | c in s.subscriptions :: s.subscriptions[c] in s.open)
    && (forall r | r in s.open :: r.socket in s.subscriptions && s.subscriptions[r.socket] == r)
  }

  ghost predicate CurrentSubscriptions(s: State) {
    forall c | c in s.subscriptions ::
      var r := s.subscriptions[c];
      r.socket == c && r in s.ever && !IsStale(s, c, r.generation)
  }

  /** A generation is never ahead of its socket's counter. */
  ghost predicate NotAhead(s: State, c: Socket, generation: nat) {
    if c in s.generations then generation <= s.generations[c] else c in s.gone
  }

  ghost predicate Resources(s: State) {
    && (forall r | r in s.ever :: r.id < s.next && NotAhead(s, r.socket, r.generation))
    && (forall r, q | r in s.ever && q in s.ever && r.socket == q.socket && r.generation == q.generation :: r == q)
  }

  ghost predicate Calls(s: State) {
    && (forall i | i in s.calls :: i < s.next && NotAhead(s, s.calls[i].socket, s.calls[i].generation))
    && (forall i, j | i in s.calls && j in s.calls && s.calls[i].socket == s.calls[j].socket
                      && s.calls[i].generation == s.calls[j].generation :: i == j)
  }

  /** A call that has not opened anything yet is alone with its generation. */
  ghost predicate Unopened(s: State) {
    forall i, r | i in s.calls && s.calls[i].stage != FreshRead && r in s.ever && r.socket == s.calls[i].socket ::
      r.generation != s.calls[i].generation
  }

  ghost predicate Inv(s: State) {
    && ExactlyHeld(s) && CurrentSubscriptions(s) && Resources(s) && Calls(s) && Unopened(s)
    && forall c | c in s.gone :: c !in s.generations
  }

  lemma UnsubscribedInv(s: State, c: Socket)
    requires Inv(s) && c !in s.gone
    ensures Inv(Unsubscribed(s, c))
    ensures c !in Unsubscribed(s, c).subscriptions
  {
  }

  lemma SubscribingInv(s: State, c: Socket, stage: Stage)
    requires Inv(s) && c !in s.gone && stage != FreshRead
    ensures Inv(Subscribing(s, c, stage))
  {
    UnsubscribedInv(s, c);
  }

  lemma DisconnectedInv(s: State, c: Socket)
    requires Inv(s) && c !in s.gone
    ensures Inv(Disconnected(s, c))
  {
    UnsubscribedInv(s, c);
  }

  lemma ReturnedInv(s: State, id: nat)
    requires Inv(s) && id in s.calls
    ensures Inv(Returned(s, id))
  {
  }

  lemma WaitingInv(s: State, id: nat, stage: Stage)
    requires Inv(s) && id in s.calls && (s.calls[id].stage == FreshRead ==> stage == FreshRead)
    ensures Inv(Waiting(s, id, s.calls[id], stage))
  {
    var t := Waiting(s, id, s.calls[id], stage);
    assert forall i | i in t.calls :: i in s.calls && t.calls[i].socket == s.calls[i].socket
                                      && t.calls[i].generation == s.calls[i].generation;
  }

  /** Opening is safe for a fresh call: its socket holds nothing. */
  lemma OpenedInv(s: State, id: nat)
    requires Inv(s) && id in s.calls && s.calls[id].stage != FreshRead
    requires !IsStale(s, s.calls[id].socket, s.calls[id].generation)
    ensures Inv(Waiting(Opened(s, s.calls[id]), id, s.calls[id], FreshRead))
  {
    var k := s.calls[id];
    assert k.socket !in s.subscriptions;
    var t := Waiting(s, id, k, FreshRead);
    WaitingInv(s, id, FreshRead);
    OpenedHeld(t, k);
    OpenedResources(t, k);
    OpenedCalls(t, id, k);
    assert Opened(t, k) == Waiting(Opened(s, k), id, k, FreshRead);
  }

  lemma OpenedHeld(s: State, k: Call)
    requires ExactlyHeld(s) && CurrentSubscriptions(s)
    requires k.socket !in s.subscriptions && !IsStale(s, k.socket, k.generation)
    ensures ExactlyHeld(Opened(s, k)) && CurrentSubscriptions(Opened(s, k))
  {
  }

  lemma OpenedResources(s: State, k: Call)
    requires Resources(s) && NotAhead(s, k.socket, k.generation)
    requires forall r | r in s.ever && r.socket == k.socket :: r.generation != k.generation
    ensures Resources(Opened(s, k))
  {
  }

  lemma OpenedCalls(s: State, id: nat, k: Call)
    requires Calls(s) && Unopened(s) && id in s.calls && s.calls[id] == k.(stage := FreshRead)
    ensures Calls(Opened(s, k)) && Unopened(Opened(s, k))
  {
  }

  /** Opening and returning is opening, waiting and then returning. */
  lemma OpenedShapes(s: State, id: nat)
    requires id in s.calls
    ensures var k := s.calls[id];
            var w := Waiting(Opened(s, k), id, k, FreshRead);
            && Returned(w, id) == Returned(Opened(s, k), id)
            && Returned(Unsubscribed(Opened(s, k), k.socket), id) == Unsubscribed(Returned(w, id), k.socket)
  {
    var k := s.calls[id];
    assert s.calls[id := k.(stage := FreshRead)] - {id} == s.calls - {id};
  }

  lemma CurrentIsHere(s: State, c: Socket, generation: nat)
    requires Inv(s) && !IsStale(s, c, generation)
    ensures c !in s.gone
  {
  }

  lemma OpenedReturnedInv(s: State, id: nat)
    requires Inv(s) && id in s.calls && s.calls[id].stage != FreshRead
    requires !IsStale(s, s.calls[id].socket, s.calls[id].generation)
    ensures Inv(Returned(Opened(s, s.calls[id]), id))
    ensures Inv(Returned(Unsubscribed(Opened(s, s.calls[id]), s.calls[id].socket), id))
  {
    var k := s.calls[id];
    var w := Waiting(Opened(s, k), id, k, FreshRead);
    CurrentIsHere(s, k.socket, k.generation);
    OpenedInv(s, id);
    ReturnedInv(w, id);
    OpenedShapes(s, id);
    assert Returned(w, id).gone == s.gone;
    UnsubscribedInv(Returned(w, id), k.socket);
  }

  lemma FreshInv(s: State, id: nat)
    requires Inv(s) && id in s.calls && s.calls[id].socket !in s.gone
    ensures Inv(Returned(Unsubscribed(s, s.calls[id].socket), id))
  {
    var c := s.calls[id].socket;
    ReturnedInv(s, id);
    UnsubscribedInv(Returned(s, id), c);
    assert Returned(Unsubscribed(s, c), id) == Unsubscribed(Returned(s, id), c);
  }

  lemma ResumedInv(s: State, id: nat, a: Answer)
    requires Inv(s) && id in s.calls
    ensures Inv(Resumed(s, id, a))
  {
    var k := s.calls[id];
    ReturnedInv(s, id);
    if !a.Failed? && !IsStale(s, k.socket, k.generation) {
      if k.stage == FreshRead {
        FreshInv(s, id);
      } else {
        OpenedInv(s, id);
        OpenedReturnedInv(s, id);
        WaitingInv(s, id, ServerRead);
        WaitingInv(s, id, ServiceRead);
        WaitingInv(s, id, ContainerRead);
        ResumedCases(s, id, a);
      }
    }
  }

  /** The states a call that has opened nothing can resume to. */
  lemma ResumedCases(s: State, id: nat, a: Answer)
    requires id in s.calls && s.calls[id].stage != FreshRead
    ensures var k, t := s.calls[id], Resumed(s, id, a);
            || t == Returned(s, id)
            || t == Waiting(Opened(s, k), id, k, FreshRead)
            || t == Returned(Opened(s, k), id)
            || t == Returned(Unsubscribed(Opened(s, k), k.socket), id)
            || t == Waiting(s, id, k, ServerRead)
            || t == Waiting(s, id, k, ServiceRead)
            || t == Waiting(s, id, k, ContainerRead)
  {
  }

  lemma EndedInv(s: State, r: Resource)
    requires Inv(s) && r in s.ever
    ensures Inv(Ended(s, r))
  {
    if !IsStale(s, r.socket, r.generation) && r.socket in s.subscriptions {
      assert s.subscriptions[r.socket] == r;
    }
  }

  lemma NextInv(s: State, e: Event)
    requires Inv(s) && Possible(s, e)
    ensures Inv(Next(s, e)) && s.gone <= Next(s, e).gone
  {
    match e
    case SubscribeDeployment(c) => SubscribingInv(s, c, RowRead);
    case SubscribeContainer(c) => SubscribingInv(s, c, AppRead);
    case Unsubscribe(c) => UnsubscribedInv(s, c);
    case Disconnect(c) => DisconnectedInv(s, c);
    case Resume(id, a) => if id in s.calls { ResumedInv(s, id, a); }
    case StreamEnd(r) => EndedInv(s, r);
  }

  lemma {:induction false} RunInv(s: State, events: seq<Event>)
    requires Inv(s) && PossibleRun(s, events)
    ensures Inv(Run(s, events)) && s.gone <= Run(s, events).gone
    decreases |events|
  {
    if events != [] {
      NextInv(s, events[0]);
      RunInv(Next(s, events[0]), events[1..]);
    }
  }

  // ---- what holds in every interleaving ------------------------------------------

  /**
   Nothing leaks: whatever the interleaving, what is open is what the
   subscriptions hold, and no socket has two things open.
   */
  lemma NothingLeaks(events: seq<Event>)
    requires PossibleRun(INITIAL, events)
    ensures var s := Run(INITIAL, events);
            && (forall r :: r in s.open <==> r.socket in s.subscriptions && s.subscriptions[r.socket] == r)
            && (forall r, q | r in s.open && q in s.open && r.socket == q.socket :: r == q)
  {
    RunInv(INITIAL, events);
  }

  /**
   Of two subscribe calls in flight for one socket at least one has been
   overtaken, and whatever it is resumed with, it changes nothing.
   */
  lemma OneCurrentCall(events: seq<Event>, i: nat, j: nat) returns (overtaken: nat)
    requires PossibleRun(INITIAL, events)
    requires var s := Run(INITIAL, events);
             i in s.calls && j in s.calls && i != j && s.calls[i].socket == s.calls[j].socket
    ensures var s := Run(INITIAL, events);
            && overtaken in {i, j}
            && IsStale(s, s.calls[overtaken].socket, s.calls[overtaken].generation)
            && forall a: Answer :: Next(s, Resume(overtaken, a)).open == s.open
                                   && Next(s, Resume(overtaken, a)).subscriptions == s.subscriptions
  {
    RunInv(INITIAL, events);
    var s := Run(INITIAL, events);
    overtaken := if IsStale(s, s.calls[i].socket, s.calls[i].generation) then i else j;
    forall a: Answer ensures Next(s, Resume(overtaken, a)).open == s.open
      ensures Next(s, Resume(overtaken, a)).subscriptions == s.subscriptions
    {
      StaleChangesNothing(s, overtaken, a);
    }
  }

  lemma StaleChangesNothing(s: State, k: nat, a: Answer)
    requires k in s.calls && IsStale(s, s.calls[k].socket, s.calls[k].generation)
    ensures Next(s, Resume(k, a)).open == s.open && Next(s, Resume(k, a)).subscriptions == s.subscriptions
  {
  }

  /**
   A call that was not overtaken does subscribe its socket, to something new
   that is open, exactly when the deployment it read is still active.
   */
  lemma CurrentSubscribeOpens(events: seq<Event>, id: nat, active: bool, live: bool)
    requires PossibleRun(INITIAL, events)
    requires var s := Run(INITIAL, events);
             id in s.calls && s.calls[id].stage == RowRead && !IsStale(s, s.calls[id].socket, s.calls[id].generation)
    ensures var s := Run(INITIAL, events);
            var c, t := s.calls[id].socket, Next(s, Resume(id, Row(active, live)));
            && (c in t.subscriptions <==> active)
            && (active ==> t.subscriptions[c] in t.open && t.subscriptions[c] !in s.ever)
            && (forall r: Resource | r.socket != c :: r in t.open <==> r in s.open)
  {
    var s := Run(INITIAL, events);
    RunInv(INITIAL, events);
    var k := s.calls[id];
    var o := Opened(s, k);
    assert o.subscriptions[k.socket] == Resource(s.next, k.socket, k.generation);
  }

  /**
   A container call that was not overtaken subscribes its socket, to something
   new that is open, exactly when the service or container it waits for is found.
   */
  lemma CurrentContainerOpens(events: seq<Event>, id: nat, a: Answer)
    requires PossibleRun(INITIAL, events)
    requires var s := Run(INITIAL, events);
             && id in s.calls && s.calls[id].stage in {ServiceRead, ContainerRead}
             && !IsStale(s, s.calls[id].socket, s.calls[id].generation)
    ensures var s := Run(INITIAL, events);
            var c, t := s.calls[id].socket, Next(s, Resume(id, a));
            && (c in t.subscriptions <==> a.Found?)
            && (a.Found? ==> t.subscriptions[c] in t.open && t.subscriptions[c] !in s.ever)
            && (forall r: Resource | r.socket != c :: r in t.open <==> r in s.open)
  {
    var s := Run(INITIAL, events);
    RunInv(INITIAL, events);
    NothingHeldYet(s, id);
    LastContainerRead(s, id, a);
    OpenedIsNew(s, s.calls[id]);
  }

  lemma LastContainerRead(s: State, id: nat, a: Answer)
    requires id in s.calls && s.calls[id].stage in {ServiceRead, ContainerRead}
    requires !IsStale(s, s.calls[id].socket, s.calls[id].generation)
    ensures var t := Resumed(s, id, a);
            if a.Found? then t == Returned(Opened(s, s.calls[id]), id)
            else t.subscriptions == s.subscriptions && t.open == s.open
  {
  }

  lemma OpenedIsNew(s: State, k: Call)
    requires Resources(s)
    ensures var o := Opened(s, k);
            && k.socket in o.subscriptions && o.subscriptions[k.socket] in o.open && o.subscriptions[k.socket] !in s.ever
            && (forall r: Resource | r.socket != k.socket :: r in o.open <==> r in s.open)
  {
  }

  lemma NothingHeldYet(s: State, id: nat)
    requires Inv(s) && id in s.calls && s.calls[id].stage != FreshRead
    requires !IsStale(s, s.calls[id].socket, s.calls[id].generation)
    ensures s.calls[id].socket !in s.subscriptions
  {
  }

  lemma {:induction false} RunAppend(s: State, before: seq<Event>, after: seq<Event>)
    requires PossibleRun(s, before + after)
    ensures PossibleRun(s, before) && PossibleRun(Run(s, before), after)
    ensures Run(s, before + after) == Run(Run(s, before), after)
    decreases |before|
  {
    if before == [] {
      assert before + after == after;
    } else {
      assert (before + after)[1..] == before[1..] + after;
      RunAppend(Next(s, before[0]), before[1..], after);
    }
  }

  // ---- what becomes of a call that is not overtaken -------------------------------

  /** The answers a call is resumed with, in order. */
  function AnswersTo(events: seq<Event>, id: nat): seq<Answer> {
    if events == [] then []
    else (if events[0].Resume? && events[0].call == id then [events[0].answer] else []) + AnswersTo(events[1..], id)
  }

  /** A message or the disconnect of the socket, or the end of one of its streams. */
  predicate Concerns(e: Event, c: Socket) {
    match e
    case Resume(_, _) => false
    case StreamEnd(r) => r.socket == c
    case _ => e.socket == c
  }

  /**
   Application and server were found, and then the service, or else the
   container: at once for an application without a service, behind the service
   that was looked for in vain otherwise.
   */
  predicate ContainerOpens(answers: seq<Answer>) {
    && |answers| >= 3 && answers[0].Found? && answers[1].Found?
    && (answers[2].Found?
        || (answers[1].service && !answers[2].Failed? && |answers| >= 4 && answers[3].Found?))
  }

  /** Nothing was missing so far, and there is more to be read. */
  predicate ContainerWaits(answers: seq<Answer>) {
    && |answers| <= 3 && (forall k | 0 <= k < |answers| && k < 2 :: answers[k].Found?)
    && (|answers| == 3 ==> answers[1].service && !answers[2].Found? && !answers[2].Failed?)
  }

  /** The row was found active; if it had to be read again it was not terminal then. */
  predicate DeploymentOpens(answers: seq<Answer>) {
    && |answers| >= 1 && answers[0].Row? && answers[0].active
    && (answers[0].live || |answers| == 1 || !answers[1].Row? || answers[1].active)
  }

  predicate DeploymentWaits(answers: seq<Answer>) {
    answers == [] || (|answers| == 1 && answers[0].Row? && answers[0].active && !answers[0].live)
  }

  /** Where a call is. */
  datatype Progress = At(stage: Stage) | Over(subscribed: bool)

  function Advance(p: Progress, a: Answer): Progress {
    if p.Over? then p
    else match p.stage
      case RowRead =>
        if !a.Row? || !a.active then Over(false) else if a.live then Over(true) else At(FreshRead)
      case FreshRead => Over(!a.Row? || a.active)
      case AppRead => if a.Found? then At(ServerRead) else Over(false)
      case ServerRead => if !a.Found? then Over(false) else At(if a.service then ServiceRead else ContainerRead)
      case ServiceRead => if a.Found? then Over(true) else if a.Failed? then Over(false) else At(ContainerRead)
      case ContainerRead => Over(a.Found?)
  }

  function Advanced(p: Progress, answers: seq<Answer>): Progress
    decreases |answers|
  {
    if answers == [] then p else Advanced(Advance(p, answers[0]), answers[1..])
  }

  /** The call is where `p` says, its socket is subscribed accordingly, and to nothing of before. */
  ghost predicate Follows(s: State, id: nat, c: Socket, g: nat, p: Progress, before: set<Resource>) {
    && Inv(s) && before <= s.ever && id < s.next && (p == Over(false) || !IsStale(s, c, g))
    && (forall j | j in s.calls && j != id && s.calls[j].socket == c :: IsStale(s, c, s.calls[j].generation))
    && (c in s.subscriptions <==> p == At(FreshRead) || p == Over(true))
    && (c in s.subscriptions ==> s.subscriptions[c] !in before)
    && match p
       case At(stage) => id in s.calls && s.calls[id] == Call(c, g, stage)
       case Over(_) => id !in s.calls
  }

  /** What concerns the call and its socket is the same in both states. */
  ghost predicate SameFor(s: State, t: State, id: nat, c: Socket) {
    && (c in s.subscriptions <==> c in t.subscriptions)
    && (c in s.subscriptions ==> s.subscriptions[c] == t.subscriptions[c])
    && (c in s.generations <==> c in t.generations)
    && (c in s.generations ==> s.generations[c] == t.generations[c])
    && (id in s.calls <==> id in t.calls) && (id in s.calls ==> s.calls[id] == t.calls[id])
    && s.ever <= t.ever && s.next <= t.next
    && (forall j | j in t.calls && t.calls[j].socket == c :: j in s.calls && s.calls[j].socket == c
                                                             && s.calls[j].generation == t.calls[j].generation)
  }

  lemma SameForTrans(s: State, t: State, u: State, id: nat, c: Socket)
    requires SameFor(s, t, id, c) && SameFor(t, u, id, c)
    ensures SameFor(s, u, id, c)
  {
  }

  lemma UnsubscribedSame(s: State, d: Socket, id: nat, c: Socket)
    requires c != d
    ensures SameFor(s, Unsubscribed(s, d), id, c)
  {
  }

  lemma SubscribingSame(s: State, d: Socket, stage: Stage, id: nat, c: Socket)
    requires c != d && id < s.next
    ensures SameFor(s, Subscribing(s, d, stage), id, c)
  {
    UnsubscribedSame(s, d, id, c);
  }

  lemma OpenedSame(s: State, k: Call, id: nat, c: Socket)
    requires c != k.socket
    ensures SameFor(s, Opened(s, k), id, c)
  {
  }

  lemma SuspendedSame(s: State, j: nat, k: Call, stage: Stage, id: nat, c: Socket)
    requires j != id
    ensures SameFor(s, Returned(s, j), id, c)
    ensures c != k.socket ==> SameFor(s, Waiting(s, j, k, stage), id, c)
  {
  }

  lemma ResumedSame(s: State, j: nat, a: Answer, id: nat, c: Socket)
    requires j in s.calls && j != id
    requires s.calls[j].socket == c ==> IsStale(s, c, s.calls[j].generation)
    ensures SameFor(s, Resumed(s, j, a), id, c)
  {
    var k := s.calls[j];
    SuspendedSame(s, j, k, ServerRead, id, c);
    if k.socket != c && !a.Failed? && !IsStale(s, k.socket, k.generation) {
      SuspendedSame(s, j, k, ServiceRead, id, c);
      SuspendedSame(s, j, k, ContainerRead, id, c);
      var o := Opened(s, k);
      OpenedSame(s, k, id, c);
      SuspendedSame(o, j, k, FreshRead, id, c);
      SameForTrans(s, o, Waiting(o, j, k, FreshRead), id, c);
      SameForTrans(s, o, Returned(o, j), id, c);
      UnsubscribedReturnedSame(o, k.socket, j, id, c);
      SameForTrans(s, o, Returned(Unsubscribed(o, k.socket), j), id, c);
      UnsubscribedReturnedSame(s, k.socket, j, id, c);
      ResumedShapes(s, j, a);
    }
  }

  lemma UnsubscribedReturnedSame(s: State, d: Socket, j: nat, id: nat, c: Socket)
    requires c != d && j != id
    ensures SameFor(s, Returned(Unsubscribed(s, d), j), id, c)
  {
    var u := Unsubscribed(s, d);
    UnsubscribedSame(s, d, id, c);
    SuspendedSame(u, j, Call(d, 0, RowRead), RowRead, id, c);
    SameForTrans(s, u, Returned(u, j), id, c);
  }

  lemma ResumedShapes(s: State, id: nat, a: Answer)
    requires id in s.calls
    ensures var k, t := s.calls[id], Resumed(s, id, a);
            || t == Returned(s, id)
            || t == Returned(Unsubscribed(s, k.socket), id)
            || t == Waiting(Opened(s, k), id, k, FreshRead)
            || t == Returned(Opened(s, k), id)
            || t == Returned(Unsubscribed(Opened(s, k), k.socket), id)
            || t == Waiting(s, id, k, ServerRead)
            || t == Waiting(s, id, k, ServiceRead)
            || t == Waiting(s, id, k, ContainerRead)
  {
  }

  lemma OthersSame(s: State, e: Event, id: nat, c: Socket)
    requires Possible(s, e) && !Concerns(e, c) && id < s.next
    requires e.Resume? ==> e.call != id
    requires forall j | j in s.calls && j != id && s.calls[j].socket == c :: IsStale(s, c, s.calls[j].generation)
    ensures SameFor(s, Next(s, e), id, c)
  {
    match e
    case SubscribeDeployment(d) => SubscribingSame(s, d, RowRead, id, c);
    case SubscribeContainer(d) => SubscribingSame(s, d, AppRead, id, c);
    case Unsubscribe(d) => UnsubscribedSame(s, d, id, c);
    case Disconnect(d) => UnsubscribedSame(s, d, id, c);
    case Resume(j, a) => if j in s.calls { ResumedSame(s, j, a, id, c); }
    case StreamEnd(r) =>
  }

  lemma OthersLeaveIt(s: State, e: Event, id: nat, c: Socket, g: nat, p: Progress, before: set<Resource>)
    requires Follows(s, id, c, g, p, before) && Possible(s, e) && !Concerns(e, c)
    requires e.Resume? ==> e.call != id
    ensures Follows(Next(s, e), id, c, g, p, before)
  {
    NextInv(s, e);
    OthersSame(s, e, id, c);
    SameFollows(s, Next(s, e), id, c, g, p, before);
  }

  lemma SameFollows(s: State, t: State, id: nat, c: Socket, g: nat, p: Progress, before: set<Resource>)
    requires Follows(s, id, c, g, p, before) && Inv(t) && SameFor(s, t, id, c)
    ensures Follows(t, id, c, g, p, before)
  {
  }

  /** A current call moves on by its answer, opens, or ends. */
  lemma AnswerMoves(s: State, id: nat, a: Answer)
    requires id in s.calls && !IsStale(s, s.calls[id].socket, s.calls[id].generation)
    ensures var k, t := s.calls[id], Resumed(s, id, a);
            match Advance(At(k.stage), a)
            case At(stage) => t == Waiting(if stage == FreshRead then Opened(s, k) else s, id, k, stage)
            case Over(subscribed) =>
              if subscribed then t == Returned(if k.stage == FreshRead then s else Opened(s, k), id)
              else t == Returned(s, id)
                   || t == Returned(Unsubscribed(s, k.socket), id)
                   || t == Returned(Unsubscribed(Opened(s, k), k.socket), id)
  {
  }

  lemma OpenedFollows(s: State, id: nat, c: Socket, g: nat, before: set<Resource>, k: Call)
    requires Follows(s, id, c, g, At(k.stage), before) && k == s.calls[id]
    ensures var o := Opened(s, k);
            && c in o.subscriptions && o.subscriptions[c] !in before && before <= o.ever && s.next <= o.next
            && o.generations == s.generations && o.calls == s.calls
  {
    assert forall r | r in s.ever :: r.id < s.next;
  }

  /** The counter that `unsubscribe` sets is ahead of every call of the socket. */
  lemma UnsubscribedStale(s: State, c: Socket, j: nat)
    requires Calls(s) && j in s.calls && s.calls[j].socket == c && c !in s.gone
    ensures IsStale(Unsubscribed(s, c), c, s.calls[j].generation)
  {
    assert NotAhead(s, c, s.calls[j].generation);
  }

  /** An answer to the call itself. */
  lemma ItsAnswerAdvances(s: State, id: nat, c: Socket, g: nat, p: Progress, before: set<Resource>, a: Answer)
    requires Follows(s, id, c, g, p, before)
    ensures Follows(Next(s, Resume(id, a)), id, c, g, Advance(p, a), before)
  {
    NextInv(s, Resume(id, a));
    if p.At? {
      var k := s.calls[id];
      AnswerMoves(s, id, a);
      OpenedFollows(s, id, c, g, before, k);
      CurrentIsHere(s, c, g);
      forall j | j in s.calls && s.calls[j].socket == c
        ensures IsStale(Unsubscribed(s, c), c, s.calls[j].generation)
        ensures IsStale(Unsubscribed(Opened(s, k), c), c, s.calls[j].generation)
      {
        UnsubscribedStale(s, c, j);
      }
    }
  }

  lemma AnswersCons(e: Event, events: seq<Event>, id: nat, p: Progress)
    requires events != [] && events[0] == e
    ensures var rest := AnswersTo(events[1..], id);
            Advanced(p, AnswersTo(events, id)) ==
            if e.Resume? && e.call == id then Advanced(Advance(p, e.answer), rest) else Advanced(p, rest)
  {
    var rest := AnswersTo(events[1..], id);
    if e.Resume? && e.call == id {
      assert ([e.answer] + rest)[1..] == rest;
    } else {
      assert [] + rest == rest;
    }
  }

  lemma {:induction false} RunFollows(s: State, events: seq<Event>, id: nat, c: Socket, g: nat, p: Progress, before: set<Resource>)
    requires Follows(s, id, c, g, p, before) && PossibleRun(s, events)
    requires forall k | 0 <= k < |events| :: !Concerns(events[k], c)
    ensures Follows(Run(s, events), id, c, g, Advanced(p, AnswersTo(events, id)), before)
    decreases |events|
  {
    if events != [] {
      var e := events[0];
      AnswersCons(e, events, id, p);
      if e.Resume? && e.call == id {
        ItsAnswerAdvances(s, id, c, g, p, before, e.answer);
        RunFollows(Next(s, e), events[1..], id, c, g, Advance(p, e.answer), before);
      } else {
        OthersLeaveIt(s, e, id, c, g, p, before);
        RunFollows(Next(s, e), events[1..], id, c, g, p, before);
      }
    }
  }

  lemma SubscribingFollows(s: State, c: Socket, stage: Stage)
    requires Inv(s) && c !in s.gone && stage in {RowRead, AppRead}
    ensures var t := Subscribing(s, c, stage);
            Follows(t, s.next, c, Generation(t, c), At(stage), s.ever)
  {
    SubscribingInv(s, c, stage);
  }

  lemma {:induction false} EndedStays(subscribed: bool, answers: seq<Answer>)
    ensures Advanced(Over(subscribed), answers) == Over(subscribed)
  {
    if answers != [] { EndedStays(subscribed, answers[1..]); }
  }

  lemma AdvancedOne(p: Progress, answers: seq<Answer>)
    ensures Advanced(p, answers) == if answers == [] then p else Advanced(Advance(p, answers[0]), answers[1..])
  {
  }

  /** The first four answers decide. */
  lemma FourAnswers(p: Progress, a: seq<Answer>)
    ensures |a| >= 1 ==> Advanced(p, a) == Advanced(Advance(p, a[0]), a[1..])
    ensures |a| >= 2 ==> Advanced(p, a) == Advanced(Advance(Advance(p, a[0]), a[1]), a[2..])
    ensures |a| >= 3 ==> Advanced(p, a) == Advanced(Advance(Advance(Advance(p, a[0]), a[1]), a[2]), a[3..])
    ensures |a| >= 4 ==> Advanced(p, a) == Advanced(Advance(Advance(Advance(Advance(p, a[0]), a[1]), a[2]), a[3]), a[4..])
  {
    AdvancedOne(p, a);
    if |a| >= 2 { AdvancedOne(Advance(p, a[0]), a[1..]); assert a[1..][1..] == a[2..]; }
    if |a| >= 3 { AdvancedOne(Advance(Advance(p, a[0]), a[1]), a[2..]); assert a[2..][1..] == a[3..]; }
    if |a| >= 4 { AdvancedOne(Advance(Advance(Advance(p, a[0]), a[1]), a[2]), a[3..]); assert a[3..][1..] == a[4..]; }
  }

  lemma ContainerProgress(answers: seq<Answer>)
    ensures var p := Advanced(At(AppRead), answers);
            && (p.At? <==> ContainerWaits(answers)) && (p == Over(true) <==> ContainerOpens(answers))
            && p != At(FreshRead)
  {
    FourAnswers(At(AppRead), answers);
    forall b: bool, k: nat | k <= |answers| ensures Advanced(Over(b), answers[k..]) == Over(b) { EndedStays(b, answers[k..]); }
  }

  lemma DeploymentProgress(answers: seq<Answer>)
    ensures var p := Advanced(At(RowRead), answers);
            && (p.At? <==> DeploymentWaits(answers))
            && (p == Over(true) || p == At(FreshRead) <==> DeploymentOpens(answers))
  {
    FourAnswers(At(RowRead), answers);
    forall b: bool, k: nat | k <= |answers| ensures Advanced(Over(b), answers[k..]) == Over(b) { EndedStays(b, answers[k..]); }
  }

  /**
   Whatever else goes on, a container call whose socket sends nothing further
   ends subscribed, to something new that is open, exactly when service or
   container was found; without a subscription it ends only because something
   was missing or failed.
   */
  lemma ContainerCallEnds(before: seq<Event>, c: Socket, after: seq<Event>)
    requires PossibleRun(INITIAL, before + ([SubscribeContainer(c)] + after))
    requires forall k | 0 <= k < |after| :: !Concerns(after[k], c)
    ensures var s, t := Run(INITIAL, before), Run(INITIAL, before + ([SubscribeContainer(c)] + after));
            var answers := AnswersTo(after, s.next);
            && (s.next in t.calls <==> ContainerWaits(answers))
            && (c in t.subscriptions <==> ContainerOpens(answers))
            && (c in t.subscriptions ==> t.subscriptions[c] in t.open && t.subscriptions[c] !in s.ever)
  {
    var s, u := Run(INITIAL, before), [SubscribeContainer(c)] + after;
    RunAppend(INITIAL, before, u);
    RunInv(INITIAL, before);
    assert u[1..] == after;
    var t := Subscribing(s, c, AppRead);
    SubscribingFollows(s, c, AppRead);
    RunFollows(t, after, s.next, c, Generation(t, c), At(AppRead), s.ever);
    ContainerProgress(AnswersTo(after, s.next));
  }

  /**
   The same for a deployment call: its socket ends subscribed exactly when the
   row was active, and not found finished by the second read it may take.
   */
  lemma DeploymentCallEnds(before: seq<Event>, c: Socket, after: seq<Event>)
    requires PossibleRun(INITIAL, before + ([SubscribeDeployment(c)] + after))
    requires forall k | 0 <= k < |after| :: !Concerns(after[k], c)
    ensures var s, t := Run(INITIAL, before), Run(INITIAL, before + ([SubscribeDeployment(c)] + after));
            var answers := AnswersTo(after, s.next);
            && (s.next in t.calls <==> DeploymentWaits(answers))
            && (c in t.subscriptions <==> DeploymentOpens(answers))
            && (c in t.subscriptions ==> t.subscriptions[c] in t.open && t.subscriptions[c] !in s.ever)
  {
    var s, u := Run(INITIAL, before), [SubscribeDeployment(c)] + after;
    RunAppend(INITIAL, before, u);
    RunInv(INITIAL, before);
    assert u[1..] == after;
    var t := Subscribing(s, c, RowRead);
    SubscribingFollows(s, c, RowRead);
    RunFollows(t, after, s.next, c, Generation(t, c), At(RowRead), s.ever);
    DeploymentProgress(AnswersTo(after, s.next));
  }

  lemma {:induction false} StaysClosed(s: State, events: seq<Event>, r: Resource)
    requires Inv(s) && PossibleRun(s, events) && r in s.ever && r !in s.open
    ensures r !in Run(s, events).open
    decreases |events|
  {
    if events != [] {
      NextInv(s, events[0]);
      NextKeepsClosed(s, events[0], r);
      StaysClosed(Next(s, events[0]), events[1..], r);
    }
  }

  lemma NextKeepsClosed(s: State, e: Event, r: Resource)
    requires Inv(s) && r in s.ever && r !in s.open
    ensures r in Next(s, e).ever && r !in Next(s, e).open
  {
  }

  lemma EndedMeans(s: State, r: Resource)
    requires Inv(s) && r in s.ever
    ensures var t := Next(s, StreamEnd(r));
            && t.open == s.open - {r} && t.ever == s.ever
            && t.subscriptions == if r in s.open then s.subscriptions - {r.socket} else s.subscriptions
  {
  }

  /**
   A stream that ends is closed for good, with its subscription; whatever the
   socket subscribed to since stays as it is.
   */
  lemma StreamEndCloses(before: seq<Event>, r: Resource, after: seq<Event>)
    requires PossibleRun(INITIAL, before + ([StreamEnd(r)] + after))
    ensures var s, t := Run(INITIAL, before), Run(INITIAL, before + ([StreamEnd(r)] + after));
            && (forall c | c in t.subscriptions :: t.subscriptions[c] != r) && r !in t.open
            && Next(s, StreamEnd(r)).open == s.open - {r}
            && Next(s, StreamEnd(r)).subscriptions == if r in s.open then s.subscriptions - {r.socket} else s.subscriptions
  {
    var s, u := Run(INITIAL, before), [StreamEnd(r)] + after;
    RunAppend(INITIAL, before, u);
    RunInv(INITIAL, before);
    assert u[1..] == after;
    EndedMeans(s, r);
    NextInv(s, StreamEnd(r));
    StaysClosed(Next(s, StreamEnd(r)), after, r);
    RunInv(INITIAL, before + u);
  }

  /** No subscription, and every call in flight overtaken. */
  ghost predicate Quiet(s: State, c: Socket) {
    c !in s.subscriptions && forall i | i in s.calls && s.calls[i].socket == c :: IsStale(s, c, s.calls[i].generation)
  }

  predicate Subscribes(e: Event, c: Socket) {
    e == SubscribeDeployment(c) || e == SubscribeContainer(c)
  }

  lemma UnsubscribedIsQuiet(s: State, c: Socket)
    requires Inv(s) && c !in s.gone
    ensures Quiet(Next(s, Unsubscribe(c)), c)
  {
    forall i | i in s.calls && s.calls[i].socket == c ensures NotAhead(s, c, s.calls[i].generation) { }
  }

  lemma QuietNext(s: State, e: Event, c: Socket)
    requires Inv(s) && Possible(s, e) && Quiet(s, c) && !Subscribes(e, c)
    ensures Quiet(Next(s, e), c)
  {
    forall i | i in s.calls && s.calls[i].socket == c ensures NotAhead(s, c, s.calls[i].generation) { }
  }

  lemma {:induction false} QuietRun(s: State, events: seq<Event>, c: Socket)
    requires Inv(s) && PossibleRun(s, events) && Quiet(s, c)
    requires forall k | 0 <= k < |events| :: !Subscribes(events[k], c)
    ensures Quiet(Run(s, events), c)
    decreases |events|
  {
    if events != [] {
      NextInv(s, events[0]);
      QuietNext(s, events[0], c);
      QuietRun(Next(s, events[0]), events[1..], c);
    }
  }

  /** After an unsubscribe nothing of the socket is open until it subscribes again, whatever is still in flight. */
  lemma UnsubscribeCloses(before: seq<Event>, c: Socket, after: seq<Event>)
    requires PossibleRun(INITIAL, before + ([Unsubscribe(c)] + after))
    requires forall k | 0 <= k < |after| :: !Subscribes(after[k], c)
    ensures var s := Run(INITIAL, before + ([Unsubscribe(c)] + after));
            c !in s.subscriptions && forall r | r in s.open :: r.socket != c
  {
    var s, u := Run(INITIAL, before), [Unsubscribe(c)] + after;
    RunAppend(INITIAL, before, u);
    RunInv(INITIAL, before);
    assert u[1..] == after;
    UnsubscribedIsQuiet(s, c);
    NextInv(s, Unsubscribe(c));
    QuietRun(Next(s, Unsubscribe(c)), after, c);
    RunInv(INITIAL, before + u);
  }

  /**
   After a disconnect nothing of the socket is open, at that moment or ever
   again: a subscribe still in flight opens nothing.
   */
  lemma NothingAfterDisconnect(before: seq<Event>, c: Socket, after: seq<Event>)
    requires PossibleRun(INITIAL, before + [Disconnect(c)] + after)
    ensures var s := Run(INITIAL, before + [Disconnect(c)] + after);
            c !in s.subscriptions && forall r | r in s.open :: r.socket != c
  {
    var upTo := before + [Disconnect(c)];
    RunAppend(INITIAL, upTo, after);
    RunAppend(INITIAL, before, [Disconnect(c)]);
    var s := Run(INITIAL, before);
    assert [Disconnect(c)][1..] == [];
    assert Run(s, [Disconnect(c)]) == Next(s, Disconnect(c));
    assert c in Run(INITIAL, upTo).gone;
    RunInv(INITIAL, upTo);
    RunInv(Run(INITIAL, upTo), after);
  }

  ghost predicate NothingLeft(s: State, c: Socket) {
    && (forall i | i in s.calls :: s.calls[i].socket != c)
    && (forall r | r in s.ever :: r.socket != c)
  }

  /**
   A socket that has disconnected can be taken for a new one, with the invariant
   kept, exactly when nothing of it is left: no call in flight, and nothing it
   ever opened, whose end may still be reported.
   */
  lemma SocketMayReturnIff(s: State, c: Socket)
    requires Inv(s) && c in s.gone
    ensures Inv(s.(gone := s.gone - {c})) <==> NothingLeft(s, c)
  {
    var t := s.(gone := s.gone - {c});
    assert c !in t.generations;
    if NothingLeft(s, c) {
      forall i | i in t.calls ensures NotAhead(t, t.calls[i].socket, t.calls[i].generation) {
        assert NotAhead(s, s.calls[i].socket, s.calls[i].generation);
      }
      forall r | r in t.ever ensures NotAhead(t, r.socket, r.generation) {
        assert NotAhead(s, r.socket, r.generation);
      }
    }
  }

  /**
   The no-message-after-disconnect rule is needed: the counter of a socket
   restarts, so a message handled after the disconnect can make an old call
   look current, and two sets of listeners are open for one socket.
   */
  lemma LateMessageLeaks()
    ensures var live := Row(true, true);
            var s := Run(INITIAL, [SubscribeDeployment(7), Disconnect(7), SubscribeDeployment(7),
                                   Resume(0, live), Resume(1, live)]);
            exists r, q :: r in s.open && q in s.open && r != q && r.socket == q.socket == 7
  {
    var live := Row(true, true);
    var es := [SubscribeDeployment(7), Disconnect(7), SubscribeDeployment(7), Resume(0, live), Resume(1, live)];
    var s1 := Next(INITIAL, es[0]);
    var s2 := Next(s1, es[1]);
    var s3 := Next(s2, es[2]);
    var s4 := Next(s3, es[3]);
    var s5 := Next(s4, es[4]);
    assert Run(INITIAL, es) == s5 by {
      assert es[1..][1..] == es[2..] && es[2..][1..] == es[3..] && es[3..][1..] == es[4..] && es[4..][1..] == [];
      assert Run(s4, es[4..]) == s5;
      assert Run(s3, es[3..]) == s5;
      assert Run(s2, es[2..]) == s5;
    }
    assert Resource(2, 7, 1) in s5.open && Resource(3, 7, 1) in s5.open;
  }

  // ---- the gateway itself ---------------------------------------------------------

  class Gateway {
    /** The one resource each subscribed socket holds. */
    var subscriptions: map<Socket, Resource>
    var generations: map<Socket, nat>
    // The world around the two maps: suspended calls, the bus and the daemon.
    var calls: map<nat, Call>
    var open: set<Resource>
    var ever: set<Resource>
    var gone: set<Socket>
    var next: nat

    function Now(): State
      reads this
    {
      State(subscriptions, generations, calls, open, ever, gone, next)
    }

    constructor ()
      ensures Now() == INITIAL
    {
      subscriptions, generations, calls := map[], map[], map[];
      open, ever, gone, next := {}, {}, {}, 0;
    }

    method UnsubscribeSocket(c: Socket)
      modifies this`generations, this`subscriptions, this`open
      ensures Now() == Next(old(Now()), Unsubscribe(c))
    {
      generations := generations[c := (if c in generations then generations[c] else 0) + 1];
      if c in subscriptions {
        var cleanup := subscriptions[c];
        subscriptions := subscriptions - {c};
        open := open - {cleanup};
      }
    }

    method HandleDisconnect(c: Socket)
      modifies this
      ensures Now() == Next(old(Now()), Disconnect(c))
    {
      UnsubscribeSocket(c);
      generations := generations - {c};
      gone := gone + {c};
    }

    method StartSubscribe(c: Socket, container: bool)
      modifies this
      ensures Now() == Next(old(Now()), if container then SubscribeContainer(c) else SubscribeDeployment(c))
    {
      UnsubscribeSocket(c);
      var generation := if c in generations then generations[c] else 0;
      calls := calls[next := Call(c, generation, if container then AppRead else RowRead)];
      next := next + 1;
    }

    method OpenFor(k: Call)
      modifies this`subscriptions, this`open, this`ever, this`next
      ensures Now() == Opened(old(Now()), k)
    {
      var r := Resource(next, k.socket, k.generation);
      open, ever, next := open + {r}, ever + {r}, next + 1;
      subscriptions := subscriptions[k.socket := r];
    }

    /** The stretch of a subscribe:deployment call after an await. */
    method ResumeDeployment(id: nat, a: Answer)
      requires id in calls && calls[id].stage in {RowRead, FreshRead}
      modifies this
      ensures Now() == Next(old(Now()), Resume(id, a))
    {
      var k := calls[id];
      calls := calls - {id};
      if a.Failed? || k.socket !in generations || generations[k.socket] != k.generation {
        return;
      }
      if k.stage == RowRead {
        if !a.Row? {
          return;
        }
        OpenFor(k);
        if a.active && !a.live {
          calls := calls[id := k.(stage := FreshRead)];
          return;
        }
      }
      if a.Row? && !a.active {
        UnsubscribeSocket(k.socket);
      }
    }

    /** The stretch of a subscribe:container call after an await. */
    method ResumeContainer(id: nat, a: Answer)
      requires id in calls && calls[id].stage !in {RowRead, FreshRead}
      modifies this
      ensures Now() == Next(old(Now()), Resume(id, a))
    {
      var k := calls[id];
      calls := calls - {id};
      if a.Failed? || k.socket !in generations || generations[k.socket] != k.generation {
        return;
      }
      match k.stage
      case AppRead =>
        if a.Found? { calls := calls[id := k.(stage := ServerRead)]; }
      case ServerRead =>
        if a.Found? { calls := calls[id := k.(stage := if a.service then ServiceRead else ContainerRead)]; }
      case ServiceRead =>
        if a.Found? { OpenFor(k); } else { calls := calls[id := k.(stage := ContainerRead)]; }
      case ContainerRead =>
        if a.Found? { OpenFor(k); }
    }

    method OnEnd(r: Resource)
      modifies this`open, this`subscriptions
      ensures Now() == Next(old(Now()), StreamEnd(r))
    {
      open := open - {r};
      if r.socket in generations && generations[r.socket] == r.generation {
        subscriptions := subscriptions - {r.socket};
      }
    }
  }
}
