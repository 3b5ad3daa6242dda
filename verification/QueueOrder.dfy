/** The two-stage message pipeline of a module as a state machine. Each step is one critical section of one
    thread: the MQTT thread fills the incoming queue, its worker sorts messages into the operation and the
    result queue, and each of those has a worker of its own. */
module QueueOrder {
  import opened MessageHandling
  import opened Options

  datatype State = State(
    incoming: seq<Message>,
    sorting: Option<Message>,
    incomingRuns: bool,
    operations: seq<Message>,
    results: seq<Message>,
    operating: Option<Message>,
    delivering: Option<Message>,
    handlerRuns: bool,
    exited: bool,
    entered: seq<Message>,
    dispatched: seq<Message>,
    delivered: seq<Message>)

  const START: State := State([], None, true, [], [], None, None, true, false, [], [], [])

  datatype Act =
    | Arrive(m: Message)
    | TakeIncoming
    | Sort
    | StartOperation
    | FinishOperation
    | StartResult
    | FinishResult
    | StopIncoming
    | StopHandler

  predicate Enabled(s: State, a: Act) {
    && !s.exited
    && match a
       case Arrive(_) => true
       case TakeIncoming => Front(s.incomingRuns, s.incoming).Some? && s.sorting == None
       case Sort => s.sorting.Some?
       case StartOperation => Front(s.handlerRuns, s.operations).Some? && s.operating == None
       case FinishOperation => s.operating.Some?
       case StartResult => Front(s.handlerRuns, s.results).Some? && s.delivering == None
       case FinishResult => s.delivering.Some?
       case StopIncoming => true
       case StopHandler => true
  }

  function Next(everestPrefix: string, s: State, a: Act): State
    requires Enabled(s, a)
  {
    match a
    case Arrive(m) => s.(incoming := s.incoming + [m], entered := s.entered + [m])
    case TakeIncoming =>
      s.(sorting := Front(s.incomingRuns, s.incoming), incoming := WithoutFront(s.incomingRuns, s.incoming))
    case Sort =>
      var m := s.sorting.value;
      s.(sorting := None,
         operations := s.operations + Routed(everestPrefix, [m], ToOperations),
         results := s.results + Routed(everestPrefix, [m], ToResults),
         exited := RouteOf(everestPrefix, m) == ProcessExit)
    case StartOperation =>
      var taken := Front(s.handlerRuns, s.operations);
      s.(operating := taken, operations := WithoutFront(s.handlerRuns, s.operations),
         dispatched := s.dispatched + [taken.value])
    case FinishOperation => s.(operating := None)
    case StartResult =>
      var taken := Front(s.handlerRuns, s.results);
      s.(delivering := taken, results := WithoutFront(s.handlerRuns, s.results),
         delivered := s.delivered + [taken.value])
    case FinishResult => s.(delivering := None)
    case StopIncoming => s.(incomingRuns := false)
    case StopHandler => s.(handlerRuns := false)
  }

  // ----- the machine is what the objects do -----

  /** The two objects of a module are in the state the machine says. */
  ghost predicate Represents(s: State, queue: MessageQueue, handler: MessageHandler)
    reads queue, handler
  {
    && s.incoming == queue.messages && s.incomingRuns == queue.running
    && s.operations == handler.operations && s.results == handler.results && s.handlerRuns == handler.running
  }

  /** Each step of the machine is one call on the objects: what it takes out is what the machine takes out, and the
      objects end in the machine's next state. `inHand` is the message the incoming queue's worker holds. */
  method Perform(everestPrefix: string, ghost s: State, a: Act, queue: MessageQueue, handler: MessageHandler,
                 inHand: Option<Message>)
    returns (taken: Option<Message>, exits: bool)
    requires Represents(s, queue, handler) && Enabled(s, a) && s.sorting == inHand
    modifies queue, handler`operations, handler`results, handler`running
    ensures Represents(Next(everestPrefix, s, a), queue, handler)
    ensures exits == Next(everestPrefix, s, a).exited
    ensures a == TakeIncoming ==> taken == Next(everestPrefix, s, a).sorting
    ensures a == StartOperation ==> taken == Next(everestPrefix, s, a).operating
    ensures a == StartResult ==> taken == Next(everestPrefix, s, a).delivering
  {
    taken, exits := None, false;
    match a {
      case Arrive(m) => queue.Add(m);
      case TakeIncoming => taken := queue.Take();
      case Sort => exits := OnMqttMessage(everestPrefix, inHand.value, handler);
      case StartOperation => taken := handler.TakeOperation();
      case StartResult => taken := handler.TakeResult();
      case StopIncoming => queue.Stop();
      case StopHandler => handler.Stop();
      case FinishOperation =>
      case FinishResult =>
    }
  }

  predicate Feasible(everestPrefix: string, s: State, acts: seq<Act>)
    decreases |acts|
  {
    acts == [] || (Enabled(s, acts[0]) && Feasible(everestPrefix, Next(everestPrefix, s, acts[0]), acts[1..]))
  }

  function Run(everestPrefix: string, s: State, acts: seq<Act>): State
    requires Feasible(everestPrefix, s, acts)
    decreases |acts|
  {
    if acts == [] then s else Run(everestPrefix, Next(everestPrefix, s, acts[0]), acts[1..])
  }

  // ----- nothing is lost, doubled or reordered -----

  /** What entered and is not yet sorted, oldest first. */
  function Unsorted(s: State): seq<Message> {
    (if s.sorting.Some? then [s.sorting.value] else []) + s.incoming
  }

  /** Every message of a route that entered is handed out, queued, or still to be sorted, in this order. */
  ghost predicate ConservedOn(everestPrefix: string, entered: seq<Message>, handedOut: seq<Message>,
                              queued: seq<Message>, unsorted: seq<Message>, route: Route)
    requires route != Dropped
  {
    Routed(everestPrefix, entered, route) == handedOut + queued + Routed(everestPrefix, unsorted, route)
  }

  ghost predicate Conserved(everestPrefix: string, s: State) {
    && ConservedOn(everestPrefix, s.entered, s.dispatched, s.operations, Unsorted(s), ToOperations)
    && ConservedOn(everestPrefix, s.entered, s.delivered, s.results, Unsorted(s), ToResults)
  }

  lemma {:induction false} RoutedConcat(everestPrefix: string, xs: seq<Message>, ys: seq<Message>, route: Route)
    requires route != Dropped
    ensures Routed(everestPrefix, xs + ys, route) == Routed(everestPrefix, xs, route) + Routed(everestPrefix, ys, route)
  {
    if xs == [] {
      assert xs + ys == ys;
    } else {
      assert (xs + ys)[1..] == xs[1..] + ys;
      RoutedConcat(everestPrefix, xs[1..], ys, route);
    }
  }

  lemma ArrivalConserves(everestPrefix: string, entered: seq<Message>, handedOut: seq<Message>,
                         queued: seq<Message>, unsorted: seq<Message>, route: Route, m: Message)
    requires route != Dropped
    requires ConservedOn(everestPrefix, entered, handedOut, queued, unsorted, route)
    ensures ConservedOn(everestPrefix, entered + [m], handedOut, queued, unsorted + [m], route)
  {
    RoutedConcat(everestPrefix, entered, [m], route);
    RoutedConcat(everestPrefix, unsorted, [m], route);
  }

  lemma SortingConserves(everestPrefix: string, entered: seq<Message>, handedOut: seq<Message>,
                         queued: seq<Message>, unsorted: seq<Message>, route: Route, m: Message)
    requires route != Dropped
    requires ConservedOn(everestPrefix, entered, handedOut, queued, [m] + unsorted, route)
    ensures ConservedOn(everestPrefix, entered, handedOut, queued + Routed(everestPrefix, [m], route), unsorted, route)
  {
    RoutedConcat(everestPrefix, [m], unsorted, route);
  }

  lemma HandingOutConserves(everestPrefix: string, entered: seq<Message>, handedOut: seq<Message>,
                            queued: seq<Message>, unsorted: seq<Message>, route: Route)
    requires route != Dropped && queued != []
    requires ConservedOn(everestPrefix, entered, handedOut, queued, unsorted, route)
    ensures ConservedOn(everestPrefix, entered, handedOut + [queued[0]], queued[1..], unsorted, route)
  {
    assert handedOut + [queued[0]] + queued[1..] == handedOut + queued;
  }

  lemma SortConserves(everestPrefix: string, s: State)
    requires s.sorting.Some? && !s.exited
    requires Conserved(everestPrefix, s)
    ensures Conserved(everestPrefix, Next(everestPrefix, s, Sort))
  {
    var t := Next(everestPrefix, s, Sort);
    var m := s.sorting.value;
    assert Unsorted(s) == [m] + Unsorted(t);
    SortingConserves(everestPrefix, s.entered, s.dispatched, s.operations, Unsorted(t), ToOperations, m);
    SortingConserves(everestPrefix, s.entered, s.delivered, s.results, Unsorted(t), ToResults, m);
  }

  lemma ArriveConserves(everestPrefix: string, s: State, m: Message)
    requires !s.exited
    requires Conserved(everestPrefix, s)
    ensures Conserved(everestPrefix, Next(everestPrefix, s, Arrive(m)))
  {
    assert Unsorted(Next(everestPrefix, s, Arrive(m))) == Unsorted(s) + [m];
    ArrivalConserves(everestPrefix, s.entered, s.dispatched, s.operations, Unsorted(s), ToOperations, m);
    ArrivalConserves(everestPrefix, s.entered, s.delivered, s.results, Unsorted(s), ToResults, m);
  }

  lemma NextConserves(everestPrefix: string, s: State, a: Act)
    requires Enabled(s, a)
    requires Conserved(everestPrefix, s)
    ensures Conserved(everestPrefix, Next(everestPrefix, s, a))
  {
    match a {
      case Arrive(m) =>
        ArriveConserves(everestPrefix, s, m);
      case Sort =>
        SortConserves(everestPrefix, s);
      case StartOperation =>
        HandingOutConserves(everestPrefix, s.entered, s.dispatched, s.operations, Unsorted(s), ToOperations);
      case StartResult =>
        HandingOutConserves(everestPrefix, s.entered, s.delivered, s.results, Unsorted(s), ToResults);
      case _ =>
        assert Unsorted(Next(everestPrefix, s, a)) == Unsorted(s);
    }
  }

  lemma {:induction false} RunConserves(everestPrefix: string, s: State, acts: seq<Act>)
    requires Feasible(everestPrefix, s, acts)
    requires Conserved(everestPrefix, s)
    ensures Conserved(everestPrefix, Run(everestPrefix, s, acts))
    decreases |acts|
  {
    if acts != [] {
      NextConserves(everestPrefix, s, acts[0]);
      RunConserves(everestPrefix, Next(everestPrefix, s, acts[0]), acts[1..]);
    }
  }

  /** In every reachable state each class of messages that entered is, in order, what has been handed out, what
      waits in its queue, and what is still to be sorted: nothing is lost, doubled or overtaken. */
  lemma QueuesKeepOrder(everestPrefix: string, acts: seq<Act>)
    requires Feasible(everestPrefix, START, acts)
    ensures var t := Run(everestPrefix, START, acts);
            && Conserved(everestPrefix, t)
            && t.dispatched <= Routed(everestPrefix, t.entered, ToOperations)
            && t.delivered <= Routed(everestPrefix, t.entered, ToResults)
  {
    RunConserves(everestPrefix, START, acts);
  }

  // ----- stopping -----

  lemma StopIsForGood(everestPrefix: string, s: State, a: Act)
    requires Enabled(s, a)
    ensures var t := Next(everestPrefix, s, a);
            && (!s.handlerRuns ==> !t.handlerRuns && t.dispatched == s.dispatched && t.delivered == s.delivered)
            && (!s.incomingRuns ==> !t.incomingRuns && s.incoming <= t.incoming
                                    && (t.sorting.Some? ==> t.sorting == s.sorting))
  {
  }

  /** Once the message handler has been stopped nothing more is handed out, and once the queue has been stopped nothing
      more is taken from it, whatever else happens. */
  lemma {:induction false} NothingLeavesAfterStop(everestPrefix: string, s: State, acts: seq<Act>)
    requires Feasible(everestPrefix, s, acts)
    ensures var t := Run(everestPrefix, s, acts);
            && (!s.handlerRuns ==> t.dispatched == s.dispatched && t.delivered == s.delivered)
            && (!s.incomingRuns ==> s.incoming <= t.incoming && (t.sorting.Some? ==> t.sorting == s.sorting))
    decreases |acts|
  {
    if acts != [] {
      StopIsForGood(everestPrefix, s, acts[0]);
      NothingLeavesAfterStop(everestPrefix, Next(everestPrefix, s, acts[0]), acts[1..]);
    }
  }

  // ----- progress of results -----

  function ResultStarts(acts: seq<Act>): nat {
    if acts == [] then 0 else (if acts[0].StartResult? then 1 else 0) + ResultStarts(acts[1..])
  }

  lemma NextKeepsResults(everestPrefix: string, s: State, a: Act)
    requires Enabled(s, a)
    ensures var t := Next(everestPrefix, s, a);
            && |t.delivered| == |s.delivered| + (if a.StartResult? then 1 else 0)
            && s.delivered + s.results <= t.delivered + t.results
  {
    var t := Next(everestPrefix, s, a);
    if a.StartResult? {
      assert t.delivered + t.results == s.delivered + s.results;
    }
  }

  lemma {:induction false} RunKeepsResults(everestPrefix: string, s: State, acts: seq<Act>)
    requires Feasible(everestPrefix, s, acts)
    ensures var t := Run(everestPrefix, s, acts);
            && |t.delivered| == |s.delivered| + ResultStarts(acts)
            && s.delivered + s.results <= t.delivered + t.results
    decreases |acts|
  {
    if acts != [] {
      NextKeepsResults(everestPrefix, s, acts[0]);
      RunKeepsResults(everestPrefix, Next(everestPrefix, s, acts[0]), acts[1..]);
    }
  }

  /** However the threads interleave, the result at position k of the queue is delivered by the result
      worker's step number k + 1, neither earlier nor later. */
  lemma ResultsGoOutInOrder(everestPrefix: string, s: State, acts: seq<Act>, k: nat)
    requires Feasible(everestPrefix, s, acts)
    requires k < |s.results|
    ensures var t := Run(everestPrefix, s, acts);
            && |t.delivered| == |s.delivered| + ResultStarts(acts)
            && (k < ResultStarts(acts) ==> t.delivered[|s.delivered| + k] == s.results[k])
  {
    RunKeepsResults(everestPrefix, s, acts);
    var t := Run(everestPrefix, s, acts);
    var i := |s.delivered| + k;
    if k < ResultStarts(acts) {
      assert (s.delivered + s.results)[i] == s.results[k];
      assert (t.delivered + t.results)[i] == t.delivered[i];
    }
  }

  /** The steps that the worker of the incoming queue and the result worker take on their own. */
  predicate ResultSide(a: Act) {
    a == TakeIncoming || a == Sort || a == StartResult || a == FinishResult
  }

  predicate OnlyResultSide(acts: seq<Act>) {
    acts == [] || (ResultSide(acts[0]) && OnlyResultSide(acts[1..]))
  }

  /** The workers' next step: finish or start a delivery, else sort the next message. */
  function ResultSideStep(s: State): Act {
    if s.delivering.Some? then FinishResult
    else if s.results != [] then StartResult
    else if s.sorting.Some? then Sort
    else TakeIncoming
  }

  function Work(s: State): nat {
    |s.incoming| * 4 + (if s.sorting.Some? then 3 else 0) + |s.results| * 2 + (if s.delivering.Some? then 1 else 0)
  }

  predicate NoExit(everestPrefix: string, ms: seq<Message>) {
    ms == [] || (RouteOf(everestPrefix, ms[0]) != ProcessExit && NoExit(everestPrefix, ms[1..]))
  }

  lemma OneMessageSorted(everestPrefix: string, m: Message, rest: seq<Message>)
    requires NoExit(everestPrefix, [m] + rest)
    ensures RouteOf(everestPrefix, m) != ProcessExit && NoExit(everestPrefix, rest)
    ensures |Routed(everestPrefix, [m], ToResults)| <= 1
  {
    assert ([m] + rest)[1..] == rest && [m][1..] == [];
  }

  lemma ResultSideStepIsEnabled(everestPrefix: string, s: State)
    requires !s.exited && s.handlerRuns && s.incomingRuns
    requires NoExit(everestPrefix, Unsorted(s))
    requires Work(s) > 0
    ensures var a := ResultSideStep(s);
            && Enabled(s, a)
            && ResultSide(a)
            && var t := Next(everestPrefix, s, a);
               && Work(t) < Work(s)
               && !t.exited && t.handlerRuns && t.incomingRuns
               && NoExit(everestPrefix, Unsorted(t))
               && t.operating == s.operating && t.dispatched == s.dispatched && t.entered == s.entered
  {
    var a := ResultSideStep(s);
    var t := Next(everestPrefix, s, a);
    if a == Sort {
      assert Unsorted(s) == [s.sorting.value] + Unsorted(t);
      OneMessageSorted(everestPrefix, s.sorting.value, Unsorted(t));
    } else {
      assert Unsorted(t) == Unsorted(s);
    }
  }

  /** A blocked operation worker never holds up results. From every running state whose waiting messages do
      not end the process, the other two workers alone, with the operation worker stuck where it is, can
      deliver every result that has entered. */
  lemma {:induction false} ResultsNeverWaitForOperations(everestPrefix: string, s: State) returns (acts: seq<Act>)
    requires !s.exited && s.handlerRuns && s.incomingRuns
    requires NoExit(everestPrefix, Unsorted(s))
    requires Conserved(everestPrefix, s)
    ensures OnlyResultSide(acts)
    ensures Feasible(everestPrefix, s, acts)
    ensures var t := Run(everestPrefix, s, acts);
            && t.operating == s.operating && t.dispatched == s.dispatched && t.entered == s.entered
            && t.delivering == None
            && t.delivered == Routed(everestPrefix, s.entered, ToResults)
    decreases Work(s)
  {
    if Work(s) == 0 {
      acts := [];
      assert Unsorted(s) == [];
    } else {
      ResultSideStepIsEnabled(everestPrefix, s);
      var a := ResultSideStep(s);
      NextConserves(everestPrefix, s, a);
      var rest := ResultsNeverWaitForOperations(everestPrefix, Next(everestPrefix, s, a));
      acts := [a] + rest;
      assert acts[1..] == rest;
    }
  }

  lemma {:induction false} RoutedHaveTheirRoute(everestPrefix: string, ms: seq<Message>, route: Route, m: Message)
    requires route != Dropped
    requires m in Routed(everestPrefix, ms, route)
    ensures QueueOf(m.payload) == route
  {
    if m !in Routed(everestPrefix, ms[1..], route) {
      assert Parsed(everestPrefix, ms[0]) == Some(m);
    } else {
      RoutedHaveTheirRoute(everestPrefix, ms[1..], route, m);
    }
  }

  /** What ever waits for the operation worker has a type the worker can read, so its own look-up of the type
      never throws, and is no result; what waits for the result worker is one. */
  lemma QueuesHoldTheirTypes(everestPrefix: string, acts: seq<Act>, m: Message)
    requires Feasible(everestPrefix, START, acts)
    ensures m in Run(everestPrefix, START, acts).operations ==>
              && MessageTypeOf(m.payload).Some?
              && MessageTypeOf(m.payload).value !in {CmdResult, GetConfigResponse, GlobalReady}
    ensures m in Run(everestPrefix, START, acts).results ==>
              MessageTypeOf(m.payload).Some? && MessageTypeOf(m.payload).value in {CmdResult, GetConfigResponse}
  {
    var t := Run(everestPrefix, START, acts);
    RunConserves(everestPrefix, START, acts);
    if m in t.operations {
      assert m in t.dispatched + t.operations;
      RoutedHaveTheirRoute(everestPrefix, t.entered, ToOperations, m);
    }
    if m in t.results {
      assert m in t.delivered + t.results;
      RoutedHaveTheirRoute(everestPrefix, t.entered, ToResults, m);
    }
  }
}
