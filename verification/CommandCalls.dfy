/** Command calls between modules: the caller's checks and its pending table, the provider's wrapper around a
    command handler, and every interleaving of callers, operation workers and result workers. */
module CommandCalls {
  import opened Options
  import opened Sets

  datatype Value = Null | Json(content: nat)

  type Args = map<string, Value>

  datatype ErrorKind =
    | MessageParsingError | SchemaValidationError | HandlerException | CmdTimeout | Shutdown | NotReady

  /** A command of an interface manifest; the schemas are the predicates they decide. */
  datatype Definition = Definition(
    arguments: set<string>,
    argumentAllowed: (string, Value) -> bool,
    resultDeclared: bool,
    resultAllowed: Value -> bool)

  // ----- the two argument checks -----

  predicate CallerAccepts(d: Definition, args: Args) {
    && |d.arguments| == |args|
    && args.Keys - d.arguments == {}
    && forall a :: a in args ==> d.argumentAllowed(a, args[a])
  }

  predicate ProviderAccepts(d: Definition, args: Args) {
    forall a :: a in d.arguments ==> a in args && d.argumentAllowed(a, args[a])
  }

  /** The declared arguments and no others, each allowed by its schema. */
  ghost predicate Fitting(d: Definition, args: Args) {
    args.Keys == d.arguments && forall a :: a in d.arguments ==> d.argumentAllowed(a, args[a])
  }

  /** The caller lets exactly the fitting arguments through: counting and comparing names one way is enough to compare
      them both ways. The provider's check misses only undeclared arguments. */
  lemma CallerChecksWhatProvidersCheck(d: Definition, args: Args)
    ensures CallerAccepts(d, args) <==> Fitting(d, args)
    ensures CallerAccepts(d, args) <==> ProviderAccepts(d, args) && args.Keys <= d.arguments
    ensures ProviderAccepts(d, args) <==> forall a :: a in d.arguments ==> a in args && d.argumentAllowed(a, args[a])
  {
    if args.Keys <= d.arguments && |d.arguments| == |args| {
      SubsetOfSameSize(args.Keys, d.arguments);
    }
    if ProviderAccepts(d, args) && args.Keys <= d.arguments {
      assert args.Keys == d.arguments;
    }
    if CallerAccepts(d, args) {
      assert args.Keys == (args.Keys - d.arguments) + args.Keys * d.arguments;
    }
  }

  // ----- the provider's wrapper -----

  /** What the user's handler does when it runs. */
  datatype Outcome = Returned(value: Value) | Threw(exception: Exception)

  datatype Exception = Known(kind: ErrorKind) | Other

  function KindOf(e: Exception): ErrorKind {
    match e
    case Known(kind) => kind
    case Other => HandlerException
  }

  /** The handler threw what is no command error, or a handler exception of another call. */
  predicate FailsInHandler(outcome: Outcome) {
    outcome == Threw(Other) || outcome == Threw(Known(HandlerException))
  }

  predicate ResultAccepted(d: Definition, v: Value) {
    if d.resultDeclared then d.resultAllowed(v) else v == Null
  }

  /** The part of a result message that the caller reads. */
  datatype Reply = Reply(retval: Option<Value>, error: Option<ErrorKind>)

  function ReplyTo(d: Definition, validate: bool, args: Args, outcome: Outcome): Reply {
    if validate && !ProviderAccepts(d, args) then Reply(None, Some(SchemaValidationError))
    else
      match outcome
      case Threw(e) => Reply(None, Some(KindOf(e)))
      case Returned(v) =>
        Reply(Some(v), if validate && !ResultAccepted(d, v) then Some(SchemaValidationError) else None)
  }

  /** The wrapper ends its process on a handler exception unless exceptions are forwarded. */
  predicate Rethrows(reply: Reply, forwardExceptions: bool) {
    reply.error == Some(HandlerException) && !forwardExceptions
  }

  /** The body of the wrapper; `outcome` is what the handler does if it is called. */
  method CommandWrapper(d: Definition, validate: bool, forwardExceptions: bool, args: Args, outcome: Outcome)
    returns (reply: Reply, called: bool, rethrown: bool)
    ensures reply == ReplyTo(d, validate, args, outcome)
    ensures called <==> (validate ==> forall a :: a in d.arguments ==> a in args && d.argumentAllowed(a, args[a]))
    ensures rethrown <==> Rethrows(reply, forwardExceptions)
    ensures rethrown <==> called && !forwardExceptions && FailsInHandler(outcome)
    ensures !called ==> reply == Reply(None, Some(SchemaValidationError))
    ensures forall kind :: called && outcome == Threw(Known(kind)) ==> reply == Reply(None, Some(kind))
    ensures called && outcome == Threw(Other) ==> reply == Reply(None, Some(HandlerException))
    ensures forall v :: called && outcome == Returned(v) ==>
              reply == Reply(Some(v), if validate && !Declared(d, v) then Some(SchemaValidationError) else None)
  {
    var retval: Option<Value> := None;
    var error: Option<ErrorKind> := None;
    called := false;
    if validate {
      var names := d.arguments;
      while names != {} && error == None
        invariant names <= d.arguments
        invariant error == None ==>
                    forall a :: a in d.arguments && a !in names ==> a in args && d.argumentAllowed(a, args[a])
        invariant error != None ==> error == Some(SchemaValidationError) && !ProviderAccepts(d, args)
        decreases names, if error == None then 1 else 0
      {
        var name :| name in names;
        names := names - {name};
        if name !in args || !d.argumentAllowed(name, args[name]) {
          error := Some(SchemaValidationError);
        }
      }
    }
    if error == None {
      called := true;
      match outcome {
        case Returned(v) => retval := Some(v);
        case Threw(e) => error := Some(KindOf(e));
      }
    }
    if error == None && validate {
      if !(retval.value == Null && !d.resultDeclared) && !(d.resultDeclared && d.resultAllowed(retval.value)) {
        error := Some(SchemaValidationError);
      }
    }
    reply := Reply(retval, error);
    rethrown := error == Some(HandlerException) && !forwardExceptions;
  }

  // ----- how a call ends -----

  datatype End = Gives(value: Value) | Fails(kind: ErrorKind)

  /** The caller looks at the error first; a missing return value reads as null. */
  function EndOf(reply: Reply): End {
    match reply.error
    case Some(kind) => Fails(kind)
    case None => Gives(if reply.retval.Some? then reply.retval.value else Null)
  }

  // ----- the modules together -----

  type CallId = nat
  type ModuleId = string

  datatype Command = Command(provider: ModuleId, implementation: string, name: string)

  datatype Config = Config(definitions: map<Command, Definition>, validate: bool, forwardExceptions: bool)

  datatype CallState = Waiting | Ready(reply: Reply) | Ended(end: End)

  /** A call and where in its caller's memory its promise lies. */
  datatype CallRecord = CallRecord(caller: ModuleId, target: Command, args: Args, address: nat, state: CallState)

  datatype CommandMessage = CommandMessage(target: Command, id: CallId, args: Args, origin: ModuleId)

  datatype ResultMessage = ResultMessage(addressee: ModuleId, id: CallId, reply: Reply)

  /** What a result handler has captured: the call id by value, the promise by reference. */
  datatype Waiter = Waiter(waitsFor: CallId, address: nat)

  /** A result handler taken from the table, about to run on a message. */
  datatype Delivery = Delivery(waiter: Waiter, message: ResultMessage)

  /** A result handler that has run: the call whose promise it found at its address, and whether its own call
      had timed out by then. */
  datatype HandlerRun = HandlerRun(waitsFor: CallId, received: CallId, hit: Option<CallId>, late: bool)

  datatype Execution = Execution(target: Command, args: Args, outcome: Outcome)

  datatype Slot = Slot(caller: ModuleId, id: CallId)

  datatype Place = Place(owner: ModuleId, address: nat)

  /** `pending` joins the result tables of all modules. `answered` are the calls whose handler was taken out,
      `live` the promises that exist, each with its call, and `settled` what promises have been set to. */
  datatype State = State(
    calls: map<CallId, CallRecord>,
    live: map<Place, CallId>,
    timedOut: set<CallId>,
    pending: map<Slot, Waiter>,
    commands: set<CommandMessage>,
    executing: map<ModuleId, CommandMessage>,
    executions: seq<Execution>,
    results: set<ResultMessage>,
    answered: set<CallId>,
    delivering: map<ModuleId, Delivery>,
    handlerRuns: seq<HandlerRun>,
    dead: set<ModuleId>,
    settled: map<CallId, Reply>)

  const START: State := State(map[], map[], {}, map[], {}, map[], [], {}, {}, map[], [], {}, map[])

  datatype Act =
    | Register(id: CallId, caller: ModuleId, target: Command, args: Args, address: nat)
    | Publish(id: CallId)
    | StartCommand(message: CommandMessage)
    | FinishCommand(provider: ModuleId, outcome: Outcome)
    | TakeResult(result: ResultMessage)
    | RunHandler(caller: ModuleId)
    | Return(id: CallId)
    | Timeout(id: CallId)

  predicate Alive(s: State, m: ModuleId) { m !in s.dead }

  function PlaceOf(k: CallRecord): Place {
    Place(k.caller, k.address)
  }

  function CommandOf(id: CallId, k: CallRecord): CommandMessage {
    CommandMessage(k.target, id, k.args, k.caller)
  }

  /** The call is in progress: `call_cmd` has not been left. */
  predicate InProgress(s: State, id: CallId) {
    id in s.calls && Alive(s, s.calls[id].caller) && !s.calls[id].state.Ended?
  }

  /** The call waits for its promise, the command being out. */
  predicate AwaitsResult(s: State, id: CallId) {
    InProgress(s, id) && CommandOf(id, s.calls[id]) in s.commands
  }

  /** A promise takes any address where none lives. Messages stay available once published, so they may arrive
      late, out of order, and more than once. */
  predicate Enabled(c: Config, s: State, a: Act) {
    match a
    case Register(id, caller, target, args, address) =>
      && id !in s.calls && Alive(s, caller)
      && Place(caller, address) !in s.live
      && target in c.definitions
      && (c.validate ==> CallerAccepts(c.definitions[target], args))
    case Publish(id) => InProgress(s, id)
    case StartCommand(m) =>
      && m in s.commands && Alive(s, m.target.provider)
      && m.target.provider !in s.executing && m.target in c.definitions
    case FinishCommand(p, _) => p in s.executing && Alive(s, p) && s.executing[p].target in c.definitions
    case TakeResult(r) => r in s.results && Alive(s, r.addressee) && r.addressee !in s.delivering
    case RunHandler(m) => m in s.delivering && Alive(s, m)
    case Return(id) => AwaitsResult(s, id) && s.calls[id].state.Ready?
    case Timeout(id) => AwaitsResult(s, id) && s.calls[id].state == Waiting
  }

  /** The call whose promise lives where a handler believes its own to be. */
  function Found(s: State, m: ModuleId, w: Waiter): Option<CallId> {
    if Place(m, w.address) in s.live then Some(s.live[Place(m, w.address)]) else None
  }

  /** A promise is set: its call can return. Setting one twice is an exception that ends the process. */
  function Settled(s: State, m: ModuleId, id: CallId, reply: Reply): State {
    if id !in s.calls then s
    else if s.calls[id].state == Waiting then
      s.(calls := s.calls[id := s.calls[id].(state := Ready(reply))], settled := s.settled[id := reply])
    else s.(dead := s.dead + {m})
  }

  /** `call_cmd` is left, and with it its promise goes. */
  function Left(s: State, id: CallId, end: End): State
    requires id in s.calls
  {
    s.(calls := s.calls[id := s.calls[id].(state := Ended(end))], live := s.live - {PlaceOf(s.calls[id])})
  }

  /** A result handler has run: it compares the ids, and sets what it takes for its own promise. */
  function Handled(s: State, m: ModuleId, d: Delivery): State {
    var w, r := d.waiter, d.message;
    var hit := Found(s, m, w);
    var rest := s.(delivering := s.delivering - {m},
                   handlerRuns := s.handlerRuns + [HandlerRun(w.waitsFor, r.id, hit, w.waitsFor in s.timedOut)]);
    if r.id == w.waitsFor && hit.Some? then Settled(rest, m, hit.value, r.reply) else rest
  }

  function Next(c: Config, s: State, a: Act): State
    requires Enabled(c, s, a)
  {
    match a
    case Register(id, caller, target, args, address) =>
      s.(calls := s.calls[id := CallRecord(caller, target, args, address, Waiting)],
         live := s.live[Place(caller, address) := id],
         pending := s.pending[Slot(caller, id) := Waiter(id, address)])
    case Publish(id) => s.(commands := s.commands + {CommandOf(id, s.calls[id])})
    case StartCommand(m) => s.(executing := s.executing[m.target.provider := m])
    case FinishCommand(p, outcome) =>
      var m := s.executing[p];
      var d := c.definitions[m.target];
      var reply := ReplyTo(d, c.validate, m.args, outcome);
      s.(executing := s.executing - {p},
         executions := s.executions
                       + if c.validate && !ProviderAccepts(d, m.args) then []
                         else [Execution(m.target, m.args, outcome)],
         results := s.results + {ResultMessage(m.origin, m.id, reply)},
         dead := if Rethrows(reply, c.forwardExceptions) then s.dead + {p} else s.dead)
    case TakeResult(r) =>
      var slot := Slot(r.addressee, r.id);
      if slot in s.pending then
        s.(pending := s.pending - {slot},
           answered := s.answered + {r.id},
           delivering := s.delivering[r.addressee := Delivery(s.pending[slot], r)])
      else s
    case RunHandler(m) => Handled(s, m, s.delivering[m])
    case Return(id) => Left(s, id, EndOf(s.calls[id].state.reply))
    case Timeout(id) => Left(s, id, Fails(CmdTimeout)).(timedOut := s.timedOut + {id})
  }

  predicate Feasible(c: Config, s: State, acts: seq<Act>)
    decreases |acts|
  {
    acts == [] || (Enabled(c, s, acts[0]) && Feasible(c, Next(c, s, acts[0]), acts[1..]))
  }

  function Run(c: Config, s: State, acts: seq<Act>): State
    requires Feasible(c, s, acts)
    decreases |acts|
  {
    if acts == [] then s else Run(c, Next(c, s, acts[0]), acts[1..])
  }

  // ----- the pending table -----

  /** The table holds the registered calls that no result has answered, under their own ids; a call that
      timed out stays in it. */
  ghost predicate PendingIsRegisteredMinusAnswered(s: State) {
    && s.answered <= s.calls.Keys
    && (forall id :: id in s.calls && id !in s.answered ==> Slot(s.calls[id].caller, id) in s.pending)
    && (forall k :: k in s.pending ==>
          && k.id in s.calls && k.id !in s.answered && s.calls[k.id].caller == k.caller
          && s.pending[k] == Waiter(k.id, s.calls[k.id].address))
  }

  // ----- messages -----

  ghost predicate Concerns(s: State, m: CommandMessage) {
    && m.id in s.calls
    && m.target == s.calls[m.id].target && m.args == s.calls[m.id].args && m.origin == s.calls[m.id].caller
  }

  ghost predicate CallsPassedTheCheck(c: Config, s: State) {
    forall id :: id in s.calls ==>
      && s.calls[id].target in c.definitions
      && (c.validate ==> CallerAccepts(c.definitions[s.calls[id].target], s.calls[id].args))
  }

  ghost predicate MessagesConcernCalls(s: State) {
    && (forall m :: m in s.commands ==> Concerns(s, m))
    && (forall p :: p in s.executing ==> Concerns(s, s.executing[p]) && s.executing[p].target.provider == p)
  }

  ghost predicate SameRequest(k: CallRecord, l: CallRecord) {
    k.caller == l.caller && k.target == l.target && k.args == l.args && k.address == l.address
  }

  /** Calls keep their caller, target and arguments, and the log of executions only grows. */
  ghost predicate Grows(s: State, t: State) {
    && s.executions <= t.executions
    && forall id :: id in s.calls ==> id in t.calls && SameRequest(s.calls[id], t.calls[id])
  }

  lemma NextGrows(c: Config, s: State, a: Act)
    requires Enabled(c, s, a)
    ensures Grows(s, Next(c, s, a))
  {
    hide Handled, ReplyTo, Rethrows, CallerAccepts;
    if a.RunHandler? {
      HandledGrows(s, a.caller, s.delivering[a.caller]);
    }
  }

  lemma HandledGrows(s: State, m: ModuleId, d: Delivery)
    ensures Grows(s, Handled(s, m, d))
  {
  }

  lemma RegisteringKeepsPending(c: Config, s: State, a: Act)
    requires a.Register? && Enabled(c, s, a)
    requires PendingIsRegisteredMinusAnswered(s)
    ensures PendingIsRegisteredMinusAnswered(Next(c, s, a))
  {
  }

  lemma TakingKeepsPending(c: Config, s: State, a: Act)
    requires a.TakeResult? && Enabled(c, s, a)
    requires PendingIsRegisteredMinusAnswered(s)
    ensures PendingIsRegisteredMinusAnswered(Next(c, s, a))
  {
  }

  lemma SameTableKeepsPending(s: State, t: State)
    requires PendingIsRegisteredMinusAnswered(s)
    requires Grows(s, t) && t.calls.Keys == s.calls.Keys && t.pending == s.pending && t.answered == s.answered
    ensures PendingIsRegisteredMinusAnswered(t)
  {
    forall id | id in t.calls && id !in t.answered ensures Slot(t.calls[id].caller, id) in t.pending {
      assert SameRequest(s.calls[id], t.calls[id]);
    }
    forall k | k in t.pending
      ensures k.id in t.calls && k.id !in t.answered && t.calls[k.id].caller == k.caller
      ensures t.pending[k] == Waiter(k.id, t.calls[k.id].address)
    {
      assert SameRequest(s.calls[k.id], t.calls[k.id]);
    }
  }

  lemma NextKeepsTable(c: Config, s: State, a: Act)
    requires Enabled(c, s, a) && !a.Register? && !a.TakeResult?
    ensures var t := Next(c, s, a);
            t.calls.Keys == s.calls.Keys && t.pending == s.pending && t.answered == s.answered
  {
    hide ReplyTo, Rethrows, CallerAccepts, ProviderAccepts;
  }

  lemma NextKeepsPending(c: Config, s: State, a: Act)
    requires Enabled(c, s, a)
    requires PendingIsRegisteredMinusAnswered(s)
    ensures PendingIsRegisteredMinusAnswered(Next(c, s, a))
  {
    if a.Register? {
      RegisteringKeepsPending(c, s, a);
    } else if a.TakeResult? {
      TakingKeepsPending(c, s, a);
    } else {
      hide PendingIsRegisteredMinusAnswered, Grows, Next, Enabled;
      NextGrows(c, s, a);
      NextKeepsTable(c, s, a);
      SameTableKeepsPending(s, Next(c, s, a));
    }
  }

  lemma NextKeepsCheck(c: Config, s: State, a: Act)
    requires Enabled(c, s, a)
    requires CallsPassedTheCheck(c, s)
    ensures CallsPassedTheCheck(c, Next(c, s, a))
  {
    var t := Next(c, s, a);
    NextGrows(c, s, a);
    forall id | id in t.calls
      ensures t.calls[id].target in c.definitions
      ensures c.validate ==> CallerAccepts(c.definitions[t.calls[id].target], t.calls[id].args)
    {
      if id in s.calls { assert SameRequest(s.calls[id], t.calls[id]); }
    }
  }

  lemma NextKeepsMessages(c: Config, s: State, a: Act)
    requires Enabled(c, s, a)
    requires MessagesConcernCalls(s)
    ensures MessagesConcernCalls(Next(c, s, a))
  {
    var t := Next(c, s, a);
    NextGrows(c, s, a);
    forall m | m in t.commands ensures Concerns(t, m) {
      if m in s.commands { assert Concerns(s, m); }
    }
    forall p | p in t.executing ensures Concerns(t, t.executing[p]) && t.executing[p].target.provider == p {
      if p in s.executing && t.executing[p] == s.executing[p] { assert Concerns(s, s.executing[p]); }
    }
  }

  // ----- where replies come from -----

  /** Some execution of the call's own handler on the call's own arguments gives this reply. */
  ghost predicate Earned(c: Config, executions: seq<Execution>, target: Command, args: Args, reply: Reply) {
    && target in c.definitions
    && exists e :: e in executions && EarnedBy(c, e, target, args, reply)
  }

  ghost predicate EarnedBy(c: Config, e: Execution, target: Command, args: Args, reply: Reply)
    requires target in c.definitions
  {
    && e.target == target && e.args == args
    && reply == ReplyTo(c.definitions[target], c.validate, args, e.outcome)
  }

  ghost predicate ResultsEarned(c: Config, s: State) {
    forall r :: r in s.results ==>
      && r.id in s.calls && r.addressee == s.calls[r.id].caller
      && Earned(c, s.executions, s.calls[r.id].target, s.calls[r.id].args, r.reply)
  }

  lemma {:induction false} EarnedStays(c: Config, before: seq<Execution>, more: seq<Execution>, target: Command,
                                       args: Args, reply: Reply)
    requires Earned(c, before, target, args, reply)
    ensures Earned(c, before + more, target, args, reply)
  {
    var e :| e in before && EarnedBy(c, e, target, args, reply);
    assert e in before + more;
  }

  /** The wrapper never turns a registered call away, so every reply comes from the handler. */
  lemma FinishEarns(c: Config, s: State, p: ModuleId, outcome: Outcome)
    requires Enabled(c, s, FinishCommand(p, outcome))
    requires CallsPassedTheCheck(c, s) && MessagesConcernCalls(s)
    ensures var m, t := s.executing[p], Next(c, s, FinishCommand(p, outcome));
            && t.executions == s.executions + [Execution(m.target, m.args, outcome)]
            && Earned(c, t.executions, m.target, m.args, ReplyTo(c.definitions[m.target], c.validate, m.args, outcome))
  {
    var m, t := s.executing[p], Next(c, s, FinishCommand(p, outcome));
    var e := Execution(m.target, m.args, outcome);
    if c.validate { CallerChecksWhatProvidersCheck(c.definitions[m.target], m.args); }
    assert EarnedBy(c, e, m.target, m.args, ReplyTo(c.definitions[m.target], c.validate, m.args, outcome));
    assert e in t.executions;
  }

  lemma EarnedGrows(c: Config, before: seq<Execution>, after: seq<Execution>, target: Command, args: Args,
                    reply: Reply)
    requires before <= after
    requires Earned(c, before, target, args, reply)
    ensures Earned(c, after, target, args, reply)
  {
    EarnedStays(c, before, after[|before|..], target, args, reply);
    assert after == before + after[|before|..];
  }

  lemma NextKeepsResultsEarned(c: Config, s: State, a: Act)
    requires Enabled(c, s, a)
    requires CallsPassedTheCheck(c, s) && MessagesConcernCalls(s)
    requires ResultsEarned(c, s)
    ensures ResultsEarned(c, Next(c, s, a))
  {
    var t := Next(c, s, a);
    NextGrows(c, s, a);
    forall r | r in t.results
      ensures r.id in t.calls && r.addressee == t.calls[r.id].caller
      ensures Earned(c, t.executions, t.calls[r.id].target, t.calls[r.id].args, r.reply)
    {
      if r in s.results {
        EarnedGrows(c, s.executions, t.executions, s.calls[r.id].target, s.calls[r.id].args, r.reply);
      } else {
        FinishEarns(c, s, a.provider, a.outcome);
      }
    }
  }

  // ----- promises -----

  /** Exactly the calls in progress have a promise, each at its own place. */
  ghost predicate PromisesLive(s: State) {
    && (forall id :: id in s.calls && !s.calls[id].state.Ended? ==>
          PlaceOf(s.calls[id]) in s.live && s.live[PlaceOf(s.calls[id])] == id)
    && (forall p :: p in s.live ==>
          s.live[p] in s.calls && !s.calls[s.live[p]].state.Ended? && PlaceOf(s.calls[s.live[p]]) == p)
    && (forall id :: id in s.timedOut ==> id in s.calls && s.calls[id].state.Ended?)
  }

  lemma LeavingKeepsPromises(s: State, id: CallId, end: End)
    requires PromisesLive(s) && id in s.calls && !s.calls[id].state.Ended?
    ensures PromisesLive(Left(s, id, end))
  {
  }

  lemma SettlingKeepsPromises(s: State, m: ModuleId, id: CallId, reply: Reply)
    requires PromisesLive(s)
    ensures PromisesLive(Settled(s, m, id, reply))
  {
  }

  lemma RegisteringKeepsPromises(c: Config, s: State, a: Act)
    requires a.Register? && Enabled(c, s, a)
    requires PromisesLive(s)
    ensures PromisesLive(Next(c, s, a))
  {
  }

  lemma SameCallsKeepPromises(s: State, t: State)
    requires PromisesLive(s)
    requires t.calls == s.calls && t.live == s.live && t.timedOut == s.timedOut
    ensures PromisesLive(t)
  {
  }

  lemma HandledKeepsPromises(s: State, m: ModuleId, d: Delivery)
    requires PromisesLive(s)
    ensures PromisesLive(Handled(s, m, d))
  {
    var hit := Found(s, m, d.waiter);
    var run := HandlerRun(d.waiter.waitsFor, d.message.id, hit, d.waiter.waitsFor in s.timedOut);
    var rest := s.(delivering := s.delivering - {m}, handlerRuns := s.handlerRuns + [run]);
    SameCallsKeepPromises(s, rest);
    hide PromisesLive, Settled;
    if hit.Some? { SettlingKeepsPromises(rest, m, hit.value, d.message.reply); }
  }

  lemma TimedOutKeepsPromises(s: State, id: CallId)
    requires PromisesLive(s) && id in s.calls && s.calls[id].state.Ended?
    ensures PromisesLive(s.(timedOut := s.timedOut + {id}))
  {
  }

  lemma NextKeepsPromises(c: Config, s: State, a: Act)
    requires Enabled(c, s, a)
    requires PromisesLive(s)
    ensures PromisesLive(Next(c, s, a))
  {
    hide PromisesLive, Handled, ReplyTo, Rethrows, CallerAccepts, ProviderAccepts;
    match a {
      case Register(_, _, _, _, _) =>
        RegisteringKeepsPromises(c, s, a);
      case RunHandler(m) =>
        HandledKeepsPromises(s, m, s.delivering[m]);
      case Return(id) =>
        LeavingKeepsPromises(s, id, EndOf(s.calls[id].state.reply));
      case Timeout(id) =>
        LeavingKeepsPromises(s, id, Fails(CmdTimeout));
        TimedOutKeepsPromises(Left(s, id, Fails(CmdTimeout)), id);
      case _ =>
        SameCallsKeepPromises(s, Next(c, s, a));
    }
  }

  // ----- how calls end -----

  /** A call that has timed out has failed with that, its promise never set; any other that is over ended as its
      promise says. */
  ghost predicate EndFits(k: CallRecord, timedOut: bool, settled: Option<Reply>) {
    if timedOut then k.state == Ended(Fails(CmdTimeout)) && settled == None
    else
      match k.state
      case Waiting => settled == None
      case Ready(reply) => settled == Some(reply)
      case Ended(end) => settled.Some? && end == EndOf(settled.value)
  }

  function SettledTo(s: State, id: CallId): Option<Reply> {
    if id in s.settled then Some(s.settled[id]) else None
  }

  ghost predicate EndsFit(s: State) {
    && s.timedOut <= s.calls.Keys && s.settled.Keys <= s.calls.Keys
    && forall id :: id in s.calls ==> EndFits(s.calls[id], id in s.timedOut, SettledTo(s, id))
  }

  lemma OneCallSettled(s: State, t: State, id: CallId, reply: Reply)
    requires EndsFit(s) && id in s.calls && s.calls[id].state == Waiting
    requires t.calls == s.calls[id := s.calls[id].(state := Ready(reply))] && t.settled == s.settled[id := reply]
    requires t.timedOut == s.timedOut
    ensures EndsFit(t)
  {
    assert EndFits(s.calls[id], id in s.timedOut, SettledTo(s, id));
    forall x | x in t.calls ensures EndFits(t.calls[x], x in t.timedOut, SettledTo(t, x)) {
      if x != id { assert EndFits(s.calls[x], x in s.timedOut, SettledTo(s, x)); }
    }
  }

  lemma SettlingKeepsEnds(s: State, m: ModuleId, id: CallId, reply: Reply)
    requires EndsFit(s)
    ensures EndsFit(Settled(s, m, id, reply))
  {
    hide EndsFit;
    var t := Settled(s, m, id, reply);
    if id in s.calls && s.calls[id].state == Waiting {
      OneCallSettled(s, t, id, reply);
    } else {
      SameCallsKeepEnds(s, t);
    }
  }

  lemma LeavingKeepsEnds(s: State, t: State, id: CallId, end: End, late: bool)
    requires EndsFit(s) && id in s.calls
    requires if late then s.calls[id].state == Waiting && end == Fails(CmdTimeout)
             else s.calls[id].state.Ready? && end == EndOf(s.calls[id].state.reply)
    requires t.calls == s.calls[id := s.calls[id].(state := Ended(end))] && t.settled == s.settled
    requires t.timedOut == if late then s.timedOut + {id} else s.timedOut
    ensures EndsFit(t)
  {
    assert EndFits(s.calls[id], id in s.timedOut, SettledTo(s, id));
    forall x | x in t.calls ensures EndFits(t.calls[x], x in t.timedOut, SettledTo(t, x)) {
      if x != id { assert EndFits(s.calls[x], x in s.timedOut, SettledTo(s, x)); }
    }
  }

  lemma RegisteringKeepsEnds(s: State, t: State, id: CallId, k: CallRecord)
    requires EndsFit(s) && id !in s.calls && k.state == Waiting
    requires t.calls == s.calls[id := k] && t.settled == s.settled && t.timedOut == s.timedOut
    ensures EndsFit(t)
  {
    forall x | x in t.calls ensures EndFits(t.calls[x], x in t.timedOut, SettledTo(t, x)) {
      if x != id { assert EndFits(s.calls[x], x in s.timedOut, SettledTo(s, x)); }
    }
  }

  lemma NextKeepsEnds(c: Config, s: State, a: Act)
    requires Enabled(c, s, a)
    requires EndsFit(s)
    ensures EndsFit(Next(c, s, a))
  {
    var t := Next(c, s, a);
    hide EndsFit, EndFits, Handled, ReplyTo, Rethrows, CallerAccepts, ProviderAccepts;
    match a {
      case Register(id, caller, target, args, address) =>
        RegisteringKeepsEnds(s, t, id, CallRecord(caller, target, args, address, Waiting));
      case RunHandler(m) =>
        HandledKeepsEnds(s, m, s.delivering[m]);
      case Return(id) =>
        LeavingKeepsEnds(s, t, id, EndOf(s.calls[id].state.reply), false);
      case Timeout(id) =>
        LeavingKeepsEnds(s, t, id, Fails(CmdTimeout), true);
      case _ =>
        SameCallsKeepEnds(s, t);
    }
  }

  lemma HandledKeepsEnds(s: State, m: ModuleId, d: Delivery)
    requires EndsFit(s)
    ensures EndsFit(Handled(s, m, d))
  {
    var hit := Found(s, m, d.waiter);
    var run := HandlerRun(d.waiter.waitsFor, d.message.id, hit, d.waiter.waitsFor in s.timedOut);
    var rest := s.(delivering := s.delivering - {m}, handlerRuns := s.handlerRuns + [run]);
    SameCallsKeepEnds(s, rest);
    hide EndsFit, Settled;
    if hit.Some? { SettlingKeepsEnds(rest, m, hit.value, d.message.reply); }
  }

  lemma SameCallsKeepEnds(s: State, t: State)
    requires EndsFit(s)
    requires t.calls == s.calls && t.settled == s.settled && t.timedOut == s.timedOut
    ensures EndsFit(t)
  {
    forall x | x in t.calls ensures EndFits(t.calls[x], x in t.timedOut, SettledTo(t, x)) {
      assert EndFits(s.calls[x], x in s.timedOut, SettledTo(s, x));
    }
  }

  /** Promises are only ever set to results that were sent to their callers. */
  ghost predicate SettledWereSent(s: State) {
    forall id :: id in s.settled ==> id in s.calls && SentTo(s, s.calls[id].caller, s.settled[id])
  }

  ghost predicate SentTo(s: State, m: ModuleId, reply: Reply) {
    exists r :: r in s.results && r.addressee == m && r.reply == reply
  }

  lemma SentStays(s: State, t: State)
    requires SettledWereSent(s) && Grows(s, t) && s.results <= t.results
    requires t.settled == s.settled
    ensures SettledWereSent(t)
  {
    forall id | id in t.settled ensures id in t.calls && SentTo(t, t.calls[id].caller, t.settled[id]) {
      assert SameRequest(s.calls[id], t.calls[id]);
      var r :| r in s.results && r.addressee == s.calls[id].caller && r.reply == s.settled[id];
      assert r in t.results;
    }
  }

  lemma OneMoreSent(s: State, t: State, hit: CallId, r: ResultMessage)
    requires SettledWereSent(s) && Grows(s, t) && s.results <= t.results
    requires hit in s.calls && r in s.results && r.addressee == s.calls[hit].caller
    requires t.settled == s.settled[hit := r.reply]
    ensures SettledWereSent(t)
  {
    forall id | id in t.settled ensures id in t.calls && SentTo(t, t.calls[id].caller, t.settled[id]) {
      assert id in s.calls && SameRequest(s.calls[id], t.calls[id]);
      if id == hit {
        assert r in t.results;
      } else {
        var q :| q in s.results && q.addressee == s.calls[id].caller && q.reply == s.settled[id];
        assert q in t.results;
      }
    }
  }

  lemma OthersKeepSettled(c: Config, s: State, a: Act)
    requires Enabled(c, s, a) && !a.RunHandler?
    ensures Next(c, s, a).settled == s.settled && s.results <= Next(c, s, a).results
  {
  }

  lemma SettledByHandler(s: State, m: ModuleId)
    requires m in s.delivering && PromisesLive(s)
    ensures var t, hit := Handled(s, m, s.delivering[m]), Found(s, m, s.delivering[m].waiter);
            && t.results == s.results
            && (t.settled == s.settled
                || (hit.Some? && hit.value in s.calls && s.calls[hit.value].caller == m
                    && t.settled == s.settled[hit.value := s.delivering[m].message.reply]))
  {
  }

  lemma NextKeepsSettled(c: Config, s: State, a: Act)
    requires Enabled(c, s, a)
    requires ResultsEarned(c, s) && PromisesLive(s) && DeliveriesFit(s) && SettledWereSent(s)
    ensures SettledWereSent(Next(c, s, a))
  {
    hide PromisesLive, Earned, SettledWereSent, Next, Enabled, Grows, Found;
    var t := Next(c, s, a);
    NextGrows(c, s, a);
    if a.RunHandler? {
      var m := a.caller;
      HandlerStep(c, s, m);
      SettledByHandler(s, m);
      assert DeliveryFits(s, m, s.delivering[m]);
      if t.settled == s.settled {
        SentStays(s, t);
      } else {
        OneMoreSent(s, t, Found(s, m, s.delivering[m].waiter).value, s.delivering[m].message);
      }
    } else {
      OthersKeepSettled(c, s, a);
      SentStays(s, t);
    }
  }

  // ----- what handlers see, and whose process ends -----

  /** With validation on, every handler that ran got fitting arguments. */
  ghost predicate ExecutionsFit(c: Config, s: State) {
    forall i :: 0 <= i < |s.executions| ==> ExecutionFits(c, s.executions[i])
  }

  ghost predicate ExecutionFits(c: Config, e: Execution) {
    e.target in c.definitions && (c.validate ==> Fitting(c.definitions[e.target], e.args))
  }

  lemma FinishKeepsExecutionsFit(c: Config, s: State, p: ModuleId, outcome: Outcome)
    requires Enabled(c, s, FinishCommand(p, outcome))
    requires CallsPassedTheCheck(c, s) && MessagesConcernCalls(s) && ExecutionsFit(c, s)
    ensures ExecutionsFit(c, Next(c, s, FinishCommand(p, outcome)))
  {
    var m := s.executing[p];
    FinishEarns(c, s, p, outcome);
    assert ExecutionFits(c, Execution(m.target, m.args, outcome)) by {
      CallerChecksWhatProvidersCheck(c.definitions[m.target], m.args);
    }
    hide *;
    OneMoreFits(c, s, Next(c, s, FinishCommand(p, outcome)), Execution(m.target, m.args, outcome));
  }

  lemma OneMoreFits(c: Config, s: State, t: State, e: Execution)
    requires ExecutionsFit(c, s) && ExecutionFits(c, e) && t.executions == s.executions + [e]
    ensures ExecutionsFit(c, t)
  {
  }

  lemma NextKeepsExecutionsFit(c: Config, s: State, a: Act)
    requires Enabled(c, s, a)
    requires CallsPassedTheCheck(c, s) && MessagesConcernCalls(s) && ExecutionsFit(c, s)
    ensures ExecutionsFit(c, Next(c, s, a))
  {
    hide ExecutionFits, CallsPassedTheCheck, MessagesConcernCalls;
    if a.FinishCommand? {
      FinishKeepsExecutionsFit(c, s, a.provider, a.outcome);
    } else {
      assert Next(c, s, a).executions == s.executions;
    }
  }

  /** Exactly the modules whose handlers failed have ended, and none if exceptions are forwarded. */
  ghost predicate DeadFit(c: Config, s: State) {
    forall m :: m in s.dead <==> !c.forwardExceptions && HandlerFailed(s.executions, m)
  }

  ghost predicate HandlerFailed(executions: seq<Execution>, m: ModuleId) {
    exists i :: 0 <= i < |executions| && executions[i].target.provider == m && FailsInHandler(executions[i].outcome)
  }

  lemma OneMoreFailed(executions: seq<Execution>, e: Execution, m: ModuleId)
    ensures HandlerFailed(executions + [e], m)
       <==> HandlerFailed(executions, m) || (e.target.provider == m && FailsInHandler(e.outcome))
  {
    var more := executions + [e];
    assert more[|executions|] == e;
    if HandlerFailed(executions, m) {
      var i :| 0 <= i < |executions| && executions[i].target.provider == m && FailsInHandler(executions[i].outcome);
      assert more[i] == executions[i];
    }
  }

  lemma FinishKeepsDead(c: Config, s: State, p: ModuleId, outcome: Outcome)
    requires Enabled(c, s, FinishCommand(p, outcome))
    requires CallsPassedTheCheck(c, s) && MessagesConcernCalls(s) && DeadFit(c, s)
    ensures DeadFit(c, Next(c, s, FinishCommand(p, outcome)))
  {
    var m, t := s.executing[p], Next(c, s, FinishCommand(p, outcome));
    FinishEarns(c, s, p, outcome);
    FinishMayKill(c, s, p, outcome);
    assert m.target.provider == p;
    hide *;
    OneMoreDead(c, s, t, Execution(m.target, m.args, outcome));
  }

  lemma FinishMayKill(c: Config, s: State, p: ModuleId, outcome: Outcome)
    requires Enabled(c, s, FinishCommand(p, outcome))
    requires CallsPassedTheCheck(c, s) && MessagesConcernCalls(s)
    ensures Next(c, s, FinishCommand(p, outcome)).dead
         == s.dead + if !c.forwardExceptions && FailsInHandler(outcome) then {p} else {}
  {
    var m := s.executing[p];
    assert Concerns(s, m);
    CallerChecksWhatProvidersCheck(c.definitions[m.target], m.args);
    assert c.validate ==> ProviderAccepts(c.definitions[m.target], m.args);
    hide *;
    FinishMayRethrow(c, s, p, outcome);
    RethrowsHandlerFailures(c.definitions[m.target], c.validate, m.args, outcome, c.forwardExceptions);
  }

  lemma FinishMayRethrow(c: Config, s: State, p: ModuleId, outcome: Outcome)
    requires Enabled(c, s, FinishCommand(p, outcome))
    ensures var m := s.executing[p];
            var reply := ReplyTo(c.definitions[m.target], c.validate, m.args, outcome);
            Next(c, s, FinishCommand(p, outcome)).dead
              == s.dead + if Rethrows(reply, c.forwardExceptions) then {p} else {}
  {
    hide ReplyTo, Rethrows, ProviderAccepts;
  }

  lemma RethrowsHandlerFailures(d: Definition, validate: bool, args: Args, outcome: Outcome, forwardExceptions: bool)
    requires validate ==> ProviderAccepts(d, args)
    ensures Rethrows(ReplyTo(d, validate, args, outcome), forwardExceptions)
       <==> !forwardExceptions && FailsInHandler(outcome)
  {
    hide ProviderAccepts;
  }

  lemma OneMoreDead(c: Config, s: State, t: State, e: Execution)
    requires DeadFit(c, s) && t.executions == s.executions + [e]
    requires t.dead == s.dead + if !c.forwardExceptions && FailsInHandler(e.outcome) then {e.target.provider} else {}
    ensures DeadFit(c, t)
  {
    hide HandlerFailed, FailsInHandler;
    forall x ensures x in t.dead <==> !c.forwardExceptions && HandlerFailed(t.executions, x) {
      OneMoreFailed(s.executions, e, x);
    }
  }

  lemma NextKeepsDead(c: Config, s: State, a: Act)
    requires Enabled(c, s, a) && !a.RunHandler?
    requires CallsPassedTheCheck(c, s) && MessagesConcernCalls(s) && DeadFit(c, s)
    ensures DeadFit(c, Next(c, s, a))
  {
    hide CallsPassedTheCheck, MessagesConcernCalls, Next, Enabled, HandlerFailed;
    if a.FinishCommand? {
      FinishKeepsDead(c, s, a.provider, a.outcome);
    } else {
      OthersKeepDead(c, s, a);
    }
  }

  lemma OthersKeepDead(c: Config, s: State, a: Act)
    requires Enabled(c, s, a) && !a.FinishCommand? && !a.RunHandler?
    ensures Next(c, s, a).dead == s.dead && Next(c, s, a).executions == s.executions
  {
  }

  // ----- result handlers -----

  /** A taken handler holds a result of its own call, and the address of its own call's promise. */
  ghost predicate DeliveryFits(s: State, m: ModuleId, d: Delivery) {
    var id := d.waiter.waitsFor;
    && id == d.message.id && d.message in s.results
    && id in s.answered && id in s.calls && s.calls[id].caller == m && s.calls[id].address == d.waiter.address
  }

  ghost predicate DeliveriesFit(s: State) {
    forall m :: m in s.delivering ==> DeliveryFits(s, m, s.delivering[m])
  }

  lemma FewerDeliveriesFit(s: State, t: State)
    requires DeliveriesFit(s)
    requires Grows(s, t) && s.results <= t.results && s.answered <= t.answered
    requires forall m :: m in t.delivering ==> m in s.delivering && t.delivering[m] == s.delivering[m]
    ensures DeliveriesFit(t)
  {
    forall m | m in t.delivering ensures DeliveryFits(t, m, t.delivering[m]) {
      assert DeliveryFits(s, m, s.delivering[m]);
      assert SameRequest(s.calls[t.delivering[m].waiter.waitsFor], t.calls[t.delivering[m].waiter.waitsFor]);
    }
  }

  lemma TakingKeepsDeliveries(c: Config, s: State, a: Act)
    requires a.TakeResult? && Enabled(c, s, a)
    requires PendingIsRegisteredMinusAnswered(s) && DeliveriesFit(s)
    ensures DeliveriesFit(Next(c, s, a))
  {
    var t := Next(c, s, a);
    forall m | m in t.delivering ensures DeliveryFits(t, m, t.delivering[m]) {
      if m in s.delivering { assert DeliveryFits(s, m, s.delivering[m]); }
    }
  }

  lemma NextKeepsLogs(c: Config, s: State, a: Act)
    requires Enabled(c, s, a) && !a.TakeResult?
    ensures var t := Next(c, s, a);
            && s.results <= t.results && s.answered <= t.answered
            && forall m :: m in t.delivering ==> m in s.delivering && t.delivering[m] == s.delivering[m]
  {
    hide ReplyTo, CallerAccepts, ProviderAccepts;
  }

  lemma NextKeepsDeliveries(c: Config, s: State, a: Act)
    requires Enabled(c, s, a)
    requires PendingIsRegisteredMinusAnswered(s) && DeliveriesFit(s)
    ensures DeliveriesFit(Next(c, s, a))
  {
    if a.TakeResult? {
      TakingKeepsDeliveries(c, s, a);
    } else {
      hide PendingIsRegisteredMinusAnswered, DeliveriesFit, Grows, Next, Enabled;
      NextGrows(c, s, a);
      NextKeepsLogs(c, s, a);
      FewerDeliveriesFit(s, Next(c, s, a));
    }
  }

  function RanIds(runs: seq<HandlerRun>): set<CallId> {
    set i | 0 <= i < |runs| :: runs[i].waitsFor
  }

  lemma RanOneMore(runs: seq<HandlerRun>, r: HandlerRun)
    ensures RanIds(runs + [r]) == RanIds(runs) + {r.waitsFor}
  {
    var more := runs + [r];
    assert more[|runs|] == r;
    assert forall i :: 0 <= i < |runs| ==> more[i] == runs[i];
    forall id | id in RanIds(runs) ensures id in RanIds(more) {
      var i :| 0 <= i < |runs| && runs[i].waitsFor == id;
      assert more[i].waitsFor == id;
    }
  }

  /** Handlers have run on results of their own calls, each at most once, and none that is still to run. A handler
      whose call has timed out cannot have found its own promise. */
  ghost predicate HandlersRanOnce(s: State) {
    && RanIds(s.handlerRuns) <= s.answered
    && (forall i :: 0 <= i < |s.handlerRuns| ==> RanRight(s.handlerRuns[i]))
    && (forall i, j :: 0 <= i < j < |s.handlerRuns| ==> s.handlerRuns[i].waitsFor != s.handlerRuns[j].waitsFor)
    && (forall m :: m in s.delivering ==> s.delivering[m].waiter.waitsFor !in RanIds(s.handlerRuns))
  }

  ghost predicate RanRight(r: HandlerRun) {
    && r.received == r.waitsFor
    && (r.hit == Some(r.waitsFor) ==> !r.late)
  }

  lemma OneMoreRanOnce(s: State, t: State, m: ModuleId, r: HandlerRun)
    requires DeliveriesFit(s) && HandlersRanOnce(s)
    requires m in s.delivering && r.waitsFor == s.delivering[m].waiter.waitsFor && RanRight(r)
    requires t.handlerRuns == s.handlerRuns + [r] && t.delivering == s.delivering - {m} && t.answered == s.answered
    ensures HandlersRanOnce(t)
  {
    assert DeliveryFits(s, m, s.delivering[m]);
    RanOneMore(s.handlerRuns, r);
    forall i | 0 <= i < |s.handlerRuns| ensures s.handlerRuns[i].waitsFor != r.waitsFor {
      assert s.handlerRuns[i].waitsFor in RanIds(s.handlerRuns);
    }
    forall n | n in t.delivering ensures t.delivering[n].waiter.waitsFor != r.waitsFor {
      assert DeliveryFits(s, n, s.delivering[n]);
    }
  }

  lemma HandlerStep(c: Config, s: State, m: ModuleId)
    requires Enabled(c, s, RunHandler(m))
    ensures m in s.delivering
    ensures Next(c, s, RunHandler(m)) == Handled(s, m, s.delivering[m])
  {
  }

  lemma RunOfHandler(s: State, m: ModuleId) returns (r: HandlerRun)
    requires m in s.delivering
    requires DeliveryFits(s, m, s.delivering[m]) && PromisesLive(s)
    ensures var w, t := s.delivering[m].waiter, Handled(s, m, s.delivering[m]);
            && r == HandlerRun(w.waitsFor, s.delivering[m].message.id, Found(s, m, w), w.waitsFor in s.timedOut)
            && RanRight(r)
            && t.handlerRuns == s.handlerRuns + [r] && t.delivering == s.delivering - {m} && t.answered == s.answered
            && t.executions == s.executions && t.timedOut == s.timedOut
  {
    var w := s.delivering[m].waiter;
    r := HandlerRun(w.waitsFor, s.delivering[m].message.id, Found(s, m, w), w.waitsFor in s.timedOut);
  }

  lemma RunningKeepsHandlersRanOnce(c: Config, s: State, m: ModuleId)
    requires Enabled(c, s, RunHandler(m))
    requires DeliveriesFit(s) && PromisesLive(s) && HandlersRanOnce(s)
    ensures HandlersRanOnce(Next(c, s, RunHandler(m)))
  {
    hide PromisesLive, HandlersRanOnce, Next, Found, DeliveryFits, RanRight;
    HandlerStep(c, s, m);
    var r := RunOfHandler(s, m);
    OneMoreRanOnce(s, Next(c, s, RunHandler(m)), m, r);
  }

  lemma NextKeepsHandlersRanOnce(c: Config, s: State, a: Act)
    requires Enabled(c, s, a)
    requires PendingIsRegisteredMinusAnswered(s) && DeliveriesFit(s) && PromisesLive(s) && HandlersRanOnce(s)
    ensures HandlersRanOnce(Next(c, s, a))
  {
    if a.RunHandler? {
      RunningKeepsHandlersRanOnce(c, s, a.caller);
    } else {
      hide PromisesLive, DeliveryFits;
      assert Next(c, s, a).handlerRuns == s.handlerRuns;
    }
  }

  // ----- what holds while no result comes late -----

  /** No result handler has run for a call that had timed out. */
  ghost predicate NoneLate(runs: seq<HandlerRun>) {
    forall i :: 0 <= i < |runs| ==> !runs[i].late
  }

  /** Every result handler has found the promise of its own call. */
  ghost predicate AllFoundTheirOwn(runs: seq<HandlerRun>) {
    forall i :: 0 <= i < |runs| ==> runs[i].hit == Some(runs[i].waitsFor)
  }

  /** The state of a call was earned: some execution of its own handler on its own arguments explains it. */
  ghost predicate CallEarned(c: Config, executions: seq<Execution>, k: CallRecord) {
    match k.state
    case Waiting => true
    case Ready(reply) => Earned(c, executions, k.target, k.args, reply)
    case Ended(end) => exists reply :: Earned(c, executions, k.target, k.args, reply) && end == EndOf(reply)
  }

  ghost predicate CallsEarned(c: Config, s: State) {
    forall id :: id in s.calls && id !in s.timedOut ==> CallEarned(c, s.executions, s.calls[id])
  }

  /** A call whose handler has not run is still waiting or has timed out. */
  ghost predicate UnansweredWait(s: State) {
    forall id :: id in s.calls && id !in RanIds(s.handlerRuns) && id !in s.timedOut ==> s.calls[id].state == Waiting
  }

  ghost predicate Punctual(c: Config, s: State) {
    UnansweredWait(s) && CallsEarned(c, s) && AllFoundTheirOwn(s.handlerRuns) && DeadFit(c, s)
  }

  /** A handler that comes in time sets the promise of its own call, which has not been set before. */
  lemma PunctualHandler(c: Config, s: State, m: ModuleId)
    requires Enabled(c, s, RunHandler(m))
    requires DeliveriesFit(s) && PromisesLive(s) && HandlersRanOnce(s) && UnansweredWait(s)
    requires s.delivering[m].waiter.waitsFor !in s.timedOut
    ensures var id, t := s.delivering[m].waiter.waitsFor, Next(c, s, RunHandler(m));
            && Found(s, m, s.delivering[m].waiter) == Some(id)
            && s.calls[id].state == Waiting
            && t.calls == s.calls[id := s.calls[id].(state := Ready(s.delivering[m].message.reply))]
            && t.handlerRuns == s.handlerRuns + [HandlerRun(id, id, Some(id), false)]
            && t.dead == s.dead
  {
    assert DeliveryFits(s, m, s.delivering[m]);
  }

  lemma CallEarnedGrows(c: Config, before: seq<Execution>, after: seq<Execution>, k: CallRecord)
    requires before <= after
    requires CallEarned(c, before, k)
    ensures CallEarned(c, after, k)
  {
    match k.state
    case Waiting =>
    case Ready(reply) => EarnedGrows(c, before, after, k.target, k.args, reply);
    case Ended(end) =>
      var reply :| Earned(c, before, k.target, k.args, reply) && end == EndOf(reply);
      EarnedGrows(c, before, after, k.target, k.args, reply);
  }

  lemma NextKeepsCallsEarned(c: Config, s: State, a: Act)
    requires Enabled(c, s, a) && !a.RunHandler?
    requires CallsEarned(c, s)
    ensures CallsEarned(c, Next(c, s, a))
  {
    var t := Next(c, s, a);
    NextGrows(c, s, a);
    forall id | id in t.calls && id !in t.timedOut ensures CallEarned(c, t.executions, t.calls[id]) {
      if id in s.calls { CallEarnedGrows(c, s.executions, t.executions, s.calls[id]); }
    }
  }

  lemma OneMorePunctual(c: Config, s: State, t: State, id: CallId, reply: Reply)
    requires Punctual(c, s)
    requires id in s.calls && Earned(c, s.executions, s.calls[id].target, s.calls[id].args, reply)
    requires t.calls == s.calls[id := s.calls[id].(state := Ready(reply))]
    requires t.handlerRuns == s.handlerRuns + [HandlerRun(id, id, Some(id), false)]
    requires t.executions == s.executions && t.timedOut == s.timedOut && t.dead == s.dead
    ensures Punctual(c, t)
  {
    hide Earned;
    RanOneMore(s.handlerRuns, HandlerRun(id, id, Some(id), false));
  }

  lemma RunningKeepsPunctual(c: Config, s: State, m: ModuleId)
    requires Enabled(c, s, RunHandler(m))
    requires ResultsEarned(c, s) && DeliveriesFit(s) && PromisesLive(s) && HandlersRanOnce(s)
    requires NoneLate(Next(c, s, RunHandler(m)).handlerRuns)
    requires Punctual(c, s)
    ensures Punctual(c, Next(c, s, RunHandler(m)))
  {
    hide PromisesLive, HandlersRanOnce, Next, Found, RanRight, CallsEarned, AllFoundTheirOwn, UnansweredWait, Earned;
    hide DeadFit;
    var t, d := Next(c, s, RunHandler(m)), s.delivering[m];
    assert DeliveryFits(s, m, d);
    HandlerStep(c, s, m);
    var r := RunOfHandler(s, m);
    assert t.handlerRuns[|s.handlerRuns|] == r;
    PunctualHandler(c, s, m);
    OneMorePunctual(c, s, t, d.message.id, d.message.reply);
  }

  lemma NextKeepsPunctual(c: Config, s: State, a: Act)
    requires Enabled(c, s, a)
    requires CallsPassedTheCheck(c, s) && MessagesConcernCalls(s)
    requires ResultsEarned(c, s) && DeliveriesFit(s) && PromisesLive(s) && HandlersRanOnce(s)
    requires NoneLate(Next(c, s, a).handlerRuns)
    requires Punctual(c, s)
    ensures Punctual(c, Next(c, s, a))
  {
    var t := Next(c, s, a);
    if a.RunHandler? {
      RunningKeepsPunctual(c, s, a.caller);
    } else {
      NextKeepsCallsEarned(c, s, a);
      NextKeepsDead(c, s, a);
      hide CallsPassedTheCheck, MessagesConcernCalls, DeadFit;
      hide PromisesLive, DeliveriesFit, HandlersRanOnce, ResultsEarned, CallsEarned;
      assert t.handlerRuns == s.handlerRuns;
    }
  }

  // ----- over whole runs -----

  ghost predicate Sound(c: Config, s: State) {
    && PendingIsRegisteredMinusAnswered(s)
    && CallsPassedTheCheck(c, s) && MessagesConcernCalls(s)
    && ResultsEarned(c, s)
    && PromisesLive(s) && DeliveriesFit(s) && HandlersRanOnce(s)
    && EndsFit(s) && SettledWereSent(s) && ExecutionsFit(c, s)
  }

  lemma NextKeepsSound(c: Config, s: State, a: Act)
    requires Enabled(c, s, a)
    requires Sound(c, s)
    ensures Sound(c, Next(c, s, a))
  {
    NextKeepsPending(c, s, a);
    NextKeepsCheck(c, s, a);
    NextKeepsMessages(c, s, a);
    NextKeepsResultsEarned(c, s, a);
    NextKeepsPromises(c, s, a);
    NextKeepsDeliveries(c, s, a);
    NextKeepsHandlersRanOnce(c, s, a);
    NextKeepsEnds(c, s, a);
    NextKeepsSettled(c, s, a);
    NextKeepsExecutionsFit(c, s, a);
  }

  /** Sound, and punctual unless a result has come late. */
  ghost predicate SoundSoFar(c: Config, s: State) {
    Sound(c, s) && (NoneLate(s.handlerRuns) ==> Punctual(c, s))
  }

  lemma NextKeepsSoundSoFar(c: Config, s: State, a: Act)
    requires Enabled(c, s, a)
    requires SoundSoFar(c, s)
    ensures SoundSoFar(c, Next(c, s, a))
  {
    hide Punctual, PendingIsRegisteredMinusAnswered, CallsPassedTheCheck, MessagesConcernCalls, ResultsEarned;
    hide PromisesLive, DeliveriesFit, HandlersRanOnce, Next, Enabled, NoneLate;
    NextKeepsSound(c, s, a);
    if NoneLate(Next(c, s, a).handlerRuns) {
      NoneLateBefore(c, s, a);
      NextKeepsPunctual(c, s, a);
    }
  }

  lemma NoneLateBefore(c: Config, s: State, a: Act)
    requires Enabled(c, s, a) && NoneLate(Next(c, s, a).handlerRuns)
    ensures NoneLate(s.handlerRuns)
  {
    var t := Next(c, s, a);
    assert s.handlerRuns <= t.handlerRuns;
    assert forall i :: 0 <= i < |s.handlerRuns| ==> s.handlerRuns[i] == t.handlerRuns[i];
  }

  lemma {:induction false} RunKeepsSound(c: Config, s: State, acts: seq<Act>)
    requires Feasible(c, s, acts)
    requires SoundSoFar(c, s)
    ensures SoundSoFar(c, Run(c, s, acts))
    decreases |acts|
  {
    hide SoundSoFar;
    if acts != [] {
      NextKeepsSoundSoFar(c, s, acts[0]);
      RunKeepsSound(c, Next(c, s, acts[0]), acts[1..]);
    }
  }

  lemma StartIsSound(c: Config)
    ensures SoundSoFar(c, START)
  {
  }

  /** In every reachable state the pending table is the registered calls minus the answered ones, each under its
      own id; every result handler has run at most once and only on a result with its own id; and every reply
      was earned by an execution of the right handler on the right arguments. */
  lemma EveryRunIsSound(c: Config, acts: seq<Act>)
    requires Feasible(c, START, acts)
    ensures Sound(c, Run(c, START, acts))
  {
    StartIsSound(c);
    RunKeepsSound(c, START, acts);
  }

  /** In every reachable state, whether or not a result came late: a call that has timed out has failed with just that;
      any other call that is over ended as the one result did that its promise was set to, which some provider had sent
      to its caller; and a call still in progress is ready exactly if its promise has been set. */
  lemma EveryEndIsPinned(c: Config, acts: seq<Act>, id: CallId)
    requires Feasible(c, START, acts)
    requires id in Run(c, START, acts).calls
    ensures var t := Run(c, START, acts);
            var k := t.calls[id];
            && (id in t.timedOut ==> k.state == Ended(Fails(CmdTimeout)))
            && (id in t.timedOut ==> id !in t.settled)
            && (id !in t.timedOut && k.state != Waiting ==>
                  && id in t.settled && SentTo(t, k.caller, t.settled[id])
                  && k.state == if k.state.Ended? then Ended(EndOf(t.settled[id])) else Ready(t.settled[id]))
            && (k.state == Waiting ==> id !in t.settled)
  {
    EveryRunIsSound(c, acts);
    var t := Run(c, START, acts);
    assert EndsFit(t) && SettledWereSent(t);
    hide Run, Sound, Feasible, SentTo;
    assert EndFits(t.calls[id], id in t.timedOut, SettledTo(t, id));
  }

  /** With validation on, whatever is published, no handler ever runs on arguments other than the declared ones, all
      there and each allowed. */
  lemma HandlersGetFittingArguments(c: Config, acts: seq<Act>, e: Execution)
    requires Feasible(c, START, acts)
    requires e in Run(c, START, acts).executions
    ensures e.target in c.definitions
    ensures c.validate ==>
              && e.args.Keys == c.definitions[e.target].arguments
              && forall a :: a in e.args ==> c.definitions[e.target].argumentAllowed(a, e.args[a])
  {
    EveryRunIsSound(c, acts);
    assert ExecutionsFit(c, Run(c, START, acts));
    hide Run, Sound, Feasible;
    assert ExecutionFits(c, e);
  }

  /** As long as no result handler has run for a call that had timed out, a process has ended if and only if one of its
      handlers threw a handler exception or what is no command error, and exceptions are not forwarded. */
  lemma OnlyFailingHandlersEndProcesses(c: Config, acts: seq<Act>, m: ModuleId)
    requires Feasible(c, START, acts)
    requires NoneLate(Run(c, START, acts).handlerRuns)
    ensures var t := Run(c, START, acts);
            m in t.dead <==>
              && !c.forwardExceptions
              && exists i :: 0 <= i < |t.executions| && t.executions[i].target.provider == m
                             && (t.executions[i].outcome == Threw(Other)
                                 || t.executions[i].outcome == Threw(Known(HandlerException)))
  {
    StartIsSound(c);
    RunKeepsSound(c, START, acts);
    assert DeadFit(c, Run(c, START, acts));
  }

  /** Every result handler that ran found the promise of its own call, if and only if none ran for a call that had
      timed out. */
  lemma PromisesAreOwnIffNoneLate(c: Config, acts: seq<Act>)
    requires Feasible(c, START, acts)
    ensures AllFoundTheirOwn(Run(c, START, acts).handlerRuns) <==> NoneLate(Run(c, START, acts).handlerRuns)
  {
    StartIsSound(c);
    RunKeepsSound(c, START, acts);
    var runs := Run(c, START, acts).handlerRuns;
    if AllFoundTheirOwn(runs) {
      forall i | 0 <= i < |runs| ensures !runs[i].late { assert RanRight(runs[i]); }
    }
  }

  /** As long as no result handler has run for a call that had timed out: when a call returns a value, its own
      handler, run on its own arguments, returned that value, and the value passes the declared result schema
      if validation is on; when it fails other than by its own timeout, its own handler was run on its own
      arguments and its outcome is that failure. */
  lemma AnswersAreTheHandlersOwn(c: Config, acts: seq<Act>, id: CallId)
    requires Feasible(c, START, acts)
    requires NoneLate(Run(c, START, acts).handlerRuns)
    requires id in Run(c, START, acts).calls
    ensures var t := Run(c, START, acts);
            var k := t.calls[id];
            k.state.Ended? && id !in t.timedOut ==>
              && k.target in c.definitions
              && exists e :: e in t.executions && Explains(c, e, k)
  {
    StartIsSound(c);
    RunKeepsSound(c, START, acts);
    var t := Run(c, START, acts);
    hide *;
    if t.calls[id].state.Ended? && id !in t.timedOut { EndIsExplained(c, t, id); }
  }

  lemma EndIsExplained(c: Config, t: State, id: CallId)
    requires SoundSoFar(c, t) && NoneLate(t.handlerRuns)
    requires id in t.calls && t.calls[id].state.Ended? && id !in t.timedOut
    ensures var k := t.calls[id]; k.target in c.definitions && exists e :: e in t.executions && Explains(c, e, k)
  {
    var k := t.calls[id];
    assert CallsPassedTheCheck(c, t) && CallsEarned(c, t);
    hide PendingIsRegisteredMinusAnswered, MessagesConcernCalls, ResultsEarned, PromisesLive, DeliveriesFit;
    hide HandlersRanOnce, EndsFit, SettledWereSent, ExecutionsFit, UnansweredWait, DeadFit, Explains;
    assert CallEarned(c, t.executions, k);
    var reply :| Earned(c, t.executions, k.target, k.args, reply) && k.state.end == EndOf(reply);
    var e :| e in t.executions && EarnedBy(c, e, k.target, k.args, reply);
    EarnedExplains(c, e, k, reply);
  }

  lemma EarnedExplains(c: Config, e: Execution, k: CallRecord, reply: Reply)
    requires k.target in c.definitions && k.state.Ended? && k.state.end == EndOf(reply)
    requires EarnedBy(c, e, k.target, k.args, reply)
    requires c.validate ==> CallerAccepts(c.definitions[k.target], k.args)
    ensures Explains(c, e, k)
  {
    CallerChecksWhatProvidersCheck(c.definitions[k.target], k.args);
    hide CallerAccepts, ProviderAccepts, Fitting;
  }

  /** The result schema allows the value; without a schema only null is a result. */
  ghost predicate Declared(d: Definition, v: Value) {
    (d.resultDeclared ==> d.resultAllowed(v)) && (!d.resultDeclared ==> v == Null)
  }

  /** What an execution's outcome says about the call that ended on it. */
  ghost predicate Explains(c: Config, e: Execution, k: CallRecord)
    requires k.target in c.definitions && k.state.Ended?
  {
    && e.target == k.target && e.args == k.args
    && match k.state.end
       case Gives(v) =>
         e.outcome == Returned(v) && (c.validate ==> Declared(c.definitions[k.target], v))
       case Fails(kind) =>
         match e.outcome
         case Threw(Known(thrown)) => kind == thrown
         case Threw(Other) => kind == HandlerException
         case Returned(v) =>
           c.validate && kind == SchemaValidationError && !Declared(c.definitions[k.target], v)
  }

  /** Whenever a result handler is about to run, the message has the id it waits for, so its id test never drops
      anything, and it has not run before. As long as none has been late and this one is not, the promise it
      sets exists, is that of its own call, and has not been set. */
  lemma HandlersNeverMismatch(c: Config, acts: seq<Act>, m: ModuleId)
    requires Feasible(c, START, acts)
    requires Enabled(c, Run(c, START, acts), RunHandler(m))
    ensures var t := Run(c, START, acts);
            var w := t.delivering[m].waiter;
            && w.waitsFor == t.delivering[m].message.id
            && (forall i :: 0 <= i < |t.handlerRuns| ==> t.handlerRuns[i].waitsFor != w.waitsFor)
            && w.waitsFor in t.calls && t.calls[w.waitsFor].caller == m
            && (NoneLate(t.handlerRuns) && w.waitsFor !in t.timedOut ==>
                  Found(t, m, w) == Some(w.waitsFor) && t.calls[w.waitsFor].state == Waiting)
  {
    StartIsSound(c);
    RunKeepsSound(c, START, acts);
    var t := Run(c, START, acts);
    assert DeliveryFits(t, m, t.delivering[m]);
    forall i | 0 <= i < |t.handlerRuns| ensures t.handlerRuns[i].waitsFor != t.delivering[m].waiter.waitsFor {
      assert t.handlerRuns[i].waitsFor in RanIds(t.handlerRuns);
    }
    if NoneLate(t.handlerRuns) && t.delivering[m].waiter.waitsFor !in t.timedOut {
      PunctualHandler(c, t, m);
    }
  }

  // ----- what a late result does -----

  lemma LateHandler(s: State, m: ModuleId)
    requires m in s.delivering
    requires DeliveryFits(s, m, s.delivering[m]) && PromisesLive(s)
    requires s.delivering[m].waiter.waitsFor in s.timedOut
    ensures var w, t := s.delivering[m].waiter, Handled(s, m, s.delivering[m]);
            && w.waitsFor in t.calls && t.calls[w.waitsFor] == s.calls[w.waitsFor]
            && match Found(s, m, w)
               case None => t.calls == s.calls
               case Some(other) =>
                 && other != w.waitsFor && other in s.calls && other in t.calls
                 && (s.calls[other].state == Waiting ==>
                       t.calls[other] == s.calls[other].(state := Ready(s.delivering[m].message.reply)))
  {
  }

  /** In every reachable state, the handler of a call that has timed out never reaches that call again. If another
      call's promise lives at its address by now and is not set, that call gets its reply. */
  lemma LateResultsGoAstray(c: Config, acts: seq<Act>, m: ModuleId)
    requires Feasible(c, START, acts)
    requires Enabled(c, Run(c, START, acts), RunHandler(m))
    requires Run(c, START, acts).delivering[m].waiter.waitsFor in Run(c, START, acts).timedOut
    ensures var s := Run(c, START, acts);
            var w, t := s.delivering[m].waiter, Next(c, s, RunHandler(m));
            && w.waitsFor in s.calls && w.waitsFor in t.calls && t.calls[w.waitsFor] == s.calls[w.waitsFor]
            && match Found(s, m, w)
               case None => t.calls == s.calls
               case Some(other) =>
                 && other != w.waitsFor && other in s.calls && other in t.calls
                 && (s.calls[other].state == Waiting ==>
                       t.calls[other] == s.calls[other].(state := Ready(s.delivering[m].message.reply)))
  {
    EveryRunIsSound(c, acts);
    var s := Run(c, START, acts);
    assert DeliveryFits(s, m, s.delivering[m]);
    HandlerStep(c, s, m);
    LateHandler(s, m);
    hide Next, Found, PromisesLive, HandlersRanOnce, ResultsEarned, MessagesConcernCalls, Settled;
  }

  lemma {:induction false} RunConcat(c: Config, s: State, xs: seq<Act>, ys: seq<Act>)
    requires Feasible(c, s, xs) && Feasible(c, Run(c, s, xs), ys)
    ensures Feasible(c, s, xs + ys) && Run(c, s, xs + ys) == Run(c, Run(c, s, xs), ys)
    decreases |xs|
  {
    if xs == [] {
      assert xs + ys == ys;
    } else {
      assert (xs + ys)[1..] == xs[1..] + ys;
      RunConcat(c, Next(c, s, xs[0]), xs[1..], ys);
    }
  }

  lemma {:induction false} RunStep(c: Config, s: State, a: Act, rest: seq<Act>)
    requires Enabled(c, s, a) && Feasible(c, Next(c, s, a), rest)
    ensures Feasible(c, s, [a] + rest) && Run(c, s, [a] + rest) == Run(c, Next(c, s, a), rest)
  {
    assert ([a] + rest)[1..] == rest;
  }

  function RegisterOf(id: CallId, k: CallRecord): Act {
    Register(id, k.caller, k.target, k.args, k.address)
  }

  function ReplyOf(c: Config, k: CallRecord, outcome: Outcome): Reply
    requires k.target in c.definitions
  {
    ReplyTo(c.definitions[k.target], c.validate, k.args, outcome)
  }

  /** The steps of one call that nothing interrupts, up to the published result and from there on. */
  function Asking(id: CallId, k: CallRecord, outcome: Outcome): seq<Act> {
    [RegisterOf(id, k), Publish(id), StartCommand(CommandOf(id, k)), FinishCommand(k.target.provider, outcome)]
  }

  function Answering(id: CallId, caller: ModuleId, reply: Reply): seq<Act> {
    [TakeResult(ResultMessage(caller, id, reply)), RunHandler(caller), Return(id)]
  }

  /** The provider can take the call up and the caller its result. */
  ghost predicate CanProceed(c: Config, s: State, id: CallId, k: CallRecord, outcome: Outcome) {
    && k.state == Waiting && Enabled(c, s, RegisterOf(id, k))
    && Alive(s, k.target.provider) && k.target.provider !in s.executing && k.caller !in s.delivering
    && (k.caller == k.target.provider ==> !Rethrows(ReplyOf(c, k, outcome), c.forwardExceptions))
  }

  ghost predicate ReplyIsOut(s: State, id: CallId, k: CallRecord, reply: Reply) {
    && Slot(k.caller, id) in s.pending && s.pending[Slot(k.caller, id)] == Waiter(id, k.address)
    && ResultMessage(k.caller, id, reply) in s.results
    && Alive(s, k.caller) && k.caller !in s.delivering
  }

  /** A call waits at a place. */
  ghost predicate WaitsAt(s: State, id: CallId, k: CallRecord) {
    && k.state == Waiting && id in s.calls && s.calls[id] == k
    && PlaceOf(k) in s.live && s.live[PlaceOf(k)] == id
    && CommandOf(id, k) in s.commands
  }

  lemma AskingGetsAReply(c: Config, s: State, id: CallId, k: CallRecord, outcome: Outcome)
    requires CanProceed(c, s, id, k, outcome)
    ensures var acts := Asking(id, k, outcome);
            && Feasible(c, s, acts)
            && ReplyIsOut(Run(c, s, acts), id, k, ReplyOf(c, k, outcome))
            && WaitsAt(Run(c, s, acts), id, k)
  {
    hide ReplyTo, Rethrows, Handled, CallerAccepts, ProviderAccepts;
    var a0, a1, a2 := RegisterOf(id, k), Publish(id), StartCommand(CommandOf(id, k));
    var a3 := FinishCommand(k.target.provider, outcome);
    var s1 := Next(c, s, a0);
    var s2 := Next(c, s1, a1);
    var s3 := Next(c, s2, a2);
    RunStep(c, s3, a3, []);
    RunStep(c, s2, a2, [a3]);
    RunStep(c, s1, a1, [a2, a3]);
    RunStep(c, s, a0, [a1, a2, a3]);
    assert [a0] + [a1, a2, a3] == Asking(id, k, outcome);
  }

  /** The result of one call is taken and handled, and whichever call waits at its promise's place returns. */
  lemma HandledReplyIsReturned(c: Config, s: State, id: CallId, k: CallRecord, reply: Reply, atPlace: CallId,
                               other: CallRecord)
    requires ReplyIsOut(s, id, k, reply)
    requires WaitsAt(s, atPlace, other) && PlaceOf(other) == PlaceOf(k)
    ensures var acts := [TakeResult(ResultMessage(k.caller, id, reply)), RunHandler(k.caller), Return(atPlace)];
            && Feasible(c, s, acts)
            && atPlace in Run(c, s, acts).calls
            && Run(c, s, acts).calls[atPlace] == other.(state := Ended(EndOf(reply)))
            && Run(c, s, acts).executions == s.executions
  {
    var a0, a1, a2 := TakeResult(ResultMessage(k.caller, id, reply)), RunHandler(k.caller), Return(atPlace);
    var s1 := Next(c, s, a0);
    assert s1.delivering[k.caller] == Delivery(Waiter(id, k.address), ResultMessage(k.caller, id, reply));
    assert Found(s1, k.caller, Waiter(id, k.address)) == Some(atPlace);
    var s2 := Next(c, s1, a1);
    assert s2.calls[atPlace] == other.(state := Ready(reply));
    RunStep(c, s2, a2, []);
    RunStep(c, s1, a1, [a2]);
    RunStep(c, s, a0, [a1, a2]);
    assert [a0] + [a1, a2] == [a0, a1, a2];
  }

  /** A call can always be carried through once the provider's operation worker and the caller's result worker
      are free, and then ends with the value its handler returned or the kind of exception it threw. The caller's
      own operation worker is not needed, so handlers may call other modules. */
  lemma CallsCanBeAnswered(c: Config, s: State, id: CallId, k: CallRecord, outcome: Outcome)
    requires CanProceed(c, s, id, k, outcome)
    ensures var acts := Asking(id, k, outcome) + Answering(id, k.caller, ReplyOf(c, k, outcome));
            && Feasible(c, s, acts)
            && id in Run(c, s, acts).calls
            && var end := Run(c, s, acts).calls[id].state;
               && (forall kind :: outcome == Threw(Known(kind)) ==> end == Ended(Fails(kind)))
               && (outcome == Threw(Other) ==> end == Ended(Fails(HandlerException)))
               && (forall v :: outcome == Returned(v) && (c.validate ==> Declared(c.definitions[k.target], v)) ==>
                     end == Ended(Gives(v)))
               && (forall v :: outcome == Returned(v) && c.validate && !Declared(c.definitions[k.target], v) ==>
                     end == Ended(Fails(SchemaValidationError)))
  {
    CallerChecksWhatProvidersCheck(c.definitions[k.target], k.args);
    var asking, reply := Asking(id, k, outcome), ReplyOf(c, k, outcome);
    AskingGetsAReply(c, s, id, k, outcome);
    HandledReplyIsReturned(c, Run(c, s, asking), id, k, reply, id, k);
    RunConcat(c, s, asking, Answering(id, k.caller, reply));
  }

  // ----- one call returning another one's result -----

  /** The first call times out while its handler runs, and a second one takes over the place of its promise. */
  function Overtaking(first: CallId, k: CallRecord, second: CallId, l: CallRecord, outcome: Outcome): seq<Act> {
    [RegisterOf(first, k), Publish(first), StartCommand(CommandOf(first, k)), Timeout(first)]
    + [RegisterOf(second, l), Publish(second), FinishCommand(k.target.provider, outcome)]
  }

  /** The first call has timed out, and its command is still being executed. */
  ghost predicate TimedOutWhileExecuting(s: State, t: State, first: CallId, k: CallRecord) {
    && t.calls.Keys == s.calls.Keys + {first} && t.live == s.live && t.dead == s.dead
    && t.executions == s.executions && t.delivering == s.delivering
    && Slot(k.caller, first) in t.pending && t.pending[Slot(k.caller, first)] == Waiter(first, k.address)
    && k.target.provider in t.executing && t.executing[k.target.provider] == CommandOf(first, k)
  }

  lemma FirstStarts(c: Config, s: State, first: CallId, k: CallRecord, outcome: Outcome) returns (s3: State)
    requires CanProceed(c, s, first, k, outcome)
    ensures Enabled(c, s, RegisterOf(first, k))
    ensures var s1 := Next(c, s, RegisterOf(first, k));
            && Enabled(c, s1, Publish(first))
            && var s2 := Next(c, s1, Publish(first));
               && Enabled(c, s2, StartCommand(CommandOf(first, k)))
               && s3 == Next(c, s2, StartCommand(CommandOf(first, k)))
    ensures s3 == s.(calls := s.calls[first := k], live := s.live[PlaceOf(k) := first],
                     pending := s.pending[Slot(k.caller, first) := Waiter(first, k.address)],
                     commands := s.commands + {CommandOf(first, k)},
                     executing := s.executing[k.target.provider := CommandOf(first, k)])
  {
    hide ReplyTo, Rethrows, Handled, CallerAccepts, ProviderAccepts;
    var s1 := Next(c, s, RegisterOf(first, k));
    var s2 := Next(c, s1, Publish(first));
    s3 := Next(c, s2, StartCommand(CommandOf(first, k)));
  }

  lemma ThenTimesOut(c: Config, s: State, s3: State, first: CallId, k: CallRecord, outcome: Outcome)
    requires CanProceed(c, s, first, k, outcome)
    requires s3 == s.(calls := s.calls[first := k], live := s.live[PlaceOf(k) := first],
                      pending := s.pending[Slot(k.caller, first) := Waiter(first, k.address)],
                      commands := s.commands + {CommandOf(first, k)},
                      executing := s.executing[k.target.provider := CommandOf(first, k)])
    ensures Enabled(c, s3, Timeout(first)) && TimedOutWhileExecuting(s, Next(c, s3, Timeout(first)), first, k)
  {
    hide ReplyTo, Rethrows, Handled, CallerAccepts, ProviderAccepts;
  }

  lemma FirstTimesOut(c: Config, s: State, first: CallId, k: CallRecord, outcome: Outcome)
    requires CanProceed(c, s, first, k, outcome)
    ensures var acts := [RegisterOf(first, k), Publish(first), StartCommand(CommandOf(first, k)), Timeout(first)];
            Feasible(c, s, acts) && TimedOutWhileExecuting(s, Run(c, s, acts), first, k)
  {
    hide *;
    var a0, a1, a2, a3 := RegisterOf(first, k), Publish(first), StartCommand(CommandOf(first, k)), Timeout(first);
    var s3 := FirstStarts(c, s, first, k, outcome);
    var s1 := Next(c, s, a0);
    var s2 := Next(c, s1, a1);
    ThenTimesOut(c, s, s3, first, k, outcome);
    NoStep(c, Next(c, s3, a3));
    assert [a3] + [] == [a3] && [a2] + [a3] == [a2, a3] && [a1] + [a2, a3] == [a1, a2, a3];
    RunStep(c, s3, a3, []);
    RunStep(c, s2, a2, [a3]);
    RunStep(c, s1, a1, [a2, a3]);
    RunStep(c, s, a0, [a1, a2, a3]);
    assert [a0] + [a1, a2, a3] == [a0, a1, a2, a3];
  }

  lemma NoStep(c: Config, s: State)
    ensures Feasible(c, s, []) && Run(c, s, []) == s
  {
  }

  lemma SecondTakesOver(c: Config, s: State, before: State, first: CallId, k: CallRecord, second: CallId, l: CallRecord,
                        outcome: Outcome)
    requires TimedOutWhileExecuting(before, s, first, k) && CanProceed(c, before, first, k, outcome)
    requires first != second && l.state == Waiting && Enabled(c, before, RegisterOf(second, l))
    requires PlaceOf(l) == PlaceOf(k)
    ensures var acts := [RegisterOf(second, l), Publish(second), FinishCommand(k.target.provider, outcome)];
            && Feasible(c, s, acts)
            && ReplyIsOut(Run(c, s, acts), first, k, ReplyOf(c, k, outcome))
            && WaitsAt(Run(c, s, acts), second, l)
            && Run(c, s, acts).executions == s.executions + [Execution(k.target, k.args, outcome)]
  {
    hide ReplyTo, Rethrows, Handled, CallerAccepts, ProviderAccepts;
    CallerChecksWhatProvidersCheck(c.definitions[k.target], k.args);
    var a0, a1, a2 := RegisterOf(second, l), Publish(second), FinishCommand(k.target.provider, outcome);
    var s1 := Next(c, s, a0);
    var s2 := Next(c, s1, a1);
    RunStep(c, s2, a2, []);
    RunStep(c, s1, a1, [a2]);
    RunStep(c, s, a0, [a1, a2]);
    assert [a0] + [a1, a2] == [a0, a1, a2];
  }

  /** Two calls of a module whose promises lie at the same address one after the other: when the first one's result
      comes after its timeout, the second call ends with it, though no handler has run for the second. */
  lemma LateResultEndsAnotherCall(c: Config, s: State, first: CallId, k: CallRecord, second: CallId, l: CallRecord,
                                  outcome: Outcome)
    requires CanProceed(c, s, first, k, outcome)
    requires first != second && l.state == Waiting && Enabled(c, s, RegisterOf(second, l)) && PlaceOf(l) == PlaceOf(k)
    ensures var reply := ReplyOf(c, k, outcome);
            var acts := Overtaking(first, k, second, l, outcome)
                        + [TakeResult(ResultMessage(k.caller, first, reply)), RunHandler(k.caller), Return(second)];
            && Feasible(c, s, acts)
            && second in Run(c, s, acts).calls
            && Run(c, s, acts).calls[second] == l.(state := Ended(EndOf(reply)))
            && Run(c, s, acts).executions == s.executions + [Execution(k.target, k.args, outcome)]
  {
    var overtaking, reply := Overtaking(first, k, second, l, outcome), ReplyOf(c, k, outcome);
    hide Next, Enabled, CanProceed, ReplyIsOut, WaitsAt, TimedOutWhileExecuting, Run, Feasible;
    var asking := [RegisterOf(first, k), Publish(first), StartCommand(CommandOf(first, k)), Timeout(first)];
    FirstTimesOut(c, s, first, k, outcome);
    var s4 := Run(c, s, asking);
    SecondTakesOver(c, s4, s, first, k, second, l, outcome);
    RunConcat(c, s, asking, [RegisterOf(second, l), Publish(second), FinishCommand(k.target.provider, outcome)]);
    HandledReplyIsReturned(c, Run(c, s, overtaking), first, k, reply, second, l);
    RunConcat(c, s, overtaking,
              [TakeResult(ResultMessage(k.caller, first, reply)), RunHandler(k.caller), Return(second)]);
  }
}
