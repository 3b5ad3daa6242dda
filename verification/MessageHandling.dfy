/** The message handler of a module: which queue a message enters, which handlers it reaches, and the
    table of pending command results. */
module MessageHandling {
  import opened Options
  import opened OrderedMaps
  import opened TopicMatching

  datatype MessageType =
    | Var | Cmd | CmdResult | ExternalMqtt | RaiseError | ClearError | GetConfig | GetConfigResponse
    | Heartbeat | ModuleReady | GlobalReady

  function TypeOfName(name: string): Option<MessageType> {
    if name == "Var" then Some(Var)
    else if name == "Cmd" then Some(Cmd)
    else if name == "CmdResult" then Some(CmdResult)
    else if name == "ExternalMQTT" then Some(ExternalMqtt)
    else if name == "RaiseError" then Some(RaiseError)
    else if name == "ClearError" then Some(ClearError)
    else if name == "GetConfig" then Some(GetConfig)
    else if name == "GetConfigResponse" then Some(GetConfigResponse)
    else if name == "Heartbeat" then Some(Heartbeat)
    else if name == "ModuleReady" then Some(ModuleReady)
    else if name == "GlobalReady" then Some(GlobalReady)
    else None
  }

  function NameOf(t: MessageType): string {
    match t
    case Var => "Var"
    case Cmd => "Cmd"
    case CmdResult => "CmdResult"
    case ExternalMqtt => "ExternalMQTT"
    case RaiseError => "RaiseError"
    case ClearError => "ClearError"
    case GetConfig => "GetConfig"
    case GetConfigResponse => "GetConfigResponse"
    case Heartbeat => "Heartbeat"
    case ModuleReady => "ModuleReady"
    case GlobalReady => "GlobalReady"
  }

  /** Writing and reading type names are inverse: every type reads back, and only its own name reads as it. */
  lemma NamesReadBack(t: MessageType, name: string)
    ensures TypeOfName(name) == Some(t) <==> name == NameOf(t)
  {
  }

  type Data = int

  /** A payload as received: text that is not JSON, JSON other than an object, or an object that may name its
      message type (a type that is no string counts as an unknown name). `id` is the call id of a command
      result. */
  datatype Payload =
    | NotJson(data: Data)
    | NoObject(data: Data)
    | Object(typeName: Option<string>, id: string, data: Data)

  datatype Message = Message(topic: string, payload: Payload)

  /** What the message handler is given. Only topics under the framework's prefix are parsed, and text there
      that is no JSON is dropped; the text of any other topic is wrapped as it is. */
  function Parsed(everestPrefix: string, m: Message): Option<Message> {
    if !(everestPrefix <= m.topic) then Some(Message(m.topic, NoObject(m.payload.data)))
    else if m.payload.NotJson? then None
    else Some(m)
  }

  /** A message without a type counts as external; an unknown type name is an exception. */
  function MessageTypeOf(p: Payload): Option<MessageType> {
    match p
    case Object(Some(name), _, _) => TypeOfName(name)
    case _ => Some(ExternalMqtt)
  }

  datatype Route = Dropped | ToOperations | ToResults | ToReadyThread | ProcessExit

  function QueueOf(p: Payload): Route {
    match MessageTypeOf(p)
    case None => ProcessExit
    case Some(CmdResult) => ToResults
    case Some(GetConfigResponse) => ToResults
    case Some(GlobalReady) => ToReadyThread
    case Some(_) => ToOperations
  }

  /** The named type, if the payload is an object that has one. */
  function TypeNamed(p: Payload): Option<string> {
    if p.Object? then p.typeName else None
  }

  /** Command results and configuration responses go to the result worker, the global ready signal to a thread of its
      own, and everything else, untyped payloads included, to the operation worker; a type nobody has ever heard of
      ends the process. */
  lemma RoutesByName(p: Payload)
    ensures QueueOf(p) == ToResults <==> TypeNamed(p) in {Some("CmdResult"), Some("GetConfigResponse")}
    ensures QueueOf(p) == ToReadyThread <==> TypeNamed(p) == Some("GlobalReady")
    ensures QueueOf(p) == ToOperations <==>
              || TypeNamed(p) in {None, Some("Var"), Some("Cmd"), Some("ExternalMQTT"), Some("RaiseError")}
              || TypeNamed(p) in {Some("ClearError"), Some("GetConfig"), Some("Heartbeat"), Some("ModuleReady")}
    ensures QueueOf(p) == ProcessExit <==>
              TypeNamed(p).Some? && forall t :: NameOf(t) != TypeNamed(p).value
  {
    if p.Object? && p.typeName.Some? {
      var name := p.typeName.value;
      forall t ensures TypeOfName(name) == Some(t) <==> NameOf(t) == name { NamesReadBack(t, name); }
    }
  }

  function RouteOf(everestPrefix: string, m: Message): Route {
    match Parsed(everestPrefix, m)
    case None => Dropped
    case Some(parsed) => QueueOf(parsed.payload)
  }

  /** Whatever its text, a message from outside the framework is handled as an external one under its own topic; it
      never becomes a result, nor ends the process. Of the framework's own messages those that are no JSON are dropped
      and the others kept as they are. */
  lemma ForeignMessagesAreExternal(everestPrefix: string, m: Message)
    ensures !(everestPrefix <= m.topic) ==>
              && RouteOf(everestPrefix, m) == ToOperations
              && Parsed(everestPrefix, m).Some?
              && var seen := Parsed(everestPrefix, m).value;
                 seen.topic == m.topic && seen.payload.data == m.payload.data
                 && MessageTypeOf(seen.payload) == Some(ExternalMqtt)
    ensures everestPrefix <= m.topic ==>
              && (RouteOf(everestPrefix, m) == Dropped <==> m.payload.NotJson?)
              && (!m.payload.NotJson? ==> Parsed(everestPrefix, m) == Some(m))
  {
  }

  /** The messages of one route, as the message handler sees them, in order of arrival. */
  function Routed(everestPrefix: string, ms: seq<Message>, route: Route): seq<Message>
    requires route != Dropped
  {
    if ms == [] then []
    else
      (if RouteOf(everestPrefix, ms[0]) == route then [Parsed(everestPrefix, ms[0]).value] else [])
      + Routed(everestPrefix, ms[1..], route)
  }

  function OnRoute(m: Message, route: Route): seq<Message> {
    if QueueOf(m.payload) == route then [m] else []
  }

  /** What a worker gets in its critical section: nothing once stopped, else the front of its queue. */
  function Front(running: bool, queue: seq<Message>): Option<Message> {
    if running && queue != [] then Some(queue[0]) else None
  }

  function WithoutFront(running: bool, queue: seq<Message>): seq<Message> {
    if running && queue != [] then queue[1..] else queue
  }

  // ----- handlers -----

  type HandlerId = nat

  datatype HandlerType =
    | Call | Result | SubscribeVar | SubscribeError | External | ConfigRequest | ModuleIsReady

  datatype TypedHandler = TypedHandler(kind: HandlerType, callId: string, run: HandlerId)

  /** The tables of registered handlers. */
  datatype Tables = Tables(
    varHandlers: map<string, seq<HandlerId>>,
    cmdHandlers: map<string, HandlerId>,
    resultHandlers: map<string, HandlerId>,
    errorHandlers: map<string, HandlerId>,
    externalHandlers: map<string, seq<HandlerId>>,
    configHandlers: map<string, HandlerId>,
    readyHandlers: map<string, HandlerId>)

  const NO_HANDLERS: Tables := Tables(map[], map[], map[], map[], map[], map[], map[])

  function AllAt(m: map<string, seq<HandlerId>>, topic: string): seq<HandlerId> {
    if topic in m then m[topic] else []
  }

  function OneAt(m: map<string, HandlerId>, topic: string): seq<HandlerId> {
    if topic in m then [m[topic]] else []
  }

  /** Variables and external topics keep every handler in order of registration; all other tables keep the
      last one registered for a topic, and results the last one for a call id. */
  function Registered(t: Tables, topic: string, h: TypedHandler): Tables {
    match h.kind
    case Call => t.(cmdHandlers := t.cmdHandlers[topic := h.run])
    case Result => t.(resultHandlers := t.resultHandlers[h.callId := h.run])
    case SubscribeVar => t.(varHandlers := t.varHandlers[topic := AllAt(t.varHandlers, topic) + [h.run]])
    case SubscribeError => t.(errorHandlers := t.errorHandlers[topic := h.run])
    case External => t.(externalHandlers := t.externalHandlers[topic := AllAt(t.externalHandlers, topic) + [h.run]])
    case ConfigRequest => t.(configHandlers := t.configHandlers[topic := h.run])
    case ModuleIsReady => t.(readyHandlers := t.readyHandlers[topic := h.run])
  }

  // ----- the tables after any registrations -----

  datatype Registration = Registration(topic: string, handler: TypedHandler)

  function AllRegistered(t: Tables, registrations: seq<Registration>): Tables
    decreases |registrations|
  {
    if registrations == [] then t
    else
      var last := registrations[|registrations| - 1];
      Registered(AllRegistered(t, registrations[..|registrations| - 1]), last.topic, last.handler)
  }

  /** The handlers of one kind registered under a topic, in order; results are registered under their call id. */
  function RegisteredUnder(registrations: seq<Registration>, kind: HandlerType, key: string): seq<HandlerId>
    decreases |registrations|
  {
    if registrations == [] then []
    else
      var last := registrations[|registrations| - 1];
      RegisteredUnder(registrations[..|registrations| - 1], kind, key)
      + if last.handler.kind == kind && key == KeyOf(last) then [last.handler.run] else []
  }

  function KeyOf(r: Registration): string {
    if r.handler.kind == Result then r.handler.callId else r.topic
  }

  predicate KeepsAll(kind: HandlerType) {
    kind == SubscribeVar || kind == External
  }

  function LastOnly(hs: seq<HandlerId>): seq<HandlerId> {
    if hs == [] then [] else [hs[|hs| - 1]]
  }

  /** The handlers that the table of a kind has under a key. */
  function HandlersUnder(t: Tables, kind: HandlerType, key: string): seq<HandlerId> {
    match kind
    case Call => OneAt(t.cmdHandlers, key)
    case Result => OneAt(t.resultHandlers, key)
    case SubscribeVar => AllAt(t.varHandlers, key)
    case SubscribeError => OneAt(t.errorHandlers, key)
    case External => AllAt(t.externalHandlers, key)
    case ConfigRequest => OneAt(t.configHandlers, key)
    case ModuleIsReady => OneAt(t.readyHandlers, key)
  }

  lemma OneMoreRegistered(t: Tables, r: Registration, kind: HandlerType, key: string)
    ensures HandlersUnder(Registered(t, r.topic, r.handler), kind, key)
         == if r.handler.kind != kind || key != KeyOf(r) then HandlersUnder(t, kind, key)
            else if KeepsAll(kind) then HandlersUnder(t, kind, key) + [r.handler.run]
            else [r.handler.run]
  {
  }

  lemma NoneRegistered(kind: HandlerType, key: string)
    ensures HandlersUnder(NO_HANDLERS, kind, key) == []
  {
  }

  /** After any sequence of registrations a variable or external topic has every handler ever registered for it, in
      order; any other topic, and any call id, has only the last one. */
  lemma {:induction false} TopicsKeepAllOrLast(registrations: seq<Registration>, kind: HandlerType, key: string)
    ensures var registered := RegisteredUnder(registrations, kind, key);
            HandlersUnder(AllRegistered(NO_HANDLERS, registrations), kind, key)
              == if KeepsAll(kind) then registered else LastOnly(registered)
    decreases |registrations|
  {
    hide HandlersUnder, Registered, KeyOf;
    if registrations == [] {
      NoneRegistered(kind, key);
    } else {
      var before, last := registrations[..|registrations| - 1], registrations[|registrations| - 1];
      TopicsKeepAllOrLast(before, kind, key);
      OneMoreRegistered(AllRegistered(NO_HANDLERS, before), last, kind, key);
    }
  }

  function Selected<T>(xs: seq<T>, keep: T -> bool): seq<T> {
    if xs == [] then []
    else (if keep(xs[0]) then [xs[0]] else []) + Selected(xs[1..], keep)
  }

  lemma {:induction false} SelectedOneMore<T>(xs: seq<T>, i: nat, keep: T -> bool)
    requires i < |xs|
    ensures Selected(xs[..i + 1], keep) == Selected(xs[..i], keep) + if keep(xs[i]) then [xs[i]] else []
  {
    if i == 0 {
      assert xs[..1] == [xs[0]] && [xs[0]][1..] == [] && xs[..0] == [];
    } else {
      SelectedOneMore(xs[1..], i - 1, keep);
      assert xs[..i + 1][1..] == xs[1..][..i] && xs[..i][1..] == xs[1..][..i - 1];
    }
  }

  lemma {:induction false} SelectedAreTheKept<T>(xs: seq<T>, keep: T -> bool)
    ensures forall x :: x in Selected(xs, keep) <==> x in xs && keep(x)
  {
    if xs != [] { SelectedAreTheKept(xs[1..], keep); }
  }

  function MatchingFilters(filters: seq<string>, topic: string): seq<string> {
    Selected(filters, f => TopicMatches(topic, f))
  }

  function HandlersAt(handlers: map<string, HandlerId>, filters: seq<string>): (r: seq<HandlerId>)
    requires forall f :: f in filters ==> f in handlers
    ensures |r| == |filters|
  {
    seq(|filters|, i requires 0 <= i < |filters| => handlers[filters[i]])
  }

  lemma MatchingFiltersAreFilters(filters: seq<string>, topic: string)
    ensures forall f :: f in MatchingFilters(filters, topic) <==> f in filters && TopicMatches(topic, f)
  {
    SelectedAreTheKept(filters, f => TopicMatches(topic, f));
  }

  lemma MatchingFiltersOneMore(filters: seq<string>, i: nat, topic: string)
    requires i < |filters|
    ensures MatchingFilters(filters[..i + 1], topic)
         == MatchingFilters(filters[..i], topic) + if TopicMatches(topic, filters[i]) then [filters[i]] else []
  {
    SelectedOneMore(filters, i, f => TopicMatches(topic, f));
  }

  /** The error handlers of a topic: those of all matching filters, in filter order. */
  function ErrorRecipients(handlers: map<string, HandlerId>, topic: string): seq<HandlerId> {
    var filters := MatchingFilters(SortedKeys(handlers), topic);
    MatchingFiltersAreFilters(SortedKeys(handlers), topic);
    HandlersAt(handlers, filters)
  }

  /** Who runs for a message of the operation queue. */
  function Recipients(t: Tables, topic: string, kind: MessageType): seq<HandlerId> {
    match kind
    case Var => AllAt(t.varHandlers, topic)
    case Cmd => OneAt(t.cmdHandlers, topic)
    case ExternalMqtt => AllAt(t.externalHandlers, topic)
    case RaiseError => ErrorRecipients(t.errorHandlers, topic)
    case ClearError => ErrorRecipients(t.errorHandlers, topic)
    case GetConfig => OneAt(t.configHandlers, topic)
    case ModuleReady => OneAt(t.readyHandlers, topic)
    case _ => []
  }

  datatype Invocation = Invocation(handler: HandlerId, topic: string, payload: Payload)

  function Invocations(handlers: seq<HandlerId>, m: Message): (r: seq<Invocation>)
    ensures |r| == |handlers|
  {
    seq(|handlers|, i requires 0 <= i < |handlers| => Invocation(handlers[i], m.topic, m.payload))
  }

  class MessageHandler {
    var operations: seq<Message>
    var results: seq<Message>
    var running: bool
    var tables: Tables
    var invocations: seq<Invocation>

    constructor ()
      ensures operations == [] && results == [] && running && tables == NO_HANDLERS && invocations == []
    {
      operations, results, running, tables, invocations := [], [], true, NO_HANDLERS, [];
    }

    method RegisterHandler(topic: string, handler: TypedHandler)
      modifies `tables
      ensures tables == Registered(old(tables), topic, handler)
    {
      match handler.kind {
        case Call =>
          tables := tables.(cmdHandlers := tables.cmdHandlers[topic := handler.run]);
        case Result =>
          tables := tables.(resultHandlers := tables.resultHandlers[handler.callId := handler.run]);
        case SubscribeVar =>
          tables := tables.(varHandlers :=
            tables.varHandlers[topic := AllAt(tables.varHandlers, topic) + [handler.run]]);
        case SubscribeError =>
          tables := tables.(errorHandlers := tables.errorHandlers[topic := handler.run]);
        case External =>
          tables := tables.(externalHandlers :=
            tables.externalHandlers[topic := AllAt(tables.externalHandlers, topic) + [handler.run]]);
        case ConfigRequest =>
          tables := tables.(configHandlers := tables.configHandlers[topic := handler.run]);
        case ModuleIsReady =>
          tables := tables.(readyHandlers := tables.readyHandlers[topic := handler.run]);
      }
    }

    /** A message joins the back of its queue; `thrown` is the exception for an unknown type name. */
    method Add(message: Message) returns (thrown: bool)
      modifies `operations, `results
      ensures thrown == (QueueOf(message.payload) == ProcessExit)
      ensures operations == old(operations) + OnRoute(message, ToOperations)
      ensures results == old(results) + OnRoute(message, ToResults)
    {
      thrown := false;
      var messageType := ExternalMqtt;
      if message.payload.Object? && message.payload.typeName.Some? {
        var named := TypeOfName(message.payload.typeName.value);
        if named.None? {
          return true;
        }
        messageType := named.value;
      }
      if messageType == CmdResult || messageType == GetConfigResponse {
        results := results + [message];
      } else if messageType != GlobalReady {
        operations := operations + [message];
      }
    }

    method Stop()
      modifies `running
      ensures !running
    {
      running := false;
    }

    method TakeOperation() returns (taken: Option<Message>)
      modifies `operations
      ensures taken == Front(running, old(operations)) && operations == WithoutFront(running, old(operations))
    {
      if !running || operations == [] {
        return None;
      }
      taken := Some(operations[0]);
      operations := operations[1..];
    }

    method TakeResult() returns (taken: Option<Message>)
      modifies `results
      ensures taken == Front(running, old(results)) && results == WithoutFront(running, old(results))
    {
      if !running || results == [] {
        return None;
      }
      taken := Some(results[0]);
      results := results[1..];
    }

    method Execute(handlers: seq<HandlerId>, message: Message)
      modifies `invocations
      ensures invocations == old(invocations) + Invocations(handlers, message)
    {
      for i := 0 to |handlers|
        invariant invocations == old(invocations) + Invocations(handlers[..i], message)
      {
        InvocationsOneMore(handlers, i, message);
        invocations := invocations + [Invocation(handlers[i], message.topic, message.payload)];
      }
      assert handlers[..|handlers|] == handlers;
    }

    /** The first loop of the error dispatch, run under the handler mutex. */
    method MatchingErrorFilters(topic: string) returns (matching: seq<string>)
      ensures matching == MatchingFilters(SortedKeys(tables.errorHandlers), topic)
    {
      var filters := SortedKeys(tables.errorHandlers);
      matching := [];
      for i := 0 to |filters|
        invariant matching == MatchingFilters(filters[..i], topic)
      {
        MatchingFiltersOneMore(filters, i, topic);
        var found := CheckTopicMatches(topic, filters[i]);
        if found {
          matching := matching + [filters[i]];
        }
      }
      assert filters[..|filters|] == filters;
    }

    /** Every error handler whose filter matches the topic runs, in filter order. */
    method HandleErrorMessage(message: Message)
      modifies `invocations
      ensures invocations
           == old(invocations) + Invocations(ErrorRecipients(tables.errorHandlers, message.topic), message)
    {
      var matching := MatchingErrorFilters(message.topic);
      MatchingFiltersAreFilters(SortedKeys(tables.errorHandlers), message.topic);
      Execute(HandlersAt(tables.errorHandlers, matching), message);
    }

    method HandleOperationMessage(message: Message)
      requires MessageTypeOf(message.payload).Some?
      modifies `invocations
      ensures var kind := MessageTypeOf(message.payload).value;
              invocations == old(invocations) + Invocations(Recipients(tables, message.topic, kind), message)
    {
      var kind := MessageTypeOf(message.payload).value;
      match kind {
        case Var =>
          Execute(AllAt(tables.varHandlers, message.topic), message);
        case Cmd =>
          Execute(OneAt(tables.cmdHandlers, message.topic), message);
        case ExternalMqtt =>
          Execute(AllAt(tables.externalHandlers, message.topic), message);
        case RaiseError =>
          HandleErrorMessage(message);
        case ClearError =>
          HandleErrorMessage(message);
        case GetConfig =>
          Execute(OneAt(tables.configHandlers, message.topic), message);
        case ModuleReady =>
          Execute(OneAt(tables.readyHandlers, message.topic), message);
        case _ =>
      }
    }

    /** The handler waiting for a call id runs and leaves the table; an id nobody waits for is ignored. */
    method HandleCmdResult(message: Message)
      requires message.payload.Object?
      modifies `tables, `invocations
      ensures var id := message.payload.id;
              && tables == old(tables).(resultHandlers := old(tables).resultHandlers - {id})
              && invocations == old(invocations) + Invocations(OneAt(old(tables).resultHandlers, id), message)
    {
      var id := message.payload.id;
      if id in tables.resultHandlers {
        var handler := tables.resultHandlers[id];
        tables := tables.(resultHandlers := tables.resultHandlers - {id});
        Execute([handler], message);
      }
    }
  }

  /** The worker of the incoming queue hands each message over; an exception there ends the process. */
  class MessageQueue {
    var messages: seq<Message>
    var running: bool

    constructor ()
      ensures messages == [] && running
    {
      messages, running := [], true;
    }

    method Add(message: Message)
      modifies `messages
      ensures messages == old(messages) + [message]
    {
      messages := messages + [message];
    }

    method Stop()
      modifies `running
      ensures !running
    {
      running := false;
    }

    method Take() returns (taken: Option<Message>)
      modifies `messages
      ensures taken == Front(running, old(messages)) && messages == WithoutFront(running, old(messages))
    {
      if !running || messages == [] {
        return None;
      }
      taken := Some(messages[0]);
      messages := messages[1..];
    }
  }

  method OnMqttMessage(everestPrefix: string, message: Message, handler: MessageHandler) returns (exits: bool)
    modifies handler`operations, handler`results
    ensures exits == (RouteOf(everestPrefix, message) == ProcessExit)
    ensures handler.operations == old(handler.operations) + Routed(everestPrefix, [message], ToOperations)
    ensures handler.results == old(handler.results) + Routed(everestPrefix, [message], ToResults)
  {
    assert [message][1..] == [];
    if everestPrefix <= message.topic {
      if message.payload.NotJson? {
        return false;
      }
      exits := handler.Add(message);
    } else {
      exits := handler.Add(Message(message.topic, NoObject(message.payload.data)));
    }
  }

  lemma InvocationsOneMore(handlers: seq<HandlerId>, i: nat, m: Message)
    requires i < |handlers|
    ensures Invocations(handlers[..i + 1], m)
         == Invocations(handlers[..i], m) + [Invocation(handlers[i], m.topic, m.payload)]
  {
  }

  // ----- which error handlers a message reaches -----

  /** A handler runs for an error message if and only if it is registered for a filter that
      matches. */
  lemma ErrorRecipientsAreTheMatching(handlers: map<string, HandlerId>, topic: string, h: HandlerId)
    ensures h in ErrorRecipients(handlers, topic)
       <==> exists f :: f in handlers && TopicMatches(topic, f) && handlers[f] == h
  {
    var keys := SortedKeys(handlers);
    var filters := MatchingFilters(keys, topic);
    MatchingFiltersAreFilters(keys, topic);
    var r := HandlersAt(handlers, filters);
    if h in r {
      var i :| 0 <= i < |r| && r[i] == h;
      assert filters[i] in filters;
    }
    if f :| f in handlers && TopicMatches(topic, f) && handlers[f] == h {
      assert f in filters;
      var i :| 0 <= i < |filters| && filters[i] == f;
      assert r[i] == h;
    }
  }

  /** Which handlers run for a message, told from the registrations alone: for a variable or an external message all
      registered for its topic, in order; for a command, a configuration request and a ready message the last one
      registered for its topic; for an error, raised or cleared, whoever was registered last for a filter that
      matches; and for a result the last one registered for its call id. */
  lemma MessagesReachTheirHandlers(registrations: seq<Registration>, topic: string, id: string, h: HandlerId)
    ensures var t := AllRegistered(NO_HANDLERS, registrations);
            && Recipients(t, topic, Var) == RegisteredUnder(registrations, SubscribeVar, topic)
            && Recipients(t, topic, ExternalMqtt) == RegisteredUnder(registrations, External, topic)
            && Recipients(t, topic, Cmd) == LastOnly(RegisteredUnder(registrations, Call, topic))
            && Recipients(t, topic, GetConfig) == LastOnly(RegisteredUnder(registrations, ConfigRequest, topic))
            && Recipients(t, topic, ModuleReady) == LastOnly(RegisteredUnder(registrations, ModuleIsReady, topic))
            && Recipients(t, topic, ClearError) == Recipients(t, topic, RaiseError)
            && (h in Recipients(t, topic, RaiseError) <==>
                  exists f :: TopicMatches(topic, f)
                              && LastOnly(RegisteredUnder(registrations, SubscribeError, f)) == [h])
            && OneAt(t.resultHandlers, id) == LastOnly(RegisteredUnder(registrations, Result, id))
  {
    var t := AllRegistered(NO_HANDLERS, registrations);
    hide AllRegistered, RegisteredUnder, TopicMatches, LastOnly, ErrorRecipients;
    TopicsKeepAllOrLast(registrations, SubscribeVar, topic);
    TopicsKeepAllOrLast(registrations, External, topic);
    TopicsKeepAllOrLast(registrations, Call, topic);
    TopicsKeepAllOrLast(registrations, ConfigRequest, topic);
    TopicsKeepAllOrLast(registrations, ModuleIsReady, topic);
    TopicsKeepAllOrLast(registrations, Result, id);
    ErrorRecipientsAreTheMatching(t.errorHandlers, topic, h);
    forall f ensures LastOnly(RegisteredUnder(registrations, SubscribeError, f)) == OneAt(t.errorHandlers, f) {
      TopicsKeepAllOrLast(registrations, SubscribeError, f);
    }
  }
}
