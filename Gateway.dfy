/** The engine gateway, as one thread sees it: requests arrive as messages,
    are queued until the engine loop drains them, and are answered by the
    handler registered for their type. Modelled here are the gate that stops
    accepting messages, the drain, breakpoint registration and lookup,
    continuing (which forgets every entity), the loop that decides between
    waiting for an engine event and draining, and how a variables request is
    routed. The engine is given as oracle functions. */
module Gateway {
  import opened Base
  import opened Records
  import opened EntityStore

  /** The requests the gateway accepts. */
  datatype Message =
    | SetBreakpointsMessage(breakpoints: seq<Breakpoint>)
    | LaunchMessage
    | AttachMessage
    | TerminateMessage
    | StackTraceMessage(threadId: int)
    | VariablesMessage(parentId: int)
    | StepOverMessage
    | StepIntoMessage
    | StepOutMessage
    | ContinueMessage
    | EvaluateMessage(expression: string)
    | ThreadsMessage
    | ScopesMessage(frameId: int)
    | PauseMessage

  /** The handler table: every message type but `PauseMessage` has a handler. */
  function HasHandler(message: Message): (r: bool)
    ensures r <==>
      || message.SetBreakpointsMessage? || message.LaunchMessage? || message.TerminateMessage?
      || message.StackTraceMessage? || message.VariablesMessage? || message.StepOverMessage?
      || message.StepIntoMessage? || message.StepOutMessage? || message.ContinueMessage?
      || message.EvaluateMessage? || message.ThreadsMessage? || message.ScopesMessage?
      || message.AttachMessage?
  {
    !message.PauseMessage?
  }

  /** What a caller of `HandleMessage` gets: a task already completed with
      the default result, or a pending task that the drain completes. */
  datatype Ticket = Completed | Pending(id: nat)

  /** A queued message with the ticket of the completion source its result fills. */
  datatype MessageRecord = MessageRecord(message: Message, ticket: nat)

  /** Engine execution statuses (`DEBUG_STATUS`). */
  datatype Status = Go | GoHandled | StepBranch | StepInto | StepOver | NoDebuggee | Break | OtherStatus(code: nat)

  /** The entities the store holds. */
  datatype StackFrame = StackFrame(id: int, name: string)
  datatype Variable = Variable(id: int, name: string, typeName: string, value: string, hasChildren: bool)

  /** A symbol group, known by the number of symbols it holds. */
  datatype SymbolGroup = SymbolGroup(count: nat)

  /** Where a variables request was sent: the variables already stored for
      an unchanged scope, a fresh read of the scope's symbols, the expansion
      of a variable through the visualizers, or nowhere (an empty list). */
  datatype VariablesRoute =
    | CachedScopeVariables(variables: seq<Variable>, order: seq<int>)
    | ReadScopeSymbols(scopeId: int, group: SymbolGroup)
    | ExpandVariable(variableId: int)
    | NoVariables

  /** The answer a handler gives. Handlers whose work is not modelled here
      report only that they ran. */
  datatype MessageResult =
    | EmptyResult
    | BreakpointsResult(outcomes: seq<(Breakpoint, bool)>)
    | VariablesResult(route: VariablesRoute)
    | Delegated(message: Message)

  /** The engine calls breakpoint registration makes: creating a code
      breakpoint with an id, resolving a source line to an address (`None`
      when it fails), placing the breakpoint there and enabling it. */
  datatype BreakpointEngine = BreakpointEngine(
    addBreakpoint: nat -> bool,
    offsetByLine: (int, string) -> Option<nat>,
    setOffset: (nat, nat) -> bool,
    setFlags: nat -> bool)

  /** The engine's symbol-group request for a scope group, given the group
      read last time; `None` when it fails. */
  datatype ScopeEngine = ScopeEngine(scopeSymbolGroup: (ScopeGroup, Option<SymbolGroup>) -> Option<SymbolGroup>)

  // ---------------------------------------------------------------------
  // Breakpoints

  /** All four engine steps succeed for breakpoint `b` under `id`. */
  predicate Registers(engine: BreakpointEngine, b: Breakpoint, id: nat) {
    && engine.addBreakpoint(id)
    && engine.offsetByLine(b.line, b.file).Some?
    && engine.setOffset(id, engine.offsetByLine(b.line, b.file).value)
    && engine.setFlags(id)
  }

  /** The outcome map of `DoSetBreakpoints`: one entry per requested
      breakpoint, in order, true when it registered under its id. */
  function Outcomes(engine: BreakpointEngine, bps: seq<Breakpoint>, first: nat): (r: seq<(Breakpoint, bool)>)
  {
    seq(|bps|, i requires 0 <= i < |bps| => (bps[i], Registers(engine, bps[i], first + i)))
  }

  /** A breakpoint is reported as set exactly when a later hit on its id
      finds it in the table. */
  lemma OutcomesMatchStored(table: map<nat, Breakpoint>, engine: BreakpointEngine, bps: seq<Breakpoint>, first: nat)
    requires forall id :: id in table ==> id < first
    ensures |Outcomes(engine, bps, first)| == |bps|
    ensures forall i :: 0 <= i < |bps| ==>
      && Outcomes(engine, bps, first)[i].0 == bps[i]
      && (Outcomes(engine, bps, first)[i].1 <==> first + i in Stored(table, engine, bps, first))
      && (Outcomes(engine, bps, first)[i].1 ==> Stored(table, engine, bps, first)[first + i] == bps[i])
  {
    forall i | 0 <= i < |bps|
      ensures Outcomes(engine, bps, first)[i].1 <==> first + i in Stored(table, engine, bps, first)
      ensures Outcomes(engine, bps, first)[i].1 ==> Stored(table, engine, bps, first)[first + i] == bps[i]
    {
      StoredLookup(table, engine, bps, first, first + i);
    }
  }

  /** Registering one more breakpoint appends its outcome. */
  lemma OutcomesSnoc(engine: BreakpointEngine, bps: seq<Breakpoint>, first: nat, i: nat)
    requires i < |bps|
    ensures Outcomes(engine, bps[..i + 1], first) == Outcomes(engine, bps[..i], first) + [(bps[i], Registers(engine, bps[i], first + i))]
  {
    var longer := Outcomes(engine, bps[..i + 1], first);
    var shorter := Outcomes(engine, bps[..i], first);
    assert forall k :: 0 <= k < i ==> longer[k] == shorter[k];
  }

  /** The id table after registering `bps` with ids `first`, `first + 1`, ...:
      each breakpoint that registered is added under its id. */
  function Stored(table: map<nat, Breakpoint>, engine: BreakpointEngine, bps: seq<Breakpoint>, first: nat): map<nat, Breakpoint>
    decreases |bps|
  {
    if |bps| == 0 then table
    else
      var before := Stored(table, engine, bps[..|bps| - 1], first);
      var id := first + |bps| - 1;
      if Registers(engine, bps[|bps| - 1], id) then before[id := bps[|bps| - 1]] else before
  }

  /** Registering one more breakpoint adds it under its id when it registers. */
  lemma StoredSnoc(table: map<nat, Breakpoint>, engine: BreakpointEngine, bps: seq<Breakpoint>, first: nat, i: nat)
    requires i < |bps|
    ensures Stored(table, engine, bps[..i + 1], first) ==
      var before := Stored(table, engine, bps[..i], first);
      if Registers(engine, bps[i], first + i) then before[first + i := bps[i]] else before
  {
    assert bps[..i + 1][..i] == bps[..i];
  }

  /** An id below `first` keeps its entry; an id `first + i` holds the `i`-th
      breakpoint exactly when it registered, and nothing otherwise. */
  lemma {:induction false} StoredLookup(table: map<nat, Breakpoint>, engine: BreakpointEngine, bps: seq<Breakpoint>, first: nat, id: nat)
    requires forall k :: k in table ==> k < first
    ensures id < first ==> (id in Stored(table, engine, bps, first) <==> id in table)
    ensures id < first && id in table ==> Stored(table, engine, bps, first)[id] == table[id]
    ensures first <= id < first + |bps| ==>
      (id in Stored(table, engine, bps, first) <==> Registers(engine, bps[id - first], id))
    ensures first <= id < first + |bps| && Registers(engine, bps[id - first], id) ==>
      Stored(table, engine, bps, first)[id] == bps[id - first]
    ensures id >= first + |bps| ==> id !in Stored(table, engine, bps, first)
    decreases |bps|
  {
    if |bps| > 0 {
      var prefix := bps[..|bps| - 1];
      StoredLookup(table, engine, prefix, first, id);
      if first <= id < first + |prefix| {
        assert bps[id - first] == prefix[id - first];
      }
    }
  }

  /** The loop of `DoSetBreakpoints`, from the last id handed out and the id
      table: each breakpoint takes the next id and is entered in the table
      when all four engine steps succeed. */
  method RegisterBreakpoints(bps: seq<Breakpoint>, engine: BreakpointEngine, lastBreakpointId: nat, breakpoints: map<nat, Breakpoint>)
    returns (outcomes: seq<(Breakpoint, bool)>, lastId: nat, table: map<nat, Breakpoint>)
    requires 1 <= lastBreakpointId && forall id :: id in breakpoints ==> 2 <= id <= lastBreakpointId
    ensures outcomes == Outcomes(engine, bps, lastBreakpointId + 1)
    ensures lastId == lastBreakpointId + |bps|
    ensures table == Stored(breakpoints, engine, bps, lastBreakpointId + 1)
    ensures forall id :: id in table ==> 2 <= id <= lastId
  {
    var first := lastBreakpointId + 1;
    lastId, table := lastBreakpointId, breakpoints;
    outcomes := [];
    var i := 0;
    while i < |bps|
      invariant 0 <= i <= |bps|
      invariant lastId == first - 1 + i
      invariant outcomes == Outcomes(engine, bps[..i], first)
      invariant table == Stored(breakpoints, engine, bps[..i], first)
    {
      var breakpoint := bps[i];
      lastId := lastId + 1;
      var registered := Registers(engine, breakpoint, lastId);
      OutcomesSnoc(engine, bps, first, i);
      StoredSnoc(breakpoints, engine, bps, first, i);
      outcomes := outcomes + [(breakpoint, registered)];
      if registered {
        table := table[lastId := breakpoint];
      }
      i := i + 1;
    }
    assert bps[..i] == bps;
    StoredIdsBounded(breakpoints, engine, bps, first);
  }

  /** Registration hands out ids above every id already stored, so a table
      whose ids lie in `2 ..` `first - 1` ends with ids in `2 ..` the last id given. */
  lemma StoredIdsBounded(table: map<nat, Breakpoint>, engine: BreakpointEngine, bps: seq<Breakpoint>, first: nat)
    requires 2 <= first && forall id :: id in table ==> 2 <= id < first
    ensures forall id :: id in Stored(table, engine, bps, first) ==> 2 <= id < first + |bps|
  {
    forall id | id in Stored(table, engine, bps, first)
      ensures 2 <= id < first + |bps|
    {
      StoredLookup(table, engine, bps, first, id);
    }
  }

  // ---------------------------------------------------------------------
  // The drain

  /** The tickets of the queued messages that have a handler, in order: the
      tasks a drain completes. */
  function HandledTickets(records: seq<MessageRecord>): (tickets: seq<nat>)
    ensures |tickets| <= |records|
    decreases |records|
  {
    if |records| == 0 then []
    else
      var last := records[|records| - 1];
      HandledTickets(records[..|records| - 1]) + (if HasHandler(last.message) then [last.ticket] else [])
  }

  /** Messages without a handler complete no task; the others complete theirs,
      in queue order. */
  lemma {:induction false} HandledTicketsExactly(records: seq<MessageRecord>)
    ensures (forall i :: 0 <= i < |records| ==> HasHandler(records[i].message)) ==>
      HandledTickets(records) == seq(|records|, i requires 0 <= i < |records| => records[i].ticket)
    ensures (forall i :: 0 <= i < |records| ==> !HasHandler(records[i].message)) ==> HandledTickets(records) == []
    decreases |records|
  {
    if |records| > 0 {
      var prefix := records[..|records| - 1];
      HandledTicketsExactly(prefix);
      assert forall i :: 0 <= i < |prefix| ==> prefix[i] == records[i];
    }
  }

  /** Taking one more record from the queue adds its ticket when it has a
      handler. */
  lemma HandledTicketsStep(records: seq<MessageRecord>, n: nat)
    requires n < |records|
    ensures records[n..][1..] == records[n + 1..]
    ensures HandledTickets(records[..n + 1]) == HandledTickets(records[..n]) + HandledTickets(records[n..][..1])
  {
    assert records[..n + 1][..n] == records[..n];
    assert records[n..][..1][..0] == [];
  }

  // ---------------------------------------------------------------------
  // The engine loop

  /** What the loop does for an execution status; `Err` stands for a failed
      status query. */
  datatype Step = WaitForEvent | DrainQueue | EndLoop

  predicate IsRunning(status: Status) {
    status == Go || status == StepBranch || status == StepInto || status == StepOver
  }

  /** One turn of the loop: a running debuggee is waited on, a failed query
      or a vanished debuggee ends the loop, and any other status drains the
      queue. */
  function LoopStep(status: Result<Status>): (step: Step)
    ensures step == EndLoop <==> status.Err? || status.value == NoDebuggee
    ensures step == WaitForEvent <==> status.Ok? && IsRunning(status.value)
  {
    match status
    case Err(_) => EndLoop
    case Ok(s) => if s == NoDebuggee then EndLoop else if IsRunning(s) then WaitForEvent else DrainQueue
  }

  /** The steps taken for successive status queries, until the loop ends or
      is cancelled (the statuses run out), followed by the final drain. */
  function Schedule(statuses: seq<Result<Status>>): (steps: seq<Step>)
    ensures |steps| >= 1
    decreases |statuses|
  {
    if |statuses| == 0 || LoopStep(statuses[0]) == EndLoop then [DrainQueue]
    else [LoopStep(statuses[0])] + Schedule(statuses[1..])
  }

  /** The loop waits or drains, turn by turn, for each status until the first
      one that ends it, and the queue is always drained once more at the end. */
  lemma {:induction false} ScheduleShape(statuses: seq<Result<Status>>)
    ensures var steps := Schedule(statuses);
      && 1 <= |steps| <= |statuses| + 1
      && steps[|steps| - 1] == DrainQueue
      && (forall i :: 0 <= i < |steps| - 1 ==> steps[i] == LoopStep(statuses[i]) && steps[i] != EndLoop)
      && (|steps| - 1 < |statuses| ==> LoopStep(statuses[|steps| - 1]) == EndLoop)
    decreases |statuses|
  {
    if |statuses| > 0 && LoopStep(statuses[0]) != EndLoop {
      ScheduleShape(statuses[1..]);
    }
  }

  /** The loop of `MainLoop` after the first continue, over the statuses the
      engine reports in turn. */
  method RunMainLoop(statuses: seq<Result<Status>>) returns (steps: seq<Step>)
    ensures steps == Schedule(statuses)
  {
    steps := [];
    var i := 0;
    while i < |statuses| && LoopStep(statuses[i]) != EndLoop
      invariant 0 <= i <= |statuses|
      invariant steps + Schedule(statuses[i..]) == Schedule(statuses)
    {
      assert statuses[i..][1..] == statuses[i + 1..];
      var rest := Schedule(statuses[i + 1..]);
      assert Schedule(statuses[i..]) == [LoopStep(statuses[i])] + rest;
      steps := steps + [LoopStep(statuses[i])];
      i := i + 1;
    }
    assert Schedule(statuses[i..]) == [DrainQueue];
    steps := steps + [DrainQueue];
  }

  // ---------------------------------------------------------------------
  // What a handler does

  /** The store's contents, over the gateway's entities. */
  type Store = StoreTables<StackFrame, Scope, Variable, SymbolGroup>

  /** The gateway's state as its handlers see it: the last breakpoint id
      handed out, the id table, the status last requested of the engine and
      the store's contents. */
  datatype GatewayState = GatewayState(
    lastBreakpointId: nat,
    breakpoints: map<nat, Breakpoint>,
    requestedStatus: Option<Status>,
    store: Store)

  /** `route` lists the variables that store `s` holds under the scope, each
      once, in the store's enumeration `order`. */
  ghost predicate ListsScope(s: Store, route: VariablesRoute, scopeId: int) {
    && route.CachedScopeVariables?
    && Enumerates(route.order, if scopeId in s.children then s.children[scopeId] * s.variables.Keys else {})
    && |route.variables| == |route.order|
    && forall i :: 0 <= i < |route.order| ==> route.order[i] in s.variables && route.variables[i] == s.variables[route.order[i]]
  }

  /** What `DoGetVariables(parentId)` answers, `r`, and leaves in the store,
      `t`, from the store `s` it finds: a scope is answered through its symbol
      group, which is stored; a variable is expanded; any other id gets an
      empty list; and only a stored group changes the store. */
  ghost predicate AnswersVariables(parentId: int, engine: ScopeEngine, s: Store, t: Store, r: Result<VariablesRoute>) {
    if parentId !in s.scopes then
      && t == s
      && r == Ok(if parentId in s.variables then ExpandVariable(parentId) else NoVariables)
    else
      var scope := s.scopes[parentId];
      match GetScopeByName(Some(scope.name))
      case Err(fault) => r == Err(fault) && t == s
      case Ok(scopeGroup) =>
        var oldGroup := if scope.id in s.symbolGroups then Some(s.symbolGroups[scope.id]) else None;
        var oldCount := if oldGroup.Some? then oldGroup.value.count else 0;
        var group := engine.scopeSymbolGroup(scopeGroup, oldGroup);
        if group.None? then r == Ok(NoVariables) && t == s
        else
          && t == s.(symbolGroups := s.symbolGroups[scope.id := group.value])
          && (if group.value.count != oldCount then r == Ok(ReadScopeSymbols(scope.id, group.value))
              else r.Ok? && ListsScope(t, r.value, scope.id))
  }

  /** What the handler registered for `message` answers, `r`, and leaves in
      the gateway, `t`, from the state `s` it finds. Breakpoints take the next
      ids; a variables request may store a symbol group and nothing else;
      continuing forgets every entity; stepping only requests a status; the
      stack-trace, scopes and threads handlers, whose store writes are not
      modelled, may change the store and nothing else; and the other handlers
      not modelled here change nothing. */
  ghost predicate Handles(message: Message, breakpointEngine: BreakpointEngine, scopeEngine: ScopeEngine,
                          s: GatewayState, t: GatewayState, r: Result<MessageResult>)
  {
    match message
    case SetBreakpointsMessage(bps) =>
      && r == Ok(BreakpointsResult(Outcomes(breakpointEngine, bps, s.lastBreakpointId + 1)))
      && t == s.(lastBreakpointId := s.lastBreakpointId + |bps|,
                 breakpoints := Stored(s.breakpoints, breakpointEngine, bps, s.lastBreakpointId + 1))
    case VariablesMessage(parentId) =>
      && t == s.(store := t.store)
      && (r.Err? ==> AnswersVariables(parentId, scopeEngine, s.store, t.store, Err(r.fault)))
      && (r.Ok? ==> r.value.VariablesResult? && AnswersVariables(parentId, scopeEngine, s.store, t.store, Ok(r.value.route)))
    case ContinueMessage =>
      r == Ok(EmptyResult) && t == s.(requestedStatus := Some(GoHandled), store := EmptyTables())
    case StepOverMessage =>
      r == Ok(EmptyResult) && t == s.(requestedStatus := Some(StepOver))
    case StepIntoMessage =>
      r == Ok(EmptyResult) && t == s.(requestedStatus := Some(StepInto))
    case StackTraceMessage(_) | ScopesMessage(_) | ThreadsMessage =>
      r == Ok(Delegated(message)) && t == s.(store := t.store)
    case _ =>
      r == Ok(Delegated(message)) && t == s
  }

  /** Taking `record` off the queue moved the gateway from `s` to `t` and the
      answered tasks from `current` to `after`, with `failure` the fault, if
      any, its handler threw: a record without a handler changes nothing; a
      handler that throws moves the state as it does and answers nothing; and
      any other handler moves the state as it does and has the record's
      ticket answered with its result. */
  ghost predicate Takes(record: MessageRecord, breakpointEngine: BreakpointEngine, scopeEngine: ScopeEngine,
                        s: GatewayState, t: GatewayState,
                        current: seq<(nat, MessageResult)>, after: seq<(nat, MessageResult)>, failure: Option<Fault>)
  {
    if !HasHandler(record.message) then failure.None? && after == current && t == s
    else if failure.Some? then after == current && Handles(record.message, breakpointEngine, scopeEngine, s, t, Err(failure.value))
    else
      && |after| == |current| + 1 && after[..|current|] == current
      && after[|current|].0 == record.ticket
      && Handles(record.message, breakpointEngine, scopeEngine, s, t, Ok(after[|current|].1))
  }

  /** Taking a record answers its ticket exactly when it has a handler and
      the handler returns. */
  lemma TakesAnswersTicket(record: MessageRecord, breakpointEngine: BreakpointEngine, scopeEngine: ScopeEngine,
                           s: GatewayState, t: GatewayState,
                           current: seq<(nat, MessageResult)>, after: seq<(nat, MessageResult)>, failure: Option<Fault>)
    requires Takes(record, breakpointEngine, scopeEngine, s, t, current, after, failure)
    ensures failure.Some? ==> after == current
    ensures failure.None? ==> Firsts(after) == Firsts(current) + HandledTickets([record])
  {
    assert [record][..0] == [];
    if failure.None? && HasHandler(record.message) {
      assert after == current + [after[|current|]];
      FirstsSnoc(current, after[|current|]);
    }
  }

  /** A drain of `records` that went through the gateway states `views`, one
      before each record and one after the last, and completed the tasks
      `answers`: each record with a handler moved the state as its handler
      does and had its ticket answered with the handler's result, and each
      record without one changed nothing. */
  ghost predicate Drains(records: seq<MessageRecord>, breakpointEngine: BreakpointEngine, scopeEngine: ScopeEngine,
                         views: seq<GatewayState>, answers: seq<(nat, MessageResult)>)
    decreases |records|
  {
    && |views| == |records| + 1
    && if |records| == 0 then answers == []
       else
         var n := |records| - 1;
         if HasHandler(records[n].message) then
           && |answers| > 0
           && answers[|answers| - 1].0 == records[n].ticket
           && Handles(records[n].message, breakpointEngine, scopeEngine, views[n], views[n + 1], Ok(answers[|answers| - 1].1))
           && Drains(records[..n], breakpointEngine, scopeEngine, views[..n + 1], answers[..|answers| - 1])
         else
           && views[n + 1] == views[n]
           && Drains(records[..n], breakpointEngine, scopeEngine, views[..n + 1], answers)
  }

  /** Taking record `n` extends a drain by the state `next` after it and,
      when the record has a handler, by its answer, the one entry that the
      answers `after` add to `current`; the answers before the drain,
      `before`, stay in front. */
  lemma DrainsSnoc(records: seq<MessageRecord>, n: nat, breakpointEngine: BreakpointEngine, scopeEngine: ScopeEngine,
                   views: seq<GatewayState>, next: GatewayState,
                   before: seq<(nat, MessageResult)>, current: seq<(nat, MessageResult)>, after: seq<(nat, MessageResult)>)
    requires n < |records| && |before| <= |current| && current[..|before|] == before
    requires Drains(records[..n], breakpointEngine, scopeEngine, views, current[|before|..])
    requires Takes(records[n], breakpointEngine, scopeEngine, views[n], next, current, after, None)
    ensures |before| <= |after| && after[..|before|] == before
    ensures Drains(records[..n + 1], breakpointEngine, scopeEngine, views + [next], after[|before|..])
  {
    assert records[..n + 1][..n] == records[..n];
    assert (views + [next])[..n + 1] == views;
    if HasHandler(records[n].message) {
      assert after == current + [after[|current|]];
      assert after[|before|..][..|after[|before|..]| - 1] == current[|before|..];
    }
  }

  /** The tasks a drain answers are those of its records that have a
      handler, in queue order. */
  lemma {:induction false} DrainsAnswerHandledTickets(records: seq<MessageRecord>, breakpointEngine: BreakpointEngine, scopeEngine: ScopeEngine,
                                                     views: seq<GatewayState>, answers: seq<(nat, MessageResult)>)
    requires Drains(records, breakpointEngine, scopeEngine, views, answers)
    ensures Firsts(answers) == HandledTickets(records)
    decreases |records|
  {
    if |records| > 0 {
      var n := |records| - 1;
      if HasHandler(records[n].message) {
        var prefix := answers[..|answers| - 1];
        DrainsAnswerHandledTickets(records[..n], breakpointEngine, scopeEngine, views[..n + 1], prefix);
        FirstsSnoc(prefix, answers[|answers| - 1]);
        assert answers == prefix + [answers[|answers| - 1]];
      } else {
        DrainsAnswerHandledTickets(records[..n], breakpointEngine, scopeEngine, views[..n + 1], answers);
      }
    }
  }

  /** After a drain, the tasks answered are those answered before it
      followed by those of the drained records that have a handler. */
  lemma DrainedTickets(records: seq<MessageRecord>, breakpointEngine: BreakpointEngine, scopeEngine: ScopeEngine,
                       views: seq<GatewayState>, before: seq<(nat, MessageResult)>, answered: seq<(nat, MessageResult)>)
    requires |before| <= |answered| && answered[..|before|] == before
    requires Drains(records, breakpointEngine, scopeEngine, views, answered[|before|..])
    ensures Firsts(answered) == Firsts(before) + HandledTickets(records)
  {
    DrainsAnswerHandledTickets(records, breakpointEngine, scopeEngine, views, answered[|before|..]);
    assert answered == before + answered[|before|..];
    FirstsAppend(before, answered[|before|..]);
  }

  // ---------------------------------------------------------------------
  // The gateway

  /** `WinDbgWrapper`: the queue and its gate, the breakpoint id table, the
      status last requested of the engine, the completions answered so far, and
      the entity store. */
  class WinDbgWrapper {
    var isDisposed: bool
    var notAcceptingMessages: bool
    var messages: seq<MessageRecord>
    var nextTicket: nat
    var answered: seq<(nat, MessageResult)>
    var lastBreakpointId: nat
    var breakpoints: map<nat, Breakpoint>
    var requestedStatus: Option<Status>
    const state: DebuggerState<StackFrame, Scope, Variable, SymbolGroup>

    /** The state the handlers work on, as a value. */
    ghost function Snapshot(): GatewayState
      reads this, state
    {
      GatewayState(lastBreakpointId, breakpoints, requestedStatus, state.Contents())
    }

    /** The store is consistent and every stored breakpoint id was handed out. */
    ghost predicate Valid()
      reads this, state
    {
      && state.Valid()
      && 1 <= lastBreakpointId
      && (forall id :: id in breakpoints ==> 2 <= id <= lastBreakpointId)
    }

    constructor ()
      ensures Valid() && fresh(state)
      ensures !isDisposed && !notAcceptingMessages && messages == [] && answered == []
      ensures lastBreakpointId == 1 && breakpoints == map[] && requestedStatus == None
    {
      isDisposed, notAcceptingMessages := false, false;
      messages, nextTicket, answered := [], 0, [];
      lastBreakpointId, breakpoints := 1, map[];
      requestedStatus := None;
      state := new DebuggerState();
    }

    /** `HandleMessage`: once disposed, or once a `TerminateMessage` was
        accepted, a message gets a completed task and is not queued; otherwise
        it is queued with a new task, and a `TerminateMessage` closes the gate
        behind itself. */
    method HandleMessage(message: Message) returns (t: Ticket)
      modifies this
      ensures old(isDisposed || notAcceptingMessages) ==>
        t == Completed && messages == old(messages) && nextTicket == old(nextTicket) &&
        notAcceptingMessages == old(notAcceptingMessages)
      ensures !old(isDisposed || notAcceptingMessages) ==>
        && t == Pending(old(nextTicket))
        && messages == old(messages) + [MessageRecord(message, old(nextTicket))]
        && nextTicket == old(nextTicket) + 1
        && notAcceptingMessages == message.TerminateMessage?
      ensures isDisposed == old(isDisposed) && answered == old(answered)
      ensures lastBreakpointId == old(lastBreakpointId) && breakpoints == old(breakpoints)
      ensures requestedStatus == old(requestedStatus)
    {
      if isDisposed || notAcceptingMessages {
        return Completed;
      }
      if message.TerminateMessage? {
        notAcceptingMessages := true;
      }
      t := Pending(nextTicket);
      messages := messages + [MessageRecord(message, nextTicket)];
      nextTicket := nextTicket + 1;
    }

    /** `Dispose`, as far as the queue is concerned. */
    method Dispose()
      modifies this
      ensures isDisposed
      ensures messages == old(messages) && answered == old(answered) && notAcceptingMessages == old(notAcceptingMessages)
      ensures lastBreakpointId == old(lastBreakpointId) && breakpoints == old(breakpoints)
      ensures requestedStatus == old(requestedStatus) && nextTicket == old(nextTicket)
    {
      isDisposed := true;
    }

    /** `GetBreakpoint`: the breakpoint registered under the engine's id, if
        any; `OnBreakpoint` reports a hit only when there is one. */
    function GetBreakpoint(engineId: nat): (r: Option<Breakpoint>)
      reads this
      ensures r.Some? <==> engineId in breakpoints
      ensures r.Some? ==> r.value == breakpoints[engineId]
    {
      if engineId in breakpoints then Some(breakpoints[engineId]) else None
    }

    /** `DoSetBreakpoints`: each requested breakpoint takes the next id, even
        when it then fails to register, and only those that register are
        entered in the id table. */
    method DoSetBreakpoints(bps: seq<Breakpoint>, engine: BreakpointEngine) returns (outcomes: seq<(Breakpoint, bool)>)
      requires Valid()
      modifies this
      ensures Valid()
      ensures outcomes == Outcomes(engine, bps, old(lastBreakpointId) + 1)
      ensures lastBreakpointId == old(lastBreakpointId) + |bps|
      ensures breakpoints == Stored(old(breakpoints), engine, bps, old(lastBreakpointId) + 1)
      ensures isDisposed == old(isDisposed) && notAcceptingMessages == old(notAcceptingMessages)
      ensures messages == old(messages) && nextTicket == old(nextTicket) && answered == old(answered)
      ensures requestedStatus == old(requestedStatus)
    {
      var lastId, table;
      outcomes, lastId, table := RegisterBreakpoints(bps, engine, lastBreakpointId, breakpoints);
      lastBreakpointId, breakpoints := lastId, table;
    }

    /** `DoContinueExecution`: forgets every entity, then asks the engine to
        go on. */
    method DoContinue() returns (r: MessageResult)
      requires Valid()
      modifies this, state
      ensures Valid()
      ensures r == EmptyResult && requestedStatus == Some(GoHandled)
      ensures state.counter == FirstIndex && state.frames == map[] && state.scopes == map[]
      ensures state.variables == map[] && state.children == map[] && state.symbolGroups == map[] && state.threads == map[]
      ensures isDisposed == old(isDisposed) && notAcceptingMessages == old(notAcceptingMessages)
      ensures messages == old(messages) && nextTicket == old(nextTicket) && answered == old(answered)
      ensures lastBreakpointId == old(lastBreakpointId) && breakpoints == old(breakpoints)
    {
      state.Clear();
      requestedStatus := Some(GoHandled);
      r := EmptyResult;
    }

    /** `DoGetVariables`: the id is looked up as a scope first, then as a
        variable; an id that is neither gets an empty list. */
    method DoGetVariables(parentId: int, engine: ScopeEngine) returns (r: Result<VariablesRoute>)
      requires Valid()
      modifies state
      ensures Valid()
      ensures old(state.GetScope(parentId)).None? && old(state.GetVariable(parentId)).None? ==> r == Ok(NoVariables)
      ensures old(state.GetScope(parentId)).None? && old(state.GetVariable(parentId)).Some? ==> r == Ok(ExpandVariable(parentId))
      ensures old(state.GetScope(parentId)).None? ==> unchanged(state)
      ensures old(state.GetScope(parentId)).Some? ==>
        var scope := old(state.GetScope(parentId)).value;
        var oldGroup := old(state.GetSymbolsForScope(scope.id));
        var oldCount := if oldGroup.Some? then oldGroup.value.count else 0;
        && (GetScopeByName(Some(scope.name)).Err? ==> r == Err(GetScopeByName(Some(scope.name)).fault) && unchanged(state))
        && (GetScopeByName(Some(scope.name)).Ok? ==>
              var group := engine.scopeSymbolGroup(GetScopeByName(Some(scope.name)).value, oldGroup);
              && (group.None? ==> r == Ok(NoVariables) && unchanged(state))
              && (group.Some? ==> state.symbolGroups == old(state.symbolGroups)[scope.id := group.value])
              && (group.Some? ==> state.variables == old(state.variables) && state.children == old(state.children))
              && (group.Some? ==> state.counter == old(state.counter) && state.frames == old(state.frames))
              && (group.Some? ==> state.scopes == old(state.scopes) && state.threads == old(state.threads))
              && (group.Some? && group.value.count != oldCount ==> r == Ok(ReadScopeSymbols(scope.id, group.value)))
              && (group.Some? && group.value.count == oldCount ==> r.Ok? && ListsScope(state.Contents(), r.value, scope.id)))
      ensures AnswersVariables(parentId, engine, old(state.Contents()), state.Contents(), r)
    {
      var scope := state.GetScope(parentId);
      if scope.None? {
        var parentVariable := state.GetVariable(parentId);
        if parentVariable.None? {
          return Ok(NoVariables);
        }
        return Ok(ExpandVariable(parentId));
      }
      r := DoGetVariablesByScope(scope.value, engine);
    }

    /** `DoGetVariablesByScope`: asks the engine for the scope's symbol group,
        handing it the group read last time, and stores the new one. When the
        number of symbols is unchanged the stored variables of the scope are
        reused; otherwise the symbols are read afresh. A failed request gives
        an empty list, and a scope name outside the table throws. */
    method DoGetVariablesByScope(scope: Scope, engine: ScopeEngine) returns (r: Result<VariablesRoute>)
      requires Valid()
      modifies state
      ensures Valid()
      ensures GetScopeByName(Some(scope.name)).Err? ==> r == Err(GetScopeByName(Some(scope.name)).fault) && unchanged(state)
      ensures GetScopeByName(Some(scope.name)).Ok? ==>
        var oldGroup := old(state.GetSymbolsForScope(scope.id));
        var group := engine.scopeSymbolGroup(GetScopeByName(Some(scope.name)).value, oldGroup);
        var oldCount := if oldGroup.Some? then oldGroup.value.count else 0;
        && (group.None? ==> r == Ok(NoVariables) && unchanged(state))
        && (group.Some? ==> state.symbolGroups == old(state.symbolGroups)[scope.id := group.value])
        && (group.Some? && group.value.count != oldCount ==> r == Ok(ReadScopeSymbols(scope.id, group.value)))
        && (group.Some? ==> state.variables == old(state.variables) && state.children == old(state.children))
        && (group.Some? ==> state.counter == old(state.counter) && state.frames == old(state.frames))
        && (group.Some? ==> state.scopes == old(state.scopes) && state.threads == old(state.threads))
        && (group.Some? && group.value.count == oldCount ==> r.Ok? && ListsScope(state.Contents(), r.value, scope.id))
    {
      var oldGroup := state.GetSymbolsForScope(scope.id);
      var oldItemsCount := if oldGroup.Some? then oldGroup.value.count else 0;
      var scopeGroup := GetScopeByName(Some(scope.name));
      if scopeGroup.Err? {
        return Err(scopeGroup.fault);
      }
      var group := engine.scopeSymbolGroup(scopeGroup.value, oldGroup);
      if group.None? {
        return Ok(NoVariables);
      }
      state.UpdateSymbolGroup(scope.id, group.value);
      if oldItemsCount == group.value.count {
        var variables, order := state.GetVariablesByScope(scope.id);
        return Ok(CachedScopeVariables(variables, order));
      }
      r := Ok(ReadScopeSymbols(scope.id, group.value));
    }

    /** Runs the handler registered for the message's type. */
    method Dispatch(message: Message, breakpointEngine: BreakpointEngine, scopeEngine: ScopeEngine) returns (r: Result<MessageResult>)
      requires Valid() && HasHandler(message)
      modifies this, state
      ensures Valid()
      ensures isDisposed == old(isDisposed) && notAcceptingMessages == old(notAcceptingMessages)
      ensures messages == old(messages) && nextTicket == old(nextTicket) && answered == old(answered)
      ensures message.SetBreakpointsMessage? ==>
        r == Ok(BreakpointsResult(Outcomes(breakpointEngine, message.breakpoints, old(lastBreakpointId) + 1)))
      ensures message.ContinueMessage? ==> r == Ok(EmptyResult) && requestedStatus == Some(GoHandled) && state.variables == map[]
      ensures message.StepOverMessage? ==> r == Ok(EmptyResult) && requestedStatus == Some(StepOver)
      ensures message.StepIntoMessage? ==> r == Ok(EmptyResult) && requestedStatus == Some(StepInto)
      ensures !message.VariablesMessage? ==> r.Ok?
      ensures Handles(message, breakpointEngine, scopeEngine, old(Snapshot()), Snapshot(), r)
    {
      match message {
        case SetBreakpointsMessage(bps) =>
          var outcomes := DoSetBreakpoints(bps, breakpointEngine);
          r := Ok(BreakpointsResult(outcomes));
        case VariablesMessage(parentId) =>
          var route := DoGetVariables(parentId, scopeEngine);
          r := if route.Ok? then Ok(VariablesResult(route.value)) else Err(route.fault);
        case ContinueMessage =>
          var result := DoContinue();
          r := Ok(result);
        case StepOverMessage =>
          requestedStatus := Some(StepOver);
          r := Ok(EmptyResult);
        case StepIntoMessage =>
          requestedStatus := Some(StepInto);
          r := Ok(EmptyResult);
        case _ =>
          r := Ok(Delegated(message));
      }
    }

    /** One turn of the drain: takes the oldest queued record, runs the
        handler of its type, if there is one, and completes the record's task
        with the result. */
    method ProcessNext(breakpointEngine: BreakpointEngine, scopeEngine: ScopeEngine) returns (failure: Option<Fault>)
      requires Valid() && |messages| > 0
      modifies this, state
      ensures Valid()
      ensures isDisposed == old(isDisposed) && notAcceptingMessages == old(notAcceptingMessages)
      ensures messages == old(messages)[1..] && nextTicket == old(nextTicket)
      ensures !HasHandler(old(messages)[0].message) ==> failure.None? && answered == old(answered)
      ensures failure.Some? ==> answered == old(answered)
      ensures Takes(old(messages)[0], breakpointEngine, scopeEngine, old(Snapshot()), Snapshot(), old(answered), answered, failure)
    {
      var record := messages[0];
      messages := messages[1..];
      failure := None;
      if HasHandler(record.message) {
        var result := Dispatch(record.message, breakpointEngine, scopeEngine);
        if result.Err? {
          return Some(result.fault);
        }
        answered := answered + [(record.ticket, result.value)];
      }
    }

    /** `ProcessMessages`: takes the queued messages in arrival order and
        answers the ticket of each one that has a handler with what the
        handler returns; the others are dropped unanswered. Nothing is taken
        once disposed. A handler that throws ends the drain: its message was
        taken and its task stays pending, while the messages behind it stay
        queued. `taken` counts the messages taken, and `trace` holds the
        gateway's state before each of them and after the last. */
    method ProcessMessages(breakpointEngine: BreakpointEngine, scopeEngine: ScopeEngine)
      returns (failure: Option<Fault>, taken: nat, ghost trace: seq<GatewayState>)
      requires Valid()
      modifies this, state
      ensures Valid()
      ensures isDisposed == old(isDisposed) && notAcceptingMessages == old(notAcceptingMessages) && nextTicket == old(nextTicket)
      ensures taken <= |old(messages)| && messages == old(messages)[taken..]
      ensures old(isDisposed) ==> taken == 0 && answered == old(answered) && failure.None? && Snapshot() == old(Snapshot())
      ensures !old(isDisposed) && failure.None? ==>
        messages == [] && Firsts(answered) == Firsts(old(answered)) + HandledTickets(old(messages))
      ensures failure.Some? ==>
        0 < taken && Firsts(answered) == Firsts(old(answered)) + HandledTickets(old(messages)[..taken - 1])
      ensures |trace| == taken + 1 && trace[0] == old(Snapshot()) && trace[taken] == Snapshot()
      ensures |old(answered)| <= |answered| && answered[..|old(answered)|] == old(answered)
      ensures failure.None? ==>
        Drains(old(messages)[..taken], breakpointEngine, scopeEngine, trace, answered[|old(answered)|..])
      ensures failure.Some? ==>
        && Drains(old(messages)[..taken - 1], breakpointEngine, scopeEngine, trace[..taken], answered[|old(answered)|..])
        && Handles(old(messages)[taken - 1].message, breakpointEngine, scopeEngine, trace[taken - 1], trace[taken], Err(failure.value))
    {
      if isDisposed {
        failure, taken, trace := None, 0, [Snapshot()];
        assert answered[|answered|..] == [];
        return;
      }
      failure, taken, trace := DrainQueue(breakpointEngine, scopeEngine);
      if failure.None? {
        assert old(messages)[..taken] == old(messages);
        DrainedTickets(old(messages)[..taken], breakpointEngine, scopeEngine, trace, old(answered), answered);
      } else {
        DrainedTickets(old(messages)[..taken - 1], breakpointEngine, scopeEngine, trace[..taken], old(answered), answered);
      }
    }

    /** The loop of `ProcessMessages` once it is known not to be disposed. */
    method DrainQueue(breakpointEngine: BreakpointEngine, scopeEngine: ScopeEngine)
      returns (failure: Option<Fault>, taken: nat, ghost trace: seq<GatewayState>)
      requires Valid() && !isDisposed
      modifies this, state
      ensures Valid()
      ensures isDisposed == old(isDisposed) && notAcceptingMessages == old(notAcceptingMessages) && nextTicket == old(nextTicket)
      ensures taken <= |old(messages)| && messages == old(messages)[taken..]
      ensures failure.None? ==> messages == []
      ensures failure.Some? ==> 0 < taken
      ensures |trace| == taken + 1 && trace[0] == old(Snapshot()) && trace[taken] == Snapshot()
      ensures |old(answered)| <= |answered| && answered[..|old(answered)|] == old(answered)
      ensures failure.None? ==>
        Drains(old(messages)[..taken], breakpointEngine, scopeEngine, trace, answered[|old(answered)|..])
      ensures failure.Some? ==>
        && Drains(old(messages)[..taken - 1], breakpointEngine, scopeEngine, trace[..taken], answered[|old(answered)|..])
        && Handles(old(messages)[taken - 1].message, breakpointEngine, scopeEngine, trace[taken - 1], trace[taken], Err(failure.value))
    {
      ghost var queued := messages;
      ghost var before := answered;
      taken := 0;
      failure := None;
      trace := [Snapshot()];
      assert answered[|before|..] == [];
      while |messages| > 0
        invariant Valid()
        invariant isDisposed == old(isDisposed) && notAcceptingMessages == old(notAcceptingMessages)
        invariant nextTicket == old(nextTicket)
        invariant taken <= |queued| && messages == queued[taken..]
        invariant |trace| == taken + 1 && trace[0] == old(Snapshot()) && trace[taken] == Snapshot()
        invariant |before| <= |answered| && answered[..|before|] == before
        invariant Drains(queued[..taken], breakpointEngine, scopeEngine, trace, answered[|before|..])
        decreases |messages|
      {
        ghost var current := answered;
        ghost var record := messages[0];
        ghost var prior := Snapshot();
        var outcome := ProcessNext(breakpointEngine, scopeEngine);
        if outcome.Some? {
          ghost var drained := trace;
          trace := trace + [Snapshot()];
          assert trace[..taken + 1] == drained;
          assert Handles(record.message, breakpointEngine, scopeEngine, prior, Snapshot(), Err(outcome.value));
          failure, taken := outcome, taken + 1;
          return;
        }
        DrainsSnoc(queued, taken, breakpointEngine, scopeEngine, trace, Snapshot(), before, current, answered);
        trace := trace + [Snapshot()];
        taken := taken + 1;
      }
      assert queued[..taken] == queued;
    }
  }
}
