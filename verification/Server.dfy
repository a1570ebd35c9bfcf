/**
 * The acceptor and the connections of the embedded HTTP server as a machine of
 * interleaved steps, one step for every action other threads can observe.
 */
module Server {
  import opened Common
  import opened Dispatcher

  /** An asynchronous operation whose callback has not run yet. */
  datatype Op = AcceptOp | ReadOp(id: nat) | WriteOp(id: nat)

  /** Where a connection is between two callbacks, or inside one. */
  datatype Phase =
    | Created      // constructed and counted, not running yet
    | Reading      // an asynchronous read is pending
    | ReadFailed   // the read error is counted; nothing else will run
    | Handling     // the read is counted, the response is not
    | Answered     // the response is counted, the write is not scheduled
    | Writing      // an asynchronous write is pending
    | Written      // the write is over, the next read is not scheduled
    | Closed       // destroyed

  /** Where the acceptor is; it keeps the new connection alive while it holds it. */
  datatype Accepting =
    | Idle              // an asynchronous accept is pending
    | Accepted          // the accept succeeded on an open acceptor
    | Failed            // the accept failed on an open acceptor
    | Holding(id: nat)  // the connection is constructed, the accept is not counted
    | Counted(id: nat)  // the accept is counted, the connection is still held
    | Rearming          // the next accept is not scheduled
    | Stopped           // the acceptor was seen closed

  /** `conns` has one entry for every connection ever constructed; its index is the identifier. */
  datatype State = State(
    open: bool, accepting: Accepting, conns: seq<Phase>, pending: multiset<Op>, counters: Counters)

  datatype Event =
    | Shutdown
    | OnAccept(ok: bool)
    | Construct
    | Run
    | CountAcceptOk
    | Release
    | CountAcceptError
    | Rearm
    | OnRead(id: nat, ok: bool)
    | Process(id: nat, answer: StatusClass)
    | StartWrite(id: nat)
    | OnWrite(id: nat, ok: bool)
    | ReadAgain(id: nat)
    | Destroy(id: nat)

  /** The acceptor starts with one asynchronous accept. */
  predicate Initial(s: State) {
    s.open && s.accepting == Idle && s.conns == [] && s.pending == multiset{AcceptOp} && s.counters == ZERO
  }

  /** The steps of the acceptor's callback and its shutdown; all others belong to a connection. */
  predicate OfAcceptor(e: Event) {
    !(e.OnRead? || e.Process? || e.StartWrite? || e.OnWrite? || e.ReadAgain? || e.Destroy?)
  }

  predicate In(s: State, id: nat, p: Phase) {
    id < |s.conns| && s.conns[id] == p
  }

  predicate Held(s: State, id: nat) {
    (s.accepting.Holding? || s.accepting.Counted?) && s.accepting.id == id
  }

  predicate Enabled(s: State, e: Event) {
    match e
    case Shutdown => true
    case OnAccept(_) => AcceptOp in s.pending
    case Construct => s.accepting.Accepted?
    case Run => s.accepting.Holding? && In(s, s.accepting.id, Created)
    case CountAcceptOk => s.accepting.Holding? && !In(s, s.accepting.id, Created)
    case Release => s.accepting.Counted?
    case CountAcceptError => s.accepting.Failed?
    case Rearm => s.accepting.Rearming?
    case OnRead(id, _) => id < |s.conns| && ReadOp(id) in s.pending
    case Process(id, _) => In(s, id, Handling)
    case StartWrite(id) => In(s, id, Answered)
    case OnWrite(id, _) => id < |s.conns| && WriteOp(id) in s.pending
    case ReadAgain(id) => In(s, id, Written)
    case Destroy(id) => In(s, id, ReadFailed) && !Held(s, id)
  }

  function Step(s: State, e: Event): State
    requires Enabled(s, e)
  {
    var c := s.counters;
    match e
    case Shutdown => s.(open := false)
    case OnAccept(ok) =>
      var s1 := s.(pending := s.pending - multiset{AcceptOp});
      if !s.open then s1.(accepting := Stopped, counters := c.(acceptClosed := c.acceptClosed + 1))
      else s1.(accepting := if ok then Accepted else Failed)
    case Construct =>
      s.(accepting := Holding(|s.conns|), conns := s.conns + [Created],
         counters := c.(openConnection := c.openConnection + 1))
    case Run =>
      s.(conns := s.conns[s.accepting.id := Reading], pending := s.pending + multiset{ReadOp(s.accepting.id)})
    case CountAcceptOk =>
      s.(accepting := Counted(s.accepting.id), counters := c.(acceptOk := c.acceptOk + 1))
    case Release => s.(accepting := Rearming)
    case CountAcceptError => s.(accepting := Rearming, counters := c.(acceptError := c.acceptError + 1))
    case Rearm => s.(accepting := Idle, pending := s.pending + multiset{AcceptOp})
    case OnRead(id, ok) =>
      s.(conns := s.conns[id := if ok then Handling else ReadFailed],
         pending := s.pending - multiset{ReadOp(id)},
         counters := if ok then c.(readOk := c.readOk + 1) else c.(readError := c.readError + 1))
    case Process(id, answer) =>
      s.(conns := s.conns[id := Answered], counters := CountResponse(c, answer))
    case StartWrite(id) =>
      s.(conns := s.conns[id := Writing], pending := s.pending + multiset{WriteOp(id)})
    case OnWrite(id, ok) =>
      s.(conns := s.conns[id := Written], pending := s.pending - multiset{WriteOp(id)},
         counters := if ok then c else c.(writeError := c.writeError + 1))
    case ReadAgain(id) =>
      s.(conns := s.conns[id := Reading], pending := s.pending + multiset{ReadOp(id)})
    case Destroy(id) =>
      s.(conns := s.conns[id := Closed], counters := c.(closeConnection := c.closeConnection + 1))
  }

  // ---------------------------------------------------------------------
  // Invariant
  // ---------------------------------------------------------------------

  ghost function CountOf(conns: seq<Phase>, p: Phase): (n: nat)
    ensures n <= |conns|
  {
    if conns == [] then 0
    else CountOf(conns[..|conns| - 1], p) + if conns[|conns| - 1] == p then 1 else 0
  }

  /** The number of connections in a phase. */
  ghost function InPhase(s: State, p: Phase): nat {
    CountOf(s.conns, p)
  }

  /** The connections constructed and not destroyed. */
  ghost function Live(s: State): int {
    |s.conns| - InPhase(s, Closed)
  }

  /** How often an operation is pending, read off the acceptor and the connections. */
  ghost function Awaited(s: State, op: Op): nat {
    match op
    case AcceptOp => if s.accepting.Idle? then 1 else 0
    case ReadOp(id) => if In(s, id, Reading) then 1 else 0
    case WriteOp(id) => if In(s, id, Writing) then 1 else 0
  }

  ghost predicate OperationsMatch(s: State) {
    forall op: Op :: s.pending[op] == Awaited(s, op)
  }

  ghost predicate HeldConnections(s: State) {
    && HeldIsLive(s)
    && (forall id: nat | In(s, id, Created) :: s.accepting == Holding(id))
  }

  ghost predicate CountersBalance(s: State) {
    var c := s.counters;
    && c.openConnection == |s.conns|
    && c.closeConnection == InPhase(s, Closed)
    && c.readOk == AllResponses(c) + InPhase(s, Handling)
    && c.readError == c.closeConnection + InPhase(s, ReadFailed)
    && c.openConnection == c.acceptOk + (if s.accepting.Holding? then 1 else 0)
    && c.acceptClosed == (if s.accepting.Stopped? then 1 else 0)
    && (s.accepting.Stopped? ==> !s.open)
    && c.writeOk == 0
  }

  ghost predicate Invariant(s: State) {
    OperationsMatch(s) && HeldConnections(s) && CountersBalance(s)
  }

  lemma {:induction false} CountAfterMove(conns: seq<Phase>, id: nat, q: Phase, r: Phase)
    requires id < |conns|
    ensures CountOf(conns[id := q], r)
            == CountOf(conns, r) - (if r == conns[id] then 1 else 0) + (if r == q then 1 else 0)
  {
    var n := |conns| - 1;
    if id < n {
      assert conns[id := q][..n] == conns[..n][id := q];
      CountAfterMove(conns[..n], id, q, r);
    } else {
      assert conns[id := q][..n] == conns[..n];
    }
  }

  /** Moving one connection to another phase changes the number in both phases and in no other. */
  lemma ConnectionMoves(s: State, id: nat, p: Phase, q: Phase)
    requires In(s, id, p)
    ensures var t := s.(conns := s.conns[id := q]);
            forall r :: InPhase(t, r) == InPhase(s, r) - (if r == p then 1 else 0) + (if r == q then 1 else 0)
  {
    forall r ensures var t := s.(conns := s.conns[id := q]);
                     InPhase(t, r) == InPhase(s, r) - (if r == p then 1 else 0) + (if r == q then 1 else 0) {
      CountAfterMove(s.conns, id, q, r);
    }
  }

  lemma {:induction false} NoneOf(conns: seq<Phase>, p: Phase)
    requires p !in conns
    ensures CountOf(conns, p) == 0
  {
    if conns != [] {
      NoneOf(conns[..|conns| - 1], p);
    }
  }

  lemma InitialInvariant(s: State)
    requires Initial(s)
    ensures Invariant(s)
  {
    forall op: Op ensures s.pending[op] == Awaited(s, op) {
    }
  }

  /** What the invariant says about one operation of each kind. */
  lemma AtMostOnePending(s: State, id: nat)
    requires Invariant(s)
    ensures s.pending[ReadOp(id)] + s.pending[WriteOp(id)] <= 1
    ensures s.pending[AcceptOp] <= 1
    ensures |s.conns| <= id || s.conns[id] == Closed ==> s.pending[ReadOp(id)] + s.pending[WriteOp(id)] == 0
    ensures s.accepting.Stopped? ==> AcceptOp !in s.pending
  {
    assert s.pending[ReadOp(id)] == Awaited(s, ReadOp(id));
    assert s.pending[WriteOp(id)] == Awaited(s, WriteOp(id));
    assert s.pending[AcceptOp] == Awaited(s, AcceptOp);
  }

  /** A callback happens in the phase that waits for it. */
  ghost predicate FitsPhase(s: State, e: Event) {
    && (e.OnAccept? ==> s.accepting.Idle?)
    && (e.OnRead? ==> In(s, e.id, Reading))
    && (e.OnWrite? ==> In(s, e.id, Writing))
  }

  /** The event's own operation is awaited, so its connection is in the phase that awaits it. */
  lemma EventsFitPhases(s: State, e: Event)
    requires OperationsMatch(s) && Enabled(s, e)
    ensures FitsPhase(s, e)
  {
    if e.OnAccept? {
      assert s.pending[AcceptOp] == Awaited(s, AcceptOp);
    } else if e.OnRead? {
      assert s.pending[ReadOp(e.id)] == Awaited(s, ReadOp(e.id));
    } else if e.OnWrite? {
      assert s.pending[WriteOp(e.id)] == Awaited(s, WriteOp(e.id));
    }
  }

  lemma AcceptorKeepsOperation(s: State, e: Event, op: Op)
    requires Enabled(s, e) && FitsPhase(s, e) && OfAcceptor(e)
    requires s.pending[op] == Awaited(s, op)
    ensures Step(s, e).pending[op] == Awaited(Step(s, e), op)
  {
  }

  lemma ConnectionKeepsAccept(s: State, e: Event)
    requires Enabled(s, e) && FitsPhase(s, e) && !OfAcceptor(e)
    requires s.pending[AcceptOp] == Awaited(s, AcceptOp)
    ensures Step(s, e).pending[AcceptOp] == Awaited(Step(s, e), AcceptOp)
  {
  }

  lemma ConnectionKeepsRead(s: State, e: Event, id: nat)
    requires Enabled(s, e) && FitsPhase(s, e) && !OfAcceptor(e)
    requires s.pending[ReadOp(id)] == Awaited(s, ReadOp(id))
    ensures Step(s, e).pending[ReadOp(id)] == Awaited(Step(s, e), ReadOp(id))
  {
  }

  lemma ConnectionKeepsWrite(s: State, e: Event, id: nat)
    requires Enabled(s, e) && FitsPhase(s, e) && !OfAcceptor(e)
    requires s.pending[WriteOp(id)] == Awaited(s, WriteOp(id))
    ensures Step(s, e).pending[WriteOp(id)] == Awaited(Step(s, e), WriteOp(id))
  {
  }

  lemma ConnectionKeepsOperation(s: State, e: Event, op: Op)
    requires Enabled(s, e) && FitsPhase(s, e) && !OfAcceptor(e)
    requires s.pending[op] == Awaited(s, op)
    ensures Step(s, e).pending[op] == Awaited(Step(s, e), op)
  {
    match op
    case AcceptOp => ConnectionKeepsAccept(s, e);
    case ReadOp(id) => ConnectionKeepsRead(s, e, id);
    case WriteOp(id) => ConnectionKeepsWrite(s, e, id);
  }

  lemma StepKeepsOperations(s: State, e: Event)
    requires Invariant(s) && Enabled(s, e)
    ensures OperationsMatch(Step(s, e))
  {
    EventsFitPhases(s, e);
    forall op: Op ensures Step(s, e).pending[op] == Awaited(Step(s, e), op) {
      assert s.pending[op] == Awaited(s, op);
      if OfAcceptor(e) {
        AcceptorKeepsOperation(s, e, op);
      } else {
        ConnectionKeepsOperation(s, e, op);
      }
    }
  }

  lemma StepKeepsCreatedHeld(s: State, e: Event, id: nat)
    requires HeldConnections(s) && Enabled(s, e) && FitsPhase(s, e) && In(Step(s, e), id, Created)
    ensures Step(s, e).accepting == Holding(id)
  {
    assert In(s, id, Created) || e.Construct?;
  }

  /** The connection that the acceptor holds, if any, is live. */
  ghost predicate HeldIsLive(s: State) {
    s.accepting.Holding? || s.accepting.Counted? ==>
      s.accepting.id < |s.conns| && s.conns[s.accepting.id] != Closed
  }

  lemma AcceptorKeepsHeldLive(s: State, e: Event)
    requires HeldIsLive(s) && Enabled(s, e) && OfAcceptor(e)
    ensures HeldIsLive(Step(s, e))
  {
  }

  lemma ConnectionKeepsHeldLive(s: State, e: Event)
    requires HeldIsLive(s) && Enabled(s, e) && !OfAcceptor(e)
    ensures HeldIsLive(Step(s, e))
  {
    var t := Step(s, e);
    assert t.accepting == s.accepting && |t.conns| == |s.conns|;
  }

  lemma StepKeepsHeld(s: State, e: Event)
    requires Invariant(s) && Enabled(s, e)
    ensures HeldConnections(Step(s, e))
  {
    EventsFitPhases(s, e);
    var t := Step(s, e);
    forall id: nat | In(t, id, Created) ensures t.accepting == Holding(id) {
      StepKeepsCreatedHeld(s, e, id);
    }
    if OfAcceptor(e) {
      AcceptorKeepsHeldLive(s, e);
    } else {
      ConnectionKeepsHeldLive(s, e);
    }
  }

  lemma AcceptorKeepsBalance(s: State, e: Event)
    requires Invariant(s) && Enabled(s, e) && FitsPhase(s, e) && OfAcceptor(e)
    ensures CountersBalance(Step(s, e))
  {
    if e.Run? {
      ConnectionMoves(s, s.accepting.id, Created, Reading);
    }
  }

  lemma ResponseKeepsBalance(s: State, id: nat, answer: StatusClass)
    requires CountersBalance(s) && In(s, id, Handling)
    ensures CountersBalance(Step(s, Process(id, answer)))
  {
    ConnectionMoves(s, id, Handling, Answered);
    CountsOne(s.counters, answer);
  }

  lemma ReadKeepsBalance(s: State, id: nat, ok: bool)
    requires CountersBalance(s) && In(s, id, Reading) && ReadOp(id) in s.pending
    ensures CountersBalance(Step(s, OnRead(id, ok)))
  {
    ConnectionMoves(s, id, Reading, if ok then Handling else ReadFailed);
  }

  lemma WriteKeepsBalance(s: State, id: nat, ok: bool)
    requires CountersBalance(s) && In(s, id, Writing) && WriteOp(id) in s.pending
    ensures CountersBalance(Step(s, OnWrite(id, ok)))
  {
    ConnectionMoves(s, id, Writing, Written);
  }

  lemma ScheduleKeepsBalance(s: State, id: nat, e: Event)
    requires CountersBalance(s) && (e == StartWrite(id) || e == ReadAgain(id)) && Enabled(s, e)
    ensures CountersBalance(Step(s, e))
  {
    if e == StartWrite(id) {
      ConnectionMoves(s, id, Answered, Writing);
    } else {
      ConnectionMoves(s, id, Written, Reading);
    }
  }

  lemma DestroyKeepsBalance(s: State, id: nat)
    requires CountersBalance(s) && Enabled(s, Destroy(id))
    ensures CountersBalance(Step(s, Destroy(id)))
  {
    ConnectionMoves(s, id, ReadFailed, Closed);
  }

  lemma StepKeepsBalance(s: State, e: Event)
    requires Invariant(s) && Enabled(s, e)
    ensures CountersBalance(Step(s, e))
  {
    EventsFitPhases(s, e);
    if OfAcceptor(e) {
      AcceptorKeepsBalance(s, e);
    } else {
      match e
      case OnRead(id, ok) => ReadKeepsBalance(s, id, ok);
      case Process(id, answer) => ResponseKeepsBalance(s, id, answer);
      case StartWrite(id) => ScheduleKeepsBalance(s, id, e);
      case OnWrite(id, ok) => WriteKeepsBalance(s, id, ok);
      case ReadAgain(id) => ScheduleKeepsBalance(s, id, e);
      case Destroy(id) => DestroyKeepsBalance(s, id);
    }
  }

  lemma StepKeepsInvariant(s: State, e: Event)
    requires Invariant(s) && Enabled(s, e)
    ensures Invariant(Step(s, e))
  {
    StepKeepsOperations(s, e);
    StepKeepsHeld(s, e);
    StepKeepsBalance(s, e);
  }

  // ---------------------------------------------------------------------
  // Runs
  // ---------------------------------------------------------------------

  predicate Next(s: State, e: Event, t: State) {
    Enabled(s, e) && t == Step(s, e)
  }

  /** An interleaving: every event is enabled in its state and leads to the next one. */
  ghost predicate IsRun(states: seq<State>, events: seq<Event>) {
    && |states| == |events| + 1
    && Initial(states[0])
    && forall i {:trigger events[i]} | 0 <= i < |events| :: Next(states[i], events[i], states[i + 1])
  }

  lemma {:induction false} RunKeepsInvariant(states: seq<State>, events: seq<Event>, k: nat)
    requires IsRun(states, events) && k < |states|
    ensures Invariant(states[k])
  {
    if k == 0 {
      InitialInvariant(states[0]);
    } else {
      RunKeepsInvariant(states, events, k - 1);
      assert Next(states[k - 1], events[k - 1], states[k]);
      StepKeepsInvariant(states[k - 1], events[k - 1]);
    }
  }

  /**
   * Conservation over every interleaving: opened minus closed is the number of
   * live connections, and reads minus responses the number of requests being
   * handled. A successful write is never counted.
   */
  lemma Conservation(states: seq<State>, events: seq<Event>, k: nat)
    requires IsRun(states, events) && k < |states|
    ensures var s := states[k]; var c := s.counters;
            && c.openConnection - c.closeConnection == Live(s)
            && c.readOk - AllResponses(c) == InPhase(s, Handling)
            && c.readError - c.closeConnection == InPhase(s, ReadFailed)
            && c.openConnection - c.acceptOk == (if s.accepting.Holding? then 1 else 0)
            && c.writeOk == 0
  {
    RunKeepsInvariant(states, events, k);
  }

  /** No callback is running: everything waits for a pending operation, or has stopped. */
  ghost predicate Quiet(s: State) {
    && (s.accepting.Idle? || s.accepting.Stopped?)
    && forall p | p in s.conns :: p == Reading || p == Writing || p == Closed
  }

  /** Between callbacks, the counters of both sides agree exactly. */
  lemma QuietBalance(states: seq<State>, events: seq<Event>, k: nat)
    requires IsRun(states, events) && k < |states| && Quiet(states[k])
    ensures var c := states[k].counters;
            && c.openConnection == c.acceptOk
            && c.closeConnection == c.readError
            && c.readOk == AllResponses(c)
  {
    RunKeepsInvariant(states, events, k);
    NoneOf(states[k].conns, Handling);
    NoneOf(states[k].conns, ReadFailed);
  }

  /** Every connection has at most one pending operation, and so has the acceptor. */
  lemma OnePendingOperation(states: seq<State>, events: seq<Event>, k: nat, id: nat)
    requires IsRun(states, events) && k < |states|
    ensures var s := states[k];
            && s.pending[ReadOp(id)] + s.pending[WriteOp(id)] <= 1
            && s.pending[AcceptOp] <= 1
            && (|s.conns| <= id || s.conns[id] == Closed ==>
                  s.pending[ReadOp(id)] + s.pending[WriteOp(id)] == 0)
  {
    RunKeepsInvariant(states, events, k);
    AtMostOnePending(states[k], id);
  }

  lemma StoppedStays(s: State, e: Event)
    requires s.accepting.Stopped? && AcceptOp !in s.pending && Enabled(s, e)
    ensures Step(s, e).accepting.Stopped?
    ensures Step(s, e).counters.openConnection == s.counters.openConnection
  {
  }

  ghost predicate StoppedAt(s: State, count: nat) {
    s.accepting.Stopped? && s.counters.openConnection == count
  }

  lemma NextStaysStopped(states: seq<State>, events: seq<Event>, k: nat, count: nat)
    requires IsRun(states, events) && k < |events| && StoppedAt(states[k], count)
    ensures StoppedAt(states[k + 1], count)
  {
    assert Next(states[k], events[k], states[k + 1]);
    RunKeepsInvariant(states, events, k);
    AtMostOnePending(states[k], 0);
    StoppedStays(states[k], events[k]);
  }

  lemma {:induction false} StaysStopped(states: seq<State>, events: seq<Event>, j: nat, k: nat, count: nat)
    requires IsRun(states, events) && j <= k < |states| && StoppedAt(states[j], count)
    ensures StoppedAt(states[k], count)
    decreases k - j
  {
    if j < k {
      NextStaysStopped(states, events, j, count);
      StaysStopped(states, events, j + 1, k, count);
    }
  }

  /**
   * After the acceptor has seen the shutdown it stays stopped: no accept is
   * scheduled again and no connection is opened.
   */
  lemma StoppedForever(states: seq<State>, events: seq<Event>, j: nat, k: nat)
    requires IsRun(states, events) && j <= k < |states| && states[j].accepting.Stopped?
    ensures var s, t := states[j], states[k];
            && t.accepting.Stopped? && AcceptOp !in t.pending
            && t.counters.openConnection == s.counters.openConnection
            && t.counters.acceptClosed == 1
  {
    StaysStopped(states, events, j, k, states[j].counters.openConnection);
    RunKeepsInvariant(states, events, k);
    AtMostOnePending(states[k], 0);
  }

  /** Connections opened, or bound to be opened by an accept that already succeeded. */
  ghost function Admitted(s: State): nat {
    s.counters.openConnection + if s.accepting.Accepted? then 1 else 0
  }

  lemma ClosedAdmitsNone(s: State, e: Event)
    requires OperationsMatch(s) && Enabled(s, e) && !s.open
    ensures !Step(s, e).open && Admitted(Step(s, e)) == Admitted(s)
  {
    EventsFitPhases(s, e);
  }

  lemma NextAdmitsNone(states: seq<State>, events: seq<Event>, k: nat)
    requires IsRun(states, events) && k < |events| && !states[k].open
    ensures !states[k + 1].open && Admitted(states[k + 1]) == Admitted(states[k])
  {
    assert Next(states[k], events[k], states[k + 1]);
    RunKeepsInvariant(states, events, k);
    ClosedAdmitsNone(states[k], events[k]);
  }

  /** After a shutdown only an accept that had already succeeded still opens a connection. */
  lemma {:induction false} ShutdownAdmitsNone(states: seq<State>, events: seq<Event>, j: nat, k: nat)
    requires IsRun(states, events) && j <= k < |states| && !states[j].open
    ensures !states[k].open && Admitted(states[k]) == Admitted(states[j])
    decreases k - j
  {
    if j < k {
      NextAdmitsNone(states, events, j);
      ShutdownAdmitsNone(states, events, j + 1, k);
    }
  }

  /** The machine is never stuck before the acceptor has stopped and every connection is closed. */
  lemma AlwaysEnabled(s: State)
    requires Invariant(s)
    requires !s.accepting.Stopped? || Live(s) > 0
    ensures exists e :: e != Shutdown && Enabled(s, e)
  {
    if s.accepting.Idle? {
      assert s.pending[AcceptOp] == Awaited(s, AcceptOp);
      assert Enabled(s, OnAccept(true));
    } else if s.accepting.Stopped? {
      SomeLive(s.conns);
      var id: nat :| id < |s.conns| && s.conns[id] != Closed;
      assert !In(s, id, Created);
      assert s.pending[ReadOp(id)] == Awaited(s, ReadOp(id));
      assert s.pending[WriteOp(id)] == Awaited(s, WriteOp(id));
      assert Enabled(s, ConnectionEvent(s, id));
    } else {
      assert Enabled(s, AcceptorEvent(s));
    }
  }

  lemma {:induction false} SomeLive(conns: seq<Phase>)
    requires CountOf(conns, Closed) < |conns|
    ensures exists id: nat :: id < |conns| && conns[id] != Closed
  {
    var n := |conns| - 1;
    if conns[n] == Closed {
      SomeLive(conns[..n]);
      var id: nat :| id < n && conns[..n][id] != Closed;
      assert conns[id] != Closed;
    }
  }

  ghost function AcceptorEvent(s: State): Event {
    match s.accepting
    case Accepted => Construct
    case Failed => CountAcceptError
    case Holding(id) => if In(s, id, Created) then Run else CountAcceptOk
    case Counted(_) => Release
    case Rearming => Rearm
    case _ => OnAccept(true)
  }

  ghost function ConnectionEvent(s: State, id: nat): Event {
    if In(s, id, Reading) then OnRead(id, true)
    else if In(s, id, ReadFailed) then Destroy(id)
    else if In(s, id, Handling) then Process(id, Successful)
    else if In(s, id, Answered) then StartWrite(id)
    else if In(s, id, Writing) then OnWrite(id, true)
    else ReadAgain(id)
  }
}
