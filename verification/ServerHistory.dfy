/**
 * What a run of the server has done, read off its events alone: the counters
 * report the events, and every connection and the acceptor is in the place that
 * its own events lead to.
 */
module ServerHistory {
  import opened Common
  import opened Dispatcher
  import opened Server

  /** Kinds of events; an accept completes early or late, before or after the shutdown. */
  datatype Kind =
    | GoodReads
    | BadReads
    | BadWrites
    | Responding(answer: StatusClass)
    | Destroying
    | EarlyAccepts(ok: bool)
    | LateAccepts
    | AnswersTo(id: nat)
    | WritesOf(id: nat)
    | Exactly(event: Event)

  /** The event `e`, after the events `past`, is of the kind. */
  ghost predicate OfKind(past: seq<Event>, e: Event, kind: Kind) {
    match kind
    case GoodReads => e.OnRead? && e.ok
    case BadReads => e.OnRead? && !e.ok
    case BadWrites => e.OnWrite? && !e.ok
    case Responding(answer) => e.Process? && e.answer == answer
    case Destroying => e.Destroy?
    case EarlyAccepts(ok) => e == OnAccept(ok) && Shutdown !in past
    case LateAccepts => e.OnAccept? && Shutdown in past
    case AnswersTo(id) => e.Process? && e.id == id
    case WritesOf(id) => e.OnWrite? && e.id == id
    case Exactly(event) => e == event
  }

  /** The number of events of a kind. */
  ghost function Times(past: seq<Event>, kind: Kind): nat {
    if past == [] then 0
    else
      var front, last := past[..|past| - 1], past[|past| - 1];
      Times(front, kind) + if OfKind(front, last, kind) then 1 else 0
  }

  lemma TimesMore(past: seq<Event>, e: Event, kind: Kind)
    ensures Times(past + [e], kind) == Times(past, kind) + if OfKind(past, e, kind) then 1 else 0
  {
    assert (past + [e])[..|past|] == past;
  }

  lemma MoreOfEvery(past: seq<Event>, e: Event)
    ensures forall kind ::
              Times(past + [e], kind) == Times(past, kind) + if OfKind(past, e, kind) then 1 else 0
  {
    forall kind ensures Times(past + [e], kind) == Times(past, kind) + if OfKind(past, e, kind) then 1 else 0 {
      TimesMore(past, e, kind);
    }
  }

  // ---------------------------------------------------------------------
  // The counters
  // ---------------------------------------------------------------------

  /** Every counter is the number of the events that it reports. */
  ghost predicate CountersReport(c: Counters, past: seq<Event>) {
    ConnectionsReport(c, past) && AcceptsReport(c, past) && ResponsesReport(c.responses, past)
  }

  /** Successful writes are never counted. */
  ghost predicate ConnectionsReport(c: Counters, past: seq<Event>) {
    && c.openConnection == Times(past, Exactly(Construct))
    && c.closeConnection == Times(past, Destroying)
    && c.readOk == Times(past, GoodReads)
    && c.readError == Times(past, BadReads)
    && c.writeOk == 0
    && c.writeError == Times(past, BadWrites)
  }

  ghost predicate AcceptsReport(c: Counters, past: seq<Event>) {
    && c.acceptOk == Times(past, Exactly(CountAcceptOk))
    && c.acceptError == Times(past, Exactly(CountAcceptError))
    && c.acceptClosed == Times(past, LateAccepts)
  }

  ghost predicate ResponsesReport(r: ByClass, past: seq<Event>) {
    && r.invalid == Times(past, Responding(Invalid))
    && r.informational == Times(past, Responding(Informational))
    && r.successful == Times(past, Responding(Successful))
    && r.redirection == Times(past, Responding(Redirection))
    && r.clientError == Times(past, Responding(ClientError))
    && r.serverError == Times(past, Responding(ServerError))
  }

  /** What one event adds to the counters of connections, and of accepts. */
  ghost predicate ConnectionsAdded(c: Counters, d: Counters, e: Event) {
    && d.openConnection == c.openConnection + One(e == Construct)
    && d.closeConnection == c.closeConnection + One(e.Destroy?)
    && d.readOk == c.readOk + One(e.OnRead? && e.ok)
    && d.readError == c.readError + One(e.OnRead? && !e.ok)
    && d.writeOk == c.writeOk
    && d.writeError == c.writeError + One(e.OnWrite? && !e.ok)
  }

  ghost predicate AcceptsAdded(c: Counters, d: Counters, e: Event, late: bool) {
    && d.acceptOk == c.acceptOk + One(e == CountAcceptOk)
    && d.acceptError == c.acceptError + One(e == CountAcceptError)
    && d.acceptClosed == c.acceptClosed + One(e.OnAccept? && late)
  }

  lemma AcceptorAdds(s: State, e: Event)
    requires Enabled(s, e) && OfAcceptor(e)
    ensures ConnectionsAdded(s.counters, Step(s, e).counters, e)
    ensures AcceptsAdded(s.counters, Step(s, e).counters, e, !s.open)
  {
  }

  lemma CallbackAdds(s: State, e: Event)
    requires Enabled(s, e) && (e.OnRead? || e.OnWrite?)
    ensures ConnectionsAdded(s.counters, Step(s, e).counters, e)
    ensures AcceptsAdded(s.counters, Step(s, e).counters, e, !s.open)
  {
  }

  lemma ResponseAdds(s: State, e: Event)
    requires Enabled(s, e) && (e.Process? || e.Destroy?)
    ensures ConnectionsAdded(s.counters, Step(s, e).counters, e)
    ensures AcceptsAdded(s.counters, Step(s, e).counters, e, !s.open)
  {
  }

  lemma ScheduleAdds(s: State, e: Event)
    requires Enabled(s, e) && (e.StartWrite? || e.ReadAgain?)
    ensures ConnectionsAdded(s.counters, Step(s, e).counters, e)
    ensures AcceptsAdded(s.counters, Step(s, e).counters, e, !s.open)
  {
  }

  lemma AddedConnections(c: Counters, d: Counters, past: seq<Event>, e: Event)
    requires ConnectionsReport(c, past) && ConnectionsAdded(c, d, e)
    ensures ConnectionsReport(d, past + [e])
  {
    TimesMore(past, e, Exactly(Construct));
    TimesMore(past, e, Destroying);
    TimesMore(past, e, GoodReads);
    TimesMore(past, e, BadReads);
    TimesMore(past, e, BadWrites);
  }

  lemma AddedAccepts(c: Counters, d: Counters, past: seq<Event>, e: Event)
    requires AcceptsReport(c, past) && AcceptsAdded(c, d, e, Shutdown in past)
    ensures AcceptsReport(d, past + [e])
  {
    TimesMore(past, e, Exactly(CountAcceptOk));
    TimesMore(past, e, Exactly(CountAcceptError));
    TimesMore(past, e, LateAccepts);
  }

  lemma ResponseReports(r: ByClass, past: seq<Event>, id: nat, answer: StatusClass)
    requires ResponsesReport(r, past)
    ensures ResponsesReport(CountClass(r, answer), past + [Process(id, answer)])
  {
    MoreOfEvery(past, Process(id, answer));
  }

  lemma NoResponse(r: ByClass, past: seq<Event>, e: Event)
    requires !e.Process? && ResponsesReport(r, past)
    ensures ResponsesReport(r, past + [e])
  {
    MoreOfEvery(past, e);
  }

  lemma StepReports(s: State, past: seq<Event>, e: Event)
    requires Enabled(s, e) && (s.open <==> Shutdown !in past)
    requires CountersReport(s.counters, past)
    ensures CountersReport(Step(s, e).counters, past + [e])
  {
    if OfAcceptor(e) {
      AcceptorAdds(s, e);
    } else if e.OnRead? || e.OnWrite? {
      CallbackAdds(s, e);
    } else if e.Process? || e.Destroy? {
      ResponseAdds(s, e);
    } else {
      ScheduleAdds(s, e);
    }
    AddedConnections(s.counters, Step(s, e).counters, past, e);
    AddedAccepts(s.counters, Step(s, e).counters, past, e);
    if e.Process? {
      ResponseReports(s.counters.responses, past, e.id, e.answer);
    } else {
      NoResponse(s.counters.responses, past, e);
    }
  }

  // ---------------------------------------------------------------------
  // One connection
  // ---------------------------------------------------------------------

  /**
   * What one connection has done: every step of the cycle of reading, answering
   * and writing has followed the one before it, but for the last.
   */
  ghost predicate ConnectionFlow(s: State, past: seq<Event>, id: nat) {
    if id < |s.conns| then Flow(s.conns[id], past, id) else Untouched(past, id)
  }

  ghost predicate Flow(p: Phase, past: seq<Event>, id: nat) {
    && Times(past, Exactly(OnRead(id, true))) + Times(past, Exactly(OnRead(id, false)))
       + One(p == Reading || p == Created)
       == 1 + Times(past, Exactly(ReadAgain(id)))
    && Times(past, AnswersTo(id)) + One(p == Handling) == Times(past, Exactly(OnRead(id, true)))
    && Times(past, Exactly(StartWrite(id))) + One(p == Answered) == Times(past, AnswersTo(id))
    && Times(past, WritesOf(id)) + One(p == Writing) == Times(past, Exactly(StartWrite(id)))
    && Times(past, Exactly(ReadAgain(id))) + One(p == Written) == Times(past, WritesOf(id))
    && Times(past, Exactly(Destroy(id))) + One(p == ReadFailed) == Times(past, Exactly(OnRead(id, false)))
    && Times(past, Exactly(Destroy(id))) == One(p == Closed)
  }

  function One(b: bool): nat {
    if b then 1 else 0
  }

  /** No event concerns a connection that is not constructed. */
  ghost predicate Untouched(past: seq<Event>, id: nat) {
    && Times(past, Exactly(OnRead(id, true))) == 0 && Times(past, Exactly(OnRead(id, false))) == 0
    && Times(past, AnswersTo(id)) == 0 && Times(past, WritesOf(id)) == 0
    && Times(past, Exactly(StartWrite(id))) == 0 && Times(past, Exactly(ReadAgain(id))) == 0
    && Times(past, Exactly(Destroy(id))) == 0
  }

  /** An event of another connection or of the acceptor. */
  lemma OtherEvent(past: seq<Event>, e: Event, id: nat)
    requires OfAcceptor(e) || e.id != id
    ensures Untouched(past, id) ==> Untouched(past + [e], id)
    ensures forall p :: Flow(p, past, id) ==> Flow(p, past + [e], id)
  {
    MoreOfEvery(past, e);
  }

  lemma OwnGoodRead(p: Phase, past: seq<Event>, id: nat)
    requires p == Reading && Flow(p, past, id)
    ensures Flow(Handling, past + [OnRead(id, true)], id)
  {
    MoreOfEvery(past, OnRead(id, true));
  }

  lemma OwnBadRead(p: Phase, past: seq<Event>, id: nat)
    requires p == Reading && Flow(p, past, id)
    ensures Flow(ReadFailed, past + [OnRead(id, false)], id)
  {
    MoreOfEvery(past, OnRead(id, false));
  }

  lemma OwnAnswer(p: Phase, past: seq<Event>, e: Event, id: nat)
    requires e.Process? && e.id == id && p == Handling && Flow(p, past, id)
    ensures Flow(Answered, past + [e], id)
  {
    MoreOfEvery(past, e);
  }

  lemma OwnWrite(p: Phase, past: seq<Event>, e: Event, id: nat)
    requires e.OnWrite? && e.id == id && p == Writing && Flow(p, past, id)
    ensures Flow(Written, past + [e], id)
  {
    MoreOfEvery(past, e);
  }

  lemma OwnStart(p: Phase, past: seq<Event>, e: Event, id: nat)
    requires e == StartWrite(id) && p == Answered && Flow(p, past, id)
    ensures Flow(Writing, past + [e], id)
  {
    MoreOfEvery(past, e);
  }

  lemma OwnReadAgain(p: Phase, past: seq<Event>, e: Event, id: nat)
    requires e == ReadAgain(id) && p == Written && Flow(p, past, id)
    ensures Flow(Reading, past + [e], id)
  {
    MoreOfEvery(past, e);
  }

  lemma OwnDestroy(p: Phase, past: seq<Event>, e: Event, id: nat)
    requires e == Destroy(id) && p == ReadFailed && Flow(p, past, id)
    ensures Flow(Closed, past + [e], id)
  {
    MoreOfEvery(past, e);
  }

  lemma OwnEvent(s: State, past: seq<Event>, e: Event, id: nat)
    requires Enabled(s, e) && FitsPhase(s, e) && !OfAcceptor(e) && e.id == id && id < |s.conns|
    requires Flow(s.conns[id], past, id)
    ensures Flow(Step(s, e).conns[id], past + [e], id)
  {
    match e
    case OnRead(_, true) => OwnGoodRead(s.conns[id], past, id);
    case OnRead(_, false) => OwnBadRead(s.conns[id], past, id);
    case Process(_, _) => OwnAnswer(s.conns[id], past, e, id);
    case StartWrite(_) => OwnStart(s.conns[id], past, e, id);
    case OnWrite(_, _) => OwnWrite(s.conns[id], past, e, id);
    case ReadAgain(_) => OwnReadAgain(s.conns[id], past, e, id);
    case Destroy(_) => OwnDestroy(s.conns[id], past, e, id);
  }

  lemma StepKeepsFlow(s: State, past: seq<Event>, e: Event, id: nat)
    requires Invariant(s) && Enabled(s, e) && ConnectionFlow(s, past, id)
    ensures ConnectionFlow(Step(s, e), past + [e], id)
  {
    EventsFitPhases(s, e);
    if OfAcceptor(e) || e.id != id {
      OtherEvent(past, e, id);
    } else {
      OwnEvent(s, past, e, id);
    }
  }

  // ---------------------------------------------------------------------
  // The acceptor
  // ---------------------------------------------------------------------

  /** What the acceptor has done, and that a shutdown is all that closes it. */
  ghost predicate AcceptorFlow(s: State, past: seq<Event>) {
    && (s.open <==> Shutdown !in past)
    && |s.conns| == Times(past, Exactly(Construct))
    && Times(past, EarlyAccepts(true)) == Times(past, Exactly(Construct)) + One(s.accepting.Accepted?)
    && Times(past, EarlyAccepts(false)) == Times(past, Exactly(CountAcceptError)) + One(s.accepting.Failed?)
    && Times(past, LateAccepts) == One(s.accepting.Stopped?)
    && Times(past, Exactly(Construct)) == Times(past, Exactly(Run)) + One(HoldsCreated(s))
    && Times(past, Exactly(Construct)) == Times(past, Exactly(CountAcceptOk)) + One(s.accepting.Holding?)
    && Times(past, Exactly(CountAcceptOk)) == Times(past, Exactly(Release)) + One(s.accepting.Counted?)
    && Times(past, Exactly(Release)) + Times(past, Exactly(CountAcceptError))
       == Times(past, Exactly(Rearm)) + One(s.accepting.Rearming?)
    && (s.accepting.Holding? || s.accepting.Counted? ==> s.accepting.id + 1 == |s.conns|)
  }

  /** The acceptor holds a connection that does not run yet. */
  ghost predicate HoldsCreated(s: State) {
    s.accepting.Holding? && In(s, s.accepting.id, Created)
  }

  lemma ShutdownKeepsFlow(s: State, past: seq<Event>)
    requires AcceptorFlow(s, past)
    ensures AcceptorFlow(Step(s, Shutdown), past + [Shutdown])
  {
    MoreOfEvery(past, Shutdown);
  }

  lemma AcceptKeepsFlow(s: State, past: seq<Event>, e: Event)
    requires Enabled(s, e) && FitsPhase(s, e) && e.OnAccept? && AcceptorFlow(s, past)
    ensures AcceptorFlow(Step(s, e), past + [e])
  {
    MoreOfEvery(past, e);
  }

  lemma ConstructKeepsFlow(s: State, past: seq<Event>, e: Event)
    requires Enabled(s, e) && (e.Construct? || e.Run?) && AcceptorFlow(s, past)
    ensures AcceptorFlow(Step(s, e), past + [e])
  {
    MoreOfEvery(past, e);
  }

  lemma RearmKeepsFlow(s: State, past: seq<Event>, e: Event)
    requires Enabled(s, e) && (e.CountAcceptOk? || e.Release? || e.CountAcceptError? || e.Rearm?)
    requires AcceptorFlow(s, past)
    ensures AcceptorFlow(Step(s, e), past + [e])
  {
    MoreOfEvery(past, e);
  }

  /** A step of a connection adds to no kind of the acceptor's events. */
  lemma SameForAcceptor(past: seq<Event>, e: Event)
    requires !OfAcceptor(e)
    ensures Shutdown in past <==> Shutdown in past + [e]
    ensures forall ok :: Times(past + [e], EarlyAccepts(ok)) == Times(past, EarlyAccepts(ok))
    ensures Times(past + [e], LateAccepts) == Times(past, LateAccepts)
    ensures forall event | OfAcceptor(event) :: Times(past + [e], Exactly(event)) == Times(past, Exactly(event))
  {
    MoreOfEvery(past, e);
  }

  lemma ConnectionKeepsAcceptor(s: State, e: Event)
    requires Enabled(s, e) && FitsPhase(s, e) && !OfAcceptor(e)
    ensures var t := Step(s, e);
            && t.open == s.open && t.accepting == s.accepting && |t.conns| == |s.conns|
            && HoldsCreated(t) == HoldsCreated(s)
  {
  }

  lemma ConnectionKeepsAcceptorFlow(s: State, past: seq<Event>, e: Event)
    requires Enabled(s, e) && FitsPhase(s, e) && !OfAcceptor(e) && AcceptorFlow(s, past)
    ensures AcceptorFlow(Step(s, e), past + [e])
  {
    SameForAcceptor(past, e);
    ConnectionKeepsAcceptor(s, e);
  }

  lemma StepKeepsAcceptorFlow(s: State, past: seq<Event>, e: Event)
    requires Enabled(s, e) && FitsPhase(s, e) && AcceptorFlow(s, past)
    ensures AcceptorFlow(Step(s, e), past + [e])
  {
    if e.Shutdown? {
      ShutdownKeepsFlow(s, past);
    } else if e.OnAccept? {
      AcceptKeepsFlow(s, past, e);
    } else if e.Construct? || e.Run? {
      ConstructKeepsFlow(s, past, e);
    } else if OfAcceptor(e) {
      RearmKeepsFlow(s, past, e);
    } else {
      ConnectionKeepsAcceptorFlow(s, past, e);
    }
  }

  // ---------------------------------------------------------------------
  // Runs
  // ---------------------------------------------------------------------

  /** One step further in a run, with its state and its events named. */
  lemma RunStep(states: seq<State>, events: seq<Event>, k: nat)
      returns (s: State, e: Event, past: seq<Event>)
    requires IsRun(states, events) && k < |events|
    ensures s == states[k] && e == events[k] && past == events[..k]
    ensures Invariant(s) && Enabled(s, e) && FitsPhase(s, e)
    ensures states[k + 1] == Step(s, e) && events[..k + 1] == past + [e]
  {
    s, e, past := states[k], events[k], events[..k];
    RunKeepsInvariant(states, events, k);
    assert Next(s, e, states[k + 1]);
    EventsFitPhases(s, e);
  }

  /** The acceptor's place follows from the events. */
  lemma {:induction false} RunOfAcceptor(states: seq<State>, events: seq<Event>, k: nat)
    requires IsRun(states, events) && k < |states|
    ensures AcceptorFlow(states[k], events[..k])
  {
    if k > 0 {
      RunOfAcceptor(states, events, k - 1);
      var s, e, past := RunStep(states, events, k - 1);
      StepKeepsAcceptorFlow(s, past, e);
    }
  }

  /** The place of every connection follows from its own events. */
  lemma {:induction false} RunOfConnection(states: seq<State>, events: seq<Event>, k: nat, id: nat)
    requires IsRun(states, events) && k < |states|
    ensures ConnectionFlow(states[k], events[..k], id)
  {
    if k > 0 {
      RunOfConnection(states, events, k - 1, id);
      var s, e, past := RunStep(states, events, k - 1);
      StepKeepsFlow(s, past, e, id);
    }
  }

  /** Over every interleaving, the counters report exactly the events that happened. */
  lemma {:induction false} RunReports(states: seq<State>, events: seq<Event>, k: nat)
    requires IsRun(states, events) && k < |states|
    ensures CountersReport(states[k].counters, events[..k])
  {
    if k > 0 {
      RunReports(states, events, k - 1);
      RunOfAcceptor(states, events, k - 1);
      var s, e, past := RunStep(states, events, k - 1);
      StepReports(s, past, e);
    }
  }
}
