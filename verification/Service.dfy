/** The service object: its queue, flag, counter and mutex in place, and what each worker
    does up to its next atomic point. Its methods take the decisions of the code; their
    contracts say which step of the state machine that was. */
module Service {
  import opened Bytes
  import opened ThoughtFilter
  import opened Utf8
  import opened Options
  import opened Session
  import opened InferenceTask
  import opened TaskRun
  import opened WorkerPool

  /** The answer of a session lookup: what generating there meets, and its capacity. */
  datatype Found = Found(world: World, nCtx: nat)

  /** What a worker is told when it gets the processor: the session, if it looks one up, the
      limit of the profile of the task's mode, if it has one, and the slot flag, if it reads
      it. */
  datatype Told = Told(session: Option<Found>, profile: Option<int>, slot: bool)

  /** What happens next: a client enqueues a task, the owner shuts down, or a worker gets
      the processor. */
  datatype Action = Submit(task: Task) | Stop | Schedule(w: nat, told: Told)

  /** `t` is `s`, or one step after it. */
  ghost predicate Took(s: Pool, step: Option<Step>, t: Pool) {
    match step
    case None => t == s
    case Some(x) => Enabled(s, x) && t == Apply(s, x)
  }

  lemma CommittedHasTask(s: Pool, w: nat)
    requires Inv(s) && At(s, w) && s.workers[w].Committed?
    ensures s.queue != []
  {
  }

  lemma GeneratingSerialised(s: Pool, w: nat)
    requires Inv(s) && At(s, w) && s.workers[w].Generating?
    ensures AllSerialise(s.workers[w].pieces)
  {
  }

  /** The step that an action of the code is; none if the one who acts has to wait. */
  function StepOf(s: Pool, a: Action): Option<Step> {
    match a
    case Submit(task) => if s.lock.None? then Some(Enqueue(task)) else None
    case Stop => Some(Shutdown)
    case Schedule(w, told) => if w < |s.workers| then StepOfWorker(s, w, told) else None
  }

  function StepOfWorker(s: Pool, w: nat, told: Told): Option<Step>
    requires At(s, w)
  {
    match s.workers[w]
    case Idle =>
      if !s.running then Some(Leave(w)) else if s.lock.None? && s.queue != [] then Some(Commit(w)) else None
    case Committed => Some(Take(w))
    case Holding(job) => Some(if told.session.Some? then Begin(w, AskOf(job.task, told)) else Miss(w))
    case Generating(_, ask, pieces) => Some(StepOfNews(w, NewsAfter(ask, |pieces|), told.slot))
    case Flushing(_, _, _) => Some(Complete(w))
    case Closing(_) => Some(End(w))
    case Exited => None
  }

  function AskOf(task: Task, told: Told): Ask
    requires told.session.Some?
  {
    var max := if task.maxTokens == -1 && told.profile.Some? then told.profile.value else task.maxTokens;
    Ask(told.session.value.world, told.session.value.nCtx, max)
  }

  function StepOfNews(w: nat, news: News, slot: bool): Step {
    match news
    case Sampled(piece) => if Serialises(piece) then Piece(w, piece) else Refuse(w, piece)
    case Generated => Flush(w)
    case Raised(phase) => Fail(w, FailureOf(slot && phase != NoContext, phase))
  }

  /** The state after an action. */
  ghost function Advance(s: Pool, a: Action): (t: Pool)
    requires Inv(s)
    ensures Inv(t) && Took(s, StepOf(s, a), t)
  {
    match StepOf(s, a)
    case None => s
    case Some(step) =>
      StepOfIsEnabled(s, a);
      StepKeepsInv(s, step);
      Apply(s, step)
  }

  /** The state after a schedule. */
  ghost function Served(s: Pool, schedule: seq<Action>): (t: Pool)
    requires Inv(s)
    ensures Inv(t)
  {
    if schedule == [] then s
    else Advance(Served(s, schedule[..|schedule| - 1]), schedule[|schedule| - 1])
  }

  lemma StepOfIsEnabled(s: Pool, a: Action)
    requires Inv(s) && StepOf(s, a).Some?
    ensures Enabled(s, StepOf(s, a).value)
  {
    hide Fifo, Holders, EventsAreRight, GenerationsFit, NewsAfter, Serialises;
  }

  /** The machine can take exactly the steps that some action of the code is. */
  lemma StepsAreActions(s: Pool, step: Step)
    requires Inv(s)
    ensures Enabled(s, step) <==> exists a :: StepOf(s, a) == Some(step)
  {
    hide Inv, Serialises;
    if Enabled(s, step) {
      var a := ActionOf(step);
      assert StepOf(s, a) == Some(step);
    }
    if a :| StepOf(s, a) == Some(step) { StepOfIsEnabled(s, a); }
  }

  function ActionOf(step: Step): Action {
    match step
    case Enqueue(task) => Submit(task)
    case Shutdown => Action.Stop
    case Begin(w, ask) => Schedule(w, Told(Some(Found(ask.world, ask.nCtx)), Some(ask.max), false))
    case Fail(w, failure) => Schedule(w, Told(None, None, failure.MemoryFull?))
    case _ => Schedule(step.w, Told(None, None, false))
  }

  lemma {:induction false} ServedIsRun(s: Pool, schedule: seq<Action>) returns (steps: seq<Step>)
    requires Inv(s)
    ensures Runs(s, steps, Served(s, schedule))
  {
    hide Inv, StepOf, Enabled, Apply;
    if schedule == [] { return []; }
    var u := Served(s, schedule[..|schedule| - 1]);
    var before := ServedIsRun(s, schedule[..|schedule| - 1]);
    var t := Advance(u, schedule[|schedule| - 1]);
    var step := StepOf(u, schedule[|schedule| - 1]);
    if step.None? { return before; }
    steps := before + [step.value];
    assert Runs(t, [], t);
    RunsCons(u, step.value, [], t);
    assert [step.value] + [] == [step.value];
    RunsAppend(s, before, u, [step.value], t);
  }

  lemma {:induction false} ServedAppend(s: Pool, a: seq<Action>, b: seq<Action>)
    requires Inv(s)
    ensures Served(s, a + b) == Served(Served(s, a), b)
    decreases |b|
  {
    if b == [] {
      assert a + b == a;
    } else {
      assert (a + b)[..|a + b| - 1] == a + b[..|b| - 1];
      ServedAppend(s, a, b[..|b| - 1]);
    }
  }

  lemma {:induction false} RunIsServed(s: Pool, steps: seq<Step>, t: Pool) returns (schedule: seq<Action>)
    requires Inv(s) && Runs(s, steps, t)
    ensures Served(s, schedule) == t
    decreases |steps|
  {
    hide Inv, StepOf, Enabled, Apply;
    if steps == [] { return []; }
    StepsAreActions(s, steps[0]);
    var a :| StepOf(s, a) == Some(steps[0]);
    StepKeepsInv(s, steps[0]);
    var rest := RunIsServed(Apply(s, steps[0]), steps[1..], t);
    schedule := [a] + rest;
    ServedAppend(s, [a], rest);
    assert [a][..0] == [];
  }

  /** The code and the machine reach the same states, so that every result about runs is
      one about the service object. */
  lemma SchedulesAreRuns(s: Pool, t: Pool)
    requires Inv(s)
    ensures (exists schedule :: Served(s, schedule) == t) <==> exists steps :: Runs(s, steps, t)
  {
    if schedule :| Served(s, schedule) == t { var steps := ServedIsRun(s, schedule); }
    if steps :| Runs(s, steps, t) { var schedule := RunIsServed(s, steps, t); }
  }

  /** A failure step calls the error callback once, with the text of the failure. */
  lemma FailSent(s: Pool, w: nat, f: Failure, t: Pool)
    requires Took(s, Some(Fail(w, f)), t)
    ensures t.events == s.events + [Sent(s.workers[w].job.ticket, OnError(Message(f)))] && IsTextOf(Message(f), f)
    ensures t.workers == s.workers[w := Closing(s.workers[w].job)]
  {
    MessageIsText(f);
    TagOne(s.workers[w].job.ticket, OnError(Message(f)));
    hide NewsAfter, Serialises, IsThrown, LastRecord, Message, IsTextOf, Tag;
  }

  lemma TagOne(ticket: nat, e: TaskEvent)
    ensures Tag(ticket, [e]) == [Sent(ticket, e)]
  {
  }

  class InferenceService {
    var taskQueue: seq<Job>
    var running: bool
    var activeGenerations: int
    var queueMutex: Option<nat>
    var nextTicket: nat
    const phases: array<WorkerPool.Phase>           // where each worker is
    const filters: array<Filter?>        // the filter of each worker's task
    var sent: seq<Sent>                  // the client callbacks that returned
    ghost var enqueued: seq<Job>
    ghost var popped: seq<Job>
    ghost var records: map<nat, Record>

    ghost function State(): Pool
      reads this, phases
    {
      Pool(taskQueue, running, activeGenerations, queueMutex, phases[..], enqueued, popped, sent, records)
    }

    ghost predicate Valid()
      reads this, phases, filters, filters[..]
    {
      Inv(State()) && nextTicket == |enqueued| && FiltersFollow()
    }

    /** Each worker that generates has a filter of its own, which was fed its pieces. */
    ghost predicate FiltersFollow()
      reads this, phases, filters, filters[..]
    {
      && phases.Length == filters.Length
      && (forall w :: 0 <= w < phases.Length && phases[w].Generating? ==> Follows(filters[w], phases[w].pieces))
      && forall v, w :: 0 <= v < w < phases.Length && phases[v].Generating? && phases[w].Generating? ==>
           filters[v] != filters[w]
    }

    static ghost predicate Follows(filter: Filter?, pieces: seq<Text>)
      reads filter
    {
      filter != null && filter.Valid() && filter.accepts == IsUtf8 && filter.fed == Cleaned(pieces)
    }

    /** The filters stay right when worker `w` is elsewhere and no filter was touched. */
    twostate lemma OthersFollow(w: nat)
      requires old(FiltersFollow()) && w < phases.Length && !phases[w].Generating?
      requires forall v :: 0 <= v < phases.Length && v != w ==> phases[v] == old(phases[v])
      requires unchanged(filters) && forall v :: 0 <= v < filters.Length && filters[v] != null ==> unchanged(filters[v])
      ensures FiltersFollow()
    {
    }

    constructor (numWorkers: nat)
      ensures Valid() && State() == Init(numWorkers) && fresh(phases) && fresh(filters)
      ensures forall w :: 0 <= w < filters.Length ==> filters[w] == null
    {
      taskQueue, running, activeGenerations, queueMutex, nextTicket := [], true, 0, None, 0;
      phases := new WorkerPool.Phase[numWorkers](i => Idle);
      filters := new Filter?[numWorkers](i => null);
      sent, enqueued, popped, records := [], [], [], map[];
      new;
      InitInv(numWorkers);
      NobodyGenerates();
      hide Inv, FiltersFollow;
      assert phases[..] == seq(numWorkers, i => Idle);
    }

    /** Pushes a task; false when the mutex is taken and the caller has to wait. */
    method EnqueueTask(task: Task) returns (done: bool)
      requires Valid()
      modifies this`taskQueue, this`nextTicket, this`enqueued
      ensures Valid() && done == old(queueMutex.None?)
      ensures Took(old(State()), if done then Some(Enqueue(task)) else None, State())
      ensures taskQueue == old(taskQueue) + if done then [Job(old(nextTicket), task)] else []
    {
      hide Inv;
      if queueMutex.Some? { return false; }
      StepKeepsInv(State(), Enqueue(task));
      var job := Job(nextTicket, task);
      taskQueue := taskQueue + [job];
      nextTicket := nextTicket + 1;
      enqueued := enqueued + [job];
      return true;
    }

    /** Clears the flag; false when it was clear already. */
    method StopRunning() returns (first: bool)
      requires Valid()
      modifies this`running
      ensures Valid() && first == old(running)
      ensures Took(old(State()), Some(Shutdown), State())
      ensures !running
    {
      hide Inv;
      StepKeepsInv(State(), Shutdown);
      first := running;
      running := false;
    }

    /** The head of the worker loop: the test of the flag, then, once the mutex is free and
        the wait is over, the second test. */
    method WorkerLoop(w: nat) returns (ghost step: Option<Step>)
      requires Valid() && w < phases.Length && phases[w].Idle?
      modifies this`queueMutex, phases
      ensures Valid() && Took(old(State()), step, State())
      ensures step == if !old(running) then Some(Leave(w))
                      else if old(queueMutex.None? && taskQueue != []) then Some(Commit(w)) else None
      ensures phases[w] ==
        if !old(running) then Exited else if old(queueMutex.None? && taskQueue != []) then Committed else Idle
      ensures queueMutex == if phases[w].Committed? then Some(w) else old(queueMutex)
    {
      hide Inv;
      ghost var s := State();
      step := None;
      if running {
        if queueMutex.Some? { return; }
        if taskQueue == [] && running { return; }
      }
      if !running {
        step := Some(Leave(w));
        phases[w] := Exited;
      } else {
        step := Some(Commit(w));
        queueMutex := Some(w);
        phases[w] := Committed;
      }
      StepKeepsInv(s, step.value);
    }

    /** A worker past both tests takes the front of the queue, which is not empty. */
    method PopTask(w: nat) returns (ghost step: Option<Step>)
      requires Valid() && w < phases.Length && phases[w].Committed?
      modifies this`taskQueue, this`queueMutex, this`popped, phases
      ensures Valid() && Took(old(State()), step, State()) && step == Some(Take(w))
      ensures old(taskQueue) != [] && phases[w] == Holding(old(taskQueue[0])) && taskQueue == old(taskQueue[1..])
      ensures queueMutex == None
    {
      CommittedHasTask(State(), w);
      step := Some(Take(w));
      StepKeepsInv(State(), step.value);
      hide Inv, FiltersFollow;
      var job := taskQueue[0];
      taskQueue := taskQueue[1..];
      popped := popped + [job];
      queueMutex := None;
      phases[w] := Holding(job);
      OthersFollow(w);
    }

    /** Reports that the session of a task is not there. */
    method ReportMissing(w: nat) returns (ghost step: Option<Step>)
      requires Valid() && w < phases.Length && phases[w].Holding?
      modifies this`sent, this`records, phases
      ensures Valid() && Took(old(State()), step, State()) && step == Some(Miss(w))
      ensures phases[w] == Idle && activeGenerations == old(activeGenerations)
      ensures sent == old(sent) + [Sent(old(phases[w].job.ticket), OnError("Session not found"))]
    {
      hide Inv, FiltersFollow;
      var job := phases[w].job;
      step := Some(Miss(w));
      StepKeepsInv(State(), step.value);
      sent := sent + Tag(job.ticket, [OnError("Session not found")]);
      records := records[job.ticket := Record(None, [], NotFound)];
      phases[w] := Idle;
      OthersFollow(w);
    }

    /** The session lookup and what follows it up to the call of `generate`. */
    method StartTask(w: nat, told: Told) returns (ghost step: Option<Step>)
      requires Valid() && w < phases.Length && phases[w].Holding?
      modifies this`sent, this`activeGenerations, this`records, phases, filters
      ensures Valid() && Took(old(State()), step, State())
      ensures step == StepOfWorker(old(State()), w, told)
      ensures forall v :: 0 <= v < filters.Length ==> filters[v] == old(filters[v]) || fresh(filters[v])
      ensures told.session.None? ==>
        phases[w] == Idle && sent == old(sent) + [Sent(old(phases[w].job.ticket), OnError("Session not found"))]
      ensures told.session.Some? ==> var job, found := old(phases[w].job), told.session.value;
        var max := if job.task.maxTokens == -1 && told.profile.Some? then told.profile.value else job.task.maxTokens;
        phases[w] == Generating(job, Ask(found.world, found.nCtx, max), []) &&
        activeGenerations == old(activeGenerations) + 1 && sent == old(sent)
    {
      hide Inv, Filter.Valid, NewsAfter;
      if told.session.None? {
        step := ReportMissing(w);
        return;
      }
      var job := phases[w].job;
      var max := job.task.maxTokens;
      if max == -1 && told.profile.Some? { max := told.profile.value; }
      var ask := Ask(told.session.value.world, told.session.value.nCtx, max);
      step := Some(Begin(w, ask));
      StepKeepsInv(State(), step.value);
      activeGenerations := activeGenerations + 1;
      var filter := new Filter(IsUtf8);
      filters[w] := filter;
      phases[w] := Generating(job, ask, []);
      assert Cleaned([]) == [];
    }

    /** The token callback: cleans the piece and feeds it; the events that were delivered,
        and whether the client's callback threw. */
    static method FilterPiece(filter: Filter, piece: Text, ghost pieces: seq<Text>)
      returns (threw: bool, events: seq<TaskEvent>)
      requires Follows(filter, pieces) && AllSerialise(pieces)
      modifies filter
      ensures threw <==> !Serialises(piece)
      ensures events == if threw then RefusedTokens(pieces, piece) else NewTokens(pieces, piece)
      ensures !threw ==> Follows(filter, pieces + [piece])
    {
      hide Filter.Valid, Serialises, IsUtf8, RefusedTokens, NewTokens, Emits, Fed, Cleaned;
      ghost var delivered := filter.emitted;
      var before := |filter.emitted|;
      FilterEmitted(filter);
      threw := OnPiece(filter, piece, pieces);
      DeliveredAnew(pieces, piece, delivered, filter.emitted);
      events := TokenEvents(filter.emitted[before..]);
    }

    /** What worker `w` does with a sampled piece. If the client's callback throws, the
        exception runs through `generate` to the handler, which reports an internal error. */
    method HandPiece(w: nat, piece: Text) returns (ghost step: Option<Step>)
      requires Valid() && w < phases.Length && phases[w].Generating?
      requires WorkerPool.Next(phases[w]) == Sampled(piece)
      modifies this`sent, this`records, phases, filters[w]
      ensures Valid() && Took(old(State()), step, State())
      ensures step == Some(if Serialises(piece) then Piece(w, piece) else Refuse(w, piece))
      ensures phases[w] == var ph := old(phases[w]);
        if Serialises(piece) then Generating(ph.job, ph.ask, ph.pieces + [piece]) else Closing(ph.job)
      ensures !Serialises(piece) ==>
        |sent| > |old(sent)| && sent[|sent| - 1] == Sent(old(phases[w].job.ticket), OnError("Internal server error"))
    {
      hide Inv, Serialises, AllSerialise, RefusedTokens, NewTokens, Follows, NewsAfter;
      var ph := phases[w];
      step := Some(if Serialises(piece) then Piece(w, piece) else Refuse(w, piece));
      StepKeepsInv(State(), step.value);
      GeneratingSerialised(State(), w);
      FilterIsThere(w);
      var threw, events := FilterPiece(filters[w], piece, ph.pieces);
      if threw {
        sent := sent + Tag(ph.job.ticket, events + [OnError(InternalError)]);
        records := records[ph.job.ticket := Record(Some(ph.ask), ph.pieces + [piece], Refused)];
        phases[w] := Closing(ph.job);
      } else {
        sent := sent + Tag(ph.job.ticket, events);
        phases[w] := Generating(ph.job, ph.ask, ph.pieces + [piece]);
      }
    }

    /** The flush, which after these pieces never throws; the events it delivered. */
    static method FlushRest(filter: Filter, ghost pieces: seq<Text>) returns (events: seq<TaskEvent>)
      requires Follows(filter, pieces) && AllSerialise(pieces)
      modifies filter
      ensures events == LastTokens(pieces)
    {
      hide Filter.Valid, Serialises, IsUtf8, LastTokens, Emits, Fed, Cleaned;
      FilterEmitted(filter);
      FlushedIsStreamed(pieces);
      var before := |filter.emitted|;
      FlushFiltered(pieces, filter);
      events := TokenEvents(filter.emitted[before..]);
      assert TokenEvents(filter.emitted)[before..] == events;
    }

    /** What worker `w` does when `generate` throws one of its own exceptions. */
    method ReportFailure(w: nat, failure: Failure) returns (ghost step: Option<Step>)
      requires Valid() && w < phases.Length && phases[w].Generating?
      requires WorkerPool.Next(phases[w]).Raised? && IsThrown(failure, WorkerPool.Next(phases[w]).phase)
      modifies this`sent, this`records, phases
      ensures Valid() && Took(old(State()), step, State()) && step == Some(Fail(w, failure))
    {
      hide Inv, Serialises, FiltersFollow, NewsAfter, Message;
      var ph := phases[w];
      step := Some(Fail(w, failure));
      StepKeepsInv(State(), step.value);
      sent := sent + Tag(ph.job.ticket, [OnError(Message(failure))]);
      records := records[ph.job.ticket := Record(Some(ph.ask), ph.pieces, Crashed(failure))];
      phases[w] := Closing(ph.job);
      OthersFollow(w);
    }

    /** What worker `w` does when `generate` returns: the flush. */
    method FlushTask(w: nat) returns (ghost step: Option<Step>)
      requires Valid() && w < phases.Length && phases[w].Generating?
      requires WorkerPool.Next(phases[w]) == Generated
      modifies this`sent, phases, filters[w]
      ensures Valid() && Took(old(State()), step, State()) && step == Some(Flush(w))
      ensures var ph := old(phases[w]); phases[w] == Flushing(ph.job, ph.ask, ph.pieces)
    {
      hide Inv, Serialises, AllSerialise, LastTokens, Follows;
      var ph := phases[w];
      step := Some(Flush(w));
      StepKeepsInv(State(), step.value);
      GeneratingSerialised(State(), w);
      FilterIsThere(w);
      var events := FlushRest(filters[w], ph.pieces);
      sent := sent + Tag(ph.job.ticket, events);
      phases[w] := Flushing(ph.job, ph.ask, ph.pieces);
    }

    /** Worker `w` within `generate`, up to the next thing it does outside. */
    method Generate(w: nat, slot: bool) returns (ghost step: Option<Step>)
      requires Valid() && w < phases.Length && phases[w].Generating?
      modifies this`sent, this`records, phases, filters[w]
      ensures Valid() && Took(old(State()), step, State())
      ensures step == Some(StepOfNews(w, old(WorkerPool.Next(phases[w])), slot))
      ensures old(WorkerPool.Next(phases[w])).Raised? ==> var phase := old(WorkerPool.Next(phases[w])).phase;
        var failure := if slot && phase != NoContext then MemoryFull(phase) else Backend(phase);
        sent == old(sent) + [Sent(old(phases[w].job.ticket), OnError(Message(failure)))] &&
        IsTextOf(Message(failure), failure)
    {
      hide Valid, Took, Serialises, NewsAfter;
      var news := Resume(phases[w].ask, |phases[w].pieces|);
      match news
      case Sampled(piece) => step := HandPiece(w, piece);
      case Generated => step := FlushTask(w);
      case Raised(phase) =>
        var failure := if slot && phase != NoContext then MemoryFull(phase) else Backend(phase);
        ghost var s := State();
        step := ReportFailure(w, failure);
        FailSent(s, w, failure, State());
    }

    /** Reports the number of tokens, which is the number of pieces. */
    method CompleteTask(w: nat) returns (ghost step: Option<Step>)
      requires Valid() && w < phases.Length && phases[w].Flushing?
      modifies this`sent, this`records, phases
      ensures Valid() && Took(old(State()), step, State()) && step == Some(Complete(w))
      ensures phases[w] == Closing(old(phases[w].job))
      ensures sent == old(sent) + [Sent(old(phases[w].job.ticket), OnComplete(old(|phases[w].pieces|)))]
    {
      hide Inv, Follows;
      var ph := phases[w];
      step := Some(Complete(w));
      StepKeepsInv(State(), step.value);
      sent := sent + Tag(ph.job.ticket, [OnComplete(|ph.pieces|)]);
      records := records[ph.job.ticket := Record(Some(ph.ask), ph.pieces, Finished(|ph.pieces|))];
      phases[w] := Closing(ph.job);
    }

    method EndGeneration(w: nat) returns (ghost step: Option<Step>)
      requires Valid() && w < phases.Length && phases[w].Closing?
      modifies this`activeGenerations, phases
      ensures Valid() && Took(old(State()), step, State()) && step == Some(End(w))
      ensures phases[w] == Idle && activeGenerations == old(activeGenerations) - 1
    {
      hide Inv, Follows;
      step := Some(End(w));
      StepKeepsInv(State(), step.value);
      activeGenerations := activeGenerations - 1;
      phases[w] := Idle;
    }

    /** Worker `w` runs up to its next atomic point, from wherever it is. */
    method Turn(w: nat, told: Told) returns (ghost step: Option<Step>)
      requires Valid() && w < phases.Length
      modifies this`taskQueue, this`activeGenerations, this`queueMutex, this`sent, this`popped, this`records
      modifies phases, filters, filters[w]
      ensures Valid() && Took(old(State()), step, State())
      ensures step == StepOfWorker(old(State()), w, told)
      ensures forall v :: 0 <= v < filters.Length ==> filters[v] == old(filters[v]) || fresh(filters[v])
    {
      SameLength();
      hide Valid;
      match phases[w]
      case Idle => step := WorkerLoop(w);
      case Committed => step := PopTask(w);
      case Holding(_) => step := StartTask(w, told);
      case Generating(_, _, _) => step := Generate(w, told.slot);
      case Flushing(_, _, _) => step := CompleteTask(w);
      case Closing(_) => step := EndGeneration(w);
      case Exited => step := None;
    }

    /** One action; nothing happens when the one who acts has to wait. */
    method Act(a: Action)
      requires Valid()
      modifies this, phases, filters, filters[..]
      ensures Valid() && Inv(old(State())) && State() == Advance(old(State()), a)
      ensures forall v :: 0 <= v < filters.Length ==> filters[v] == old(filters[v]) || fresh(filters[v])
    {
      SameLength();
      hide Inv, FiltersFollow, StepOfWorker, Apply, Enabled;
      match a {
        case Submit(task) => var done := EnqueueTask(task);
        case Stop => var first := StopRunning();
        case Schedule(w, told) =>
          if w < phases.Length { ghost var step := Turn(w, told); }
      }
    }

    /** Any schedule of clients, owner and workers. */
    method Serve(schedule: seq<Action>)
      requires Valid()
      modifies this, phases, filters, filters[..]
      ensures Valid() && Inv(old(State())) && State() == Served(old(State()), schedule)
    {
      SameLength();
      hide Inv, FiltersFollow, Advance;
      for i := 0 to |schedule|
        invariant Valid() && State() == Served(old(State()), schedule[..i])
        invariant forall v :: 0 <= v < filters.Length ==> filters[v] in old(filters[..]) || fresh(filters[v])
      {
        assert schedule[..i + 1][..i] == schedule[..i];
        Act(schedule[i]);
      }
      assert schedule[..|schedule|] == schedule;
    }

    method GetActiveGenerations() returns (n: int)
      requires Valid()
      ensures n == Busy(phases[..]) && 0 <= n <= phases.Length
    {
      BusyIsBounded(phases[..]);
      n := activeGenerations;
    }

    lemma NobodyGenerates()
      requires phases.Length == filters.Length && forall w :: 0 <= w < phases.Length ==> phases[w] == Idle
      ensures FiltersFollow()
    {
    }

    lemma SameLength()
      requires Valid()
      ensures phases.Length == filters.Length && phases as object != filters as object
    {
    }

    lemma FilterIsThere(w: nat)
      requires FiltersFollow() && w < phases.Length && phases[w].Generating?
      ensures filters[w] != null
    {
    }
  }
}
