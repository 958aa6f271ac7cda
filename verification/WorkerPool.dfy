/** The inference worker pool: a queue behind a mutex, N workers, a counter of active
    generations. Every interleaving of atomic steps is a run. */
module WorkerPool {
  import opened Bytes
  import opened TagScanner
  import opened ThoughtFilter
  import opened Session
  import opened InferenceTask
  import opened TaskRun
  import opened Utf8
  import opened Options

  datatype Task = Task(sessionId: string, prompt: string, maxTokens: int)

  /** A task with its number in enqueue order. */
  datatype Job = Job(ticket: nat, task: Task)

  /** Where a worker is in its loop. `Committed` holds the queue mutex and has passed the
      test of the running flag; `Closing` has sent the terminal event but not yet
      decremented the counter. */
  datatype Phase =
    | Idle
    | Committed
    | Holding(job: Job)
    | Generating(job: Job, ask: Ask, pieces: seq<Text>)
    | Flushing(job: Job, ask: Ask, pieces: seq<Text>)
    | Closing(job: Job)
    | Exited

  datatype Sent = Sent(ticket: nat, event: TaskEvent)

  /** How a processed task went: the generation it asked for, if its session was there. */
  datatype Record = Record(ask: Option<Ask>, pieces: seq<Text>, ending: Ending)

  /** The shared state, the workers, and the history of the run. */
  datatype Pool = Pool(
    queue: seq<Job>,
    running: bool,
    active: int,
    lock: Option<nat>,
    workers: seq<Phase>,
    enqueued: seq<Job>,
    popped: seq<Job>,
    events: seq<Sent>,
    records: map<nat, Record>)

  datatype Step =
    | Enqueue(task: Task)
    | Commit(w: nat)
    | Take(w: nat)
    | Leave(w: nat)
    | Miss(w: nat)
    | Begin(w: nat, ask: Ask)
    | Piece(w: nat, piece: Text)
    | Flush(w: nat)
    | Complete(w: nat)
    | Fail(w: nat, failure: Failure)
    | Refuse(w: nat, piece: Text)
    | End(w: nat)
    | Shutdown

  function Init(n: nat): Pool {
    Pool([], true, 0, None, seq(n, i => Idle), [], [], [], map[])
  }

  function Tag(ticket: nat, es: seq<TaskEvent>): (r: seq<Sent>)
    ensures |r| == |es|
  {
    seq(|es|, i requires 0 <= i < |es| => Sent(ticket, es[i]))
  }

  /** The token events one more piece causes. */
  function NewTokens(pieces: seq<Text>, piece: Text): seq<TaskEvent> {
    var p := Fed(Cleaned(pieces));
    TokenEvents(Emits(Process(p.buffer + Sanitized(piece), p.mode).pieces))
  }

  /** Those of a piece at which the token callback throws. */
  function RefusedTokens(pieces: seq<Text>, piece: Text): seq<TaskEvent> {
    var p := Fed(Cleaned(pieces));
    TokenEvents(Accepted(Emits(Process(p.buffer + Sanitized(piece), p.mode).pieces), IsUtf8))
  }

  /** The token events of the final flush. */
  function LastTokens(pieces: seq<Text>): seq<TaskEvent> {
    TokenEvents(Emits(FlushPieces(Fed(Cleaned(pieces)))))
  }

  predicate At(s: Pool, w: nat) {
    w < |s.workers|
  }

  /** The steps that send the terminal event of a task. */
  predicate IsLast(step: Step) {
    step.Miss? || step.Complete? || step.Fail? || step.Refuse?
  }

  /** What the generation of a worker does next. */
  function Next(ph: Phase): News
    requires ph.Generating?
  {
    NewsAfter(ph.ask, |ph.pieces|)
  }

  /** The limit asked for is the task's own, unless that is the default, which the profile of
      its mode replaces. */
  predicate Takes(task: Task, ask: Ask) {
    ask.max == task.maxTokens || task.maxTokens == -1
  }

  /** The worker is where the step can be taken. */
  predicate Suits(ph: Phase, step: Step) {
    match step
    case Miss(_) => ph.Holding?
    case Complete(_) => ph.Flushing?
    case Fail(_, f) => ph.Generating? && Next(ph).Raised? && IsThrown(f, Next(ph).phase)
    case Refuse(_, piece) => ph.Generating? && Next(ph) == Sampled(piece) && !Serialises(piece)
    case _ => false
  }

  predicate Enabled(s: Pool, step: Step) {
    match step
    case Enqueue(_) => s.lock.None?
    case Commit(w) => At(s, w) && s.workers[w].Idle? && s.running && s.queue != [] && s.lock.None?
    case Take(w) => At(s, w) && s.workers[w].Committed? && s.queue != []
    case Leave(w) => At(s, w) && s.workers[w].Idle? && !s.running
    case Miss(w) => At(s, w) && Suits(s.workers[w], step)
    case Begin(w, ask) => At(s, w) && s.workers[w].Holding? && Takes(s.workers[w].job.task, ask)
    case Piece(w, piece) =>
      At(s, w) && s.workers[w].Generating? && Next(s.workers[w]) == Sampled(piece) && Serialises(piece)
    case Flush(w) => At(s, w) && s.workers[w].Generating? && Next(s.workers[w]) == Generated
    case Complete(w) => At(s, w) && Suits(s.workers[w], step)
    case Fail(w, _) => At(s, w) && Suits(s.workers[w], step)
    case Refuse(w, _) => At(s, w) && Suits(s.workers[w], step)
    case End(w) => At(s, w) && s.workers[w].Closing?
    case Shutdown => true
  }

  function Move(s: Pool, w: nat, ph: Phase): Pool
    requires At(s, w)
  {
    s.(workers := s.workers[w := ph])
  }

  function Emit(s: Pool, ticket: nat, es: seq<TaskEvent>): Pool {
    s.(events := s.events + Tag(ticket, es))
  }

  function LastEvents(ph: Phase, step: Step): seq<TaskEvent>
    requires IsLast(step) && Suits(ph, step)
  {
    match step
    case Miss(_) => [OnError("Session not found")]
    case Complete(_) => [OnComplete(|ph.pieces|)]
    case Fail(_, failure) => [OnError(Message(failure))]
    case Refuse(_, piece) => RefusedTokens(ph.pieces, piece) + [OnError(InternalError)]
  }

  function LastRecord(ph: Phase, step: Step): Record
    requires IsLast(step) && Suits(ph, step)
  {
    match step
    case Miss(_) => Record(None, [], NotFound)
    case Complete(_) => Record(Some(ph.ask), ph.pieces, Finished(|ph.pieces|))
    case Fail(_, failure) => Record(Some(ph.ask), ph.pieces, Crashed(failure))
    case Refuse(_, piece) => Record(Some(ph.ask), ph.pieces + [piece], Refused)
  }

  /** Worker `w` sends the terminal event of its task. */
  function Finish(s: Pool, w: nat, step: Step): Pool
    requires At(s, w) && IsLast(step) && Suits(s.workers[w], step)
  {
    var ph := s.workers[w];
    Move(s, w, if step.Miss? then Idle else Closing(ph.job)).(
      events := s.events + Tag(ph.job.ticket, LastEvents(ph, step)),
      records := s.records[ph.job.ticket := LastRecord(ph, step)])
  }

  function Apply(s: Pool, step: Step): Pool
    requires Enabled(s, step)
  {
    match step
    case Enqueue(task) =>
      var job := Job(|s.enqueued|, task);
      s.(queue := s.queue + [job], enqueued := s.enqueued + [job])
    case Commit(w) => Move(s, w, Committed).(lock := Some(w))
    case Take(w) =>
      Move(s, w, Holding(s.queue[0])).(queue := s.queue[1..], popped := s.popped + [s.queue[0]], lock := None)
    case Leave(w) => Move(s, w, Exited)
    case Miss(w) => Finish(s, w, step)
    case Begin(w, ask) => Move(s, w, Generating(s.workers[w].job, ask, [])).(active := s.active + 1)
    case Piece(w, piece) =>
      var ph := s.workers[w];
      Emit(Move(s, w, Generating(ph.job, ph.ask, ph.pieces + [piece])), ph.job.ticket, NewTokens(ph.pieces, piece))
    case Flush(w) =>
      var ph := s.workers[w];
      Emit(Move(s, w, Flushing(ph.job, ph.ask, ph.pieces)), ph.job.ticket, LastTokens(ph.pieces))
    case Complete(w) => Finish(s, w, step)
    case Fail(w, _) => Finish(s, w, step)
    case Refuse(w, _) => Finish(s, w, step)
    case End(w) => Move(s, w, Idle).(active := s.active - 1)
    case Shutdown => s.(running := false)
  }

  /** `t` is reached from `s` by the steps, each enabled when it is taken. */
  ghost predicate Runs(s: Pool, steps: seq<Step>, t: Pool)
    decreases |steps|
  {
    if steps == [] then s == t
    else Enabled(s, steps[0]) && Runs(Apply(s, steps[0]), steps[1..], t)
  }

  // ---- The events of one task ---------------------------------------------------------------

  /** The events sent for one ticket, in order. */
  function Of(events: seq<Sent>, ticket: nat): seq<TaskEvent> {
    if events == [] then []
    else (if events[0].ticket == ticket then [events[0].event] else []) + Of(events[1..], ticket)
  }

  lemma {:induction false} OfAppend(a: seq<Sent>, b: seq<Sent>, ticket: nat)
    ensures Of(a + b, ticket) == Of(a, ticket) + Of(b, ticket)
  {
    if a == [] {
      assert a + b == b;
    } else {
      assert (a + b)[1..] == a[1..] + b;
      OfAppend(a[1..], b, ticket);
      Assoc(if a[0].ticket == ticket then [a[0].event] else [], Of(a[1..], ticket), Of(b, ticket));
    }
  }

  lemma {:induction false} OfTagged(t: nat, es: seq<TaskEvent>, ticket: nat)
    ensures Of(Tag(t, es), ticket) == if t == ticket then es else []
    decreases |es|
  {
    if es != [] {
      assert Tag(t, es)[1..] == Tag(t, es[1..]);
      OfTagged(t, es[1..], ticket);
    }
  }

  lemma StreamedOneMore(pieces: seq<Text>, piece: Text)
    ensures Streamed(pieces + [piece]) == Streamed(pieces) + NewTokens(pieces, piece)
  {
    var p := Fed(Cleaned(pieces));
    var q := Process(p.buffer + Sanitized(piece), p.mode);
    assert Cleaned(pieces + [piece]) == Cleaned(pieces) + [Sanitized(piece)];
    FeedOneMore([], Start, Cleaned(pieces), Sanitized(piece));
    PiecesAppend(p.pieces, q.pieces);
    TokenEventsAppend(Emits(p.pieces), Emits(q.pieces));
  }

  lemma DeliveredOneMore(pieces: seq<Text>, piece: Text)
    requires AllSerialise(pieces)
    ensures Delivered(pieces + [piece]) == Streamed(pieces) + RefusedTokens(pieces, piece)
  {
    hide IsUtf8, Serialises, Accepted, Emits, Process;
    var p := Fed(Cleaned(pieces));
    var q := Process(p.buffer + Sanitized(piece), p.mode);
    assert Cleaned(pieces + [piece]) == Cleaned(pieces) + [Sanitized(piece)];
    FeedOneMore([], Start, Cleaned(pieces), Sanitized(piece));
    PiecesAppend(p.pieces, q.pieces);
    ThrowsAtThePiece(pieces, piece);
    AcceptedAppend(Emits(p.pieces), Emits(q.pieces), IsUtf8);
    TokenEventsAppend(Emits(p.pieces), Accepted(Emits(q.pieces), IsUtf8));
  }

  /** What a filter that followed `pieces` has delivered anew after one more piece. */
  lemma DeliveredAnew(pieces: seq<Text>, piece: Text, before: seq<Event>, emitted: seq<Event>)
    requires AllSerialise(pieces) && before == Emits(Fed(Cleaned(pieces)).pieces)
    requires emitted == Accepted(Emits(Fed(Cleaned(pieces + [piece])).pieces), IsUtf8)
    ensures before <= emitted && TokenEvents(emitted[|before|..]) == RefusedTokens(pieces, piece)
    ensures Serialises(piece) ==> TokenEvents(emitted[|before|..]) == NewTokens(pieces, piece)
  {
    hide IsUtf8, Serialises, Accepted, Emits, Process;
    var p := Fed(Cleaned(pieces));
    var q := Process(p.buffer + Sanitized(piece), p.mode);
    assert Cleaned(pieces + [piece]) == Cleaned(pieces) + [Sanitized(piece)];
    FeedOneMore([], Start, Cleaned(pieces), Sanitized(piece));
    PiecesAppend(p.pieces, q.pieces);
    ThrowsAtThePiece(pieces, piece);
    AcceptedAppend(before, Emits(q.pieces), IsUtf8);
    AcceptedAppend(Emits(q.pieces), [], IsUtf8);
    assert emitted == before + Accepted(Emits(q.pieces), IsUtf8);
    assert emitted[|before|..] == Accepted(Emits(q.pieces), IsUtf8);
    assert Serialises(piece) ==> AllAccepted(Emits(q.pieces), IsUtf8);
  }

  lemma TokenEventsAppend(a: seq<Event>, b: seq<Event>)
    ensures TokenEvents(a + b) == TokenEvents(a) + TokenEvents(b)
  {
  }

  lemma FlushedIsStreamed(pieces: seq<Text>)
    ensures Flushed(pieces) == Streamed(pieces) + LastTokens(pieces)
  {
    var p := Fed(Cleaned(pieces));
    PiecesAppend(p.pieces, FlushPieces(p));
    TokenEventsAppend(Emits(p.pieces), Emits(FlushPieces(p)));
  }

  // ---- The invariants -------------------------------------------------------------------------

  /** A worker that has a task and has not sent its terminal event. */
  predicate IsOpen(ph: Phase) {
    ph.Holding? || ph.Generating? || ph.Flushing?
  }

  predicate Holds(ph: Phase, ticket: nat) {
    IsOpen(ph) && ph.job.ticket == ticket
  }

  /** The events a worker has sent so far for the task it holds. */
  function SentBy(ph: Phase): seq<TaskEvent>
    requires IsOpen(ph)
  {
    match ph
    case Holding(_) => []
    case Generating(_, _, pieces) => Streamed(pieces)
    case Flushing(_, _, pieces) => Flushed(pieces)
  }

  /** Tasks leave the queue in the order they entered it. */
  predicate Fifo(s: Pool) {
    s.popped + s.queue == s.enqueued && forall i :: 0 <= i < |s.enqueued| ==> s.enqueued[i].ticket == i
  }

  predicate LockIsHeld(s: Pool) {
    && (s.lock.Some? ==> s.queue != [] && At(s, s.lock.value))
    && forall w :: 0 <= w < |s.workers| ==> (s.workers[w].Committed? <==> s.lock == Some(w))
  }

  /** Every held job was popped and has no record yet. */
  predicate HeldWerePopped(s: Pool) {
    forall w :: 0 <= w < |s.workers| && IsOpen(s.workers[w]) ==>
      var job := s.workers[w].job;
      job.ticket < |s.popped| && s.popped[job.ticket] == job && job.ticket !in s.records
  }

  /** No two workers hold one task. */
  predicate OneHolder(s: Pool) {
    forall v, w :: 0 <= v < w < |s.workers| && IsOpen(s.workers[v]) && IsOpen(s.workers[w]) ==>
      s.workers[v].job.ticket != s.workers[w].job.ticket
  }

  predicate IsHeld(workers: seq<Phase>, ticket: nat) {
    exists w :: 0 <= w < |workers| && Holds(workers[w], ticket)
  }

  /** Every popped task is finished or held, and no other is. */
  predicate NoneIsLost(s: Pool) {
    && (forall t :: t in s.records ==> t < |s.popped|)
    && forall t :: 0 <= t < |s.popped| ==> t in s.records || IsHeld(s.workers, t)
  }

  predicate Holders(s: Pool) {
    HeldWerePopped(s) && OneHolder(s) && NoneIsLost(s)
  }

  predicate IsBusy(ph: Phase) {
    ph.Generating? || ph.Flushing? || ph.Closing?
  }

  function Busy(workers: seq<Phase>): nat {
    if workers == [] then 0 else (if IsBusy(workers[0]) then 1 else 0) + Busy(workers[1..])
  }

  /** Each task has the events it should have: none while it is queued, those of its worker
      while it is held, its whole trace when it is finished. */
  ghost predicate EventsAreRight(s: Pool) {
    && (forall t: nat :: t >= |s.popped| ==> Of(s.events, t) == [])
    && (forall w :: 0 <= w < |s.workers| && IsOpen(s.workers[w]) ==>
          Of(s.events, s.workers[w].job.ticket) == SentBy(s.workers[w]))
    && (forall t :: t in s.records ==> Of(s.events, t) == Trace(s.records[t].pieces, s.records[t].ending))
  }

  /** What a worker has handed out is what its generation has sampled. */
  predicate PhaseFits(ph: Phase) {
    ph.Generating? || ph.Flushing? ==>
      Takes(ph.job.task, ph.ask) && Under(ph.ask, ph.pieces) &&
      (ph.Flushing? ==> NewsAfter(ph.ask, |ph.pieces|) == Generated)
  }

  /** A finished task ran the generation it asked for, to its end. */
  predicate RecordFits(task: Task, r: Record) {
    match r.ask
    case None => r.pieces == [] && r.ending == NotFound
    case Some(a) => Takes(task, a) && Ran(a, r.pieces, r.ending)
  }

  predicate GenerationsFit(s: Pool) {
    && (forall w :: 0 <= w < |s.workers| ==> PhaseFits(s.workers[w]))
    && forall t :: t in s.records ==> t < |s.popped| && RecordFits(s.popped[t].task, s.records[t])
  }

  lemma PhaseSerialises(ph: Phase)
    requires PhaseFits(ph) && (ph.Generating? || ph.Flushing?)
    ensures AllSerialise(ph.pieces)
  {
    UnderSerialises(ph.ask, ph.pieces);
  }

  lemma RecordIsFit(task: Task, r: Record)
    requires RecordFits(task, r)
    ensures Fits(r.pieces, r.ending)
  {
    if r.ask.Some? { RanFits(r.ask.value, r.pieces, r.ending); }
  }

  ghost predicate Inv(s: Pool) {
    && Fifo(s)
    && LockIsHeld(s)
    && Holders(s)
    && s.active == Busy(s.workers)
    && GenerationsFit(s)
    && EventsAreRight(s)
  }

  lemma {:induction false} BusyOfIdle(n: nat)
    ensures Busy(seq(n, i => Idle)) == 0
  {
    if n > 0 {
      var ws := seq(n, i => Idle);
      assert ws[1..] == seq(n - 1, i => Idle);
      BusyOfIdle(n - 1);
    }
  }

  lemma {:induction false} BusyUpdate(workers: seq<Phase>, w: nat, ph: Phase)
    requires w < |workers|
    ensures Busy(workers[w := ph]) - (if IsBusy(ph) then 1 else 0) ==
      Busy(workers) - (if IsBusy(workers[w]) then 1 else 0)
    ensures Busy(workers) <= |workers|
    ensures IsBusy(workers[w]) ==> Busy(workers) > 0
  {
    BusyIsBounded(workers);
    if w > 0 {
      assert workers[w := ph][1..] == workers[1..][w - 1 := ph];
      BusyUpdate(workers[1..], w - 1, ph);
    } else {
      assert workers[w := ph][1..] == workers[1..];
    }
  }

  lemma {:induction false} BusyIsBounded(workers: seq<Phase>)
    ensures Busy(workers) <= |workers|
    ensures (forall w :: 0 <= w < |workers| ==> !IsBusy(workers[w])) ==> Busy(workers) == 0
  {
    if workers != [] { BusyIsBounded(workers[1..]); }
  }

  lemma InitInv(n: nat)
    ensures Inv(Init(n))
  {
    BusyOfIdle(n);
  }

  // ---- Every step keeps the invariants ----------------------------------------------------------

  lemma StepKeepsOrder(s: Pool, step: Step)
    requires Fifo(s) && LockIsHeld(s) && Enabled(s, step)
    ensures Fifo(Apply(s, step)) && LockIsHeld(Apply(s, step))
  {
    hide NewTokens, LastTokens;
    if step.Take? {
      assert s.queue == [s.queue[0]] + s.queue[1..];
      Assoc(s.popped, [s.queue[0]], s.queue[1..]);
    } else if step.Enqueue? {
      Assoc(s.popped, s.queue, [Job(|s.enqueued|, step.task)]);
    }
    EmitChangesEvents(s, step);
  }

  lemma EmitChangesEvents(s: Pool, step: Step)
    requires Enabled(s, step)
    ensures var t := Apply(s, step);
      (!step.Enqueue? && !step.Take? ==> t.queue == s.queue && t.popped == s.popped && t.enqueued == s.enqueued) &&
      (!step.Commit? && !step.Take? ==> t.lock == s.lock)
  {
  }

  lemma StepKeepsCount(s: Pool, step: Step)
    requires s.active == Busy(s.workers) && Enabled(s, step)
    ensures var t := Apply(s, step); t.active == Busy(t.workers)
  {
    var t := Apply(s, step);
    if !step.Enqueue? && !step.Shutdown? { BusyUpdate(s.workers, step.w, t.workers[step.w]); }
  }

  /** Worker `w` of `t` holds what worker `w` of `s` holds. */
  predicate SameTask(s: Pool, t: Pool, w: nat)
    requires At(s, w) && At(t, w)
  {
    IsOpen(t.workers[w]) == IsOpen(s.workers[w]) && (IsOpen(s.workers[w]) ==> t.workers[w].job == s.workers[w].job)
  }

  lemma SameHolders(s: Pool, t: Pool)
    requires Holders(s) && t.popped == s.popped && t.records == s.records && |t.workers| == |s.workers|
    requires forall w :: 0 <= w < |s.workers| ==> SameTask(s, t, w)
    ensures Holders(t)
  {
    forall k | 0 <= k < |t.popped| && k !in t.records ensures IsHeld(t.workers, k) {
      var w :| 0 <= w < |s.workers| && Holds(s.workers[w], k);
      assert SameTask(s, t, w) && Holds(t.workers[w], k);
    }
    forall v, w | 0 <= v < w < |t.workers| && IsOpen(t.workers[v]) && IsOpen(t.workers[w])
      ensures t.workers[v].job.ticket != t.workers[w].job.ticket
    {
      assert SameTask(s, t, v) && SameTask(s, t, w);
    }
    forall w | 0 <= w < |t.workers| && IsOpen(t.workers[w])
      ensures var job := t.workers[w].job;
        job.ticket < |t.popped| && t.popped[job.ticket] == job && job.ticket !in t.records
    {
      assert SameTask(s, t, w);
    }
  }

  lemma TakeKeepsHolders(s: Pool, step: Step)
    requires Fifo(s) && Holders(s) && Enabled(s, step) && step.Take?
    ensures Holders(Apply(s, step))
  {
    var t := Apply(s, step);
    assert s.enqueued[|s.popped|] == s.queue[0];
    forall k | 0 <= k < |t.popped| && k !in t.records ensures IsHeld(t.workers, k) {
      if k == |s.popped| {
        assert Holds(t.workers[step.w], k);
      } else {
        var w :| 0 <= w < |s.workers| && Holds(s.workers[w], k);
        assert Holds(t.workers[w], k);
      }
    }
  }

  lemma LettingGo(s: Pool, t: Pool, w: nat, r: Record)
    requires Holders(s) && At(s, w) && IsOpen(s.workers[w]) && t.popped == s.popped && |t.workers| == |s.workers|
    requires !IsOpen(t.workers[w]) && forall v :: 0 <= v < |s.workers| && v != w ==> t.workers[v] == s.workers[v]
    requires t.records == s.records[s.workers[w].job.ticket := r]
    ensures Holders(t)
  {
    forall k | 0 <= k < |t.popped| && k !in t.records ensures IsHeld(t.workers, k) {
      var v :| 0 <= v < |s.workers| && Holds(s.workers[v], k);
      assert Holds(t.workers[v], k);
    }
    forall v | 0 <= v < |t.workers| && IsOpen(t.workers[v]) ensures t.workers[v].job.ticket !in t.records {
      assert v < w || w < v;
    }
  }

  lemma CloseKeepsHolders(s: Pool, step: Step)
    requires Holders(s) && Enabled(s, step) && IsLast(step)
    ensures Holders(Apply(s, step))
  {
    hide Holders, LastEvents, LastRecord, Serialises;
    var w := step.w;
    LettingGo(s, Apply(s, step), w, LastRecord(s.workers[w], step));
  }

  lemma StepKeepsHolders(s: Pool, step: Step)
    requires Fifo(s) && Holders(s) && Enabled(s, step)
    ensures Holders(Apply(s, step))
  {
    hide Holders, Fifo;
    if step.Take? {
      TakeKeepsHolders(s, step);
    } else if IsLast(step) {
      CloseKeepsHolders(s, step);
    } else {
      SameHolders(s, Apply(s, step));
    }
  }

  // ---- Every step sends the right events --------------------------------------------------------

  /** A step of worker `w`, which holds `ticket`, that sends `es` for it. */
  lemma OthersKeepEvents(s: Pool, t: Pool, w: nat, es: seq<TaskEvent>)
    requires Holders(s) && EventsAreRight(s) && At(s, w) && IsOpen(s.workers[w])
    requires t.events == s.events + Tag(s.workers[w].job.ticket, es) && t.popped == s.popped
    requires |t.workers| == |s.workers| && forall v :: 0 <= v < |s.workers| && v != w ==> t.workers[v] == s.workers[v]
    ensures Of(t.events, s.workers[w].job.ticket) == SentBy(s.workers[w]) + es
    ensures forall k: nat :: k != s.workers[w].job.ticket ==> Of(t.events, k) == Of(s.events, k)
    ensures forall k: nat :: k >= |t.popped| ==> Of(t.events, k) == []
    ensures forall v :: 0 <= v < |t.workers| && v != w && IsOpen(t.workers[v]) ==>
      Of(t.events, t.workers[v].job.ticket) == SentBy(t.workers[v])
    ensures forall k :: k in s.records ==> Of(t.events, k) == Trace(s.records[k].pieces, s.records[k].ending)
  {
    hide Of, SentBy, Trace;
    var ticket := s.workers[w].job.ticket;
    forall k: nat ensures Of(t.events, k) == Of(s.events, k) + if k == ticket then es else [] {
      OfAppend(s.events, Tag(ticket, es), k);
      OfTagged(ticket, es, k);
    }
  }

  lemma SendKeepsEvents(s: Pool, step: Step)
    requires Inv(s) && Enabled(s, step) && (step.Piece? || step.Flush?)
    ensures EventsAreRight(Apply(s, step))
  {
    hide Fifo, LockIsHeld, Holders, Of, Busy, Streamed, Flushed, NewTokens, LastTokens, PhaseFits, RecordFits, Next;
    var t, w := Apply(s, step), step.w;
    if step.Piece? {
      StreamedOneMore(s.workers[w].pieces, step.piece);
      OthersKeepEvents(s, t, w, NewTokens(s.workers[w].pieces, step.piece));
    } else {
      FlushedIsStreamed(s.workers[w].pieces);
      OthersKeepEvents(s, t, w, LastTokens(s.workers[w].pieces));
    }
  }

  /** The terminal event completes the trace of the task. */
  lemma LastEventsEndTrace(ph: Phase, step: Step)
    requires IsLast(step) && Suits(ph, step) && (step.Refuse? ==> AllSerialise(ph.pieces))
    ensures var r := LastRecord(ph, step); SentBy(ph) + LastEvents(ph, step) == Trace(r.pieces, r.ending)
  {
    hide Streamed, Flushed, Delivered, Serialises, RefusedTokens;
    if step.Refuse? {
      DeliveredOneMore(ph.pieces, step.piece);
      Assoc(Streamed(ph.pieces), RefusedTokens(ph.pieces, step.piece), [OnError(InternalError)]);
    }
  }

  lemma CloseKeepsEvents(s: Pool, step: Step)
    requires Inv(s) && Enabled(s, step) && IsLast(step)
    ensures EventsAreRight(Apply(s, step))
  {
    hide Fifo, LockIsHeld, Holders, Of, Busy, Streamed, Flushed, Serialises, LastEvents, LastRecord, Trace, SentBy,
         PhaseFits, RecordFits, Next;
    var ph := s.workers[step.w];
    if step.Refuse? { PhaseSerialises(ph); }
    LastEventsEndTrace(ph, step);
    OthersKeepEvents(s, Apply(s, step), step.w, LastEvents(ph, step));
  }

  lemma QuietKeepsEvents(s: Pool, step: Step)
    requires Inv(s) && Enabled(s, step)
    requires !step.Piece? && !step.Flush? && !IsLast(step)
    ensures EventsAreRight(Apply(s, step))
  {
    hide LockIsHeld, Holders, Of, Busy;
    var t := Apply(s, step);
    if step.Take? { assert s.enqueued[|s.popped|] == s.queue[0]; }
    if step.Begin? { StreamedNothing(); }
  }

  lemma StreamedNothing()
    ensures Streamed([]) == []
  {
  }

  lemma StepKeepsEvents(s: Pool, step: Step)
    requires Inv(s) && Enabled(s, step)
    ensures EventsAreRight(Apply(s, step))
  {
    hide Inv, Enabled, Apply, EventsAreRight;
    if step.Piece? || step.Flush? {
      SendKeepsEvents(s, step);
    } else if IsLast(step) {
      CloseKeepsEvents(s, step);
    } else {
      QuietKeepsEvents(s, step);
    }
  }

  lemma LastRecordFits(ph: Phase, step: Step)
    requires IsLast(step) && Suits(ph, step) && PhaseFits(ph)
    ensures RecordFits(ph.job.task, LastRecord(ph, step))
  {
    hide Serialises, NewsAfter;
    if step.Refuse? {
      var all := ph.pieces + [step.piece];
      assert all[..|all| - 1] == ph.pieces;
    }
  }

  lemma PhaseGoesOn(s: Pool, step: Step)
    requires Enabled(s, step) && !step.Enqueue? && !step.Shutdown? && PhaseFits(s.workers[step.w])
    ensures PhaseFits(Apply(s, step).workers[step.w])
  {
    hide Serialises, NewsAfter, NewTokens, LastTokens, LastEvents, LastRecord;
  }

  lemma OthersStay(s: Pool, step: Step)
    requires Enabled(s, step)
    ensures |Apply(s, step).workers| == |s.workers| && s.popped <= Apply(s, step).popped
    ensures forall v :: 0 <= v < |s.workers| && (step.Enqueue? || step.Shutdown? || v != step.w) ==>
      Apply(s, step).workers[v] == s.workers[v]
    ensures Apply(s, step).records ==
      if !IsLast(step) then s.records
      else s.records[s.workers[step.w].job.ticket := LastRecord(s.workers[step.w], step)]
  {
    hide NewTokens, LastTokens, LastEvents, LastRecord;
  }

  lemma StepKeepsGenerations(s: Pool, step: Step)
    requires Holders(s) && GenerationsFit(s) && Enabled(s, step)
    ensures GenerationsFit(Apply(s, step))
  {
    OthersStay(s, step);
    hide PhaseFits, RecordFits, Apply, Enabled, LastRecord, Suits, NoneIsLost, OneHolder;
    if !step.Enqueue? && !step.Shutdown? { PhaseGoesOn(s, step); }
    if IsLast(step) {
      LastSuits(s, step);
      SuitsIsOpen(s.workers[step.w], step);
      LastRecordFits(s.workers[step.w], step);
    }
  }

  lemma LastSuits(s: Pool, step: Step)
    requires Enabled(s, step) && IsLast(step)
    ensures At(s, step.w) && Suits(s.workers[step.w], step)
  {
  }

  lemma SuitsIsOpen(ph: Phase, step: Step)
    requires Suits(ph, step)
    ensures IsOpen(ph)
  {
  }

  lemma StepKeepsInv(s: Pool, step: Step)
    requires Inv(s) && Enabled(s, step)
    ensures Inv(Apply(s, step))
  {
    hide Apply, Enabled, Fifo, LockIsHeld, Holders, EventsAreRight, GenerationsFit;
    StepKeepsGenerations(s, step);
    StepKeepsOrder(s, step);
    StepKeepsCount(s, step);
    StepKeepsHolders(s, step);
    StepKeepsEvents(s, step);
  }

  lemma {:induction false} RunKeepsInv(s: Pool, steps: seq<Step>, t: Pool)
    requires Inv(s) && Runs(s, steps, t)
    ensures Inv(t)
    decreases |steps|
  {
    if steps != [] {
      StepKeepsInv(s, steps[0]);
      RunKeepsInv(Apply(s, steps[0]), steps[1..], t);
    }
  }

  // ---- Main results, over every run of any number of workers -----------------------------------------

  lemma ReachedInv(n: nat, steps: seq<Step>, s: Pool)
    requires Runs(Init(n), steps, s)
    ensures Inv(s) && |s.workers| == n
  {
    InitInv(n);
    RunKeepsInv(Init(n), steps, s);
    RunKeepsWorkers(Init(n), steps, s);
  }

  lemma {:induction false} RunKeepsWorkers(s: Pool, steps: seq<Step>, t: Pool)
    requires Runs(s, steps, t)
    ensures |t.workers| == |s.workers|
    decreases |steps|
  {
    if steps != [] { RunKeepsWorkers(Apply(s, steps[0]), steps[1..], t); }
  }

  /** How many workers hold a ticket. */
  function HolderCount(workers: seq<Phase>, ticket: nat): nat {
    if workers == [] then 0 else (if Holds(workers[0], ticket) then 1 else 0) + HolderCount(workers[1..], ticket)
  }

  lemma {:induction false} CountsOne(workers: seq<Phase>, ticket: nat, w: nat)
    requires w < |workers| && Holds(workers[w], ticket)
    requires forall v :: 0 <= v < |workers| && v != w ==> !Holds(workers[v], ticket)
    ensures HolderCount(workers, ticket) == 1
  {
    if w > 0 {
      CountsOne(workers[1..], ticket, w - 1);
    } else {
      CountsNone(workers[1..], ticket);
    }
  }

  lemma {:induction false} CountsNone(workers: seq<Phase>, ticket: nat)
    requires forall v :: 0 <= v < |workers| ==> !Holds(workers[v], ticket)
    ensures HolderCount(workers, ticket) == 0
  {
    if workers != [] { CountsNone(workers[1..], ticket); }
  }

  /** Tasks are popped in enqueue order, and each enqueued task is in exactly one place:
      the queue, the hands of one worker, or among the finished ones. */
  lemma TasksAreConserved(n: nat, steps: seq<Step>, s: Pool, k: nat)
    requires Runs(Init(n), steps, s) && k < |s.enqueued|
    ensures s.popped + s.queue == s.enqueued && s.enqueued[k].ticket == k
    ensures (if k >= |s.popped| then 1 else 0) + (if k in s.records then 1 else 0) + HolderCount(s.workers, k) == 1
  {
    ReachedInv(n, steps, s);
    assert Holders(s);
    if k < |s.popped| && k !in s.records {
      var w :| 0 <= w < |s.workers| && Holds(s.workers[w], k);
      forall v | 0 <= v < |s.workers| && v != w ensures !Holds(s.workers[v], k) {
        assert v < w || w < v;
      }
      CountsOne(s.workers, k, w);
    } else {
      CountsNone(s.workers, k);
    }
  }

  /** The counter is exactly the number of workers between their begin and end steps. */
  lemma CounterIsExact(n: nat, steps: seq<Step>, s: Pool)
    requires Runs(Init(n), steps, s)
    ensures |s.workers| == n && s.active == Busy(s.workers) && 0 <= s.active <= n
    ensures s.active == 0 <==> forall w :: 0 <= w < n ==> !IsBusy(s.workers[w])
  {
    ReachedInv(n, steps, s);
    BusyIsBounded(s.workers);
    forall w | 0 <= w < n && IsBusy(s.workers[w]) ensures s.active > 0 {
      BusyUpdate(s.workers, w, Idle);
    }
  }

  /** A finished task has its whole trace, which ends with its one terminal event; a task
      that was not popped has no event. */
  lemma EventsOfEachTask(n: nat, steps: seq<Step>, s: Pool, k: nat)
    requires Runs(Init(n), steps, s)
    ensures k >= |s.popped| ==> Of(s.events, k) == []
    ensures k in s.records ==> Of(s.events, k) == Trace(s.records[k].pieces, s.records[k].ending)
    ensures k in s.records ==> var tr := Of(s.events, k);
      tr != [] && forall i :: 0 <= i < |tr| ==> (IsTerminal(tr[i]) <==> i == |tr| - 1)
    ensures k in s.records && s.records[k].ending.Finished? ==>
      Of(s.events, k) == Flushed(s.records[k].pieces) + [OnComplete(|s.records[k].pieces|)]
    ensures k < |s.popped| && k !in s.records ==> forall e :: e in Of(s.events, k) ==> !IsTerminal(e)
  {
    hide PhaseFits, RecordFits, LockIsHeld, OneHolder, Serialises;
    ReachedInv(n, steps, s);
    if k in s.records {
      TraceEndsOnce(s.records[k].pieces, s.records[k].ending);
      RecordIsFit(s.popped[k].task, s.records[k]);
    }
    if k < |s.popped| && k !in s.records {
      var w :| 0 <= w < |s.workers| && Holds(s.workers[w], k);
      assert Of(s.events, k) == SentBy(s.workers[w]);
    }
  }

  /** A finished task ran one generation, with its own limit unless a profile replaced the
      default. The pieces are those that `generate` hands out for it, and the ending is its
      exit; without a context, or when the prompt cannot be evaluated, there are none. */
  lemma GenerationOfEachTask(n: nat, steps: seq<Step>, s: Pool, k: nat)
    requires Runs(Init(n), steps, s) && k in s.records
    ensures k < |s.enqueued| && (s.records[k].ask.None? <==> s.records[k].ending.NotFound?)
    ensures s.records[k].ask.Some? ==> var r, a := s.records[k], s.records[k].ask.value;
      Takes(s.enqueued[k].task, a) &&
      if a.nCtx >= 1 && !a.world.fault(0) then
        var p := PlanFor(a); r.pieces == Pieces(p, Tokens(p)) && EndsAs(TheExit(p), r.ending)
      else
        r.pieces == [] && r.ending.Crashed? &&
        if a.nCtx == 0 then r.ending.failure == Backend(NoContext) else r.ending.failure.phase == PromptEval
  {
    hide EventsAreRight, Serialises, PlanFor, LockIsHeld, OneHolder, NoneIsLost, HeldWerePopped, PhaseFits;
    ReachedInv(n, steps, s);
    var r := s.records[k];
    assert s.enqueued[k] == s.popped[k] && RecordFits(s.popped[k].task, r);
    if r.ask.Some? {
      var a := r.ask.value;
      if a.nCtx >= 1 && !a.world.fault(0) {
        RanIsGenerate(a, r.pieces, r.ending);
      } else {
        RanNothing(a, r.pieces, r.ending);
      }
    }
  }

  /** What a client may rely on: a task samples no more pieces than its limit, if that is
      positive, and than the room in the cache and one; and without faults it fails exactly
      if its limit is not positive, or above that bound, and nothing else stops it. */
  lemma LimitsOfEachTask(n: nat, steps: seq<Step>, s: Pool, k: nat)
    requires Runs(Init(n), steps, s) && k in s.records && s.records[k].ask.Some?
    requires var a := s.records[k].ask.value; a.nCtx >= 1 && !a.world.fault(0)
    ensures k < |s.enqueued|
    ensures s.enqueued[k].task.maxTokens > 0 ==> |s.records[k].pieces| <= s.enqueued[k].task.maxTokens
    ensures var p := PlanFor(s.records[k].ask.value); var room := p.nCtx - |p.prompt|;
      room >= 1 && |s.records[k].pieces| <= room + 1 &&
      (FaultFree(p) ==>
         (s.records[k].ending.Crashed? <==>
            (p.max <= 0 || p.max > room + 1) && forall j: nat :: j <= room ==> Proceeds(p, j)) &&
         (0 < s.enqueued[k].task.maxTokens <= room + 1 ==> !s.records[k].ending.Crashed?))
  {
    hide Runs, Tokens, TheExit, Pieces, Proceeds;
    GenerationOfEachTask(n, steps, s, k);
    var p := PlanFor(s.records[k].ask.value);
    TokensAreBounded(p);
    if FaultFree(p) { FailsExactlyWhenUnstopped(p); }
  }

  /** What the client of a finished task was told, last of all, is how it ended. */
  lemma EndOfEachTask(n: nat, steps: seq<Step>, s: Pool, k: nat)
    requires Runs(Init(n), steps, s) && k in s.records
    ensures Tells(Of(s.events, k), s.records[k].pieces, s.records[k].ending)
  {
    hide PhaseFits, RecordFits, LockIsHeld, OneHolder, Trace, Tells, Fits;
    ReachedInv(n, steps, s);
    RecordIsFit(s.popped[k].task, s.records[k]);
    TraceTells(s.records[k].pieces, s.records[k].ending);
  }

  /** Over every run, the pieces of a finished task are the texts of the tokens sampled for it,
      up to the least number at which something ends its generation. A limit that nothing
      undercuts is met exactly. */
  lemma PiecesOfEachTask(n: nat, steps: seq<Step>, s: Pool, k: nat)
    requires Runs(Init(n), steps, s) && k in s.records && s.records[k].ask.Some?
    requires var a := s.records[k].ask.value; a.nCtx >= 1 && !a.world.fault(0)
    ensures var r, a := s.records[k], s.records[k].ask.value;
      Ends(a, |r.pieces|) && (forall t: nat :: t < |r.pieces| ==> !Ends(a, t)) &&
      (forall i :: 0 <= i < |r.pieces| ==> r.pieces[i] == a.world.piece(a.world.sample(i))) &&
      (r.ending.Refused? <==> r.pieces != [] && !Serialises(r.pieces[|r.pieces| - 1])) &&
      (r.ending.Crashed? ==> r.ending.failure.phase == Generation)
    ensures k < |s.enqueued|
    ensures var r, a, max := s.records[k], s.records[k].ask.value, s.enqueued[k].task.maxTokens;
      max > 0 && (forall t: nat :: t < max ==> !Ends(a, t)) && Serialises(a.world.piece(a.world.sample(max - 1))) ==>
        |r.pieces| == max && r.ending == Finished(max)
  {
    hide EventsAreRight, Serialises, LockIsHeld, OneHolder, NoneIsLost, HeldWerePopped, PhaseFits, Ran, Ends;
    ReachedInv(n, steps, s);
    var r, a, max := s.records[k], s.records[k].ask.value, s.enqueued[k].task.maxTokens;
    assert s.enqueued[k] == s.popped[k] && RecordFits(s.popped[k].task, r);
    RanToTheLeast(a, r.pieces, r.ending);
    if max > 0 {
      EndsAtLimit(a);
      RecordIsFit(s.popped[k].task, r);
    }
  }

  lemma EndsAtLimit(a: Ask)
    ensures a.max > 0 ==> Ends(a, a.max)
  {
  }

  /** End to end: what the client of a completed task reads is the reference scan of the
      cleaned pieces the model produced for it, and what the client of a failed task reads
      is a beginning of that scan which lacks at most 11 bytes. */
  lemma ClientsReadTheScan(n: nat, steps: seq<Step>, s: Pool, k: nat)
    requires Runs(Init(n), steps, s) && k in s.records
    ensures var read := Spelled(Of(s.events, k)); var all := Scan(MarkAll(Cleaned(s.records[k].pieces)), Start);
      match s.records[k].ending
      case NotFound => read == []
      case Finished(_) => read == all
      case Crashed(_) => read <= all && |all| <= |read| + 11
      case Refused => read <= all
  {
    EventsOfEachTask(n, steps, s, k);
    match s.records[k].ending
    case NotFound => SpelledTokens([], [OnError("Session not found")]);
      assert TokenEvents([]) + [OnError("Session not found")] == [OnError("Session not found")];
    case Finished(tokens) => CompletedSpellsScan(s.records[k].pieces, tokens);
    case Crashed(failure) => CrashedSpellsPrefix(s.records[k].pieces, failure);
    case Refused => RefusedSpellsPrefix(s.records[k].pieces);
  }

  /** Every text that was sent so far for any task is non-empty, valid UTF-8. */
  lemma EveryTextIsUtf8(n: nat, steps: seq<Step>, s: Pool, k: nat)
    requires Runs(Init(n), steps, s)
    ensures forall e :: e in Of(s.events, k) && e.OnToken? ==> e.event.text != [] && IsEncoded(e.event.text)
  {
    hide IsUtf8, IsEncoded;
    TextsOf(n, steps, s, k);
    forall e | e in Of(s.events, k) && e.OnToken? ensures IsEncoded(e.event.text) {
      GrammarIsEncoding(e.event.text);
    }
  }

  lemma TextsOf(n: nat, steps: seq<Step>, s: Pool, k: nat)
    requires Runs(Init(n), steps, s)
    ensures forall e :: e in Of(s.events, k) && e.OnToken? ==> e.event.text != [] && IsUtf8(e.event.text)
  {
    hide IsUtf8, Streamed, Flushed, Serialises, PhaseFits, RecordFits, LockIsHeld, OneHolder;
    ReachedInv(n, steps, s);
    EventsOfEachTask(n, steps, s, k);
    if k in s.records {
      RecordIsFit(s.popped[k].task, s.records[k]);
      TraceIsUtf8(s.records[k].pieces, s.records[k].ending);
    } else if k < |s.popped| {
      var w :| 0 <= w < |s.workers| && Holds(s.workers[w], k);
      var ph := s.workers[w];
      if !ph.Holding? {
        PhaseSerialises(ph);
        var failed, finished := Crashed(Backend(Generation)), Finished(|ph.pieces|);
        TraceIsUtf8(ph.pieces, failed);
        TraceIsUtf8(ph.pieces, finished);
        assert SentBy(ph) <= Trace(ph.pieces, if ph.Generating? then failed else finished);
      }
    }
  }

  /** A finished task whose client was told of an internal error is one for which a piece
      with a sequence outside the range limits was sampled, and every such task ends so. */
  lemma InternalErrorExactly(n: nat, steps: seq<Step>, s: Pool, k: nat)
    requires Runs(Init(n), steps, s) && k in s.records
    ensures OnError(InternalError) in Of(s.events, k) <==> exists p :: p in s.records[k].pieces && !Encodes(p)
  {
    hide Encodes, Serialises, Streamed, Flushed, Delivered;
    ReachedInv(n, steps, s);
    var r := s.records[k];
    EventsOfEachTask(n, steps, s, k);
    RecordIsFit(s.popped[k].task, r);
    FitsExactly(r.pieces, r.ending);
    ErrorOfTrace(r.pieces, r.ending);
    forall p | p in r.pieces ensures Serialises(p) <==> Encodes(p) { SerialisesExactly(p); }
  }

  lemma FitsExactly(pieces: seq<Text>, ending: Ending)
    requires Fits(pieces, ending)
    ensures ending.Refused? <==> !AllSerialise(pieces)
  {
    hide Serialises;
    if ending.Refused? { assert pieces[|pieces| - 1] in pieces; }
  }

  lemma ErrorOfTrace(pieces: seq<Text>, ending: Ending)
    ensures OnError(InternalError) in Trace(pieces, ending) <==> ending.Refused?
  {
    var tr := Trace(pieces, ending);
    TraceEndsOnce(pieces, ending);
    assert tr[|tr| - 1] in tr;
    if OnError(InternalError) in tr {
      var i :| 0 <= i < |tr| && tr[i] == OnError(InternalError);
      assert IsTerminal(tr[i]);
    }
  }

  /** Once a task is finished, no callback of it is called again. */
  lemma FinishedIsFinal(n: nat, before: seq<Step>, s: Pool, after: seq<Step>, t: Pool, k: nat)
    requires Runs(Init(n), before, s) && Runs(s, after, t) && k in s.records
    ensures k in t.records && t.records[k] == s.records[k] && Of(t.events, k) == Of(s.events, k)
  {
    ReachedInv(n, before, s);
    RecordsStay(s, after, t, k);
    RunKeepsInv(s, after, t);
  }

  lemma {:induction false} RecordsStay(s: Pool, steps: seq<Step>, t: Pool, k: nat)
    requires Inv(s) && Runs(s, steps, t) && k in s.records
    ensures k in t.records && t.records[k] == s.records[k]
    decreases |steps|
  {
    if steps != [] {
      StepKeepsInv(s, steps[0]);
      StepKeepsRecord(s, steps[0], k);
      RecordsStay(Apply(s, steps[0]), steps[1..], t, k);
    }
  }

  lemma StepKeepsRecord(s: Pool, step: Step, k: nat)
    requires Inv(s) && Enabled(s, step) && k in s.records
    ensures var t := Apply(s, step); k in t.records && t.records[k] == s.records[k]
  {
    hide Fifo, LockIsHeld, EventsAreRight, GenerationsFit, Busy, OneHolder, NoneIsLost, LastEvents, LastRecord,
         Serialises;
    if IsLast(step) { assert s.workers[step.w].job.ticket !in s.records; }
  }

  /** After shutdown at most one more task leaves the queue, and only if a worker had
      passed the test of the running flag and holds the mutex; the others stay queued, in
      order, and get no event. */
  lemma ShutdownKeepsTheQueue(n: nat, before: seq<Step>, s: Pool, after: seq<Step>, t: Pool)
    requires Runs(Init(n), before, s) && !s.running && Runs(s, after, t)
    ensures s.lock.None? ==> t.lock.None?
    ensures s.lock.Some? ==> s.queue != []
    ensures if s.lock.Some? && t.lock.None? then t.popped == s.popped + s.queue[..1] && s.queue[1..] <= t.queue
            else t.popped == s.popped && s.queue <= t.queue
    ensures forall k :: |t.popped| <= k < |t.enqueued| ==> Of(t.events, k) == []
  {
    ReachedInv(n, before, s);
    AfterShutdown(s, after, t);
    RunKeepsInv(s, after, t);
  }

  lemma {:induction false} AfterShutdown(s: Pool, steps: seq<Step>, t: Pool)
    requires Inv(s) && !s.running && Runs(s, steps, t)
    ensures s.lock.None? ==> t.lock.None?
    ensures if s.lock.Some? && t.lock.None? then t.popped == s.popped + s.queue[..1] && s.queue[1..] <= t.queue
            else t.popped == s.popped && s.queue <= t.queue
    decreases |steps|
  {
    if steps != [] {
      var u := Apply(s, steps[0]);
      StepKeepsInv(s, steps[0]);
      ShutdownStep(s, steps[0]);
      AfterShutdown(u, steps[1..], t);
    }
  }

  lemma ShutdownStep(s: Pool, step: Step)
    requires Inv(s) && !s.running && Enabled(s, step)
    ensures !Apply(s, step).running
    ensures var t := Apply(s, step);
      if step.Take? then s.lock.Some? && t.lock.None? && t.popped == s.popped + s.queue[..1] && t.queue == s.queue[1..]
      else t.popped == s.popped && s.queue <= t.queue && t.lock == s.lock && (s.lock.Some? ==> t.queue == s.queue)
  {
    hide Fifo, Holders, EventsAreRight, Busy;
  }

  /** No worker is at work on a task. */
  predicate Resting(s: Pool) {
    forall w :: 0 <= w < |s.workers| ==> s.workers[w].Idle? || s.workers[w].Exited?
  }

  predicate AllExited(s: Pool) {
    forall w :: 0 <= w < |s.workers| ==> s.workers[w].Exited?
  }

  /** When every worker waits or has left, every popped task is finished, no other task is,
      and the counter is zero. */
  lemma RestingPoolIsDone(n: nat, steps: seq<Step>, s: Pool)
    requires Runs(Init(n), steps, s) && Resting(s)
    ensures forall k: nat :: k in s.records <==> k < |s.popped|
    ensures s.active == 0 && s.lock.None?
  {
    ReachedInv(n, steps, s);
    BusyIsBounded(s.workers);
    forall k: nat | k < |s.popped| ensures k in s.records {
      assert !IsHeld(s.workers, k);
    }
  }

  /** What a shutdown that returns has waited for: when every worker has left, all the
      tasks that were enqueued are finished exactly if the queue was empty when the flag
      was cleared, or held one task and a worker was already past its test. */
  lemma ShutdownWaitsExactly(n: nat, before: seq<Step>, s: Pool, after: seq<Step>, t: Pool)
    requires Runs(Init(n), before, s) && !s.running && Runs(s, after, t) && AllExited(t)
    ensures (forall k :: 0 <= k < |s.enqueued| ==> k in t.records) <==> |s.queue| <= if s.lock.Some? then 1 else 0
  {
    ReachedInv(n, before, s);
    AfterShutdown(s, after, t);
    RunsAppend(Init(n), before, s, after, t);
    RestingPoolIsDone(n, before + after, t);
    assert |s.enqueued| == |s.popped| + |s.queue|;
    if |s.queue| > if s.lock.Some? then 1 else 0 {
      assert |s.enqueued| - 1 !in t.records;
    }
  }

  /** So a pending task can be left behind: one is enqueued, the service is shut down, and
      the worker leaves. */
  lemma ShutdownLeavesATask(task: Task)
    ensures exists s ::
      Runs(Init(1), [Enqueue(task), Shutdown, Leave(0)], s) && AllExited(s) && s.queue == [Job(0, task)]
  {
    var s1 := Apply(Init(1), Enqueue(task));
    var s2 := Apply(s1, Shutdown);
    var s := Apply(s2, Leave(0));
    assert Runs(s, [], s);
    RunsCons(s2, Leave(0), [], s);
    RunsCons(s1, Shutdown, [Leave(0)], s);
    RunsCons(Init(1), Enqueue(task), [Shutdown, Leave(0)], s);
    assert [Enqueue(task)] + ([Shutdown] + ([Leave(0)] + [])) == [Enqueue(task), Shutdown, Leave(0)];
  }

  /** Every enqueued task has sent its terminal event, and yet the counter is not zero. */
  ghost predicate AllEndedYetActive(s: Pool) {
    s.active > 0 && s.enqueued != [] && forall k :: 0 <= k < |s.enqueued| ==> Of(s.events, k) == [OnComplete(0)]
  }

  /** A generation whose first token ends it. */
  function EndsAtOnce(task: Task): Ask {
    var world := World([], (k: nat) => 0, (t: Token) => true, (t: Token) => [],
                               (k: nat) => false, (k: nat) => false, 0, (k: nat) => []);
    Ask(world, 1, task.maxTokens)
  }

  /** The only worker of a pool that has popped the only task. */
  function OneHeld(task: Task): Pool {
    var job := Job(0, task);
    Init(1).(workers := [Holding(job)], enqueued := [job], popped := [job])
  }

  lemma OneIsPopped(task: Task)
    ensures Runs(Init(1), [Enqueue(task), Commit(0), Take(0)], OneHeld(task))
  {
    var s1 := Apply(Init(1), Enqueue(task));
    var s2 := Apply(s1, Commit(0));
    var s3 := Apply(s2, Take(0));
    assert s3.queue == [] && s3 == OneHeld(task);
    assert Runs(s3, [], s3);
    RunsCons(s2, Take(0), [], s3);
    RunsCons(s1, Commit(0), [Take(0)], s3);
    RunsCons(Init(1), Enqueue(task), [Commit(0), Take(0)], s3);
    assert [Enqueue(task)] + ([Commit(0)] + ([Take(0)] + [])) == [Enqueue(task), Commit(0), Take(0)];
  }

  lemma OneCompletes(task: Task, s: Pool)
    requires s == Apply(Apply(Apply(OneHeld(task), Begin(0, EndsAtOnce(task))), Flush(0)), Complete(0))
    ensures Runs(OneHeld(task), [Begin(0, EndsAtOnce(task)), Flush(0), Complete(0)], s)
    ensures s.active == 1 && s.enqueued == [Job(0, task)]
    ensures 0 in s.records && s.records[0] == Record(Some(EndsAtOnce(task)), [], Finished(0))
  {
    hide LastTokens, LastEvents;
    var s4 := Apply(OneHeld(task), Begin(0, EndsAtOnce(task)));
    var s5 := Apply(s4, Flush(0));
    assert Runs(s, [], s);
    RunsCons(s5, Complete(0), [], s);
    RunsCons(s4, Flush(0), [Complete(0)], s);
    RunsCons(OneHeld(task), Begin(0, EndsAtOnce(task)), [Flush(0), Complete(0)], s);
    var begin := Begin(0, EndsAtOnce(task));
    assert [begin] + ([Flush(0)] + ([Complete(0)] + [])) == [begin, Flush(0), Complete(0)];
  }

  /** A client that got the `end` of the last task cannot rely on the counter being zero:
      the terminal event is sent before the decrement. */
  lemma EndIsSentBeforeTheDecrement(task: Task)
    ensures exists steps, s :: Runs(Init(1), steps, s) && AllEndedYetActive(s)
  {
    hide Apply, Enabled;
    var a, b := [Enqueue(task), Commit(0), Take(0)], [Begin(0, EndsAtOnce(task)), Flush(0), Complete(0)];
    CanComplete(task);
    var s := Apply(Apply(Apply(OneHeld(task), Begin(0, EndsAtOnce(task))), Flush(0)), Complete(0));
    OneIsPopped(task);
    OneCompletes(task, s);
    RunsAppend(Init(1), a, OneHeld(task), b, s);
    OneEnded(task, a + b, s);
  }

  lemma OneEnded(task: Task, steps: seq<Step>, s: Pool)
    requires Runs(Init(1), steps, s) && s.active == 1 && s.enqueued == [Job(0, task)]
    requires 0 in s.records && s.records[0] == Record(Some(EndsAtOnce(task)), [], Finished(0))
    ensures AllEndedYetActive(s)
  {
    EventsOfEachTask(1, steps, s, 0);
    FlushedNothing();
  }

  lemma CanComplete(task: Task)
    ensures Enabled(OneHeld(task), Begin(0, EndsAtOnce(task)))
    ensures Enabled(Apply(OneHeld(task), Begin(0, EndsAtOnce(task))), Flush(0))
    ensures Enabled(Apply(Apply(OneHeld(task), Begin(0, EndsAtOnce(task))), Flush(0)), Complete(0))
  {
  }

  lemma RunsCons(s: Pool, step: Step, rest: seq<Step>, t: Pool)
    requires Enabled(s, step) && Runs(Apply(s, step), rest, t)
    ensures Runs(s, [step] + rest, t)
  {
    assert ([step] + rest)[1..] == rest;
  }

  lemma {:induction false} RunsAppend(s: Pool, a: seq<Step>, t: Pool, b: seq<Step>, u: Pool)
    requires Runs(s, a, t) && Runs(t, b, u)
    ensures Runs(s, a + b, u)
    decreases |a|
  {
    if a == [] {
      assert a + b == b;
    } else {
      assert (a + b)[1..] == a[1..] + b;
      RunsAppend(Apply(s, a[0]), a[1..], t, b, u);
    }
  }

  lemma FlushedNothing()
    ensures Trace([], Finished(0)) == [OnComplete(0)]
  {
    assert Flushed([]) == [];
  }
}
