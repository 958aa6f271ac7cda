/** One inference task: generation, cleaning and filtering composed, and the events its
    client gets. */
module InferenceTask {
  import opened Bytes
  import opened TagScanner
  import opened ThoughtFilter
  import opened Utf8
  import opened LlamaLogger
  import opened Session
  import opened SharedLog

  datatype TaskEvent = OnToken(event: Event) | OnComplete(tokens: nat) | OnError(message: string)

  predicate IsTerminal(e: TaskEvent) {
    !e.OnToken?
  }

  /** How the processing of a task ends: without a session, normally, in an exception of
      `generate`, or in the exception of a token callback that could not serialise a text. */
  datatype Ending = NotFound | Finished(tokens: nat) | Crashed(failure: Failure) | Refused

  const InternalError := "Internal server error"

  function Message(f: Failure): string {
    match f
    case MemoryFull(PromptEval) => "KV Cache full during prompt evaluation"
    case MemoryFull(_) => "KV Cache full during token generation"
    case Backend(NoContext) => "Session context is null"
    case Backend(PromptEval) => "llama_decode failed during prompt evaluation"
    case Backend(Generation) => "llama_decode failed during token generation"
  }

  /** The tokens the filter is fed: each sampled piece, cleaned on its own. */
  function Cleaned(pieces: seq<Text>): (r: seq<Text>)
    ensures |r| == |pieces|
  {
    seq(|pieces|, i requires 0 <= i < |pieces| => Sanitized(pieces[i]))
  }

  function TokenEvents(events: seq<Event>): (r: seq<TaskEvent>)
    ensures |r| == |events|
  {
    seq(|events|, i requires 0 <= i < |events| => OnToken(events[i]))
  }

  /** The token events of a generation under way. */
  function Streamed(pieces: seq<Text>): seq<TaskEvent> {
    TokenEvents(Emits(Fed(Cleaned(pieces)).pieces))
  }

  /** The token events of a generation after the final flush. */
  function Flushed(pieces: seq<Text>): seq<TaskEvent> {
    TokenEvents(Emitted(Cleaned(pieces)))
  }

  /** The token events delivered when the filter's last piece made the callback throw. */
  function Delivered(pieces: seq<Text>): seq<TaskEvent> {
    TokenEvents(Accepted(Emits(Fed(Cleaned(pieces)).pieces), IsUtf8))
  }

  /** All the events of a task. */
  function Trace(pieces: seq<Text>, ending: Ending): seq<TaskEvent> {
    match ending
    case NotFound => [OnError("Session not found")]
    case Finished(tokens) => Flushed(pieces) + [OnComplete(tokens)]
    case Crashed(failure) => Streamed(pieces) + [OnError(Message(failure))]
    case Refused => Delivered(pieces) + [OnError(InternalError)]
  }

  /** The cleaned piece is valid UTF-8. */
  predicate Serialises(piece: Text) {
    IsUtf8(Sanitized(piece))
  }

  predicate AllSerialise(pieces: seq<Text>) {
    forall p :: p in pieces ==> Serialises(p)
  }

  /** The endings that are possible after these pieces: the callback throws at the first
      piece that cannot be serialised, and every counted token was handed to it. */
  predicate Fits(pieces: seq<Text>, ending: Ending) {
    match ending
    case NotFound => pieces == []
    case Finished(tokens) => AllSerialise(pieces) && tokens == |pieces|
    case Crashed(_) => AllSerialise(pieces)
    case Refused =>
      pieces != [] && AllSerialise(pieces[..|pieces| - 1]) && !Serialises(pieces[|pieces| - 1])
  }

  /** The labelled bytes that the token events of a trace spell. */
  function Spelled(trace: seq<TaskEvent>): seq<Labelled> {
    if trace == [] then []
    else (if trace[0].OnToken? then LabelAll(trace[0].event.text, trace[0].event.kind) else []) + Spelled(trace[1..])
  }

  lemma {:induction false} SpelledTokens(events: seq<Event>, last: seq<TaskEvent>)
    requires |last| <= 1 && forall e :: e in last ==> IsTerminal(e)
    ensures Spelled(TokenEvents(events) + last) == Spell(events)
    decreases |events|
  {
    if events == [] {
      assert TokenEvents(events) + last == last;
      if last != [] { assert last[0] in last && last[1..] == []; }
    } else {
      var t := TokenEvents(events) + last;
      assert t[0] == OnToken(events[0]);
      assert t[1..] == TokenEvents(events[1..]) + last;
      SpelledTokens(events[1..], last);
    }
  }

  /** What the client of a completed task reads is the reference scan of the cleaned
      pieces. */
  lemma CompletedSpellsScan(pieces: seq<Text>, tokens: nat)
    ensures Spelled(Trace(pieces, Finished(tokens))) == Scan(MarkAll(Cleaned(pieces)), Start)
  {
    StreamIsScan(Cleaned(pieces));
    SpelledTokens(Emitted(Cleaned(pieces)), [OnComplete(tokens)]);
  }

  /** What the client of a failed task reads is a beginning of that scan, which lacks at
      most the 11 bytes that the filter may hold back. */
  lemma CrashedSpellsPrefix(pieces: seq<Text>, failure: Failure)
    ensures var all := Scan(MarkAll(Cleaned(pieces)), Start);
      var read := Spelled(Trace(pieces, Crashed(failure)));
      read <= all && |all| <= |read| + 11
  {
    SpelledTokens(Emits(Fed(Cleaned(pieces)).pieces), [OnError(Message(failure))]);
    StreamSpellsPrefix(Cleaned(pieces));
  }

  lemma StreamSpellsPrefix(tokens: seq<Text>)
    ensures var all := Scan(MarkAll(tokens), Start); var read := Spell(Emits(Fed(tokens).pieces));
      read <= all && |all| <= |read| + 11
  {
    var p := Fed(tokens);
    FeedScans([], Start, tokens);
    assert Unmarked([]) + MarkAll(tokens) == MarkAll(tokens);
    NothingIsLost(tokens);
    ScanFlush(p.buffer, p.mode);
  }

  /** What the client of a task that ends in an internal error reads is a beginning of the
      scan too. */
  lemma RefusedSpellsPrefix(pieces: seq<Text>)
    ensures Spelled(Trace(pieces, Refused)) <= Scan(MarkAll(Cleaned(pieces)), Start)
  {
    hide IsUtf8, Scan, Fed, Cleaned;
    var all := Emits(Fed(Cleaned(pieces)).pieces);
    var some := Accepted(all, IsUtf8);
    SpelledTokens(some, [OnError(InternalError)]);
    SpellPrefix(some, all);
    StreamSpellsPrefix(Cleaned(pieces));
  }

  lemma SpellPrefix(some: seq<Event>, all: seq<Event>)
    requires some <= all
    ensures Spell(some) <= Spell(all)
  {
    hide Spell;
    assert all == some + all[|some|..];
    SpellAppend(some, all[|some|..]);
  }

  lemma CleanedIsWellFormed(pieces: seq<Text>)
    ensures forall t :: t in Cleaned(pieces) ==> WellFormed(t)
    ensures AllSerialise(pieces) <==> forall t :: t in Cleaned(pieces) ==> IsUtf8(t)
  {
    hide WellFormed, Sanitized, IsUtf8;
    var c := Cleaned(pieces);
    forall i | 0 <= i < |pieces| ensures WellFormed(c[i]) && (IsUtf8(c[i]) <==> Serialises(pieces[i])) && c[i] in c {
      SanitizedIsWellFormed(pieces[i]);
    }
    assert AllSerialise(pieces) <==> forall i :: 0 <= i < |pieces| ==> Serialises(pieces[i]);
  }

  /** Every text that the filter makes of some pieces is valid UTF-8 exactly when every
      complete sequence of every piece encodes a scalar value. */
  lemma TextsAreUtf8Exactly(pieces: seq<Text>)
    ensures (forall e :: e in Emitted(Cleaned(pieces)) ==> IsEncoded(e.text)) <==>
      forall p :: p in pieces ==> Encodes(p)
  {
    hide Emitted, IsUtf8, IsEncoded, Encodes, Cleaned, Serialises;
    CleanedIsWellFormed(pieces);
    EmittedIsUtf8(Cleaned(pieces));
    forall e | e in Emitted(Cleaned(pieces)) ensures IsUtf8(e.text) <==> IsEncoded(e.text) {
      GrammarIsEncoding(e.text);
    }
    forall p | p in pieces ensures Serialises(p) <==> Encodes(p) { SerialisesExactly(p); }
  }

  lemma SerialisesExactly(piece: Text)
    ensures Serialises(piece) <==> Encodes(piece)
  {
    ValidExactlyWhenInRange(piece);
    GrammarIsEncoding(Sanitized(piece));
  }

  /** A piece that cannot be serialised makes the callback throw while that very piece is
      filtered; any other piece does not. */
  lemma ThrowsAtThePiece(pieces: seq<Text>, piece: Text)
    requires AllSerialise(pieces)
    ensures AllUtf8(Emits(Fed(Cleaned(pieces)).pieces))
    ensures AllUtf8(Emits(Fed(Cleaned(pieces + [piece])).pieces)) <==> Serialises(piece)
    ensures AllUtf8(Emitted(Cleaned(pieces)))
  {
    hide Serialises, Cleaned, Emitted, WellFormed, IsUtf8, AllUtf8;
    CleanedIsWellFormed(pieces);
    CleanedIsWellFormed(pieces + [piece]);
    EmittedIsUtf8(Cleaned(pieces));
    EmittedIsUtf8(Cleaned(pieces + [piece]));
    assert AllSerialise(pieces + [piece]) <==> Serialises(piece);
  }

  /** Every text a client gets is non-empty, valid UTF-8. */
  lemma TraceIsUtf8(pieces: seq<Text>, ending: Ending)
    requires Fits(pieces, ending)
    ensures forall e :: e in Trace(pieces, ending) && e.OnToken? ==> e.event.text != [] && IsUtf8(e.event.text)
  {
    hide IsUtf8, Cleaned, Emitted, Fed;
    var tokens := Cleaned(pieces);
    CleanedIsWellFormed(pieces);
    EmittedIsWellFormed(tokens);
    if ending.Finished? || ending.Crashed? { ThrowsAtThePiece(pieces, []); }
    EmitsAreEmitted(tokens);
  }

  lemma EmitsAreEmitted(tokens: seq<Text>)
    ensures Emits(Fed(tokens).pieces) <= Emitted(tokens)
  {
    PiecesAppend(Fed(tokens).pieces, FlushPieces(Fed(tokens)));
  }

  /** A trace is token events and then one terminal event, which is the last. */
  lemma TraceEndsOnce(pieces: seq<Text>, ending: Ending)
    ensures var t := Trace(pieces, ending);
      t != [] && forall i :: 0 <= i < |t| ==> (IsTerminal(t[i]) <==> i == |t| - 1)
  {
  }

  /** The text of each exception of `generate`. */
  predicate IsTextOf(text: string, f: Failure) {
    && (f == Backend(NoContext) ==> text == "Session context is null")
    && (f == Backend(PromptEval) ==> text == "llama_decode failed during prompt evaluation")
    && (f == Backend(Generation) ==> text == "llama_decode failed during token generation")
    && (f == MemoryFull(PromptEval) ==> text == "KV Cache full during prompt evaluation")
    && (f == MemoryFull(Generation) ==> text == "KV Cache full during token generation")
  }

  lemma MessageIsText(f: Failure)
    ensures IsTextOf(Message(f), f)
  {
  }

  /** What a client is told: any number of tokens, and then how its task ended. */
  predicate Tells(events: seq<TaskEvent>, pieces: seq<Text>, ending: Ending) {
    events != [] && (forall i :: 0 <= i < |events| - 1 ==> events[i].OnToken?) &&
    var last := events[|events| - 1];
    (last.OnComplete? <==> ending.Finished?) &&
    match ending
    case NotFound => events == [OnError("Session not found")]
    case Finished(_) => last == OnComplete(|pieces|)
    case Crashed(f) => last.OnError? && IsTextOf(last.message, f)
    case Refused => last == OnError("Internal server error")
  }

  lemma TraceTells(pieces: seq<Text>, ending: Ending)
    requires Fits(pieces, ending)
    ensures Tells(Trace(pieces, ending), pieces, ending)
  {
    hide Streamed, Flushed, Delivered, Serialises;
    TraceEndsOnce(pieces, ending);
  }

  /** What the token callback of a task does with the piece of iteration `k`. */
  function ReplyTo(world: World, k: nat): Reply {
    if Serialises(world.piece(world.sample(k))) then Continue else Throw
  }

  /** The plan of the generation of a task. */
  function TaskPlan(world: World, nCtx: nat, max: int): Plan
    requires nCtx >= 1
  {
    Plan(world, Truncate(world.prompt, nCtx), nCtx, max, true, 0, (k: nat) => ReplyTo(world, k))
  }

  /** The callback throws exactly if some sampled piece cannot be serialised, and that is
      then the last one. */
  lemma ThrowsExactly(p: Plan)
    requires p.hasCallback && p.base == 0 && forall k: nat :: p.reply(k) == ReplyTo(p.world, k)
    ensures var ps := Pieces(p, Tokens(p));
      !TheExit(p).Stopped? &&
      (TheExit(p).Threw? <==> !AllSerialise(ps)) &&
      (TheExit(p).Threw? ==> ps != [] && !Serialises(ps[|ps| - 1])) &&
      (ps != [] ==> AllSerialise(ps[..|ps| - 1]))
  {
    hide Serialises;
    var n: nat := Iterations(p);
    var ps := Pieces(p, Tokens(p));
    forall k: nat | k < n ensures Serialises(p.world.piece(p.world.sample(k))) {
      assert Goes(p, k);
    }
    assert forall k: nat :: k < Tokens(p) ==> ps[k] == p.world.piece(p.world.sample(k));
    if TheExit(p).Threw? { assert ps[n] in ps; }
    assert Tokens(p) == n + 1 && !TheExit(p).Threw? ==> p.ReplyAt(n) != Throw;
  }

  /** The token callback: `threw` when the exception of the client's callback leaves it. */
  method OnPiece(filter: Filter, piece: Text, ghost pieces: seq<Text>) returns (threw: bool)
    requires filter.Valid() && filter.accepts == IsUtf8 && filter.fed == Cleaned(pieces) && AllSerialise(pieces)
    modifies filter
    ensures threw <==> !Serialises(piece)
    ensures filter.emitted == Accepted(Emits(Fed(Cleaned(pieces + [piece])).pieces), IsUtf8)
    ensures old(filter.emitted) <= filter.emitted
    ensures !threw ==> filter.Valid() && filter.fed == Cleaned(pieces + [piece])
  {
    hide Sanitized, Filter.Valid, IsUtf8;
    ThrowsAtThePiece(pieces, piece);
    var validToken := SanitizeUtf8(piece);
    assert Cleaned(pieces + [piece]) == Cleaned(pieces) + [validToken];
    threw := filter.Feed(validToken);
  }

  /** The token callback of a task, applied to every piece in order until it throws. */
  method FilterPieces(received: seq<Text>, filter: Filter) returns (threw: bool)
    requires filter.Valid() && filter.accepts == IsUtf8 && filter.fed == []
    requires received != [] ==> AllSerialise(received[..|received| - 1])
    modifies filter
    ensures threw <==> !AllSerialise(received)
    ensures TokenEvents(filter.emitted) == if threw then Delivered(received) else Streamed(received)
    ensures !threw ==> filter.Valid() && filter.fed == Cleaned(received)
  {
    hide Serialises, Filter.Valid, IsUtf8, Accepted, Fed;
    FilterStart(filter);
    for i := 0 to |received|
      invariant filter.Valid() && filter.fed == Cleaned(received[..i]) && AllSerialise(received[..i])
    {
      assert received[..i + 1] == received[..i] + [received[i]];
      threw := OnPiece(filter, received[i], received[..i]);
      if threw {
        assert received[i] in received && i == |received| - 1 && received[..i + 1] == received;
        return;
      }
    }
    assert received[..|received|] == received;
    FilterEmitted(filter);
    threw := false;
  }

  lemma FilterStart(filter: Filter)
    requires filter.Valid() && filter.fed == []
    ensures filter.fed == Cleaned([])
  {
  }

  lemma FilterEmitted(filter: Filter)
    requires filter.Valid()
    ensures filter.emitted == Emits(Fed(filter.fed).pieces)
  {
  }

  /** The flush after a generation whose pieces could all be serialised never throws. */
  method FlushFiltered(ghost pieces: seq<Text>, filter: Filter)
    requires filter.Valid() && filter.accepts == IsUtf8 && filter.fed == Cleaned(pieces) && AllSerialise(pieces)
    modifies filter
    ensures TokenEvents(filter.emitted) == Flushed(pieces)
  {
    hide IsUtf8, Filter.Valid, Emitted, Cleaned, Fed;
    ThrowsAtThePiece(pieces, []);
    var threw := filter.Flush();
  }

  /** Runs a task. The filter never sees what generation does, and generation sees of the
      filter only whether the callback throws, so the pieces are filtered after they are
      collected, in order; `FilterPieces` throws where `ReplyTo` said so. */
  method ProcessTask(session: Session?, world: World, max: int, log: Logger)
      returns (events: seq<TaskEvent>, ghost pieces: seq<Text>, ghost ending: Ending)
    requires log.Valid() && (session != null && session.ctx != null ==> session.ctx.nCtx >= 1)
    modifies session, if session == null then null else session.ctx, log
    ensures log.Valid() && events == Trace(pieces, ending) && Fits(pieces, ending) && Tells(events, pieces, ending)
    ensures session == null <==> ending == NotFound
    ensures session != null && session.ctx != null && !world.fault(0) ==>
      var p := TaskPlan(world, session.ctx.nCtx, max);
      pieces == Pieces(p, Tokens(p)) &&
      (TheExit(p).DecodeFailed? <==> ending.Crashed?) &&
      (TheExit(p).Threw? <==> ending.Refused?) &&
      (ending.Finished? ==> ending.tokens == Tokens(p))
    ensures session != null && (session.ctx == null || world.fault(0)) ==> ending.Crashed? && pieces == []
    ensures session != null && session.ctx != null && ending.Crashed? ==>
      var phase := if world.fault(0) then PromptEval else Generation;
      var n := if world.fault(0) then 1 else Decoded(TaskPlan(world, session.ctx.nCtx, max));
      ending.failure == FailureOf(Flag(After(old(log.Now()), Chatter(world, n))), phase) &&
      (old(log.Quiet()) && Sole(world, n) ==> IsOwnFailure(ending.failure, world, n))
    ensures session != null ==>
      session.state == match ending case Crashed(_) => ERROR case Refused => GENERATING case _ => IDLE
  {
    hide Logger.Valid, Filter.Valid, Pieces, Chatter, Cells, Tokens, TheExit, Decoded, After, Flag, Sole, Cleaned,
         TokenEvents, Truncate, Tells, IsOwnFailure, Logger.Quiet, Serialises, Reports;
    if session == null {
      TraceTells([], NotFound);
      return [OnError("Session not found")], [], NotFound;
    }
    var callback := new TokenCallback((k: nat) => ReplyTo(world, k));
    var filter := new Filter(IsUtf8);
    if session.ctx != null { ThrowsExactly(session.PlanOf(world, callback, max)); }
    var r := session.Generate(world, callback, max, log);
    pieces := callback.received;
    var threw := FilterPieces(callback.received, filter);
    match r {
    case Returned(tokens) =>
      FlushFiltered(pieces, filter);
      ending := Finished(tokens);
      events := TokenEvents(filter.emitted) + [OnComplete(tokens)];
    case Failed(failure) =>
      ending := Crashed(failure);
      events := TokenEvents(filter.emitted) + [OnError(Message(failure))];
    case CallbackThrew =>
      ending := Refused;
      events := TokenEvents(filter.emitted) + [OnError(InternalError)];
    }
    TraceTells(pieces, ending);
  }
}
