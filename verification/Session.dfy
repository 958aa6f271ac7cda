/** One generation over a bounded KV cache. llama.cpp, the sampler and the other threads
    are an arbitrary `World`; the cache refuses positions from its capacity on. */
module Session {
  import opened Bytes
  import opened LlamaLogger
  import opened Options
  import opened SharedLog

  type Token = int

  /** What a call of the token callback does. */
  datatype Reply = Continue | Stop | Throw

  /** Everything a generation does not decide itself. Decode number 0 evaluates the prompt
      and decode number k + 1 the token of iteration k. The log is shared: between its own
      fragments come those of other workers, and their reads of the flag. */
  datatype World = World(
    prompt: seq<Token>,              // the tokenised prompt
    sample: nat -> Token,            // the token sampled in each iteration
    eog: Token -> bool,              // whether a token ends the generation
    piece: Token -> Text,            // the text of a token
    aborts: nat -> bool,             // whether abort() runs before an iteration's check
    fault: nat -> bool,              // whether a decode fails although there is room
    worker: nat,                     // who the generation is in the log
    chatter: nat -> seq<LogEvent>)   // what happens to the log up to each decode, and the read after a failed one

  datatype SessionState = IDLE | GENERATING | ERROR

  datatype Phase = NoContext | PromptEval | Generation

  datatype Failure = MemoryFull(phase: Phase) | Backend(phase: Phase)

  /** How `generate` ends: metrics, one of its own exceptions, or that of the callback. */
  datatype Result = Returned(tokens: nat) | Failed(failure: Failure) | CallbackThrew

  /** The exception a failed decode becomes, given what the read of the slot flag said. */
  function FailureOf(slot: bool, phase: Phase): Failure {
    if slot then MemoryFull(phase) else Backend(phase)
  }

  /** A filled slot of the KV cache, and whether its logits were asked for. */
  datatype Cell = Cell(pos: int, token: Token, logits: bool)

  // ---- The specification of the loop -------------------------------------------------------

  /** The inputs of a run: the prompt after truncation, and the callback if there is one,
      which was called `base` times before. */
  datatype Plan = Plan(world: World, prompt: seq<Token>, nCtx: nat, max: int,
                       hasCallback: bool, base: nat, reply: nat -> Reply)
  {
    /** What the callback does with the token of iteration `k`. */
    function ReplyAt(k: nat): Reply {
      if hasCallback then reply(base + k) else Continue
    }
  }

  /** The last tokens of a prompt that leave one slot free. */
  function Truncate(tokens: seq<Token>, nCtx: nat): (r: seq<Token>)
    requires nCtx >= 1
    ensures |r| <= nCtx - 1
    ensures exists dropped :: dropped + r == tokens && (|tokens| <= nCtx - 1 ==> dropped == [])
    ensures |tokens| > nCtx - 1 ==> |r| == nCtx - 1
  {
    var k := if |tokens| > nCtx - 1 then |tokens| - (nCtx - 1) else 0;
    assert tokens[..k] + tokens[k..] == tokens;
    tokens[k..]
  }

  predicate Limited(p: Plan, k: nat) {
    p.max > 0 && k + 1 >= p.max
  }

  /** Decode number `k + 1`, of one token at position `|prompt| + k`, succeeds. */
  predicate Decodes(p: Plan, k: nat) {
    !p.world.fault(k + 1) && |p.prompt| + k < p.nCtx
  }

  /** Iteration `k` runs through and the loop goes on. */
  predicate Goes(p: Plan, k: nat) {
    && !p.world.aborts(k)
    && !p.world.eog(p.world.sample(k))
    && !Limited(p, k)
    && p.ReplyAt(k) == Continue
    && Decodes(p, k)
  }

  function IterationsFrom(p: Plan, k: nat): (n: nat)
    ensures n >= k && !Goes(p, n) && forall i :: k <= i < n ==> Goes(p, i)
    decreases p.nCtx - |p.prompt| - k
  {
    if Goes(p, k) then IterationsFrom(p, k + 1) else k
  }

  /** How many iterations run through. */
  function Iterations(p: Plan): nat {
    IterationsFrom(p, 0)
  }

  datatype Exit = Aborted | EndOfGeneration | LimitReached | Stopped | Threw | DecodeFailed

  /** Which test ends the loop in iteration `n`. */
  function ExitOf(p: Plan, n: nat): Exit {
    if p.world.aborts(n) then Aborted
    else if p.world.eog(p.world.sample(n)) then EndOfGeneration
    else if p.ReplyAt(n) == Throw then Threw
    else if Limited(p, n) then LimitReached
    else if p.ReplyAt(n) == Stop then Stopped
    else DecodeFailed
  }

  function TheExit(p: Plan): Exit {
    ExitOf(p, Iterations(p))
  }

  /** How many tokens are generated, and handed to the callback. */
  function Tokens(p: Plan): nat {
    if TheExit(p).Aborted? || TheExit(p).EndOfGeneration? then Iterations(p) else Iterations(p) + 1
  }

  function Pieces(p: Plan, n: nat): (r: seq<Text>)
    ensures |r| == n
  {
    seq(n, i requires 0 <= i < n => p.world.piece(p.world.sample(i)))
  }

  function PromptCells(tokens: seq<Token>): (r: seq<Cell>)
    ensures |r| == |tokens|
  {
    seq(|tokens|, i requires 0 <= i < |tokens| => Cell(i, tokens[i], i == |tokens| - 1))
  }

  /** How many decodes there are, that of the prompt included. */
  function Decoded(p: Plan): nat {
    if TheExit(p).DecodeFailed? then Iterations(p) + 2 else Iterations(p) + 1
  }

  function NextCell(p: Plan, k: nat): Cell {
    Cell(|p.prompt| + k, p.world.sample(k), true)
  }

  /** The cache after the prompt and `n` generated tokens. */
  function Cells(p: Plan, n: nat): seq<Cell> {
    PromptCells(p.prompt) + seq(n, k requires 0 <= k < n => NextCell(p, k))
  }

  /** What happens to the log up to the first `n` decodes. */
  function Chatter(w: World, n: nat): seq<LogEvent> {
    if n == 0 then [] else Chatter(w, n - 1) + w.chatter(n - 1)
  }

  /** What iteration `k` hands to the callback. */
  function Handed(p: Plan, k: nat, e: Option<Exit>): seq<Text> {
    if e == Some(Aborted) || e == Some(EndOfGeneration) then [] else [p.world.piece(p.world.sample(k))]
  }

  /** Where a run stands after `k` iterations, started with the log at `start` and with `received`. */
  ghost predicate Reaches(p: Plan, k: nat, start: LogState, received: seq<Text>,
                          cells: seq<Cell>, now: LogState, receivedNow: seq<Text>)
  {
    && Iterations(p) == IterationsFrom(p, k)
    && cells == Cells(p, k)
    && now == After(start, Chatter(p.world, k + 1))
    && receivedNow == if p.hasCallback then received + Pieces(p, k) else received
  }

  lemma ReachesNext(p: Plan, k: nat, start: LogState, received: seq<Text>,
                    cells: seq<Cell>, now: LogState, receivedNow: seq<Text>)
    requires Reaches(p, k, start, received, cells, now, receivedNow) && Goes(p, k)
    ensures Reaches(p, k + 1, start, received, cells + [NextCell(p, k)], After(now, p.world.chatter(k + 1)),
      if p.hasCallback then receivedNow + [p.world.piece(p.world.sample(k))] else receivedNow)
  {
    hide Goes, After;
    assert Cells(p, k + 1) == Cells(p, k) + [NextCell(p, k)];
    assert Pieces(p, k + 1) == Pieces(p, k) + [p.world.piece(p.world.sample(k))];
    AfterAppend(start, Chatter(p.world, k + 1), p.world.chatter(k + 1));
    Assoc(received, Pieces(p, k), [p.world.piece(p.world.sample(k))]);
  }

  lemma GoesHasRoom(p: Plan, k: nat)
    requires Goes(p, k)
    ensures |p.prompt| + k < p.nCtx
  {
  }

  lemma ChatterOne(w: World)
    ensures Chatter(w, 1) == w.chatter(0)
  {
    assert Chatter(w, 1) == Chatter(w, 0) + w.chatter(0);
  }

  lemma ReachesStart(p: Plan, start: LogState, received: seq<Text>)
    ensures Reaches(p, 0, start, received, PromptCells(p.prompt), After(start, Chatter(p.world, 1)), received)
  {
    assert Cells(p, 0) == PromptCells(p.prompt);
    assert received + Pieces(p, 0) == received;
  }

  lemma ReachesEnd(p: Plan, n: nat, start: LogState, received: seq<Text>,
                   cells: seq<Cell>, now: LogState, receivedNow: seq<Text>)
    requires Reaches(p, n, start, received, cells, now, receivedNow) && !Goes(p, n)
    ensures n == Iterations(p) && cells == Cells(p, n) && now == After(start, Chatter(p.world, n + 1))
    ensures After(now, p.world.chatter(n + 1)) == After(start, Chatter(p.world, n + 2))
    ensures p.hasCallback ==> receivedNow + Handed(p, n, Some(ExitOf(p, n))) == received + Pieces(p, Tokens(p))
  {
    AfterAppend(start, Chatter(p.world, n + 1), p.world.chatter(n + 1));
    var last := p.world.piece(p.world.sample(n));
    assert Pieces(p, n + 1) == Pieces(p, n) + [last];
    Assoc(received, Pieces(p, n), [last]);
    assert received + Pieces(p, n) + [] == received + Pieces(p, n);
  }

  // ---- What the specification promises ------------------------------------------------------

  /** The number of iterations is the only one at which the loop can first stop. */
  lemma IterationsAreUnique(p: Plan, n: nat)
    requires !Goes(p, n) && forall k :: 0 <= k < n ==> Goes(p, k)
    ensures n == Iterations(p)
  {
    var m: nat := Iterations(p);
    assert m < n ==> Goes(p, m);
  }

  /** The bounds on a generation: by the room in the cache, by `max_tokens`, and by an
      abort that comes before iteration `j`; no token that ends the generation counts. */
  lemma TokensAreBounded(p: Plan)
    requires |p.prompt| < p.nCtx
    ensures Tokens(p) <= p.nCtx - |p.prompt| + 1
    ensures p.max > 0 ==> Tokens(p) <= p.max
    ensures forall j: nat :: p.world.aborts(j) ==> Tokens(p) <= j
    ensures forall k: nat :: k < Tokens(p) ==> !p.world.eog(p.world.sample(k))
    ensures forall k: nat :: k + 1 < Tokens(p) ==> p.ReplyAt(k) == Continue
  {
    var n := Iterations(p);
    if n > 0 { assert Goes(p, n - 1); }
    forall j: nat | p.world.aborts(j) ensures Tokens(p) <= j {
      assert j < n ==> Goes(p, j);
    }
    forall k: nat | k < Tokens(p) ensures !p.world.eog(p.world.sample(k)) {
      if k < n { assert Goes(p, k); }
    }
    forall k: nat | k + 1 < Tokens(p) ensures p.ReplyAt(k) == Continue {
      assert Goes(p, k);
    }
  }

  /** Something ends the generation at `t` tokens: the limit, the room in the cache, an abort
      or an end token after them, or what the callback or the decode of the last one does. */
  predicate Cuts(p: Plan, t: nat) {
    || (p.max > 0 && t == p.max)
    || t == p.nCtx - |p.prompt| + 1
    || p.world.aborts(t)
    || p.world.eog(p.world.sample(t))
    || (t > 0 && (p.ReplyAt(t - 1) != Continue || p.world.fault(t)))
  }

  /** The number of tokens is the least at which something ends the generation. */
  lemma TokensAreLeast(p: Plan)
    requires |p.prompt| < p.nCtx
    ensures Cuts(p, Tokens(p)) && forall t: nat :: t < Tokens(p) ==> !Cuts(p, t)
  {
    var n: nat := Iterations(p);
    if n > 0 { assert Goes(p, n - 1); }
    forall t: nat | t < Tokens(p) ensures !Cuts(p, t) {
      assert t < n ==> Goes(p, t);
      assert t > 0 ==> Goes(p, t - 1);
    }
  }

  /** The callback's exception ends it exactly if the last token made the callback throw; a
      failed decode exactly if the callback went on, the limit was not reached, and the last
      token found no room or a fault; in every other case it returns. */
  lemma ExitIsOfLastToken(p: Plan)
    requires |p.prompt| < p.nCtx
    ensures var t := Tokens(p);
      (TheExit(p).Threw? <==> t > 0 && p.ReplyAt(t - 1) == Throw) &&
      (TheExit(p).DecodeFailed? <==>
         t > 0 && p.ReplyAt(t - 1) == Continue && !(p.max > 0 && t == p.max) &&
         (t == p.nCtx - |p.prompt| + 1 || p.world.fault(t)))
  {
    var n: nat := Iterations(p);
    if n > 0 { assert Goes(p, n - 1); }
    assert !Goes(p, n);
  }

  /** A limit within the room that nothing else undercuts is met exactly, and the generation
      returns. */
  lemma LimitIsMet(p: Plan)
    requires |p.prompt| < p.nCtx && FaultFree(p) && 0 < p.max <= p.nCtx - |p.prompt| + 1
    requires forall k: nat :: k < p.max ==> Proceeds(p, k)
    ensures Tokens(p) == p.max && !TheExit(p).DecodeFailed? && !TheExit(p).Threw?
  {
    TokensAreLeast(p);
    ExitIsOfLastToken(p);
    var t := Tokens(p);
    assert Cuts(p, p.max);
    assert t < p.max ==> Proceeds(p, t);
    assert 0 < t <= p.max ==> Proceeds(p, t - 1);
    assert Proceeds(p, p.max - 1);
  }

  /** The cache is filled densely: slot `i` holds position `i`, prompt first, and token
      number `k` of the generated ones (from 0) sits at position `|prompt| + k` only. */
  lemma PositionsAreDense(p: Plan)
    requires |p.prompt| < p.nCtx
    ensures var c := Cells(p, Iterations(p));
      |c| <= p.nCtx &&
      (forall i :: 0 <= i < |c| ==> c[i].pos == i) &&
      (forall i :: 0 <= i < |p.prompt| ==> c[i].token == p.prompt[i]) &&
      (forall k: nat :: k < Iterations(p) ==> c[|p.prompt| + k] == Cell(|p.prompt| + k, p.world.sample(k), true)) &&
      (forall i :: 0 <= i < |c| ==> (c[i].logits <==> i >= |p.prompt| - 1))
  {
    var n := Iterations(p);
    if n > 0 { assert Goes(p, n - 1); }
  }

  ghost predicate FaultFree(p: Plan) {
    forall k: nat :: !p.world.fault(k)
  }

  /** Neither an abort, nor the model, nor the callback ends the loop in iteration `k`. */
  predicate Proceeds(p: Plan, k: nat) {
    !p.world.aborts(k) && !p.world.eog(p.world.sample(k)) && p.ReplyAt(k) == Continue
  }

  /** Without faults, a generation ends in an exception exactly when `max_tokens` is no
      limit, or beyond the room, and nothing else stops it before the cache is full. It
      then delivers one token for each free slot and one more. */
  lemma FailsExactlyWhenUnstopped(p: Plan)
    requires |p.prompt| < p.nCtx && FaultFree(p)
    ensures var room := p.nCtx - |p.prompt|;
      TheExit(p).DecodeFailed? <==> (p.max <= 0 || p.max > room + 1) && forall k: nat :: k <= room ==> Proceeds(p, k)
    ensures TheExit(p).DecodeFailed? ==>
      Tokens(p) == p.nCtx - |p.prompt| + 1 && |Cells(p, Iterations(p))| == p.nCtx
  {
    var n: nat := Iterations(p);
    var room: nat := p.nCtx - |p.prompt|;
    if n > 0 { assert Goes(p, n - 1); }
    if TheExit(p).DecodeFailed? {
      assert !Decodes(p, n) && n == room;
      forall k: nat | k <= room ensures Proceeds(p, k) {
        assert k < n ==> Goes(p, k);
      }
    }
    if (p.max <= 0 || p.max > room + 1) && forall k: nat :: k <= room ==> Proceeds(p, k) {
      forall k: nat | k < room ensures Goes(p, k) {
        assert Proceeds(p, k);
      }
      IterationsAreUnique(p, room);
      assert Proceeds(p, room);
    }
  }

  /** A fault-free run of this prompt, capacity and limit. */
  ghost predicate Asks(p: Plan, prompt: seq<Token>, nCtx: nat, max: int) {
    p.prompt == prompt && p.nCtx == nCtx && p.max == max && FaultFree(p)
  }

  /** What a caller can check: a prompt is safe from that exception, whatever the model,
      the client and the other threads do, exactly if `max_tokens` is positive and at most
      the room in the cache and one more. */
  lemma SafeExactlyWithinRoom(prompt: seq<Token>, nCtx: nat, max: int)
    requires |prompt| < nCtx
    ensures (forall p: Plan :: Asks(p, prompt, nCtx, max) ==> !TheExit(p).DecodeFailed?) <==>
      0 < max <= nCtx - |prompt| + 1
  {
    forall p: Plan | Asks(p, prompt, nCtx, max) && 0 < max <= nCtx - |prompt| + 1
      ensures !TheExit(p).DecodeFailed?
    {
      FailsExactlyWhenUnstopped(p);
    }
    if max <= 0 || max > nCtx - |prompt| + 1 {
      var world := World(prompt, (k: nat) => 0, (t: Token) => false, (t: Token) => [],
                         (k: nat) => false, (k: nat) => false, 0, (k: nat) => []);
      var p := Plan(world, prompt, nCtx, max, false, 0, (k: nat) => Continue);
      assert FaultFree(p) && forall k: nat :: Proceeds(p, k);
      FailsExactlyWhenUnstopped(p);
      assert TheExit(p).DecodeFailed?;
    }
  }

  // ---- The objects ----------------------------------------------------------------------------

  class TokenCallback {
    var received: seq<Text>
    const reply: nat -> Reply

    constructor (reply: nat -> Reply)
      ensures received == [] && this.reply == reply
    {
      received := [];
      this.reply := reply;
    }

    method Call(piece: Text) returns (r: Reply)
      modifies this`received
      ensures received == old(received) + [piece] && r == reply(|old(received)|)
    {
      r := reply(|received|);
      received := received + [piece];
    }
  }

  /** The entries of a batch, as cache cells. */
  function Entries(pos: seq<int>, token: seq<Token>, logits: seq<bool>): (r: seq<Cell>)
    requires |pos| == |token| == |logits|
    ensures |r| == |pos|
  {
    seq(|pos|, i requires 0 <= i < |pos| => Cell(pos[i], token[i], logits[i]))
  }

  /** The arrays of a llama.cpp batch, allocated once and overwritten in place. */
  class LlamaBatch {
    const token: array<Token>
    const pos: array<int>
    const logits: array<bool>
    var nTokens: nat

    ghost predicate Valid()
      reads this
    {
      token != pos && token.Length == pos.Length == logits.Length && nTokens <= token.Length
    }

    ghost function Content(): seq<Cell>
      requires Valid()
      reads this, token, pos, logits
    {
      Entries(pos[..nTokens], token[..nTokens], logits[..nTokens])
    }

    constructor (capacity: nat)
      ensures Valid() && token.Length == capacity && nTokens == 0
      ensures fresh(token) && fresh(pos) && fresh(logits)
    {
      token := new Token[capacity];
      pos := new int[capacity];
      logits := new bool[capacity];
      nTokens := 0;
    }

    /** Fills the batch with the prompt; only the last token asks for logits. */
    method Load(tokens: seq<Token>)
      requires Valid() && |tokens| <= token.Length
      modifies this, token, pos, logits
      ensures Valid() && Content() == PromptCells(tokens)
    {
      nTokens := 0;
      for i := 0 to |tokens|
        invariant nTokens == i
        invariant forall j :: 0 <= j < i ==> token[j] == tokens[j] && pos[j] == j && !logits[j]
      {
        token[i] := tokens[i];
        pos[i] := i;
        logits[i] := false;
        nTokens := nTokens + 1;
      }
      if nTokens > 0 { logits[nTokens - 1] := true; }
    }

    /** Reuses the first slot for one generated token. */
    method LoadOne(id: Token, nCur: int)
      requires Valid() && token.Length >= 1
      modifies this, token, pos, logits
      ensures Valid() && Content() == [Cell(nCur, id, true)]
    {
      nTokens := 0;
      token[0] := id;
      pos[0] := nCur;
      logits[0] := true;
      nTokens := 1;
    }
  }

  /** The KV cache of a llama.cpp context. */
  class LlamaContext {
    const nCtx: nat
    var cells: seq<Cell>

    constructor (nCtx: nat)
      ensures this.nCtx == nCtx && cells == []
    {
      this.nCtx := nCtx;
      cells := [];
    }

    method Clear()
      modifies this`cells
      ensures cells == []
    {
      cells := [];
    }

    /** Stores the entries of a batch, or refuses all of them: always when some position
        is beyond the cache, and otherwise when the backend has a fault. */
    method Decode(batch: LlamaBatch, fault: bool) returns (rc: int)
      requires batch.Valid()
      modifies this`cells
      ensures rc == 0 <==> !fault && forall c :: c in batch.Content() ==> c.pos < nCtx
      ensures cells == if rc == 0 then old(cells) + batch.Content() else old(cells)
    {
      var added: seq<Cell> := [];
      var fits := true;
      for i := 0 to batch.nTokens
        invariant |added| == i
        invariant forall j :: 0 <= j < i ==> added[j] == Cell(batch.pos[j], batch.token[j], batch.logits[j])
        invariant fits <==> forall c :: c in added ==> c.pos < nCtx
      {
        added := added + [Cell(batch.pos[i], batch.token[i], batch.logits[i])];
        fits := fits && batch.pos[i] < nCtx;
      }
      assert added == batch.Content();
      if fault || !fits { return 1; }
      cells := cells + added;
      return 0;
    }
  }

  /** With the log clear at the start, and to itself, a generation whose decode failed is
      told whether its own decodes reported. */
  lemma SoleIsOwn(s: LogState, world: World)
    requires Past(s)
    ensures Clear(s) ==> forall n: nat :: Sole(world, n) ==>
      (Flag(After(s, Chatter(world, n))) <==> Reports(SaidBy(Chatter(world, n), world.worker)))
  {
    hide Past, Clear, Flag, Reports, Chatter, Alone;
    if Clear(s) {
      forall n: nat | Sole(world, n)
        ensures Flag(After(s, Chatter(world, n))) <==> Reports(SaidBy(Chatter(world, n), world.worker))
      {
        AloneIsOwn(s, Chatter(world, n), world.worker);
      }
    }
  }

  /** No other worker uses the log up to the first `n` decodes. */
  predicate Sole(world: World, n: nat) {
    Alone(Chatter(world, n), world.worker)
  }

  /** The exception after `n` decodes is the one that the generation's own decodes call for. */
  predicate IsOwnFailure(f: Failure, world: World, n: nat) {
    f.MemoryFull? <==> Reports(SaidBy(Chatter(world, n), world.worker))
  }

  /** Two generations whose decodes fail can throw each other's exception. */
  lemma ExceptionsCross(s: LogState, a: nat, b: nat, phase: Phase)
    requires Past(s) && a != b
    ensures FailureOf(Flag(After(s, [Report(b)])), phase) == MemoryFull(phase)
    ensures FailureOf(Flag(After(s, [Report(b), Asked(a)])), phase) == Backend(phase)
    ensures !Reports(SaidBy([Report(b)], a)) && Reports(SaidBy([Report(b), Asked(a)], b))
  {
    AskerIsToldOfAnother(s, a, b);
    ReporterIsToldOfNone(s, a, b);
  }

  class Session {
    var state: SessionState
    var abortFlag: bool
    const ctx: LlamaContext?

    constructor (nCtx: nat)
      requires nCtx >= 1
      ensures state == IDLE && !abortFlag && ctx != null && fresh(ctx) && ctx.nCtx == nCtx
    {
      state, abortFlag := IDLE, false;
      ctx := new LlamaContext(nCtx);
    }

    method Abort()
      modifies this`abortFlag
      ensures abortFlag
    {
      abortFlag := true;
    }

    ghost function PlanOf(world: World, callback: TokenCallback?, max: int): Plan
      requires ctx != null && ctx.nCtx >= 1
      reads callback
    {
      var prompt := Truncate(world.prompt, ctx.nCtx);
      if callback == null then Plan(world, prompt, ctx.nCtx, max, false, 0, (k: nat) => Continue)
      else Plan(world, prompt, ctx.nCtx, max, true, |callback.received|, callback.reply)
    }

    /** Decides which exception a failed decode becomes. */
    method Fail(phase: Phase, log: Logger) returns (r: Result)
      requires log.Valid()
      modifies this`state, log`memorySlotError, log`readAt
      ensures log.Valid() && state == ERROR
      ensures r == Failed(FailureOf(Flag(old(log.Now())), phase))
      ensures log.Now() == old(log.Now()).Read() && log.readAt == |log.flushed| && !log.memorySlotError
    {
      state := ERROR;
      var slot := log.WasMemorySlotError();
      return Failed(FailureOf(slot, phase));
    }

    /** The body of the decode loop: `None` when the loop goes on, else the exit taken. */
    method Iterate(ghost p: Plan, k: nat, batch: LlamaBatch, nCur: int,
                   world: World, callback: TokenCallback?, max: int, log: Logger)
      returns (e: Option<Exit>)
      requires log.Valid() && ctx != null && batch.Valid() && batch.token.Length >= 1 && !abortFlag
      requires p.world == world && p.nCtx == ctx.nCtx && p.max == max && nCur == |p.prompt| + k
      requires p.hasCallback <==> callback != null
      requires callback != null ==> p.reply == callback.reply && p.base + k == |callback.received|
      modifies this`abortFlag, ctx, callback, log, batch, batch.token, batch.pos, batch.logits
      ensures log.Valid() && batch.Valid()
      ensures e == if Goes(p, k) then None else Some(ExitOf(p, k))
      ensures e.None? ==> !abortFlag
      ensures ctx.cells == old(ctx.cells) + if e.None? then [NextCell(p, k)] else []
      ensures log.Now() ==
        if e.None? || e.value.DecodeFailed? then After(old(log.Now()), world.chatter(k + 1)) else old(log.Now())
      ensures callback != null ==>
        callback.received == old(callback.received) + Handed(p, k, e)
    {
      hide Logger.Valid, LlamaBatch.Content, After, IterationsFrom;
      if world.aborts(k) { Abort(); }
      if abortFlag { return Some(Aborted); }
      var id := world.sample(k);
      if world.eog(id) { return Some(EndOfGeneration); }
      var piece := world.piece(id);
      var tokensGenerated := k + 1;
      if max > 0 && tokensGenerated >= max {
        if callback != null {
          var reply := callback.Call(piece);
          if reply == Throw { return Some(Threw); }
        }
        return Some(LimitReached);
      }
      if callback != null {
        var reply := callback.Call(piece);
        if reply == Throw { return Some(Threw); }
        if reply == Stop { return Some(Stopped); }
      }
      batch.LoadOne(id, nCur);
      var answers := Play(log, world.chatter(k + 1));
      var rc := ctx.Decode(batch, world.fault(k + 1));
      assert NextCell(p, k) in batch.Content();
      return if rc != 0 then Some(DecodeFailed) else None;
    }

    /** Truncates the prompt, loads it into a fresh batch and decodes it. */
    method EvaluatePrompt(world: World, log: Logger) returns (batch: LlamaBatch, nTokens: nat, rc: int)
      requires log.Valid() && ctx != null && ctx.nCtx >= 1 && ctx.cells == []
      modifies ctx, log
      ensures fresh(batch) && fresh(batch.token) && fresh(batch.pos) && fresh(batch.logits)
      ensures batch.Valid() && batch.token.Length >= 1
      ensures log.Valid() && log.Now() == After(old(log.Now()), world.chatter(0))
      ensures rc == 0 <==> !world.fault(0)
      ensures var prompt := Truncate(world.prompt, ctx.nCtx);
        nTokens == |prompt| && ctx.cells == if rc == 0 then PromptCells(prompt) else []
    {
      hide Logger.Valid, LlamaBatch.Content, After;
      var tokensList := world.prompt;
      var maxPromptTokens := ctx.nCtx - 1;
      if |tokensList| > maxPromptTokens {
        tokensList := tokensList[|tokensList| - maxPromptTokens..];
      }
      batch := new LlamaBatch(if |tokensList| > 1 then |tokensList| else 1);
      batch.Load(tokensList);
      var answers := Play(log, world.chatter(0));
      rc := ctx.Decode(batch, world.fault(0));
      nTokens := |tokensList|;
    }

    /** The decode loop: the exit taken and the number of tokens counted. `start` is the log
        before the prompt was evaluated. */
    method DecodeLoop(ghost p: Plan, ghost start: LogState, batch: LlamaBatch, nTokens: nat,
                      world: World, callback: TokenCallback?, max: int, log: Logger)
      returns (e: Exit, tokensGenerated: nat)
      requires log.Valid() && ctx != null && batch.Valid() && batch.token.Length >= 1 && !abortFlag
      requires ctx.cells == PromptCells(p.prompt) && nTokens == |p.prompt| < ctx.nCtx
      requires p.world == world && p.nCtx == ctx.nCtx && p.max == max && (p.hasCallback <==> callback != null)
      requires callback != null ==> p.reply == callback.reply && p.base == |callback.received|
      requires log.Now() == After(start, Chatter(world, 1))
      modifies this`abortFlag, ctx, callback, log, batch, batch.token, batch.pos, batch.logits
      ensures log.Valid()
      ensures e == TheExit(p) && tokensGenerated == Tokens(p)
      ensures ctx.cells == Cells(p, Iterations(p))
      ensures log.Now() == After(start, Chatter(world, Decoded(p)))
      ensures callback != null ==> callback.received == old(callback.received) + Pieces(p, Tokens(p))
    {
      hide Logger.Valid, LlamaBatch.Content, After, Goes, Chatter, Cells, Pieces, Reaches;
      ghost var received0 := if callback == null then [] else callback.received;
      ReachesStart(p, start, received0);
      tokensGenerated := 0;
      while true
        invariant log.Valid() && batch.Valid() && !abortFlag
        invariant Reaches(p, tokensGenerated, start, received0, ctx.cells, log.Now(),
                          if callback == null then [] else callback.received)
        invariant callback != null ==> |callback.received| == |received0| + tokensGenerated
        invariant |p.prompt| + tokensGenerated <= p.nCtx
        decreases p.nCtx - |p.prompt| - tokensGenerated
      {
        ghost var cells, now := ctx.cells, log.Now();
        ghost var received := if callback == null then [] else callback.received;
        var next := Iterate(p, tokensGenerated, batch, nTokens + tokensGenerated, world, callback, max, log);
        if next.Some? {
          ReachesEnd(p, tokensGenerated, start, received0, cells, now, received);
          e := next.value;
          break;
        }
        ReachesNext(p, tokensGenerated, start, received0, cells, now, received);
        GoesHasRoom(p, tokensGenerated);
        tokensGenerated := tokensGenerated + 1;
      }
      if e != Aborted && e != EndOfGeneration { tokensGenerated := tokensGenerated + 1; }
    }

    method Generate(world: World, callback: TokenCallback?, max: int, log: Logger) returns (r: Result)
      requires log.Valid() && (ctx != null ==> ctx.nCtx >= 1)
      modifies this`state, this`abortFlag, ctx, callback, log
      ensures log.Valid()
      ensures ctx == null ==>
        r == Failed(Backend(NoContext)) && state == ERROR && log.Now() == old(log.Now()) &&
        (callback != null ==> callback.received == old(callback.received))
      ensures ctx != null && world.fault(0) ==>
        var now := After(old(log.Now()), Chatter(world, 1));
        r == Failed(FailureOf(Flag(now), PromptEval)) && state == ERROR && ctx.cells == [] &&
        log.Now() == now.Read() && !log.memorySlotError &&
        (callback != null ==> callback.received == old(callback.received)) &&
        (old(log.Quiet()) && Sole(world, 1) ==> IsOwnFailure(r.failure, world, 1))
      ensures ctx != null && !world.fault(0) ==>
        var p := old(PlanOf(world, callback, max));
        var now := After(old(log.Now()), Chatter(world, Decoded(p)));
        ctx.cells == Cells(p, Iterations(p)) &&
        log.Now() == (if TheExit(p).DecodeFailed? then now.Read() else now) &&
        (callback != null ==> callback.received == old(callback.received) + Pieces(p, Tokens(p))) &&
        match TheExit(p)
        case Threw => r == CallbackThrew && state == GENERATING
        case DecodeFailed =>
          r == Failed(FailureOf(Flag(now), Generation)) && state == ERROR && !log.memorySlotError &&
          (old(log.Quiet()) && Sole(world, Decoded(p)) ==> IsOwnFailure(r.failure, world, Decoded(p)))
        case _ => r == Returned(Tokens(p)) && state == IDLE
    {
      hide Logger.Valid, LlamaBatch.Content, LlamaBatch.Valid, After, Iterations, TheExit, Tokens, Chatter, Cells,
           Pieces, Flag, Clear, Past, Sole, Truncate, PromptCells, Reports, Decoded, Logger.Quiet;
      if ctx == null {
        state := ERROR;
        return Failed(Backend(NoContext));
      }
      ghost var p, start := PlanOf(world, callback, max), log.Now();
      ChatterOne(world);
      QuietIsClear(log);
      SoleIsOwn(start, world);
      state := GENERATING;
      abortFlag := false;
      ctx.Clear();
      var batch, nTokens, rc := EvaluatePrompt(world, log);
      if rc != 0 {
        r := Fail(PromptEval, log);
        return;
      }
      var e, tokensGenerated := DecodeLoop(p, start, batch, nTokens, world, callback, max, log);
      if e == Threw { return CallbackThrew; }
      if e == DecodeFailed {
        r := Fail(Generation, log);
        return;
      }
      state := IDLE;
      return Returned(tokensGenerated);
    }
  }
}
