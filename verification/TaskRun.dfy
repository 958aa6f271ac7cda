/** The generation of a task piece by piece, as its worker sees it between two calls of the
    token callback, proved to be `generate` as a whole. */
module TaskRun {
  import opened Bytes
  import opened Options
  import opened Session
  import opened InferenceTask

  /** What the generation of a task is asked to do. A session without a context has
      capacity 0. */
  datatype Ask = Ask(world: World, nCtx: nat, max: int)

  /** What `generate` does next: it hands out a piece, returns, or throws in a phase. */
  datatype News = Sampled(piece: Text) | Generated | Raised(phase: Phase)

  function PlanFor(a: Ask): Plan
    requires a.nCtx >= 1
  {
    TaskPlan(a.world, a.nCtx, a.max)
  }

  /** What comes after the callback has returned for `k` pieces: first the rest of the
      iteration of the last piece, then the next iteration up to its call. */
  function NewsAfter(a: Ask, k: nat): News {
    if a.nCtx == 0 then Raised(NoContext)
    else
      var p := PlanFor(a);
      if a.world.fault(0) then Raised(PromptEval)
      else if k > 0 && Limited(p, k - 1) then Generated
      else if k > 0 && !Decodes(p, k - 1) then Raised(Generation)
      else if a.world.aborts(k) || a.world.eog(a.world.sample(k)) then Generated
      else Sampled(a.world.piece(a.world.sample(k)))
  }

  /** The tests of `generate` between two calls, in their order. */
  method Resume(a: Ask, k: nat) returns (news: News)
    ensures news == NewsAfter(a, k)
  {
    if a.nCtx == 0 { return Raised(NoContext); }
    var tokensList := a.world.prompt;
    if |tokensList| > a.nCtx - 1 {
      tokensList := tokensList[|tokensList| - (a.nCtx - 1)..];
    }
    if a.world.fault(0) { return Raised(PromptEval); }
    if k > 0 {
      if a.max > 0 && k >= a.max { return Generated; }
      var nCur := |tokensList| + (k - 1);
      if a.world.fault(k) || nCur >= a.nCtx { return Raised(Generation); }
    }
    if a.world.aborts(k) { return Generated; }
    var id := a.world.sample(k);
    if a.world.eog(id) { return Generated; }
    return Sampled(a.world.piece(id));
  }

  /** The pieces for which the callback has returned. */
  predicate Under(a: Ask, pieces: seq<Text>) {
    forall i :: 0 <= i < |pieces| ==> NewsAfter(a, i) == Sampled(pieces[i]) && Serialises(pieces[i])
  }

  /** The exceptions that `generate` throws in a phase: it reads no flag without a context. */
  predicate IsThrown(f: Failure, phase: Phase) {
    f.phase == phase && (phase == NoContext ==> f.Backend?)
  }

  /** The generation hands out these pieces and ends so. */
  predicate Ran(a: Ask, pieces: seq<Text>, ending: Ending) {
    match ending
    case NotFound => false
    case Finished(tokens) => Under(a, pieces) && tokens == |pieces| && NewsAfter(a, |pieces|) == Generated
    case Crashed(f) => Under(a, pieces) && NewsAfter(a, |pieces|).Raised? && IsThrown(f, NewsAfter(a, |pieces|).phase)
    case Refused =>
      pieces != [] && Under(a, pieces[..|pieces| - 1]) &&
      NewsAfter(a, |pieces| - 1) == Sampled(pieces[|pieces| - 1]) && !Serialises(pieces[|pieces| - 1])
  }

  lemma UnderSerialises(a: Ask, pieces: seq<Text>)
    requires Under(a, pieces)
    ensures AllSerialise(pieces)
  {
    hide NewsAfter, Serialises;
  }

  lemma RanFits(a: Ask, pieces: seq<Text>, ending: Ending)
    requires Ran(a, pieces, ending)
    ensures Fits(pieces, ending)
  {
    hide NewsAfter, Serialises;
  }

  /** After a piece, the iteration before it ran through. */
  lemma UnderGoes(a: Ask, pieces: seq<Text>, k: nat)
    requires a.nCtx >= 1 && Under(a, pieces) && k < |pieces|
    requires k + 1 < |pieces| || NewsAfter(a, |pieces|).Sampled? ||
      (NewsAfter(a, |pieces|) == Generated && !Limited(PlanFor(a), k))
    ensures Goes(PlanFor(a), k)
  {
    hide Serialises;
    assert NewsAfter(a, k) == Sampled(pieces[k]);
    assert k + 1 < |pieces| ==> NewsAfter(a, k + 1) == Sampled(pieces[k + 1]);
  }

  /** How an exit of `generate` ends a task. */
  predicate EndsAs(e: Exit, ending: Ending) {
    match e
    case Threw => ending.Refused?
    case DecodeFailed => ending.Crashed? && ending.failure.phase == Generation
    case Stopped => false
    case _ => ending.Finished?
  }

  /** The iteration in which the generation ends. */
  function LastIteration(a: Ask, pieces: seq<Text>, ending: Ending): int
    requires a.nCtx >= 1
  {
    if ending.Finished? && (pieces == [] || !Limited(PlanFor(a), |pieces| - 1)) then |pieces| else |pieces| - 1
  }

  lemma RanStops(a: Ask, pieces: seq<Text>, ending: Ending)
    requires a.nCtx >= 1 && !a.world.fault(0) && Ran(a, pieces, ending)
    ensures var p, n := PlanFor(a), LastIteration(a, pieces, ending);
      n >= 0 && !Goes(p, n) && (forall i :: 0 <= i < n ==> Goes(p, i)) && EndsAs(ExitOf(p, n), ending)
    ensures var p, n := PlanFor(a), LastIteration(a, pieces, ending);
      |pieces| == if ExitOf(p, n).Aborted? || ExitOf(p, n).EndOfGeneration? then n else n + 1
  {
    hide Serialises;
    var n := LastIteration(a, pieces, ending);
    var front := if ending.Refused? then pieces[..|pieces| - 1] else pieces;
    forall i | 0 <= i < n ensures Goes(PlanFor(a), i) { UnderGoes(a, front, i); }
    if !ending.Refused? && n < |pieces| { assert NewsAfter(a, n) == Sampled(pieces[n]); }
  }

  lemma RanPieces(a: Ask, pieces: seq<Text>, ending: Ending)
    requires a.nCtx >= 1 && Ran(a, pieces, ending)
    ensures pieces == Pieces(PlanFor(a), |pieces|)
  {
    hide Serialises;
    forall i | 0 <= i < |pieces| ensures pieces[i] == a.world.piece(a.world.sample(i)) {
      assert NewsAfter(a, i) == Sampled(pieces[i]);
    }
  }

  /** Piece by piece, a generation is what `generate` is as a whole: it hands out the same
      pieces and takes the same exit. */
  lemma RanIsGenerate(a: Ask, pieces: seq<Text>, ending: Ending)
    requires a.nCtx >= 1 && !a.world.fault(0)
    ensures var p := PlanFor(a);
      Ran(a, pieces, ending) <==>
        pieces == Pieces(p, Tokens(p)) && EndsAs(TheExit(p), ending) && Fits(pieces, ending)
  {
    hide Goes, NewsAfter, Serialises, Ran, Fits, EndsAs, Pieces, ExitOf;
    var p := PlanFor(a);
    if Ran(a, pieces, ending) {
      RanStops(a, pieces, ending);
      IterationsAreUnique(p, LastIteration(a, pieces, ending));
      RanPieces(a, pieces, ending);
      RanFits(a, pieces, ending);
    }
    if pieces == Pieces(p, Tokens(p)) && EndsAs(TheExit(p), ending) && Fits(pieces, ending) {
      GenerateRuns(a, ending);
    }
  }

  /** A generation that cannot start hands out nothing. */
  lemma RanNothing(a: Ask, pieces: seq<Text>, ending: Ending)
    requires (a.nCtx == 0 || a.world.fault(0)) && Ran(a, pieces, ending)
    ensures pieces == [] && ending.Crashed?
    ensures if a.nCtx == 0 then ending.failure == Backend(NoContext) else ending.failure.phase == PromptEval
  {
    hide Serialises;
    var k: nat := if pieces == [] then 0 else |pieces| - 1;
    assert NewsAfter(a, k).Raised?;
  }

  lemma GenerateRuns(a: Ask, ending: Ending)
    requires a.nCtx >= 1 && !a.world.fault(0)
    requires var p := PlanFor(a); EndsAs(TheExit(p), ending) && Fits(Pieces(p, Tokens(p)), ending)
    ensures Ran(a, Pieces(PlanFor(a), Tokens(PlanFor(a))), ending)
  {
    hide Serialises;
    var p := PlanFor(a);
    var n: nat, pieces := Iterations(p), Pieces(p, Tokens(p));
    forall i | 0 <= i < |pieces| ensures NewsAfter(a, i) == Sampled(pieces[i]) {
      assert i < n ==> Goes(p, i);
      assert i > 0 ==> Goes(p, i - 1);
    }
    assert n > 0 ==> Goes(p, n - 1);
    var front := if ending.Refused? then pieces[..|pieces| - 1] else pieces;
    assert AllSerialise(front);
    forall i | 0 <= i < |front| ensures Serialises(front[i]) { assert front[i] in front; }
  }

  /** Something ends the task's generation at `t` pieces: its limit, the room that the prompt
      leaves in the cache, an abort or an end token after them, or that the last one is not
      valid UTF-8 when cleaned or finds a fault. */
  predicate Ends(a: Ask, t: nat) {
    || (a.max > 0 && t == a.max)
    || t == a.nCtx - (if |a.world.prompt| < a.nCtx then |a.world.prompt| else a.nCtx - 1) + 1
    || a.world.aborts(t)
    || a.world.eog(a.world.sample(t))
    || (t > 0 && (!Serialises(a.world.piece(a.world.sample(t - 1))) || a.world.fault(t)))
  }

  /** A generation hands out the texts of the sampled tokens, in order, up to the least number
      at which something ends it. It ends in the callback's exception exactly if the last
      piece is invalid, and in a failure exactly if it is not, is within the limit, and finds
      no room or a fault. */
  lemma RanToTheLeast(a: Ask, pieces: seq<Text>, ending: Ending)
    requires a.nCtx >= 1 && !a.world.fault(0) && Ran(a, pieces, ending)
    ensures Ends(a, |pieces|) && forall t: nat :: t < |pieces| ==> !Ends(a, t)
    ensures forall i :: 0 <= i < |pieces| ==> pieces[i] == a.world.piece(a.world.sample(i))
    ensures ending.Refused? <==> pieces != [] && !Serialises(pieces[|pieces| - 1])
    ensures ending.Crashed? ==> ending.failure.phase == Generation
    ensures ending.Crashed? <==>
      pieces != [] && Serialises(pieces[|pieces| - 1]) && !(a.max > 0 && |pieces| == a.max) &&
      (a.world.fault(|pieces|) ||
       |pieces| == a.nCtx - (if |a.world.prompt| < a.nCtx then |a.world.prompt| else a.nCtx - 1) + 1)
  {
    hide Serialises, Ran, Tokens, TheExit, Goes;
    var p := PlanFor(a);
    RanIsGenerate(a, pieces, ending);
    TokensAreLeast(p);
    ExitIsOfLastToken(p);
    TruncatedLength(a.world.prompt, a.nCtx);
    forall t: nat ensures Ends(a, t) <==> Cuts(p, t) {
      assert t > 0 ==> p.ReplyAt(t - 1) == ReplyTo(a.world, t - 1);
    }
    assert pieces != [] ==> p.ReplyAt(|pieces| - 1) == ReplyTo(a.world, |pieces| - 1);
  }

  lemma TruncatedLength(tokens: seq<Token>, nCtx: nat)
    requires nCtx >= 1
    ensures |Truncate(tokens, nCtx)| == if |tokens| < nCtx then |tokens| else nCtx - 1
  {
  }
}
