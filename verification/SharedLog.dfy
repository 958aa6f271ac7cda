/** The log of llama.cpp is one for the process: every worker's decodes write to it, and
    every worker whose decode failed reads and clears its flag. */
module SharedLog {
  import opened Bytes
  import opened LlamaLogger

  /** What worker `who` does to the log. A null text is no fragment. */
  datatype LogEvent = Said(who: nat, level: Level, text: CText) | Asked(who: nat)

  function FragmentsOf(e: LogEvent): seq<Fragment> {
    if e.Said? && e.text.CString? then [Fragment(e.level, e.text.text)] else []
  }

  /** The log after one event. */
  function Next(s: LogState, e: LogEvent): LogState {
    if e.Asked? then s.Read() else s.Hear(FragmentsOf(e))
  }

  /** The log after some events. */
  function After(s: LogState, evs: seq<LogEvent>): LogState {
    if evs == [] then s else Next(After(s, evs[..|evs| - 1]), evs[|evs| - 1])
  }

  lemma {:induction false} AfterAppend(s: LogState, a: seq<LogEvent>, b: seq<LogEvent>)
    ensures After(s, a + b) == After(After(s, a), b)
    decreases |b|
  {
    if b == [] {
      assert a + b == a;
    } else {
      assert (a + b)[..|a + b| - 1] == a + b[..|b| - 1];
      AfterAppend(s, a, b[..|b| - 1]);
    }
  }

  /** The fragments of one worker. */
  function SaidBy(evs: seq<LogEvent>, w: nat): seq<Fragment> {
    if evs == [] then []
    else
      var e := evs[|evs| - 1];
      SaidBy(evs[..|evs| - 1], w) + if e.who == w then FragmentsOf(e) else []
  }

  /** What the answers to the questions among the events are. */
  function Answers(s: LogState, evs: seq<LogEvent>): seq<bool> {
    if evs == [] then []
    else
      var before := evs[..|evs| - 1];
      Answers(s, before) + if evs[|evs| - 1].Asked? then [Flag(After(s, before))] else []
  }

  /** The log object under any events of any workers. */
  method Play(log: Logger, evs: seq<LogEvent>) returns (answers: seq<bool>)
    requires log.Valid()
    modifies log
    ensures log.Valid() && log.Now() == After(old(log.Now()), evs)
    ensures answers == Answers(old(log.Now()), evs)
  {
    hide Logger.Valid, Flag;
    answers := [];
    for k := 0 to |evs|
      invariant log.Valid() && log.Now() == After(old(log.Now()), evs[..k])
      invariant answers == Answers(old(log.Now()), evs[..k])
    {
      assert evs[..k + 1][..k] == evs[..k];
      match evs[k]
      case Said(_, level, text) => log.LogCallback(level, text);
      case Asked(_) =>
        var slot := log.WasMemorySlotError();
        answers := answers + [slot];
    }
    assert evs[..|evs|] == evs;
  }

  // ---- When an answer is about the one who asks ---------------------------------------------

  /** The events while worker `w` of `n` is at work and has not asked yet. */
  predicate During(evs: seq<LogEvent>, w: nat, n: nat) {
    forall e :: e in evs ==> e.who < n && (e.Asked? ==> e.who != w)
  }

  /** Only worker `w` uses the log, and does not ask. */
  predicate Alone(evs: seq<LogEvent>, w: nat) {
    forall e :: e in evs ==> e.who == w && e.Said?
  }

  lemma {:induction false} AloneIsHeard(s: LogState, evs: seq<LogEvent>, w: nat)
    requires Alone(evs, w)
    ensures After(s, evs) == s.Hear(SaidBy(evs, w))
  {
    if evs == [] {
      assert s.heard + [] == s.heard;
    } else {
      var e := evs[|evs| - 1];
      AloneIsHeard(s, evs[..|evs| - 1], w);
      Assoc(s.heard, SaidBy(evs[..|evs| - 1], w), FragmentsOf(e));
    }
  }

  /** After a clear start, a worker that is alone gets the answer about itself. */
  lemma AloneIsOwn(s: LogState, evs: seq<LogEvent>, w: nat)
    requires Past(s) && Clear(s) && Alone(evs, w)
    ensures Flag(After(s, evs)) <==> Reports(SaidBy(evs, w))
  {
    hide Clear, Reports, Flag, Past;
    AloneIsHeard(s, evs, w);
    ClearExactly(s);
  }

  function Report(w: nat): LogEvent {
    Said(w, ReportLine.level, CString(ReportLine.text))
  }

  lemma OneEvent(s: LogState, e: LogEvent, w: nat)
    ensures After(s, [e]) == Next(s, e) && SaidBy([e], w) == if e.who == w then FragmentsOf(e) else []
  {
    assert [e][..0] == [];
  }

  lemma ReadClears(s: LogState)
    ensures !Flag(s.Read())
  {
  }

  /** Two workers cross: `b` reports, and `a`, which did not, asks first and is told of a
      report. */
  lemma AskerIsToldOfAnother(s: LogState, a: nat, b: nat)
    requires Past(s) && a != b
    ensures Flag(After(s, [Report(b)])) && !Reports(SaidBy([Report(b)], a))
  {
    hide Reports, Flag, Past;
    OneEvent(s, Report(b), a);
    ReportIsRead(s);
    NothingReports();
  }

  /** Then `b`, which did report, is told of none. */
  lemma ReporterIsToldOfNone(s: LogState, a: nat, b: nat)
    requires Past(s) && a != b
    ensures !Flag(After(s, [Report(b), Asked(a)])) && Reports(SaidBy([Report(b), Asked(a)], b))
  {
    hide Reports, Flag, Past;
    var evs := [Report(b), Asked(a)];
    assert evs[..1] == [Report(b)];
    OneEvent(s, Report(b), b);
    ReadClears(After(s, [Report(b)]));
    ReportLineReports();
    assert SaidBy(evs, b) == [ReportLine] + [] == [ReportLine];
  }

  /** Worker `w` says these fragments. */
  function Saying(c: seq<Fragment>, w: nat): (evs: seq<LogEvent>)
    ensures |evs| == |c| && Alone(evs, w)
  {
    seq(|c|, i requires 0 <= i < |c| => Said(w, c[i].level, CString(c[i].text)))
  }

  lemma {:induction false} SayingIsSaid(c: seq<Fragment>, w: nat)
    ensures SaidBy(Saying(c, w), w) == c
  {
    if c != [] {
      var front := c[..|c| - 1];
      assert Saying(c, w)[..|c| - 1] == Saying(front, w);
      SayingIsSaid(front, w);
      assert front + [c[|c| - 1]] == c;
    }
  }

  /** What a read tells worker `w` after these events is whether it has reported itself. */
  predicate IsOwn(s: LogState, evs: seq<LogEvent>, w: nat) {
    Flag(After(s, evs)) <==> Reports(SaidBy(evs, w))
  }

  /** Every worker is told about itself, whatever the others do, exactly if there is no
      other worker and the log is clear at the start. */
  lemma OwnAnswerExactly(s: LogState, n: nat)
    requires Past(s)
    ensures (forall w: nat, evs :: w < n && During(evs, w, n) ==> IsOwn(s, evs, w)) <==>
      n == 0 || (n == 1 && Clear(s))
  {
    hide Clear, Reports, Flag, Past;
    if n == 1 && Clear(s) {
      forall w: nat, evs | w < n && During(evs, w, n) ensures IsOwn(s, evs, w) { AloneIsOwn(s, evs, w); }
    } else if n == 1 {
      var c := Misread(s);
      AloneIsHeard(s, Saying(c, 0), 0);
      SayingIsSaid(c, 0);
      assert During(Saying(c, 0), 0, n) && !IsOwn(s, Saying(c, 0), 0);
    } else if n > 1 {
      AskerIsToldOfAnother(s, 0, 1);
      assert During([Report(1)], 0, n) && !IsOwn(s, [Report(1)], 0);
    }
  }
}
