/** The reassembler of llama.cpp log fragments, proved against a batch splitter of the
    whole fragment sequence, and its read-and-clear flag for a full KV cache. */
module LlamaLogger {
  import opened Bytes

  datatype Level = NoLevel | Debug | Info | Warn | Error | Cont

  datatype Fragment = Fragment(level: Level, text: string)

  /** A C string argument, which may be a null pointer. */
  datatype CText = Null | CString(text: string)

  const Phrase := "failed to find a memory slot"

  // ---- Small string functions ----------------------------------------------------------

  predicate EndsLine(s: string) {
    s != [] && s[|s| - 1] == '\n'
  }

  predicate IsTrailing(c: char) {
    c == '\n' || c == '\r' || c == ' '
  }

  /** `std::string::find` other than `npos`. */
  predicate Contains(s: string, p: string) {
    exists i :: 0 <= i <= |s| && OccursAt(s, p, i)
  }

  predicate OccursAt(s: string, p: string, i: int) {
    0 <= i && i + |p| <= |s| && s[i..i + |p|] == p
  }

  /** The text without its trailing line ends and blanks. */
  function Stripped(s: string): (r: string)
    ensures r <= s && (r != [] ==> !IsTrailing(r[|r| - 1]))
    ensures forall i :: |r| <= i < |s| ==> IsTrailing(s[i])
  {
    if s != [] && IsTrailing(s[|s| - 1]) then Stripped(s[..|s| - 1]) else s
  }

  method StripTrailing(text: string) returns (s: string)
    ensures s == Stripped(text) && s <= text
    ensures s != [] ==> s[|s| - 1] != '\n' && s[|s| - 1] != '\r' && s[|s| - 1] != ' '
    ensures forall i :: |s| <= i < |text| ==> text[i] == '\n' || text[i] == '\r' || text[i] == ' '
  {
    s := text;
    while s != [] && (s[|s| - 1] == '\n' || s[|s| - 1] == '\r' || s[|s| - 1] == ' ')
      invariant Stripped(s) == Stripped(text)
      decreases |s|
    {
      s := s[..|s| - 1];
    }
  }

  /** Stripping can neither hide nor create a phrase that ends in a visible character. */
  lemma StrippingKeeps(s: string, p: string)
    requires p != [] && !IsTrailing(p[|p| - 1])
    ensures Contains(Stripped(s), p) <==> Contains(s, p)
  {
    var r := Stripped(s);
    assert forall i :: 0 <= i < |r| ==> r[i] == s[i];
    if Contains(s, p) {
      var i :| 0 <= i <= |s| && OccursAt(s, p, i);
      assert s[i..i + |p|][|p| - 1] == s[i + |p| - 1] == p[|p| - 1];
      assert i + |p| - 1 < |r|;
      assert r[i..i + |p|] == s[i..i + |p|];
      assert OccursAt(r, p, i);
    }
    if Contains(r, p) {
      var i :| 0 <= i <= |r| && OccursAt(r, p, i);
      assert s[i..i + |p|] == r[i..i + |p|];
      assert OccursAt(s, p, i);
    }
  }

  lemma StrippingKeepsPhrase(s: string)
    ensures Contains(Stripped(s), Phrase) <==> Contains(s, Phrase)
  {
    PhraseIsVisible();
    StrippingKeeps(s, Phrase);
  }

  // ---- The batch splitter -----------------------------------------------------------------

  /** The raw text of one message and the level it is logged under. */
  datatype Group = Group(raw: string, level: Level)

  function Raw(fs: seq<Fragment>): string {
    if fs == [] then [] else fs[0].text + Raw(fs[1..])
  }

  /** A message ends after a fragment that ends a line, and before a fragment that is not
      a continuation. */
  predicate CutBetween(f: Fragment, g: Fragment) {
    EndsLine(f.text) || g.level != Cont
  }

  /** How many fragments the first message takes. */
  function GroupLength(fs: seq<Fragment>): (k: nat)
    requires fs != []
    ensures 1 <= k <= |fs|
  {
    if |fs| == 1 || CutBetween(fs[0], fs[1]) then 1 else 1 + GroupLength(fs[1..])
  }

  function LevelAfter(f: Fragment, previous: Level): Level {
    if f.level == Cont then previous else f.level
  }

  /** Whether the first message is known to be over. */
  predicate IsOver(fs: seq<Fragment>)
    requires fs != []
  {
    GroupLength(fs) < |fs| || EndsLine(fs[GroupLength(fs) - 1].text)
  }

  /** The messages of a whole fragment sequence, in order. One that has no text at all is
      none; one that continues nothing has the level of the fragment before it. */
  function Batch(fs: seq<Fragment>, previous: Level): seq<Group>
    decreases |fs|
  {
    if fs == [] then []
    else
      var k := GroupLength(fs);
      var l := LevelAfter(fs[0], previous);
      (if IsOver(fs) && Raw(fs[..k]) != [] then [Group(Raw(fs[..k]), l)] else []) + Batch(fs[k..], l)
  }

  /** The text of the last message, when that is not over. */
  function Unfinished(fs: seq<Fragment>): string
    decreases |fs|
  {
    if fs == [] then []
    else
      var k := GroupLength(fs);
      if k == |fs| && !IsOver(fs) then Raw(fs) else Unfinished(fs[k..])
  }

  // ---- The stream ----------------------------------------------------------------------------

  /** Groups flushed, and the buffer and level left. */
  datatype Stream = Stream(groups: seq<Group>, buffer: string, level: Level) {
    function After(done: seq<Group>): Stream {
      this.(groups := done + groups)
    }
  }

  function Step(buffer: string, level: Level, f: Fragment): Stream {
    var flushed := if f.level != Cont && buffer != [] then [Group(buffer, level)] else [];
    var b := if f.level == Cont then buffer + f.text else f.text;
    var l := LevelAfter(f, level);
    if EndsLine(b) then Stream(flushed + [Group(b, l)], [], l) else Stream(flushed, b, l)
  }

  function Run(buffer: string, level: Level, fs: seq<Fragment>): Stream
    decreases |fs|
  {
    if fs == [] then Stream([], buffer, level)
    else
      var s := Step(buffer, level, fs[0]);
      Run(s.buffer, s.level, fs[1..]).After(s.groups)
  }

  /** The stream from a freshly loaded library: empty buffer, level Info. */
  function Heard(fs: seq<Fragment>): Stream {
    Run([], Info, fs)
  }

  lemma {:induction false} RunOneMore(buffer: string, level: Level, fs: seq<Fragment>, f: Fragment)
    ensures var r := Run(buffer, level, fs);
      Run(buffer, level, fs + [f]) == Step(r.buffer, r.level, f).After(r.groups)
    decreases |fs|
  {
    var all := fs + [f];
    if fs == [] {
      assert all[1..] == [];
      var s := Step(buffer, level, f);
      assert s.groups + [] == s.groups && [] + s.groups == s.groups;
    } else {
      assert all[1..] == fs[1..] + [f];
      var s := Step(buffer, level, fs[0]);
      RunOneMore(s.buffer, s.level, fs[1..], f);
      var r := Run(s.buffer, s.level, fs[1..]);
      Assoc(s.groups, r.groups, Step(r.buffer, r.level, f).groups);
    }
  }

  // ---- The stream is the batch splitter ----------------------------------------------------------

  /** Fragments that form one message which is not over: no line ends among them, and all
      but the first continue. */
  predicate IsOpen(g: seq<Fragment>) {
    forall i :: 0 <= i < |g| ==> !EndsLine(g[i].text) && (i > 0 ==> g[i].level == Cont)
  }

  lemma {:induction false} RawAppend(a: seq<Fragment>, b: seq<Fragment>)
    ensures Raw(a + b) == Raw(a) + Raw(b)
  {
    if a == [] {
      assert a + b == b;
    } else {
      assert (a + b)[1..] == a[1..] + b;
      RawAppend(a[1..], b);
    }
  }

  lemma RawOne(f: Fragment)
    ensures Raw([f]) == f.text
  {
    assert Raw([f]) == f.text + Raw([]);
  }

  lemma {:induction false} OpenDoesNotEndLine(g: seq<Fragment>)
    requires IsOpen(g)
    ensures !EndsLine(Raw(g))
  {
    if g != [] { OpenDoesNotEndLine(g[1..]); }
  }

  /** An open message reaches as far as its first cut. */
  lemma {:induction false} OpenGroupLength(g: seq<Fragment>, rest: seq<Fragment>)
    requires IsOpen(g) && g != []
    ensures rest == [] ==> GroupLength(g + rest) == |g|
    ensures rest != [] && rest[0].level != Cont ==> GroupLength(g + rest) == |g|
    ensures rest != [] && rest[0].level == Cont ==> GroupLength(g + rest) == |g| + GroupLength(rest)
  {
    if |g| > 1 {
      assert (g + rest)[1..] == g[1..] + rest;
      OpenGroupLength(g[1..], rest);
    } else {
      assert (g + rest)[1..] == rest;
    }
  }

  function LevelOf(g: seq<Fragment>, previous: Level): Level {
    if g == [] then previous else LevelAfter(g[0], previous)
  }

  /** Reading on from an open message gives the messages of the whole. */
  ghost predicate Agrees(g: seq<Fragment>, previous: Level, fs: seq<Fragment>) {
    var r := Run(Raw(g), LevelOf(g, previous), fs);
    r.groups == Batch(g + fs, previous) && r.buffer == Unfinished(g + fs)
  }

  lemma {:induction false} RunIsBatch(g: seq<Fragment>, previous: Level, fs: seq<Fragment>)
    requires IsOpen(g)
    ensures Agrees(g, previous, fs)
    decreases |fs|, |g|
  {
    hide Agrees;
    if fs == [] {
      AgreesAtEnd(g, previous);
    } else if fs[0].level != Cont && g != [] {
      RunIsBatch([], LevelOf(g, previous), fs);
      AgreesBefore(g, previous, fs);
    } else if EndsLine(fs[0].text) {
      RunIsBatch([], LevelOf(g + [fs[0]], previous), fs[1..]);
      AgreesAfterLine(g, previous, fs);
    } else {
      RunIsBatch(g + [fs[0]], previous, fs[1..]);
      AgreesOneMore(g, previous, fs);
    }
  }

  lemma AgreesAtEnd(g: seq<Fragment>, previous: Level)
    requires IsOpen(g)
    ensures Agrees(g, previous, [])
  {
    assert g + [] == g;
    if g != [] {
      OpenGroupLength(g, []);
      assert g[|g|..] == [];
    }
  }

  /** A fragment that is not a continuation ends the open message. */
  lemma AgreesBefore(g: seq<Fragment>, previous: Level, fs: seq<Fragment>)
    requires IsOpen(g) && g != [] && fs != [] && fs[0].level != Cont
    requires Agrees([], LevelOf(g, previous), fs)
    ensures Agrees(g, previous, fs)
  {
    hide Batch, Unfinished;
    CloseBefore(g, previous, fs);
    assert [] + fs == fs;
    var l := LevelOf(g, previous);
    var s, t := Step(Raw(g), l, fs[0]), Step([], l, fs[0]);
    var flushed := if Raw(g) != [] then [Group(Raw(g), l)] else [];
    assert s == t.After(flushed);
    Assoc(flushed, t.groups, Run(s.buffer, s.level, fs[1..]).groups);
  }

  lemma CloseBefore(g: seq<Fragment>, previous: Level, fs: seq<Fragment>)
    requires IsOpen(g) && g != [] && fs != [] && fs[0].level != Cont
    ensures Batch(g + fs, previous)
         == (if Raw(g) != [] then [Group(Raw(g), LevelOf(g, previous))] else []) + Batch(fs, LevelOf(g, previous))
    ensures Unfinished(g + fs) == Unfinished(fs)
  {
    OpenGroupLength(g, fs);
    assert (g + fs)[..|g|] == g && (g + fs)[|g|..] == fs;
  }

  lemma EndsLineAppend(a: string, b: string)
    requires !EndsLine(a)
    ensures EndsLine(a + b) <==> EndsLine(b)
  {
  }

  lemma OpenOneMore(g: seq<Fragment>, f: Fragment)
    requires IsOpen(g) && (f.level == Cont || g == [])
    ensures !EndsLine(f.text) ==> IsOpen(g + [f])
    ensures g != [] ==> (g + [f])[0] == g[0]
  {
  }

  lemma StepJoins(g: seq<Fragment>, previous: Level, f: Fragment)
    requires IsOpen(g) && (f.level == Cont || g == [])
    ensures var h := g + [f]; var s := Step(Raw(g), LevelOf(g, previous), f);
      s.level == LevelOf(h, previous) &&
      (EndsLine(f.text) ==> s.groups == [Group(Raw(h), LevelOf(h, previous))] && s.buffer == []) &&
      (!EndsLine(f.text) ==> s.groups == [] && s.buffer == Raw(h) && IsOpen(h))
  {
    hide EndsLine, IsOpen;
    RawAppend(g, [f]);
    RawOne(f);
    OpenDoesNotEndLine(g);
    EndsLineAppend(Raw(g), f.text);
    OpenOneMore(g, f);
  }

  lemma AgreesOneMore(g: seq<Fragment>, previous: Level, fs: seq<Fragment>)
    requires IsOpen(g) && fs != [] && (fs[0].level == Cont || g == []) && !EndsLine(fs[0].text)
    requires Agrees(g + [fs[0]], previous, fs[1..])
    ensures Agrees(g, previous, fs)
  {
    hide Batch, Unfinished, Step, Raw, EndsLine;
    var h := g + [fs[0]];
    assert g + fs == h + fs[1..];
    StepJoins(g, previous, fs[0]);
    var r := Run(Raw(h), LevelOf(h, previous), fs[1..]);
    assert [] + r.groups == r.groups;
  }

  lemma AgreesAfterLine(g: seq<Fragment>, previous: Level, fs: seq<Fragment>)
    requires IsOpen(g) && fs != [] && (fs[0].level == Cont || g == []) && EndsLine(fs[0].text)
    requires Agrees([], LevelOf(g + [fs[0]], previous), fs[1..])
    ensures Agrees(g, previous, fs)
  {
    hide Batch, Unfinished, Step, EndsLine;
    StepJoins(g, previous, fs[0]);
    CloseAfter(g, previous, fs);
    assert [] + fs[1..] == fs[1..];
  }

  lemma CloseAfter(g: seq<Fragment>, previous: Level, fs: seq<Fragment>)
    requires IsOpen(g) && fs != [] && (fs[0].level == Cont || g == []) && EndsLine(fs[0].text)
    ensures var h := g + [fs[0]];
      Batch(g + fs, previous) == [Group(Raw(h), LevelOf(h, previous))] + Batch(fs[1..], LevelOf(h, previous)) &&
      Unfinished(g + fs) == Unfinished(fs[1..])
  {
    hide Raw, IsOpen;
    var h := g + [fs[0]];
    if g != [] { OpenGroupLength(g, fs); } else { assert g + fs == fs; }
    assert GroupLength(fs) == 1;
    assert (g + fs)[..|h|] == h && (g + fs)[|h|..] == fs[1..];
    RawAppend(g, [fs[0]]);
    RawOne(fs[0]);
  }

  /** For any fragments, the flushed groups are those of the batch splitter, and what is
      left in the buffer is the message that is not over. */
  lemma StreamIsBatch(fs: seq<Fragment>)
    ensures Heard(fs).groups == Batch(fs, Info) && Heard(fs).buffer == Unfinished(fs)
  {
    assert [] + fs == fs;
    RunIsBatch([], Info, fs);
  }

  /** The level of the latest fragment that is not a continuation, or that of the start. */
  ghost predicate IsLatestLevel(fs: seq<Fragment>, start: Level, l: Level) {
    if forall i :: 0 <= i < |fs| ==> fs[i].level == Cont then l == start
    else exists i :: 0 <= i < |fs| && fs[i].level == l && l != Cont && forall j :: i < j < |fs| ==> fs[j].level == Cont
  }

  /** Over any fragments, the level under which the buffer will be logged is that of the
      latest fragment that is not a continuation. */
  lemma {:induction false} LevelIsLatest(fs: seq<Fragment>)
    ensures IsLatestLevel(fs, Info, Heard(fs).level)
  {
    if fs != [] {
      var front, f := fs[..|fs| - 1], fs[|fs| - 1];
      assert fs == front + [f];
      LevelIsLatest(front);
      RunOneMore([], Info, front, f);
      assert forall i :: 0 <= i < |front| ==> fs[i] == front[i];
      if f.level != Cont { assert fs[|front|].level == f.level; }
    }
  }

  function RawOf(groups: seq<Group>): string {
    if groups == [] then [] else groups[0].raw + RawOf(groups[1..])
  }

  lemma {:induction false} RawOfAppend(a: seq<Group>, b: seq<Group>)
    ensures RawOf(a + b) == RawOf(a) + RawOf(b)
  {
    if a == [] {
      assert a + b == b;
    } else {
      assert (a + b)[1..] == a[1..] + b;
      RawOfAppend(a[1..], b);
    }
  }

  /** The raw groups and the buffer concatenate to all the text that came in. */
  lemma {:induction false} RunConserves(buffer: string, level: Level, fs: seq<Fragment>)
    ensures var r := Run(buffer, level, fs); RawOf(r.groups) + r.buffer == buffer + Raw(fs)
    decreases |fs|
  {
    if fs == [] {
      assert buffer + [] == buffer;
    } else {
      var s := Step(buffer, level, fs[0]);
      var r := Run(s.buffer, s.level, fs[1..]);
      RunConserves(s.buffer, s.level, fs[1..]);
      RawOfAppend(s.groups, r.groups);
      StepConserves(buffer, level, fs[0]);
      Assoc(RawOf(s.groups), RawOf(r.groups), r.buffer);
      Assoc(RawOf(s.groups), s.buffer, Raw(fs[1..]));
      Assoc(buffer, fs[0].text, Raw(fs[1..]));
    }
  }

  lemma StepConserves(buffer: string, level: Level, f: Fragment)
    ensures var s := Step(buffer, level, f); RawOf(s.groups) + s.buffer == buffer + f.text
  {
    var flushed := if f.level != Cont && buffer != [] then [Group(buffer, level)] else [];
    var b := if f.level == Cont then buffer + f.text else f.text;
    RawOfOne(Group(buffer, level));
    RawOfOne(Group(b, LevelAfter(f, level)));
    RawOfAppend(flushed, [Group(b, LevelAfter(f, level))]);
    assert RawOf(flushed) + b == buffer + f.text;
  }

  lemma RawOfOne(g: Group)
    ensures RawOf([g]) == g.raw
  {
    assert RawOf([g]) == g.raw + RawOf([]);
  }

  // ---- What is logged ------------------------------------------------------------------------------

  datatype Severity = LogError | LogWarn | LogInfo | LogDebug

  datatype Line = Line(severity: Severity, text: string, kvCacheFull: bool)

  function SeverityOf(level: Level, text: string): Severity {
    match level
    case Error => LogError
    case Warn => LogWarn
    case Info =>
      if Contains(text, "model loaded") || Contains(text, "offloaded") || Contains(text, "layers") then LogInfo
      else LogDebug
    case _ => LogDebug
  }

  /** The line of a message: an error or a warning by its level; information that mentions a
      loaded model, offloading or layers; anything else is for debugging. */
  predicate IsLineOf(line: Line, message: string, level: Level) {
    && line.text == message
    && (line.severity == LogError <==> level == Error)
    && (line.severity == LogWarn <==> level == Warn)
    && (line.severity == LogInfo <==>
          level == Info &&
          (Contains(message, "model loaded") || Contains(message, "offloaded") || Contains(message, "layers")))
    && (line.kvCacheFull <==> Contains(message, "failed to find a memory slot"))
  }

  /** The log lines of some groups: each stripped, and none for a blank one. */
  function LinesOf(groups: seq<Group>): seq<Line> {
    if groups == [] then []
    else
      var text := Stripped(groups[0].raw);
      (if text == [] then [] else [Line(SeverityOf(groups[0].level, text), text, Contains(groups[0].raw, Phrase))])
      + LinesOf(groups[1..])
  }

  lemma {:induction false} LinesAppend(a: seq<Group>, b: seq<Group>)
    ensures LinesOf(a + b) == LinesOf(a) + LinesOf(b)
  {
    hide Stripped, Contains, SeverityOf;
    if a == [] {
      assert a + b == b;
    } else {
      assert (a + b)[1..] == a[1..] + b;
      LinesAppend(a[1..], b);
      var text := Stripped(a[0].raw);
      var first := if text == [] then [] else [Line(SeverityOf(a[0].level, text), text, Contains(a[0].raw, Phrase))];
      Assoc(first, LinesOf(a[1..]), LinesOf(b));
    }
  }

  /** Some group from index `from` on mentions the phrase. */
  predicate SlotIn(groups: seq<Group>, from: nat) {
    exists i :: from <= i < |groups| && Contains(groups[i].raw, Phrase)
  }

  lemma SlotInOneMore(groups: seq<Group>, from: nat, g: Group)
    requires from <= |groups|
    ensures SlotIn(groups + [g], from) <==> SlotIn(groups, from) || Contains(g.raw, Phrase)
  {
    var all := groups + [g];
    assert all[|groups|] == g;
    assert forall i :: 0 <= i < |groups| ==> all[i] == groups[i];
  }

  lemma SlotInAppend(a: seq<Group>, b: seq<Group>, from: nat)
    requires from <= |a|
    ensures SlotIn(a + b, from) <==> SlotIn(a, from) || SlotIn(b, 0)
  {
    var all := a + b;
    assert forall i :: 0 <= i < |a| ==> all[i] == a[i];
    assert forall i :: 0 <= i < |b| ==> all[|a| + i] == b[i];
    if SlotIn(all, from) && !SlotIn(a, from) {
      var i :| from <= i < |all| && Contains(all[i].raw, Phrase);
      assert all[i] == b[i - |a|];
    }
  }

  lemma {:induction false} RunAppend(buffer: string, level: Level, a: seq<Fragment>, b: seq<Fragment>)
    ensures var r := Run(buffer, level, a); Run(buffer, level, a + b) == Run(r.buffer, r.level, b).After(r.groups)
    decreases |a|
  {
    if a == [] {
      assert a + b == b;
      assert [] + Run(buffer, level, b).groups == Run(buffer, level, b).groups;
    } else {
      assert (a + b)[1..] == a[1..] + b;
      var s := Step(buffer, level, a[0]);
      RunAppend(s.buffer, s.level, a[1..], b);
      var r := Run(s.buffer, s.level, a[1..]);
      Assoc(s.groups, r.groups, Run(r.buffer, r.level, b).groups);
    }
  }

  /** A read sees a report made before `c`, which later fragments never hide, or one in the
      messages that `c` ends, on top of the text that was pending. */
  lemma ReadSees(h: seq<Fragment>, c: seq<Fragment>, from: nat)
    requires from <= |Batch(h, Info)|
    ensures SlotIn(Batch(h + c, Info), from) <==>
      SlotIn(Batch(h, Info), from) || SlotIn(Run(Unfinished(h), Heard(h).level, c).groups, 0)
  {
    hide Batch, Unfinished, Run, SlotIn;
    StreamIsBatch(h);
    StreamIsBatch(h + c);
    RunAppend([], Info, h, c);
    SlotInAppend(Batch(h, Info), Run(Unfinished(h), Heard(h).level, c).groups, from);
  }

  /** Whether some message that these fragments complete on their own has the phrase. */
  predicate Reports(c: seq<Fragment>) {
    SlotIn(Batch(c, Info), 0)
  }

  /** Text that can neither hold the phrase nor be the beginning of an occurrence of it. */
  predicate Innocent(u: string, p: string) {
    !Contains(u, p) && forall k :: 0 < k < |p| && k <= |u| ==> u[|u| - k..] != p[..k]
  }

  lemma InnocentJoin(u: string, x: string, p: string)
    requires Innocent(u, p)
    ensures Contains(u + x, p) <==> Contains(x, p)
  {
    if Contains(x, p) {
      var i :| 0 <= i <= |x| && OccursAt(x, p, i);
      assert (u + x)[|u| + i..|u| + i + |p|] == x[i..i + |p|];
      assert OccursAt(u + x, p, |u| + i);
    }
    if Contains(u + x, p) {
      var i :| 0 <= i <= |u + x| && OccursAt(u + x, p, i);
      InnocentOccurrence(u, x, p, i);
    }
  }

  /** An occurrence cannot begin within innocent text. */
  lemma InnocentOccurrence(u: string, x: string, p: string, i: nat)
    requires Innocent(u, p) && OccursAt(u + x, p, i)
    ensures Contains(x, p)
  {
    var s := u + x;
    if i >= |u| {
      assert x[i - |u|..i - |u| + |p|] == s[i..i + |p|];
      assert OccursAt(x, p, i - |u|);
    } else if i + |p| <= |u| {
      assert u[i..i + |p|] == s[i..i + |p|];
      assert OccursAt(u, p, i);
    } else {
      Straddles(u, x, p, i);
    }
  }

  /** An occurrence across the join begins with a suffix of the front. */
  lemma Straddles(u: string, x: string, p: string, i: nat)
    requires OccursAt(u + x, p, i) && i < |u| < i + |p|
    ensures u[i..] == p[..|u| - i]
    ensures var k := |u| - i; 0 < k < |p| && u[|u| - k..] == p[..k]
  {
    assert (u + x)[i..i + |p|][..|u| - i] == u[i..];
  }

  lemma NothingIsInnocent(p: string)
    requires p != []
    ensures Innocent([], p)
  {
  }

  /** Innocent text before the buffer makes no later message report. */
  lemma {:induction false} RunInnocent(u: string, buffer: string, l: Level, m: Level, c: seq<Fragment>)
    requires Innocent(u, Phrase) && !EndsLine(u)
    ensures SlotIn(Run(u + buffer, l, c).groups, 0) <==> SlotIn(Run(buffer, m, c).groups, 0)
    decreases |c|
  {
    hide Innocent, Contains, EndsLine, SlotIn;
    if c == [] {
      NoGroupsNoSlot();
    } else {
      var f := c[0];
      var s, t := Step(u + buffer, l, f), Step(buffer, m, f);
      var v, b := StepInnocent(u, buffer, l, m, f);
      RunInnocent(v, b, s.level, t.level, c[1..]);
      SlotInAppend(s.groups, Run(s.buffer, s.level, c[1..]).groups, 0);
      SlotInAppend(t.groups, Run(t.buffer, t.level, c[1..]).groups, 0);
    }
  }

  lemma NoGroupsNoSlot()
    ensures !SlotIn([], 0)
  {
  }

  lemma StepInnocent(u: string, buffer: string, l: Level, m: Level, f: Fragment) returns (v: string, b: string)
    requires Innocent(u, Phrase) && !EndsLine(u)
    ensures Innocent(v, Phrase) && !EndsLine(v)
    ensures var s, t := Step(u + buffer, l, f), Step(buffer, m, f);
      s.buffer == v + b && t.buffer == b && (SlotIn(s.groups, 0) <==> SlotIn(t.groups, 0))
  {
    hide Innocent, Contains, EndsLine;
    var s, t := Step(u + buffer, l, f), Step(buffer, m, f);
    NothingIsInnocent(Phrase);
    NothingEndsNoLine();
    BlankHasNoPhrase();
    if f.level == Cont {
      Assoc(u, buffer, f.text);
      InnocentJoin(u, buffer + f.text, Phrase);
      EndsLineAppend(u, buffer + f.text);
      v, b := if EndsLine(buffer + f.text) then [] else u, t.buffer;
    } else {
      InnocentJoin(u, buffer, Phrase);
      v, b := [], t.buffer;
    }
    SlotOfStep(u + buffer, l, f);
    SlotOfStep(buffer, m, f);
    assert [] + b == b;
  }

  lemma NothingEndsNoLine()
    ensures !EndsLine([])
  {
  }

  /** When a step flushes a message with the phrase. */
  lemma SlotOfStep(buffer: string, level: Level, f: Fragment)
    ensures var b := if f.level == Cont then buffer + f.text else f.text;
      SlotIn(Step(buffer, level, f).groups, 0) <==>
        (f.level != Cont && Contains(buffer, Phrase)) || (EndsLine(b) && Contains(b, Phrase))
  {
    hide Contains, EndsLine;
    var b := if f.level == Cont then buffer + f.text else f.text;
    var flushed := if f.level != Cont && buffer != [] then [Group(buffer, level)] else [];
    BlankHasNoPhrase();
    NoGroupsNoSlot();
    SlotInOneMore([], 0, Group(buffer, level));
    SlotInOneMore(flushed, 0, Group(b, LevelAfter(f, level)));
    assert [] + [Group(buffer, level)] == [Group(buffer, level)];
  }

  /** When the pending text is innocent, a read after the fragments `c`, and no others,
      returns true exactly if a report before them is unread or they report themselves. */
  lemma OwnReports(h: seq<Fragment>, c: seq<Fragment>, from: nat)
    requires Innocent(Unfinished(h), Phrase) && from <= |Batch(h, Info)|
    ensures SlotIn(Batch(h + c, Info), from) <==> SlotIn(Batch(h, Info), from) || Reports(c)
  {
    hide Batch, Unfinished, Run, Innocent, EndsLine;
    var u := Unfinished(h);
    ReadSees(h, c, from);
    StreamIsBatch(h);
    StreamIsBatch(c);
    NothingEndsNoLine();
    BufferEndsNoLine([], Info, h);
    RunInnocent(u, [], Heard(h).level, Info, c);
    assert u + [] == u;
  }

  lemma {:induction false} BufferEndsNoLine(buffer: string, level: Level, fs: seq<Fragment>)
    requires !EndsLine(buffer)
    ensures !EndsLine(Run(buffer, level, fs).buffer)
    decreases |fs|
  {
    if fs != [] {
      var s := Step(buffer, level, fs[0]);
      BufferEndsNoLine(s.buffer, s.level, fs[1..]);
    }
  }

  /** What the log has heard, and how many messages it had flushed at the last read. */
  datatype LogState = LogState(heard: seq<Fragment>, readAt: nat) {
    function Hear(c: seq<Fragment>): LogState {
      this.(heard := heard + c)
    }

    function Read(): LogState {
      this.(readAt := |Batch(heard, Info)|)
    }
  }

  /** What a read returns. */
  predicate Flag(s: LogState) {
    SlotIn(Batch(s.heard, Info), s.readAt)
  }

  /** No report is unread and the pending text is innocent. */
  predicate Clear(s: LogState) {
    !Flag(s) && Innocent(Unfinished(s.heard), Phrase)
  }

  predicate Past(s: LogState) {
    s.readAt <= |Batch(s.heard, Info)|
  }

  /** The log is clear exactly when a read tells, of any later fragments, whether they
      report. */
  lemma ClearExactly(s: LogState)
    requires Past(s)
    ensures (forall c :: Flag(s.Hear(c)) <==> Reports(c)) <==> Clear(s)
  {
    hide SlotIn, Reports, Batch, Unfinished;
    if Clear(s) {
      forall c ensures Flag(s.Hear(c)) <==> Reports(c) { OwnReports(s.heard, c, s.readAt); }
    } else {
      var c := Misread(s);
    }
  }

  /** Otherwise some fragments that report nothing are read as a report. */
  lemma Misread(s: LogState) returns (c: seq<Fragment>)
    requires Past(s) && !Clear(s)
    ensures Flag(s.Hear(c)) && !Reports(c)
  {
    hide Unfinished, Flag, Reports, Contains, Innocent, Past;
    if Flag(s) {
      c := [];
      assert s.heard + c == s.heard;
      NothingReports();
    } else if Contains(Unfinished(s.heard), Phrase) {
      c := PendingIsRead(s);
    } else {
      var k := Guilty(Unfinished(s.heard), Phrase);
      c := CompletionIsRead(s, k);
    }
  }

  /** A pending phrase is reported by the next message. */
  lemma PendingIsRead(s: LogState) returns (c: seq<Fragment>)
    requires Past(s) && Contains(Unfinished(s.heard), Phrase)
    ensures Flag(s.Hear(c)) && !Reports(c)
  {
    hide Batch, Unfinished, Run, SlotIn, Contains, EndsLine, Reports;
    c := [Fragment(Error, "" + "\n")];
    ReadSees(s.heard, c, s.readAt);
    SlotOfOne(Unfinished(s.heard), Heard(s.heard).level, c[0]);
    SilentLine("", Error);
  }

  /** A suffix that makes a text guilty. */
  lemma Guilty(u: string, p: string) returns (k: nat)
    requires !Innocent(u, p) && !Contains(u, p)
    ensures 0 < k < |p| && k <= |u| && u[|u| - k..] == p[..k]
  {
    hide Contains;
    k :| 0 < k < |p| && k <= |u| && u[|u| - k..] == p[..k];
  }

  /** A pending beginning of the phrase is completed by a continuation. */
  lemma CompletionIsRead(s: LogState, k: nat) returns (c: seq<Fragment>)
    requires var u := Unfinished(s.heard);
      Past(s) && 0 < k < |Phrase| && k <= |u| && u[|u| - k..] == Phrase[..k]
    ensures Flag(s.Hear(c)) && !Reports(c)
  {
    hide Batch, Unfinished, Run, SlotIn, Contains, EndsLine, Reports;
    c := [Fragment(Cont, Phrase[k..] + "\n")];
    ReadSees(s.heard, c, s.readAt);
    SplitPhrase(Unfinished(s.heard), k);
    SlotOfOne(Unfinished(s.heard), Heard(s.heard).level, c[0]);
    SilentLine(Phrase[k..], Cont);
  }

  /** A whole line that has the phrase. */
  const ReportLine := Fragment(Error, Phrase + "\n")

  /** It is read as a report, whatever came before. */
  lemma ReportIsRead(s: LogState)
    requires Past(s)
    ensures Flag(s.Hear([ReportLine]))
  {
    hide Batch, Unfinished, Run, SlotIn;
    var f := ReportLine;
    ReadSees(s.heard, [f], s.readAt);
    SlotOfOne(Unfinished(s.heard), Heard(s.heard).level, f);
    assert OccursAt(f.text, Phrase, 0);
  }

  lemma ReportLineReports()
    ensures Reports([ReportLine])
  {
    hide Batch, SlotIn;
    assert Batch([], Info) == [] by { StreamIsBatch([]); }
    ReportIsRead(LogState([], 0));
    assert [] + [ReportLine] == [ReportLine];
  }

  lemma NothingReports()
    ensures !Reports([])
  {
  }

  lemma SlotOfOne(buffer: string, level: Level, f: Fragment)
    ensures SlotIn(Run(buffer, level, [f]).groups, 0) <==> SlotIn(Step(buffer, level, f).groups, 0)
    ensures var b := if f.level == Cont then buffer + f.text else f.text;
      SlotIn(Run(buffer, level, [f]).groups, 0) <==>
        (f.level != Cont && Contains(buffer, Phrase)) || (EndsLine(b) && Contains(b, Phrase))
  {
    hide Contains, EndsLine, SlotIn;
    SlotOfStep(buffer, level, f);
    assert [f][1..] == [];
    var g := Step(buffer, level, f).groups;
    assert g + [] == g;
  }

  /** A line shorter than the phrase does not report. */
  lemma SilentLine(text: string, level: Level)
    requires |text| < |Phrase|
    ensures !Reports([Fragment(level, text + "\n")])
  {
    hide Batch, Run, Contains;
    var f := Fragment(level, text + "\n");
    StreamIsBatch([f]);
    SlotOfOne([], Info, f);
    BlankHasNoPhrase();
    assert [] + f.text == f.text;
    PhraseIsVisible();
    NotInShorter(f.text, Phrase);
  }

  lemma PhraseIsVisible()
    ensures Phrase != [] && !IsTrailing(Phrase[|Phrase| - 1])
  {
    assert Phrase[|Phrase| - 1] == 't';
  }

  lemma NotInShorter(s: string, p: string)
    requires p != [] && |s| <= |p| && (s != [] ==> s[|s| - 1] != p[|p| - 1])
    ensures !Contains(s, p)
  {
    forall i | 0 <= i <= |s| ensures !OccursAt(s, p, i) {
      assert i + |p| <= |s| ==> s[i..i + |p|][|p| - 1] == s[|s| - 1];
    }
  }

  lemma SplitPhrase(u: string, k: nat)
    requires 0 < k < |Phrase| && k <= |u| && u[|u| - k..] == Phrase[..k]
    ensures var b := u + (Phrase[k..] + "\n"); EndsLine(b) && Contains(b, Phrase)
  {
    Completed(u, Phrase, k, "\n");
  }

  lemma Completed(u: string, p: string, k: nat, last: string)
    requires 0 < k < |p| && k <= |u| && u[|u| - k..] == p[..k]
    ensures Contains(u + (p[k..] + last), p)
  {
    var b := u + (p[k..] + last);
    assert b[|u| - k..|u|] == p[..k];
    assert b[|u| - k..|u| - k + |p|] == p[..k] + p[k..] == p;
    assert OccursAt(b, p, |u| - k);
  }

  /** A report nobody has read is taken for one of later fragments that report nothing. */
  lemma StaleReportIsRead(c: seq<Fragment>)
    requires !Reports(c)
    ensures exists h :: Unfinished(h) == [] && Flag(LogState(h + c, 0))
  {
    var s := LogState([], 0);
    var h := [ReportLine];
    assert [] + h == h;
    ReportIsRead(s);
    assert GroupLength(h) == 1 && h[1..] == [];
    NothingIsInnocent(Phrase);
    OwnReports(h, c, 0);
  }

  /** A report in a line that is not over is pending, and a read does not see it. */
  lemma UnfinishedReportIsMissed(h: seq<Fragment>, f: Fragment, from: nat)
    requires !EndsLine(f.text) && (f.level == Cont || Unfinished(h) == []) && Contains(f.text, Phrase)
    ensures Contains(Unfinished(h + [f]), Phrase)
    ensures SlotIn(Batch(h + [f], Info), from) <==> SlotIn(Batch(h, Info), from)
  {
    hide Batch, Unfinished, Run, SlotIn, Contains, EndsLine, Step;
    StreamIsBatch(h);
    StreamIsBatch(h + [f]);
    RunOneMore([], Info, h, f);
    StepHolds(Heard(h).buffer, Heard(h).level, f);
    assert Heard(h).groups + [] == Heard(h).groups;
  }

  lemma StepHolds(buffer: string, level: Level, f: Fragment)
    requires !EndsLine(f.text) && (f.level == Cont || buffer == []) && Contains(f.text, Phrase)
    ensures var s := Step(buffer, level, f); s.groups == [] && Contains(s.buffer, Phrase)
  {
    var i :| 0 <= i <= |f.text| && OccursAt(f.text, Phrase, i);
    var b := buffer + f.text;
    assert b[|buffer| + i..|buffer| + i + |Phrase|] == f.text[i..i + |Phrase|];
    assert OccursAt(b, Phrase, |buffer| + i);
  }

  class Logger {
    var logBuffer: string
    var logBufferLevel: Level
    var memorySlotError: bool
    var lines: seq<Line>               // what went to the application log
    ghost var heard: seq<Fragment>     // every fragment that came in
    ghost var flushed: seq<Group>      // every group that was flushed
    ghost var readAt: nat              // how many groups were flushed at the last read of the flag

    /** The object is where its fragments lead; the flag says whether a group flushed since
        the last read contains the phrase. */
    ghost predicate Valid()
      reads this
    {
      Stream(flushed, logBuffer, logBufferLevel) == Heard(heard) && Consistent()
    }

    ghost predicate Consistent()
      reads this`lines, this`flushed, this`readAt, this`memorySlotError
    {
      lines == LinesOf(flushed) && readAt <= |flushed| && (memorySlotError <==> SlotIn(flushed, readAt))
    }

    /** No report is unread and the pending text is innocent. */
    predicate Quiet()
      reads this`logBuffer, this`memorySlotError
    {
      !memorySlotError && Innocent(logBuffer, Phrase)
    }

    ghost function Now(): LogState
      reads this`heard, this`readAt
    {
      LogState(heard, readAt)
    }

    constructor ()
      ensures Valid() && heard == [] && readAt == 0 && !memorySlotError && lines == []
    {
      logBuffer, logBufferLevel, memorySlotError, lines := [], Info, false, [];
      heard, flushed, readAt := [], [], 0;
    }

    /** Reads the flag and clears it. */
    method WasMemorySlotError() returns (r: bool)
      requires Valid()
      modifies this`memorySlotError, this`readAt
      ensures Valid() && readAt == |flushed| && !memorySlotError
      ensures r == old(memorySlotError) && (r <==> Flag(old(Now())))
      ensures Now() == old(Now()).Read()
    {
      StreamIsBatch(heard);
      r := memorySlotError;
      memorySlotError := false;
      readAt := |flushed|;
    }

    /** Logs one group; `message` is its stripped text. */
    method FlushLogBuffer(message: string, level: Level, ghost raw: string)
      requires Consistent() && message == Stripped(raw)
      modifies this`memorySlotError, this`lines, this`flushed
      ensures Consistent() && flushed == old(flushed) + [Group(raw, level)]
      ensures memorySlotError <==> old(memorySlotError) || Contains(raw, "failed to find a memory slot")
      ensures message == [] ==> lines == old(lines)
      ensures message != [] ==>
        |lines| == |old(lines)| + 1 && lines[..|old(lines)|] == old(lines) &&
        IsLineOf(lines[|old(lines)|], message, level)
    {
      hide SlotIn, Contains, Stripped, LinesOf;
      LinesAppend(flushed, [Group(raw, level)]);
      SlotInOneMore(flushed, readAt, Group(raw, level));
      StrippingKeepsPhrase(raw);
      LineOfOne(raw, level);
      flushed := flushed + [Group(raw, level)];
      if message == [] {
        BlankHasNoPhrase();
        return;
      }
      var slot := Contains(message, Phrase);
      if slot { memorySlotError := true; }
      lines := lines + [Line(SeverityOf(level, message), message, slot)];
    }

    /** Logs what is in the buffer and empties it. */
    method EndMessage()
      requires Consistent() && logBuffer != []
      modifies this`logBuffer, this`memorySlotError, this`lines, this`flushed
      ensures Consistent() && logBuffer == []
      ensures flushed == old(flushed) + [Group(old(logBuffer), logBufferLevel)]
    {
      var message := StripTrailing(logBuffer);
      ghost var raw := logBuffer;
      logBuffer := [];
      FlushLogBuffer(message, logBufferLevel, raw);
    }

    method LogCallback(level: Level, text: CText)
      requires Valid()
      modifies this`logBuffer, this`logBufferLevel, this`memorySlotError, this`lines, this`heard, this`flushed
      ensures Valid()
      ensures heard == old(heard) + if text.Null? then [] else [Fragment(level, text.text)]
      ensures old(flushed) <= flushed
      ensures text.CString? ==> var t := text.text;
        var b := if level == Cont then old(logBuffer) + t else t;
        var ended := if level != Cont && old(logBuffer) != [] then [Group(old(logBuffer), old(logBufferLevel))] else [];
        logBufferLevel == (if level == Cont then old(logBufferLevel) else level) &&
        if b != [] && b[|b| - 1] == '\n' then
          logBuffer == [] && flushed == old(flushed) + ended + [Group(b, logBufferLevel)]
        else logBuffer == b && flushed == old(flushed) + ended
    {
      hide Run, Consistent, Stripped, LinesOf, SlotIn, Contains;
      if text.Null? { return; }
      var fragment := text.text;
      RunOneMore([], Info, heard, Fragment(level, fragment));
      ghost var step := Step(logBuffer, logBufferLevel, Fragment(level, fragment));
      heard := heard + [Fragment(level, fragment)];
      if level == Cont {
        logBuffer := logBuffer + fragment;
      } else {
        if logBuffer != [] { EndMessage(); }
        logBuffer := fragment;
        logBufferLevel := level;
      }
      if logBuffer != [] && logBuffer[|logBuffer| - 1] == '\n' {
        EndMessage();
      }
      assert flushed == old(flushed) + step.groups;
      assert Heard(heard) == step.After(old(flushed));
    }
  }

  /** What the object's fields say of its state. */
  lemma QuietIsClear(log: Logger)
    requires log.Valid()
    ensures Past(log.Now()) && (log.memorySlotError <==> Flag(log.Now())) && (log.Quiet() <==> Clear(log.Now()))
  {
    hide SlotIn, Innocent;
    StreamIsBatch(log.heard);
  }

  lemma LineOfOne(raw: string, level: Level)
    ensures var text := Stripped(raw);
      LinesOf([Group(raw, level)]) ==
        if text == [] then [] else [Line(SeverityOf(level, text), text, Contains(raw, Phrase))]
  {
    assert LinesOf([Group(raw, level)][1..]) == [];
  }

  lemma BlankHasNoPhrase()
    ensures !Contains([], Phrase)
  {
  }

  /** Everything a logger wrote is what the batch splitter finds in its fragments. */
  lemma LinesAreBatchLines(log: Logger)
    requires log.Valid()
    ensures log.lines == LinesOf(Batch(log.heard, Info))
    ensures log.memorySlotError <==> SlotIn(Batch(log.heard, Info), log.readAt)
    ensures RawOf(Batch(log.heard, Info)) + log.logBuffer == Raw(log.heard)
  {
    StreamIsBatch(log.heard);
    RunConserves([], Info, log.heard);
    assert [] + Raw(log.heard) == Raw(log.heard);
  }
}
