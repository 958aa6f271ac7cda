/** The streaming tag filter, proved to be the whole-text scanner of TagScanner under
    every tokenisation. */
module ThoughtFilter {
  import opened Bytes
  import opened TagScanner
  import opened Utf8

  /** One call of the emit callback. */
  datatype Event = Event(text: Text, kind: Label)

  /** What happened to a run of input bytes: emitted, or consumed as a tag. */
  datatype Piece = Emit(event: Event) | Consume(raw: Text)

  function Emits(pieces: seq<Piece>): seq<Event> {
    if pieces == [] then []
    else (if pieces[0].Emit? then [pieces[0].event] else []) + Emits(pieces[1..])
  }

  /** The labelled byte stream a list of events spells. */
  function Spell(events: seq<Event>): seq<Labelled> {
    if events == [] then [] else LabelAll(events[0].text, events[0].kind) + Spell(events[1..])
  }

  /** The input bytes the pieces came from. */
  function Unparse(pieces: seq<Piece>): Text {
    if pieces == [] then []
    else (if pieces[0].Emit? then pieces[0].event.text else pieces[0].raw) + Unparse(pieces[1..])
  }

  predicate GoodPiece(p: Piece) {
    match p
    case Emit(e) => e.text != []
    case Consume(raw) => IsTag(Lower(raw))
  }

  lemma PieceCons(p: Piece, rest: seq<Piece>)
    ensures Emits([p] + rest) == (if p.Emit? then [p.event] else []) + Emits(rest)
    ensures Unparse([p] + rest) == (if p.Emit? then p.event.text else p.raw) + Unparse(rest)
  {
    assert ([p] + rest)[1..] == rest;
  }

  lemma {:induction false} PiecesAppend(a: seq<Piece>, b: seq<Piece>)
    ensures Emits(a + b) == Emits(a) + Emits(b)
    ensures Unparse(a + b) == Unparse(a) + Unparse(b)
  {
    if a == [] {
      assert a + b == b;
    } else {
      hide Emits, Unparse;
      var p := a[0];
      assert a == [p] + a[1..];
      Assoc([p], a[1..], b);
      PieceCons(p, a[1..]);
      PieceCons(p, a[1..] + b);
      PiecesAppend(a[1..], b);
      Assoc(if p.Emit? then [p.event] else [], Emits(a[1..]), Emits(b));
      Assoc(if p.Emit? then p.event.text else p.raw, Unparse(a[1..]), Unparse(b));
    }
  }

  lemma {:induction false} SpellAppend(a: seq<Event>, b: seq<Event>)
    ensures Spell(a + b) == Spell(a) + Spell(b)
  {
    if a == [] {
      assert a + b == b;
    } else {
      assert (a + b)[1..] == a[1..] + b;
      SpellAppend(a[1..], b);
    }
  }

  // ---- The specification of one pass over the buffer -------------------------------------

  /** What a pass produced, and the buffer and mode it left. */
  datatype Outcome = Outcome(pieces: seq<Piece>, buffer: Text, mode: Mode) {
    function After(done: seq<Piece>): Outcome {
      this.(pieces := done + pieces)
    }
  }

  function FindLt(s: Text): (k: nat)
    ensures k <= |s| && (forall i :: 0 <= i < k ==> s[i] != LT) && (k < |s| ==> s[k] == LT)
  {
    if s == [] || s[0] == LT then 0 else 1 + FindLt(s[1..])
  }

  /** The pass is over: nothing is left, or the buffer is a tag or may become one. */
  predicate Settled(buffer: Text) {
    buffer == [] || (buffer[0] == LT && (IsTag(Lower(buffer)) || IsPartial(Lower(buffer))))
  }

  /** How many bytes are emitted at once: all up to the next `<`, or a lone `<`. */
  function Cut(buffer: Text): (k: nat)
    requires buffer != []
    ensures 0 < k <= |buffer|
    ensures forall i :: 0 <= i < k && buffer[i] == LT ==> i == 0 && k == 1
    ensures k < |buffer| && buffer[0] != LT ==> buffer[k] == LT
  {
    if buffer[0] != LT then FindLt(buffer) else 1
  }

  function Process(buffer: Text, m: Mode): Outcome
    decreases |buffer|
  {
    if !Settled(buffer) then
      var k := Cut(buffer);
      Process(buffer[k..], m).After([Emit(Event(buffer[..k], CurrentType(m)))])
    else if IsTag(Lower(buffer)) then Outcome([Consume(buffer)], [], Enter(Lower(buffer), m))
    else Outcome([], buffer, m)
  }

  /** The buffers that can be held back between tokens. */
  predicate Held(buffer: Text) {
    buffer == [] || IsPartial(Lower(buffer))
  }

  lemma {:induction false} ProcessHolds(buffer: Text, m: Mode)
    ensures Held(Process(buffer, m).buffer) && forall q :: q in Process(buffer, m).pieces ==> GoodPiece(q)
    decreases |buffer|
  {
    hide IsTag, Lower;
    if !Settled(buffer) {
      ProcessHolds(buffer[Cut(buffer)..], m);
      assert buffer[..Cut(buffer)] != [];
    }
  }

  lemma EmitConserves(text: Text, l: Label, q: Outcome, rest: Text)
    requires Unparse(q.pieces) + q.buffer == rest
    ensures Unparse(q.After([Emit(Event(text, l))]).pieces) + q.buffer == text + rest
  {
    PieceCons(Emit(Event(text, l)), q.pieces);
    Assoc(text, Unparse(q.pieces), q.buffer);
  }

  lemma {:induction false} ProcessConserves(buffer: Text, m: Mode)
    ensures var p := Process(buffer, m); Unparse(p.pieces) + p.buffer == buffer
    decreases |buffer|
  {
    hide IsTag, IsPartial, Lower, Held, Process, Unparse;
    if !Settled(buffer) {
      var k := Cut(buffer);
      ProcessConserves(buffer[k..], m);
      EmitConserves(buffer[..k], CurrentType(m), Process(buffer[k..], m), buffer[k..]);
      ProcessGoesOn(buffer, m);
    } else {
      SettledConserves(buffer, m);
    }
  }

  lemma ProcessGoesOn(buffer: Text, m: Mode)
    requires !Settled(buffer)
    ensures var k := Cut(buffer);
      Process(buffer, m) == Process(buffer[k..], m).After([Emit(Event(buffer[..k], CurrentType(m)))])
  {
  }

  lemma SettledConserves(buffer: Text, m: Mode)
    requires Settled(buffer)
    ensures var p := Process(buffer, m); Unparse(p.pieces) + p.buffer == buffer
  {
    PieceCons(Consume(buffer), []);
  }

  /** A held buffer that gets no new bytes stays as it is. */
  lemma ProcessHeld(buffer: Text, m: Mode)
    requires Held(buffer)
    ensures Process(buffer, m) == Outcome([], buffer, m)
  {
    if buffer != [] {
      PartialOnce(buffer);
      PartialShape(Lower(buffer));
    }
  }

  // ---- One pass is a stretch of the scanner ------------------------------------------------

  lemma {:induction false} ProcessScans(buffer: Text, m: Mode, s: seq<Mark>)
    ensures var p := Process(buffer, m);
      Scan(MarkToken(buffer) + s, m) == Spell(Emits(p.pieces)) + Scan(Unmarked(p.buffer) + s, p.mode)
    decreases |buffer|
  {
    hide Scan, IsTag, IsPartial, Lower;
    if Settled(buffer) {
      SettledScans(buffer, m, s);
    } else {
      var k := Cut(buffer);
      var q := Process(buffer[k..], m);
      ScanEmits(buffer, m, s);
      ProcessScans(buffer[k..], m, s);
      SpellFirst(buffer[..k], CurrentType(m), q.pieces);
      Assoc(LabelAll(buffer[..k], CurrentType(m)), Spell(Emits(q.pieces)), Scan(Unmarked(q.buffer) + s, q.mode));
    }
  }

  lemma SettledScans(buffer: Text, m: Mode, s: seq<Mark>)
    requires Settled(buffer)
    ensures var p := Process(buffer, m);
      Scan(MarkToken(buffer) + s, m) == Spell(Emits(p.pieces)) + Scan(Unmarked(p.buffer) + s, p.mode)
  {
    if buffer == [] {
      assert MarkToken(buffer) == Unmarked(buffer);
    } else if IsTag(Lower(buffer)) {
      ScanConsumes(buffer, m, s);
      PieceCons(Consume(buffer), []);
    } else {
      assert BytesOf(MarkToken(buffer)) == buffer == BytesOf(Unmarked(buffer));
      ScanHeld(MarkToken(buffer), Unmarked(buffer), s, m);
    }
  }

  lemma SpellFirst(text: Text, l: Label, rest: seq<Piece>)
    ensures Spell(Emits([Emit(Event(text, l))] + rest)) == LabelAll(text, l) + Spell(Emits(rest))
  {
    PieceCons(Emit(Event(text, l)), rest);
    assert ([Event(text, l)] + Emits(rest))[1..] == Emits(rest);
  }

  lemma ScanConsumes(buffer: Text, m: Mode, s: seq<Mark>)
    requires IsTag(Lower(buffer))
    ensures Scan(MarkToken(buffer) + s, m) == Scan(s, Enter(Lower(buffer), m))
    ensures s == Unmarked([]) + s
  {
    hide IsTag, TagAt, Enter;
    var w := MarkToken(buffer) + s;
    TagShape(Lower(buffer));
    assert BytesOf(w)[..|buffer|] == buffer;
    TagAtIsUnique(BytesOf(w), Lower(buffer));
    assert w[|buffer|..] == s;
  }

  /** The bytes a pass emits at once are emitted by the scanner too. */
  lemma ScanEmits(buffer: Text, m: Mode, s: seq<Mark>)
    requires !Settled(buffer)
    ensures var k := Cut(buffer);
      Scan(MarkToken(buffer) + s, m) == LabelAll(buffer[..k], CurrentType(m)) + Scan(MarkToken(buffer[k..]) + s, m)
  {
    var k := Cut(buffer);
    var w, rest := MarkToken(buffer)[..k], MarkToken(buffer[k..]) + s;
    assert MarkToken(buffer) + s == w + rest;
    assert BytesOf(w + rest) == buffer + BytesOf(s);
    assert BytesOf(w) == buffer[..k];
    if buffer[0] != LT {
      NoTagWithoutLt(BytesOf(w + rest));
    } else if TagAt(BytesOf(w + rest)) != [] {
      TagBeyondBuffer(buffer, BytesOf(s));
    }
    ScanFront(w, rest, m);
  }

  lemma PrefixIsPartial(p: Text, t: Text)
    requires IsTag(t) && p != [] && p < t
    ensures IsPartial(p)
  {
  }

  /** A tag that occurs at the front of a buffer that is no tag and no partial tag ends
      strictly inside the buffer. */
  lemma TagBeyondBuffer(buffer: Text, s: Text)
    requires TagAt(buffer + s) != [] && buffer != [] && !IsTag(Lower(buffer)) && !IsPartial(Lower(buffer))
    ensures |TagAt(buffer + s)| < |buffer|
  {
    hide TagAt, IsTag, IsPartial;
    var t := TagAt(buffer + s);
    var n := if |t| < |buffer| then |t| else |buffer|;
    assert (buffer + s)[..|t|][..n] == buffer[..n];
    LowerSlice((buffer + s)[..|t|], n);
    LowerSlice(buffer, n);
    assert Lower(buffer)[..n] == t[..n];
    if |t| > |buffer| { PrefixIsPartial(Lower(buffer), t); }
  }

  // ---- Feeding tokens ------------------------------------------------------------------------

  function FeedAll(buffer: Text, m: Mode, tokens: seq<Text>): Outcome
    decreases |tokens|
  {
    if tokens == [] then Outcome([], buffer, m)
    else
      var p := Process(buffer + tokens[0], m);
      FeedAll(p.buffer, p.mode, tokens[1..]).After(p.pieces)
  }

  /** A fresh filter that was fed the tokens. */
  function Fed(tokens: seq<Text>): Outcome {
    FeedAll([], Start, tokens)
  }

  function FlushPieces(p: Outcome): seq<Piece> {
    if p.buffer == [] then [] else [Emit(Event(p.buffer, CurrentType(p.mode)))]
  }

  /** Everything a fresh filter emits for the tokens when it is flushed at the end. */
  function Emitted(tokens: seq<Text>): seq<Event> {
    Emits(Fed(tokens).pieces + FlushPieces(Fed(tokens)))
  }

  lemma {:induction false} FeedOneMore(buffer: Text, m: Mode, tokens: seq<Text>, token: Text)
    ensures var p := FeedAll(buffer, m, tokens);
      FeedAll(buffer, m, tokens + [token]) == Process(p.buffer + token, p.mode).After(p.pieces)
    decreases |tokens|
  {
    var all := tokens + [token];
    if tokens == [] {
      assert all[1..] == [];
    } else {
      assert all[1..] == tokens[1..] + [token];
      var p := Process(buffer + tokens[0], m);
      FeedOneMore(p.buffer, p.mode, tokens[1..], token);
      var q := FeedAll(p.buffer, p.mode, tokens[1..]);
      var last := Process(q.buffer + token, q.mode);
      assert p.pieces + (q.pieces + last.pieces) == (p.pieces + q.pieces) + last.pieces;
    }
  }

  lemma {:induction false} FeedHolds(buffer: Text, m: Mode, tokens: seq<Text>)
    requires Held(buffer)
    ensures var p := FeedAll(buffer, m, tokens); Held(p.buffer) && forall q :: q in p.pieces ==> GoodPiece(q)
    decreases |tokens|
  {
    hide Process, Held;
    if tokens != [] {
      var p := Process(buffer + tokens[0], m);
      ProcessHolds(buffer + tokens[0], m);
      FeedHolds(p.buffer, p.mode, tokens[1..]);
    }
  }

  lemma {:induction false} FeedConserves(buffer: Text, m: Mode, tokens: seq<Text>)
    ensures var p := FeedAll(buffer, m, tokens); Unparse(p.pieces) + p.buffer == buffer + Join(tokens)
    decreases |tokens|
  {
    hide Process;
    if tokens != [] {
      var p := Process(buffer + tokens[0], m);
      var q := FeedAll(p.buffer, p.mode, tokens[1..]);
      ProcessConserves(buffer + tokens[0], m);
      FeedConserves(p.buffer, p.mode, tokens[1..]);
      PiecesAppend(p.pieces, q.pieces);
      Assoc(Unparse(p.pieces), Unparse(q.pieces), q.buffer);
      Assoc(Unparse(p.pieces), p.buffer, Join(tokens[1..]));
      Assoc(buffer, tokens[0], Join(tokens[1..]));
    }
  }

  /** The emitted texts, the consumed tags and the buffer give back the bytes fed, in
      order; every consumed run is a tag, and the buffer is empty or a partial tag. */
  lemma NothingIsLost(tokens: seq<Text>)
    ensures var p := Fed(tokens);
      Unparse(p.pieces) + p.buffer == Join(tokens) &&
      Held(p.buffer) && |p.buffer| <= 11 && (forall q :: q in p.pieces ==> GoodPiece(q))
  {
    FeedHolds([], Start, tokens);
    FeedConserves([], Start, tokens);
    if Fed(tokens).buffer != [] { PartialOnce(Fed(tokens).buffer); }
  }

  lemma {:induction false} FeedScans(buffer: Text, m: Mode, tokens: seq<Text>)
    requires Held(buffer)
    ensures var p := FeedAll(buffer, m, tokens);
      Scan(Unmarked(buffer) + MarkAll(tokens), m) == Spell(Emits(p.pieces)) + Scan(Unmarked(p.buffer), p.mode)
    decreases |tokens|
  {
    hide Process, Held, Scan;
    if tokens == [] {
      assert Unmarked(buffer) + [] == Unmarked(buffer);
    } else {
      var p := Process(buffer + tokens[0], m);
      var q := FeedAll(p.buffer, p.mode, tokens[1..]);
      MarkedBuffer(buffer, tokens, m);
      ProcessHolds(buffer + tokens[0], m);
      ProcessScans(buffer + tokens[0], m, MarkAll(tokens[1..]));
      FeedScans(p.buffer, p.mode, tokens[1..]);
      PiecesAppend(p.pieces, q.pieces);
      SpellAppend(Emits(p.pieces), Emits(q.pieces));
      Assoc(Spell(Emits(p.pieces)), Spell(Emits(q.pieces)), Scan(Unmarked(q.buffer), q.mode));
    }
  }

  lemma MarkedBuffer(buffer: Text, tokens: seq<Text>, m: Mode)
    requires Held(buffer) && tokens != []
    ensures Scan(Unmarked(buffer) + MarkAll(tokens), m) == Scan(MarkToken(buffer + tokens[0]) + MarkAll(tokens[1..]), m)
  {
    hide IsTag, IsPartial, Lower, Scan;
    var t, rest := tokens[0], MarkAll(tokens[1..]);
    Assoc(Unmarked(buffer), MarkToken(t), rest);
    if t == [] && buffer != [] {
      assert buffer + t == buffer && Unmarked(buffer) + MarkToken(t) == Unmarked(buffer);
      assert BytesOf(MarkToken(buffer)) == buffer == BytesOf(Unmarked(buffer));
      ScanHeld(MarkToken(buffer), Unmarked(buffer), rest, m);
    } else {
      assert MarkToken(buffer + t) == Unmarked(buffer) + MarkToken(t);
    }
  }

  // ---- Main results ------------------------------------------------------------------------------

  /** For every tokenisation, the streaming filter is the whole-text scanner. */
  lemma StreamIsScan(tokens: seq<Text>)
    ensures Spell(Emitted(tokens)) == Scan(MarkAll(tokens), Start)
  {
    hide FeedAll, Scan, Process;
    var p := Fed(tokens);
    FeedScans([], Start, tokens);
    FeedHolds([], Start, tokens);
    assert Unmarked([]) + MarkAll(tokens) == MarkAll(tokens);
    PiecesAppend(p.pieces, FlushPieces(p));
    SpellAppend(Emits(p.pieces), Emits(FlushPieces(p)));
    ScanFlush(p.buffer, p.mode);
    if p.buffer != [] {
      var e := Event(p.buffer, CurrentType(p.mode));
      assert Spell([e]) == LabelAll(e.text, e.kind) + Spell([]);
      assert Emits([Emit(e)]) == [e] + Emits([]);
    }
  }

  /** The filter is the ideal tag stripper exactly when every tag occurrence of the text
      ends at the end of a token. */
  lemma StreamIsIdeal(tokens: seq<Text>)
    ensures Spell(Emitted(tokens)) == Strip(Join(tokens), Start) <==> TagsCloseTokens(MarkAll(tokens))
  {
    StreamIsScan(tokens);
    MarkAllBytes(tokens);
    ScanEmitsMore(MarkAll(tokens), Start, Start);
    if TagsCloseTokens(MarkAll(tokens)) { ScanIsStrip(MarkAll(tokens), Start); }
  }

  /** Two such tokenisations of one text give the same stream. */
  lemma ChunkingIsIrrelevant(a: seq<Text>, b: seq<Text>)
    requires Join(a) == Join(b) && TagsCloseTokens(MarkAll(a)) && TagsCloseTokens(MarkAll(b))
    ensures Spell(Emitted(a)) == Spell(Emitted(b))
  {
    StreamIsIdeal(a);
    StreamIsIdeal(b);
  }

  /** One byte per token. */
  function Singles(x: Text): seq<Text> {
    seq(|x|, i requires 0 <= i < |x| => [x[i]])
  }

  lemma {:induction false} SinglesEnd(x: Text)
    ensures MarkAll(Singles(x)) == seq(|x|, i requires 0 <= i < |x| => Mark(x[i], true))
  {
    if x != [] {
      assert Singles(x)[1..] == Singles(x[1..]);
      SinglesEnd(x[1..]);
      assert MarkToken([x[0]]) == [Mark(x[0], true)];
    }
  }

  /** Fed one byte at a time, the filter is ideal on every text. */
  lemma BytewiseIsIdeal(x: Text)
    ensures Spell(Emitted(Singles(x))) == Strip(x, Start)
  {
    SinglesEnd(x);
    MarkAllBytes(Singles(x));
    assert BytesOf(MarkAll(Singles(x))) == x;
    StreamIsIdeal(Singles(x));
  }

  /** A text without tags passes unchanged, as content, however it is cut. */
  lemma NoTagsNoChange(tokens: seq<Text>)
    requires forall i :: 0 <= i < |Join(tokens)| ==> TagAt(Join(tokens)[i..]) == []
    ensures Spell(Emitted(tokens)) == LabelAll(Join(tokens), Content)
  {
    hide Emitted, Spell, Strip, TagAt;
    var s := MarkAll(tokens);
    MarkAllBytes(tokens);
    assert forall i :: 0 <= i < |s| ==> BytesOf(s[i..]) == Join(tokens)[i..];
    StreamIsIdeal(tokens);
    StripWithoutTags(Join(tokens), Start);
  }

  lemma {:induction false} StripWithoutTags(x: Text, m: Mode)
    requires forall i :: 0 <= i < |x| ==> TagAt(x[i..]) == []
    ensures Strip(x, m) == LabelAll(x, CurrentType(m))
    decreases |x|
  {
    if x != [] {
      assert x[0..] == x;
      forall i | 0 <= i < |x[1..]| ensures TagAt(x[1..][i..]) == [] {
        assert x[1..][i..] == x[1 + i..];
      }
      StripWithoutTags(x[1..], m);
      assert LabelAll(x, CurrentType(m)) == [Labelled(x[0], CurrentType(m))] + LabelAll(x[1..], CurrentType(m));
    }
  }

  /** The stream does depend on the tokens: a tag and a further byte in one token are
      emitted literally, while the tag as a token of its own is consumed and changes the
      label of that byte. */
  lemma ChunkingMatters(t: Text, b: Byte)
    requires IsTag(t) && b != LT
    ensures Join([t + [b]]) == Join([t, [b]])
    ensures Spell(Emitted([t + [b]])) == LabelAll(t + [b], Content)
    ensures Spell(Emitted([t, [b]])) == [Labelled(b, CurrentType(Enter(t, Start)))]
  {
    JoinOne(t + [b]);
    JoinOne([b]);
    JoinAppend([t], [[b]]);
    JoinOne(t);
    assert [t] + [[b]] == [t, [b]];
    LiteralTag(t, [b]);
    ConsumedTag(t, [b]);
  }

  lemma MarkOne(x: Text)
    ensures MarkAll([x]) == MarkToken(x)
  {
    assert MarkAll([x]) == MarkToken(x) + MarkAll([]);
  }

  lemma LiteralTag(t: Text, a: Text)
    requires IsTag(t) && |a| == 1 && a[0] != LT
    ensures Spell(Emitted([t + a])) == LabelAll(t + a, Content)
  {
    hide IsTag, IsPartial, TagAt, Emitted;
    var s := MarkToken(t + a);
    StreamIsScan([t + a]);
    MarkOne(t + a);
    assert BytesOf(s) == t + a && (t + a)[..|t|] == t;
    TagIsLower(t);
    TagAtIsUnique(t + a, t);
    TagShape(t);
    assert s + [] == s;
    ScanFront(s, [], Start);
  }

  lemma ConsumedTag(t: Text, a: Text)
    requires IsTag(t) && |a| == 1 && a[0] != LT
    ensures Spell(Emitted([t, a])) == [Labelled(a[0], CurrentType(Enter(t, Start)))]
  {
    hide IsTag, IsPartial, TagAt, Emitted, Enter;
    var s := MarkToken(a);
    StreamIsScan([t, a]);
    MarkOne(a);
    assert [t, a][1..] == [a];
    TagIsLower(t);
    ScanConsumes(t, Start, s);
    ScanPast(s, [], Enter(t, Start));
    assert s + [] == s && BytesOf(s) == a;
  }

  // ---- What the labels say ------------------------------------------------------------------------

  predicate ConsumedAt(pieces: seq<Piece>, i: nat, name: string) {
    i < |pieces| && pieces[i].Consume? && Spells(pieces[i].raw, name)
  }

  /** Before piece `n`, a tag spelt `open` or `open2` was consumed, and since then none spelt
      `close` or `close2`. */
  predicate IsOpen(pieces: seq<Piece>, n: nat, open: string, open2: string, close: string, close2: string)
    requires n <= |pieces|
  {
    exists i :: 0 <= i < n && (ConsumedAt(pieces, i, open) || ConsumedAt(pieces, i, open2)) &&
      forall j :: i < j < n ==> !ConsumedAt(pieces, j, close) && !ConsumedAt(pieces, j, close2)
  }

  /** The last tool tag consumed before piece `n` is an opening one. */
  predicate InToolAt(pieces: seq<Piece>, n: nat)
    requires n <= |pieces|
  {
    IsOpen(pieces, n, "<tool_call>", "<tool_call>", "</tool_call>", "</tool_call>")
  }

  /** The last think or thought tag consumed before piece `n` is an opening one. */
  predicate InThoughtAt(pieces: seq<Piece>, n: nat)
    requires n <= |pieces|
  {
    IsOpen(pieces, n, "<think>", "<thought>", "</think>", "</thought>")
  }

  /** Each emitted text has the label that the consumed tags before it call for: that of a
      tool call first, then that of a thought. */
  predicate LabelsAreRight(pieces: seq<Piece>) {
    forall i :: 0 <= i < |pieces| && pieces[i].Emit? ==>
      pieces[i].event.kind ==
        if InToolAt(pieces, i) then ToolCall else if InThoughtAt(pieces, i) then Thought else Content
  }

  /** `m` is the mode after the pieces, and each of them got its label. */
  predicate Labels(pieces: seq<Piece>, m: Mode) {
    LabelsAreRight(pieces) && (m.inToolCall <==> InToolAt(pieces, |pieces|)) &&
    (m.inThought <==> InThoughtAt(pieces, |pieces|))
  }

  lemma IsOpenPrefix(pieces: seq<Piece>, p: Piece, n: nat, open: string, open2: string, close: string, close2: string)
    requires n <= |pieces|
    ensures IsOpen(pieces + [p], n, open, open2, close, close2) <==> IsOpen(pieces, n, open, open2, close, close2)
  {
    var all := pieces + [p];
    assert forall i: nat, name :: i < n ==> (ConsumedAt(all, i, name) <==> ConsumedAt(pieces, i, name));
  }

  lemma IsOpenOneMore(pieces: seq<Piece>, p: Piece, open: string, open2: string, close: string, close2: string)
    requires forall s :: Spells(s, open) || Spells(s, open2) ==> !Spells(s, close) && !Spells(s, close2)
    ensures var all := pieces + [p];
      IsOpen(all, |all|, open, open2, close, close2) <==>
        if ConsumedAt(all, |pieces|, open) || ConsumedAt(all, |pieces|, open2) then true
        else if ConsumedAt(all, |pieces|, close) || ConsumedAt(all, |pieces|, close2) then false
        else IsOpen(pieces, |pieces|, open, open2, close, close2)
  {
    hide Spells;
    var all, n := pieces + [p], |pieces|;
    IsOpenPrefix(pieces, p, n, open, open2, close, close2);
    if IsOpen(all, n, open, open2, close, close2) {
      var i :| 0 <= i < n && (ConsumedAt(all, i, open) || ConsumedAt(all, i, open2)) &&
        forall j :: i < j < n ==> !ConsumedAt(all, j, close) && !ConsumedAt(all, j, close2);
      assert ConsumedAt(all, n, close) || ConsumedAt(all, n, close2) || IsOpen(all, n + 1, open, open2, close, close2);
    }
  }
  lemma LabelsOneMore(pieces: seq<Piece>, m: Mode, p: Piece)
    requires Labels(pieces, m)
    requires if p.Emit? then p.event.kind == CurrentType(m) else IsTag(Lower(p.raw))
    ensures Labels(pieces + [p], if p.Emit? then m else Enter(Lower(p.raw), m))
  {
    var all, n := pieces + [p], |pieces|;
    IsOpenOneMore(pieces, p, "<tool_call>", "<tool_call>", "</tool_call>", "</tool_call>");
    IsOpenOneMore(pieces, p, "<think>", "<thought>", "</think>", "</thought>");
    if p.Consume? { FoldedExactly(p.raw); }
    hide Spells, Lower, IsOpen, IsTag;
    forall i | 0 <= i < |all| && all[i].Emit?
      ensures all[i].event.kind ==
        if InToolAt(all, i) then ToolCall else if InThoughtAt(all, i) then Thought else Content
    {
      IsOpenPrefix(pieces, p, i, "<tool_call>", "<tool_call>", "</tool_call>", "</tool_call>");
      IsOpenPrefix(pieces, p, i, "<think>", "<thought>", "</think>", "</thought>");
      assert i < n ==> all[i] == pieces[i];
    }
  }

  lemma {:induction false} ProcessLabels(done: seq<Piece>, buffer: Text, m: Mode)
    requires Labels(done, m)
    ensures var p := Process(buffer, m); Labels(done + p.pieces, p.mode)
    decreases |buffer|
  {
    hide Labels, IsTag, IsPartial, Lower, CurrentType, Enter;
    if !Settled(buffer) {
      var k := Cut(buffer);
      var e := Emit(Event(buffer[..k], CurrentType(m)));
      LabelsOneMore(done, m, e);
      ProcessLabels(done + [e], buffer[k..], m);
      Assoc(done, [e], Process(buffer[k..], m).pieces);
    } else if IsTag(Lower(buffer)) {
      LabelsOneMore(done, m, Consume(buffer));
    } else {
      assert done + [] == done;
    }
  }

  lemma {:induction false} FeedLabels(done: seq<Piece>, buffer: Text, m: Mode, tokens: seq<Text>)
    requires Labels(done, m)
    ensures var p := FeedAll(buffer, m, tokens); Labels(done + p.pieces, p.mode)
    decreases |tokens|
  {
    hide Labels, Process;
    if tokens == [] {
      assert done + [] == done;
    } else {
      var p := Process(buffer + tokens[0], m);
      ProcessLabels(done, buffer + tokens[0], m);
      FeedLabels(done + p.pieces, p.buffer, p.mode, tokens[1..]);
      Assoc(done, p.pieces, FeedAll(p.buffer, p.mode, tokens[1..]).pieces);
    }
  }

  /** Over any tokens and the final flush, a text is labelled a tool call exactly if the last
      tool tag consumed before it is an opening one; otherwise a thought exactly if the last
      think or thought tag consumed before it is an opening one; otherwise content. */
  lemma LabelsExactly(tokens: seq<Text>)
    ensures LabelsAreRight(Fed(tokens).pieces) && LabelsAreRight(Fed(tokens).pieces + FlushPieces(Fed(tokens)))
  {
    hide FeedAll, LabelsAreRight, InToolAt, InThoughtAt;
    var p := Fed(tokens);
    NothingIsLabelled();
    FeedLabels([], [], Start, tokens);
    assert [] + p.pieces == p.pieces;
    if p.buffer == [] {
      assert p.pieces + [] == p.pieces;
    } else {
      LabelsOneMore(p.pieces, p.mode, Emit(Event(p.buffer, CurrentType(p.mode))));
    }
  }

  lemma NothingIsLabelled()
    ensures Labels([], Start)
  {
  }

  // ---- Emitted texts are non-empty and stay structurally well-formed ------------------------------

  /** The cuts lie beside a `<` or at the end of the buffer. */
  lemma CutIsBesideAscii(buffer: Text)
    requires buffer != [] && WellFormed(buffer)
    ensures WellFormed(buffer[..Cut(buffer)]) && WellFormed(buffer[Cut(buffer)..])
  {
    var k := Cut(buffer);
    if buffer[0] == LT {
      WellFormedBesideAscii(buffer, 0);
    } else if k < |buffer| {
      WellFormedBesideAscii(buffer, k);
    } else {
      assert buffer[..k] == buffer && buffer[k..] == [];
    }
  }

  lemma {:induction false} ProcessCutsWell(buffer: Text, m: Mode)
    requires WellFormed(buffer)
    ensures forall e :: e in Emits(Process(buffer, m).pieces) ==> e.text != [] && WellFormed(e.text)
    decreases |buffer|
  {
    hide WellFormed, IsTag, IsPartial, Lower;
    if Settled(buffer) {
      PieceCons(Consume(buffer), []);
    } else {
      var k := Cut(buffer);
      CutIsBesideAscii(buffer);
      ProcessCutsWell(buffer[k..], m);
      PieceCons(Emit(Event(buffer[..k], CurrentType(m))), Process(buffer[k..], m).pieces);
    }
  }

  lemma {:induction false} FeedCutsWell(buffer: Text, m: Mode, tokens: seq<Text>)
    requires Held(buffer) && forall t :: t in tokens ==> WellFormed(t)
    ensures forall e :: e in Emits(FeedAll(buffer, m, tokens).pieces) ==> e.text != [] && WellFormed(e.text)
    decreases |tokens|
  {
    hide Process, Held, WellFormed;
    if tokens != [] {
      HeldIsUtf8(buffer);
      WellFormedAppend(buffer, tokens[0]);
      var p := Process(buffer + tokens[0], m);
      ProcessCutsWell(buffer + tokens[0], m);
      ProcessHolds(buffer + tokens[0], m);
      FeedCutsWell(p.buffer, p.mode, tokens[1..]);
      PiecesAppend(p.pieces, FeedAll(p.buffer, p.mode, tokens[1..]).pieces);
    }
  }

  lemma HeldIsUtf8(buffer: Text)
    requires Held(buffer)
    ensures WellFormed(buffer) && IsUtf8(buffer)
  {
    if buffer != [] { PartialOnce(buffer); }
    AsciiIsUtf8(buffer);
  }

  /** Well-formed tokens give non-empty, well-formed texts only. */
  lemma EmittedIsWellFormed(tokens: seq<Text>)
    requires forall t :: t in tokens ==> WellFormed(t)
    ensures forall e :: e in Emitted(tokens) ==> e.text != [] && WellFormed(e.text)
  {
    var p := Fed(tokens);
    FeedCutsWell([], Start, tokens);
    FeedHolds([], Start, tokens);
    HeldIsUtf8(p.buffer);
    PiecesAppend(p.pieces, FlushPieces(p));
  }

  // ---- Valid UTF-8 --------------------------------------------------------------------------------

  predicate AllUtf8(events: seq<Event>) {
    forall e :: e in events ==> IsUtf8(e.text)
  }

  lemma SettledIsUtf8(buffer: Text)
    requires Settled(buffer)
    ensures IsUtf8(buffer)
  {
    hide IsTag, IsPartial, Lower;
    if buffer != [] {
      if IsTag(Lower(buffer)) { TagShape(Lower(buffer)); } else { PartialOnce(buffer); }
      LowerIsAscii(buffer);
    }
    AsciiIsUtf8(buffer);
  }

  lemma LowerIsAscii(s: Text)
    ensures |Lower(s)| == |s| && forall k :: 0 <= k < |s| ==> (Lower(s)[k] < 0x80 <==> s[k] < 0x80)
  {
    assert forall k :: 0 <= k < |s| ==> Lower(s)[k] == LowerByte(s[k]);
  }

  /** A pass never cuts a sequence and never consumes one that is not ASCII, so it emits
      a range error exactly if the buffer has one. */
  lemma {:induction false} ProcessKeepsUtf8(buffer: Text, m: Mode)
    requires WellFormed(buffer)
    ensures AllUtf8(Emits(Process(buffer, m).pieces)) <==> IsUtf8(buffer)
    decreases |buffer|
  {
    hide WellFormed, IsUtf8, IsTag, IsPartial, Lower, Held, Process;
    if Settled(buffer) {
      SettledIsUtf8(buffer);
      SettledEmitsNothing(buffer, m);
    } else {
      var k := Cut(buffer);
      CutIsBesideAscii(buffer);
      ProcessKeepsUtf8(buffer[k..], m);
      assert buffer == buffer[..k] + buffer[k..];
      Utf8Append(buffer[..k], buffer[k..]);
      ProcessGoesOn(buffer, m);
      PieceCons(Emit(Event(buffer[..k], CurrentType(m))), Process(buffer[k..], m).pieces);
    }
  }

  lemma SettledEmitsNothing(buffer: Text, m: Mode)
    requires Settled(buffer)
    ensures Emits(Process(buffer, m).pieces) == []
  {
    PieceCons(Consume(buffer), []);
  }

  lemma {:induction false} FeedKeepsUtf8(buffer: Text, m: Mode, tokens: seq<Text>)
    requires Held(buffer) && forall t :: t in tokens ==> WellFormed(t)
    ensures AllUtf8(Emits(FeedAll(buffer, m, tokens).pieces)) <==> forall t :: t in tokens ==> IsUtf8(t)
    decreases |tokens|
  {
    hide Process, Held, WellFormed, IsUtf8;
    if tokens != [] {
      HeldIsUtf8(buffer);
      Utf8Append(buffer, tokens[0]);
      WellFormedAppend(buffer, tokens[0]);
      var p := Process(buffer + tokens[0], m);
      ProcessKeepsUtf8(buffer + tokens[0], m);
      ProcessHolds(buffer + tokens[0], m);
      FeedKeepsUtf8(p.buffer, p.mode, tokens[1..]);
      PiecesAppend(p.pieces, FeedAll(p.buffer, p.mode, tokens[1..]).pieces);
      assert tokens == [tokens[0]] + tokens[1..];
    }
  }

  /** For well-formed tokens, every emitted text is valid UTF-8 exactly when every token
      is. What the flush adds is always valid. */
  lemma EmittedIsUtf8(tokens: seq<Text>)
    requires forall t :: t in tokens ==> WellFormed(t)
    ensures AllUtf8(Emits(Fed(tokens).pieces)) <==> forall t :: t in tokens ==> IsUtf8(t)
    ensures AllUtf8(Emitted(tokens)) <==> forall t :: t in tokens ==> IsUtf8(t)
  {
    hide WellFormed, IsUtf8;
    var p := Fed(tokens);
    FeedKeepsUtf8([], Start, tokens);
    FeedHolds([], Start, tokens);
    HeldIsUtf8(p.buffer);
    PiecesAppend(p.pieces, FlushPieces(p));
  }

  // ---- A callback that may throw --------------------------------------------------------------------

  /** The events up to the first whose text the callback throws at. */
  function Accepted(events: seq<Event>, accepts: Text -> bool): (r: seq<Event>)
    ensures r <= events && forall e :: e in r ==> accepts(e.text)
    ensures |r| < |events| ==> !accepts(events[|r|].text)
  {
    if events == [] || !accepts(events[0].text) then []
    else [events[0]] + Accepted(events[1..], accepts)
  }

  predicate AllAccepted(events: seq<Event>, accepts: Text -> bool) {
    forall e :: e in events ==> accepts(e.text)
  }

  lemma {:induction false} AcceptedAppend(a: seq<Event>, b: seq<Event>, accepts: Text -> bool)
    ensures Accepted(a + b, accepts) ==
      if AllAccepted(a, accepts) then a + Accepted(b, accepts) else Accepted(a, accepts)
    ensures Accepted(a, accepts) == a <==> AllAccepted(a, accepts)
  {
    if a == [] {
      assert a + b == b;
    } else {
      assert (a + b)[1..] == a[1..] + b && a == [a[0]] + a[1..];
      AcceptedAppend(a[1..], b, accepts);
      Assoc([a[0]], a[1..], Accepted(b, accepts));
    }
  }

  lemma FlushAccepted(tokens: seq<Text>, accepts: Text -> bool)
    requires AllAccepted(Emits(Fed(tokens).pieces), accepts)
    ensures var p := Fed(tokens); var e := Event(p.buffer, CurrentType(p.mode));
      Emitted(tokens) == Emits(p.pieces) + (if p.buffer == [] then [] else [e]) &&
      if p.buffer != [] && !accepts(p.buffer) then
        Accepted(Emitted(tokens), accepts) == Emits(p.pieces) && !AllAccepted(Emitted(tokens), accepts)
      else
        Accepted(Emitted(tokens), accepts) == Emitted(tokens) && AllAccepted(Emitted(tokens), accepts)
  {
    hide Fed;
    var p := Fed(tokens);
    var e := Event(p.buffer, CurrentType(p.mode));
    PiecesAppend(p.pieces, FlushPieces(p));
    PieceCons(Emit(e), []);
    AcceptedAppend(Emits(p.pieces), Emits(FlushPieces(p)), accepts);
    AcceptedAppend(Emits(FlushPieces(p)), [], accepts);
    assert p.buffer != [] ==> e in Emitted(tokens) && Accepted([e], accepts) == if accepts(e.text) then [e] else [];
  }

  // ---- The filter object -------------------------------------------------------------------------

  const OpenThoughtTags: seq<Text> := [ThinkOpen, ThoughtOpen]
  const CloseThoughtTags: seq<Text> := [ThinkClose, ThoughtClose]
  const OpenToolTags: seq<Text> := [ToolOpen]
  const CloseToolTags: seq<Text> := [ToolClose]

  datatype Verdict = Matched | Hold | NoMatch

  /** The four lists hold the six tags, with what each does to the flags. */
  lemma TagGroups(t: Text, m: Mode)
    ensures t in OpenThoughtTags ==> Enter(t, m) == m.(inThought := true)
    ensures t in CloseThoughtTags ==> Enter(t, m) == m.(inThought := false)
    ensures t in OpenToolTags ==> Enter(t, m) == m.(inToolCall := true)
    ensures t in CloseToolTags ==> Enter(t, m) == m.(inToolCall := false)
    ensures IsTag(t) <==> t in OpenThoughtTags || t in CloseThoughtTags || t in OpenToolTags || t in CloseToolTags
  {
    assert t in OpenThoughtTags <==> t == ThinkOpen || t == ThoughtOpen;
    assert t in CloseThoughtTags <==> t == ThinkClose || t == ThoughtClose;
  }

  /** What each spelling of a tag does to the flags. */
  lemma SpeltTags(s: Text, m: Mode)
    ensures Spells(s, "<think>") || Spells(s, "<thought>") ==>
      IsTag(Lower(s)) && Enter(Lower(s), m) == m.(inThought := true)
    ensures Spells(s, "</think>") || Spells(s, "</thought>") ==>
      IsTag(Lower(s)) && Enter(Lower(s), m) == m.(inThought := false)
    ensures Spells(s, "<tool_call>") ==> IsTag(Lower(s)) && Enter(Lower(s), m) == m.(inToolCall := true)
    ensures Spells(s, "</tool_call>") ==> IsTag(Lower(s)) && Enter(Lower(s), m) == m.(inToolCall := false)
    ensures IsTag(Lower(s)) ==>
      Spells(s, "<think>") || Spells(s, "<thought>") || Spells(s, "</think>") || Spells(s, "</thought>") ||
      Spells(s, "<tool_call>") || Spells(s, "</tool_call>")
  {
    FoldedExactly(s);
    hide Spells, Lower;
  }

  predicate Extends(p: Text, tags: seq<Text>) {
    exists t :: t in tags && p < t
  }

  lemma PartialGroups(p: Text)
    requires p != []
    ensures IsPartial(p) <==>
      Extends(p, OpenThoughtTags) || Extends(p, CloseThoughtTags) ||
      Extends(p, OpenToolTags) || Extends(p, CloseToolTags)
    ensures IsPartial(p) ==> !IsTag(p)
  {
    if IsPartial(p) { PartialShape(p); }
    assert ThinkOpen in OpenThoughtTags && ThoughtOpen in OpenThoughtTags;
    assert ThinkClose in CloseThoughtTags && ThoughtClose in CloseThoughtTags;
    assert ToolOpen in OpenToolTags && ToolClose in CloseToolTags;
  }

  /** One of the four tag loops: the first tag that equals the buffer or properly extends
      it decides. */
  method TryTags(lower: Text, tags: seq<Text>) returns (v: Verdict)
    ensures v.Matched? ==> lower in tags
    ensures v.Hold? ==> Extends(lower, tags)
    ensures v.NoMatch? ==> lower !in tags && !Extends(lower, tags)
  {
    for i := 0 to |tags|
      invariant forall j :: 0 <= j < i ==> lower != tags[j] && !(lower < tags[j])
    {
      var t := tags[i];
      if lower == t { return Matched; }
      if |lower| < |t| && t[..|lower|] == lower {
        assert t in tags && lower < t;
        return Hold;
      }
    }
    return NoMatch;
  }

  /** What is still to be emitted by a pass, after `acc` was. */
  ghost predicate Remains(goal: seq<Event>, last: Outcome, acc: seq<Event>, buffer: Text, m: Mode) {
    var p := Process(buffer, m);
    goal == acc + Emits(p.pieces) && p.buffer == last.buffer && p.mode == last.mode
  }

  lemma BeginPass(buffer: Text, m: Mode, accepts: Text -> bool)
    ensures Remains(Emits(Process(buffer, m).pieces), Process(buffer, m), [], buffer, m) && AllAccepted([], accepts)
  {
    assert [] + Emits(Process(buffer, m).pieces) == Emits(Process(buffer, m).pieces);
  }

  /** The next event either is delivered, or is the first that is not. */
  lemma EmitStep(goal: seq<Event>, last: Outcome, acc: seq<Event>, buffer: Text, m: Mode, accepts: Text -> bool)
    requires Remains(goal, last, acc, buffer, m) && !Settled(buffer) && AllAccepted(acc, accepts)
    ensures var k := Cut(buffer); var e := Event(buffer[..k], CurrentType(m));
      Remains(goal, last, acc + [e], buffer[k..], m) &&
      (accepts(e.text) ==> AllAccepted(acc + [e], accepts)) &&
      (!accepts(e.text) ==> Accepted(goal, accepts) == acc && !AllAccepted(goal, accepts))
  {
    ProcessGoesOn(buffer, m);
    hide IsTag, IsPartial, Lower, Process, Settled, Emits, CurrentType;
    var k := Cut(buffer);
    var e := Event(buffer[..k], CurrentType(m));
    var q := Process(buffer[k..], m);
    PieceCons(Emit(e), q.pieces);
    Assoc(acc, [e], Emits(q.pieces));
    AcceptedAppend(acc, [e] + Emits(q.pieces), accepts);
    assert acc + [] == acc && e in goal;
  }

  lemma ConsumeStep(goal: seq<Event>, last: Outcome, acc: seq<Event>, buffer: Text, m: Mode)
    requires Remains(goal, last, acc, buffer, m) && buffer != [] && buffer[0] == LT && IsTag(Lower(buffer))
    ensures Remains(goal, last, acc, [], Enter(Lower(buffer), m))
  {
    PieceCons(Consume(buffer), []);
    assert [Consume(buffer)] + [] == [Consume(buffer)] && acc + [] == acc;
  }

  lemma HoldStep(goal: seq<Event>, last: Outcome, acc: seq<Event>, buffer: Text, m: Mode, accepts: Text -> bool)
    requires Remains(goal, last, acc, buffer, m) && Held(buffer) && AllAccepted(acc, accepts)
    ensures goal == acc && buffer == last.buffer && m == last.mode
    ensures Accepted(goal, accepts) == acc && AllAccepted(goal, accepts)
  {
    ProcessHeld(buffer, m);
    AcceptedAppend(acc, [], accepts);
  }

  class Filter {
    var buffer: Text
    var inThought: bool
    var inToolCall: bool
    const accepts: Text -> bool      // whether the emit callback returns for a text, or throws
    var emitted: seq<Event>          // the calls of the emit callback that returned
    ghost var fed: seq<Text>         // the tokens fed so far

    ghost function CurrentMode(): Mode
      reads this
    {
      Mode(inThought, inToolCall)
    }

    /** The filter is where feeding its tokens leads, and no call has thrown. */
    ghost predicate Valid()
      reads this
    {
      var p := Fed(fed);
      buffer == p.buffer && CurrentMode() == p.mode && emitted == Emits(p.pieces) && AllAccepted(emitted, accepts)
    }

    constructor (accepts: Text -> bool)
      ensures Valid() && fed == [] && emitted == [] && buffer == [] && this.accepts == accepts
    {
      buffer, inThought, inToolCall := [], false, false;
      this.accepts := accepts;
      emitted, fed := [], [];
    }

    function Current(): Label
      reads this
    {
      if inToolCall then ToolCall else if inThought then Thought else Content
    }

    /** One call of the emit callback. */
    method Deliver(text: Text) returns (threw: bool)
      modifies this`emitted
      ensures threw <==> !accepts(text)
      ensures emitted == old(emitted) + if threw then [] else [Event(text, Current())]
    {
      if !accepts(text) { return true; }
      emitted := emitted + [Event(text, Current())];
      return false;
    }

    /** Feeds one token. If the callback throws, the exception ends the call; the events
        before it were delivered, and the filter is not used again. */
    method Feed(token: Text) returns (threw: bool)
      requires Valid()
      modifies this
      ensures fed == old(fed) + [token]
      ensures emitted == Accepted(Emits(Fed(fed).pieces), accepts) && old(emitted) <= emitted
      ensures threw <==> !AllAccepted(Emits(Fed(fed).pieces), accepts)
      ensures !threw ==> Valid() && Held(buffer) && |buffer| <= 11
      ensures token == [] ==>
        !threw && buffer == old(buffer) && emitted == old(emitted) && CurrentMode() == old(CurrentMode())
    {
      hide Process, FeedAll, Unparse, GoodPiece, Accepted, Held;
      ghost var before, p := emitted, Process(buffer + token, CurrentMode());
      NothingIsLost(fed);
      FeedOneMore([], Start, fed, token);
      NothingIsLost(fed + [token]);
      PiecesAppend(Fed(fed).pieces, p.pieces);
      AcceptedAppend(before, Emits(p.pieces), accepts);
      AcceptedAppend(Emits(p.pieces), [], accepts);
      if token == [] {
        assert buffer + token == buffer;
        ProcessHeld(buffer, CurrentMode());
      }
      buffer := buffer + token;
      fed := fed + [token];
      threw := ProcessBuffer();
    }

    /** After a flush the calls of the callback spell the scan of everything fed. */
    method Flush() returns (threw: bool)
      requires Valid()
      modifies this`buffer, this`emitted
      ensures emitted == Accepted(Emitted(fed), accepts)
      ensures threw <==> !AllAccepted(Emitted(fed), accepts)
      ensures !threw ==> buffer == [] && emitted == Emitted(fed) && Spell(emitted) == Scan(MarkAll(fed), Start)
      ensures emitted == old(emitted) + if threw || old(buffer) == [] then [] else [Event(old(buffer), Current())]
    {
      hide Fed, Scan, Spell, MarkAll, Accepted, AllAccepted, Emitted;
      FlushAccepted(fed, accepts);
      StreamIsScan(fed);
      if buffer != [] {
        threw := Deliver(buffer);
        if threw { return; }
        buffer := [];
      }
      threw := false;
    }

    /** The four tag loops, in the order of the source. */
    method MatchTag() returns (v: Verdict)
      requires buffer != []
      modifies this`buffer, this`inThought, this`inToolCall
      ensures v == Matched <==> IsTag(Lower(old(buffer)))
      ensures v == Hold <==> IsPartial(Lower(old(buffer)))
      ensures v == Matched ==> buffer == [] && CurrentMode() == Enter(Lower(old(buffer)), old(CurrentMode()))
      ensures v != Matched ==> buffer == old(buffer) && CurrentMode() == old(CurrentMode())
      ensures Spells(old(buffer), "<think>") || Spells(old(buffer), "<thought>") ==>
        v == Matched && inThought && inToolCall == old(inToolCall)
      ensures Spells(old(buffer), "</think>") || Spells(old(buffer), "</thought>") ==>
        v == Matched && !inThought && inToolCall == old(inToolCall)
      ensures Spells(old(buffer), "<tool_call>") ==> v == Matched && inToolCall && inThought == old(inThought)
      ensures Spells(old(buffer), "</tool_call>") ==> v == Matched && !inToolCall && inThought == old(inThought)
    {
      SpeltTags(buffer, CurrentMode());
      hide Spells, IsTag, IsPartial, Enter, Extends, OpenThoughtTags, CloseThoughtTags, OpenToolTags, CloseToolTags;
      var lower := Lower(buffer);
      TagGroups(lower, CurrentMode());
      PartialGroups(lower);
      v := TryTags(lower, OpenThoughtTags);
      if v == Matched { inThought := true; buffer := []; }
      if v != NoMatch { return; }
      v := TryTags(lower, CloseThoughtTags);
      if v == Matched { inThought := false; buffer := []; }
      if v != NoMatch { return; }
      v := TryTags(lower, OpenToolTags);
      if v == Matched { inToolCall := true; buffer := []; }
      if v != NoMatch { return; }
      v := TryTags(lower, CloseToolTags);
      if v == Matched { inToolCall := false; buffer := []; }
    }

    /** Emits the first `k` bytes of the buffer and erases them, on the way of a pass that
        has emitted `done` after `before` and is to emit `goal`. */
    method EmitFront(k: nat, ghost goal: seq<Event>, ghost last: Outcome,
                     ghost before: seq<Event>, ghost done: seq<Event>)
      returns (threw: bool, ghost more: seq<Event>)
      requires buffer != [] && k == Cut(buffer) && !Settled(buffer)
      requires Remains(goal, last, done, buffer, CurrentMode()) && AllAccepted(done, accepts)
      requires emitted == before + done
      modifies this`buffer, this`emitted
      ensures threw ==> emitted == before + Accepted(goal, accepts) && !AllAccepted(goal, accepts)
      ensures !threw ==> Remains(goal, last, more, buffer, CurrentMode()) && AllAccepted(more, accepts)
      ensures !threw ==> emitted == before + more && buffer == old(buffer)[k..]
    {
      hide Settled, Remains, Process, Accepted, AllAccepted;
      EmitStep(goal, last, done, buffer, CurrentMode(), accepts);
      more := done + [Event(buffer[..k], Current())];
      Assoc(before, done, [Event(buffer[..k], Current())]);
      threw := Deliver(buffer[..k]);
      if threw { return; }
      buffer := buffer[k..];
    }

    method ProcessBuffer() returns (threw: bool)
      modifies this`buffer, this`inThought, this`inToolCall, this`emitted
      ensures var p := Process(old(buffer), old(CurrentMode()));
        emitted == old(emitted) + Accepted(Emits(p.pieces), accepts) &&
        (threw <==> !AllAccepted(Emits(p.pieces), accepts)) &&
        (!threw ==> buffer == p.buffer && CurrentMode() == p.mode)
    {
      hide IsTag, IsPartial, Enter, Remains, Process, Accepted, AllAccepted;
      ghost var before, done: seq<Event> := emitted, [];
      ghost var last := Process(buffer, CurrentMode());
      ghost var goal := Emits(last.pieces);
      BeginPass(buffer, CurrentMode(), accepts);
      while buffer != []
        invariant Remains(goal, last, done, buffer, CurrentMode())
        invariant emitted == before + done && AllAccepted(done, accepts)
        decreases |buffer|
      {
        var lt := FindLt(buffer);
        if lt == |buffer| {
          threw, done := EmitFront(lt, goal, last, before, done);
          if threw { return; }
          break;
        }
        if lt > 0 {
          threw, done := EmitFront(lt, goal, last, before, done);
          if threw { return; }
        }
        if IsTag(Lower(buffer)) { ConsumeStep(goal, last, done, buffer, CurrentMode()); }
        var v := MatchTag();
        if v == Hold { break; }
        if v == Matched { continue; }
        threw, done := EmitFront(1, goal, last, before, done);
        if threw { return; }
      }
      HoldStep(goal, last, done, buffer, CurrentMode(), accepts);
      threw := false;
    }
  }
}
