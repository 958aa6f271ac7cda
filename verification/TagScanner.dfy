/** The reference meaning of the tag filter: a whole-text scanner over bytes that
    remember where tokens end, and the ideal scanner that ignores tokens. */
module TagScanner {
  import opened Bytes

  // ---- The six tags -------------------------------------------------------------

  const LT: Byte := 0x3C

  const ThinkOpen: Text := [0x3C, 0x74, 0x68, 0x69, 0x6E, 0x6B, 0x3E]                                 // <think>
  const ThoughtOpen: Text := [0x3C, 0x74, 0x68, 0x6F, 0x75, 0x67, 0x68, 0x74, 0x3E]                   // <thought>
  const ThinkClose: Text := [0x3C, 0x2F, 0x74, 0x68, 0x69, 0x6E, 0x6B, 0x3E]                          // </think>
  const ThoughtClose: Text := [0x3C, 0x2F, 0x74, 0x68, 0x6F, 0x75, 0x67, 0x68, 0x74, 0x3E]            // </thought>
  const ToolOpen: Text := [0x3C, 0x74, 0x6F, 0x6F, 0x6C, 0x5F, 0x63, 0x61, 0x6C, 0x6C, 0x3E]          // <tool_call>
  const ToolClose: Text := [0x3C, 0x2F, 0x74, 0x6F, 0x6F, 0x6C, 0x5F, 0x63, 0x61, 0x6C, 0x6C, 0x3E]   // </tool_call>

  predicate IsTag(t: Text) {
    t == ThinkOpen || t == ThoughtOpen || t == ThinkClose || t == ThoughtClose || t == ToolOpen || t == ToolClose
  }

  /** A non-empty beginning of a tag that is not yet the whole tag. */
  predicate IsPartial(p: Text) {
    p != [] && (p < ThinkOpen || p < ThoughtOpen || p < ThinkClose || p < ThoughtClose || p < ToolOpen || p < ToolClose)
  }

  /** The first tag that a partial tag begins. */
  function Completion(p: Text): (t: Text)
    requires IsPartial(p)
    ensures IsTag(t) && p < t
  {
    if p < ThinkOpen then ThinkOpen
    else if p < ThoughtOpen then ThoughtOpen
    else if p < ThinkClose then ThinkClose
    else if p < ThoughtClose then ThoughtClose
    else if p < ToolOpen then ToolOpen
    else ToolClose
  }

  lemma TagShape(t: Text)
    requires IsTag(t)
    ensures 7 <= |t| <= 12 && t[0] == LT
    ensures forall k :: 0 < k < |t| ==> t[k] != LT
    ensures forall k :: 0 <= k < |t| ==> t[k] < 0x80
  {
  }

  /** Tags are written in lower case. */
  lemma TagIsLower(t: Text)
    requires IsTag(t)
    ensures Lower(t) == t
  {
  }

  /** No tag is the beginning of another tag. */
  lemma PrefixFree(a: Text, b: Text)
    requires IsTag(a) && IsTag(b) && a <= b
    ensures a == b
  {
    assert a[1] == b[1] && a[2] == b[2] && a[3] == b[3] && a[4] == b[4];
  }

  /** A partial tag is short, starts with `<`, and is ASCII without another `<`. */
  lemma PartialShape(p: Text)
    requires IsPartial(p)
    ensures 1 <= |p| <= 11 && p[0] == LT
    ensures forall k :: 0 < k < |p| ==> p[k] != LT
    ensures forall k :: 0 <= k < |p| ==> p[k] < 0x80
    ensures !IsTag(p)
  {
    var t := Completion(p);
    TagShape(t);
    assert forall k :: 0 <= k < |p| ==> p[k] == t[k];
    if IsTag(p) { PrefixFree(p, t); }
  }

  // ---- Case folding -------------------------------------------------------------

  /** `std::tolower` in the "C" locale. */
  function LowerByte(b: Byte): Byte {
    if 0x41 <= b <= 0x5A then b + 0x20 else b
  }

  function Lower(s: Text): (r: Text)
    ensures |r| == |s|
  {
    seq(|s|, i requires 0 <= i < |s| => LowerByte(s[i]))
  }

  lemma LowerSlice(s: Text, n: nat)
    requires n <= |s|
    ensures Lower(s[..n]) == Lower(s)[..n]
  {
  }

  /** The bytes spell the text in any letter case: each byte is that of its character, or of
      the capital of a letter of `a` to `z`. */
  predicate Spells(s: Text, name: string) {
    |s| == |name| &&
    forall k :: 0 <= k < |s| ==>
      s[k] as int == name[k] as int || ('a' <= name[k] <= 'z' && s[k] as int == name[k] as int - 0x20)
  }

  /** The six tags are these texts, and case folding takes exactly their spellings to them. */
  lemma FoldedExactly(s: Text)
    ensures Lower(s) == ThinkOpen <==> Spells(s, "<think>")
    ensures Lower(s) == ThoughtOpen <==> Spells(s, "<thought>")
    ensures Lower(s) == ThinkClose <==> Spells(s, "</think>")
    ensures Lower(s) == ThoughtClose <==> Spells(s, "</thought>")
    ensures Lower(s) == ToolOpen <==> Spells(s, "<tool_call>")
    ensures Lower(s) == ToolClose <==> Spells(s, "</tool_call>")
  {
    FoldedTo(s, ThinkOpen, "<think>");
    FoldedTo(s, ThoughtOpen, "<thought>");
    FoldedTo(s, ThinkClose, "</think>");
    FoldedTo(s, ThoughtClose, "</thought>");
    FoldedTo(s, ToolOpen, "<tool_call>");
    FoldedTo(s, ToolClose, "</tool_call>");
  }

  lemma FoldedTo(s: Text, t: Text, name: string)
    requires |t| == |name| && forall k :: 0 <= k < |t| ==> t[k] as int == name[k] as int && !(0x41 <= t[k] <= 0x5A)
    ensures Lower(s) == t <==> Spells(s, name)
  {
    hide Lower;
    if |s| == |t| {
      forall k | 0 <= k < |s|
        ensures Lower(s)[k] == t[k] <==>
          s[k] as int == name[k] as int || ('a' <= name[k] <= 'z' && s[k] as int == name[k] as int - 0x20)
      {
        LowerAt(s, k);
      }
    }
  }

  lemma LowerAt(s: Text, k: nat)
    requires k < |s|
    ensures Lower(s)[k] == LowerByte(s[k])
  {
  }

  // ---- Labels -------------------------------------------------------------------

  datatype Label = Content | Thought | ToolCall

  /** The two flags of the filter; they are set and cleared independently. */
  datatype Mode = Mode(inThought: bool, inToolCall: bool)

  const Start: Mode := Mode(false, false)

  function CurrentType(m: Mode): Label {
    if m.inToolCall then ToolCall else if m.inThought then Thought else Content
  }

  function Enter(t: Text, m: Mode): Mode {
    if t == ThinkOpen || t == ThoughtOpen then m.(inThought := true)
    else if t == ThinkClose || t == ThoughtClose then m.(inThought := false)
    else if t == ToolOpen then m.(inToolCall := true)
    else m.(inToolCall := false)
  }

  datatype Labelled = Labelled(b: Byte, kind: Label)

  function LabelAll(s: Text, l: Label): (r: seq<Labelled>)
    ensures |r| == |s|
  {
    seq(|s|, i requires 0 <= i < |s| => Labelled(s[i], l))
  }

  // ---- Marked bytes: a text that knows where its tokens end -----------------------

  /** `ends` says that this byte is the last byte of the token it came in. */
  datatype Mark = Mark(b: Byte, ends: bool)

  function BytesOf(s: seq<Mark>): (r: Text)
    ensures |r| == |s|
  {
    seq(|s|, i requires 0 <= i < |s| => s[i].b)
  }

  function MarkToken(t: Text): (r: seq<Mark>)
    ensures |r| == |t|
  {
    seq(|t|, i requires 0 <= i < |t| => Mark(t[i], i == |t| - 1))
  }

  /** Bytes none of which ends a token. */
  function Unmarked(t: Text): (r: seq<Mark>)
    ensures |r| == |t|
  {
    seq(|t|, i requires 0 <= i < |t| => Mark(t[i], false))
  }

  function MarkAll(tokens: seq<Text>): seq<Mark> {
    if tokens == [] then [] else MarkToken(tokens[0]) + MarkAll(tokens[1..])
  }

  lemma {:induction false} MarkAllBytes(tokens: seq<Text>)
    ensures BytesOf(MarkAll(tokens)) == Join(tokens)
  {
    if tokens != [] {
      MarkAllBytes(tokens[1..]);
      assert BytesOf(MarkAll(tokens)) == BytesOf(MarkToken(tokens[0])) + BytesOf(MarkAll(tokens[1..]));
    }
  }

  // ---- The scanners -------------------------------------------------------------

  predicate Begins(s: Text, t: Text) {
    |t| <= |s| && Lower(s[..|t|]) == t
  }

  /** The tag that occurs at the front of `s`, in any letter case; empty if none does. */
  function TagAt(s: Text): (t: Text)
    ensures t != [] ==> IsTag(t) && Begins(s, t)
  {
    if Begins(s, ThinkOpen) then ThinkOpen
    else if Begins(s, ThoughtOpen) then ThoughtOpen
    else if Begins(s, ThinkClose) then ThinkClose
    else if Begins(s, ThoughtClose) then ThoughtClose
    else if Begins(s, ToolOpen) then ToolOpen
    else if Begins(s, ToolClose) then ToolClose
    else []
  }

  /** A tag occurs at the front exactly if a beginning of the text spells it in some letter
      case. */
  lemma TagAtExactly(s: Text, t: Text)
    requires IsTag(t)
    ensures TagAt(s) == t <==>
      |t| <= |s| && forall k :: 0 <= k < |t| ==> s[k] == t[k] || (0x61 <= t[k] <= 0x7A && s[k] == t[k] - 0x20)
  {
    hide TagAt, Lower;
    BeginsExactly(s, t);
    if Begins(s, t) { TagAtIsUnique(s, t); }
  }

  lemma BeginsExactly(s: Text, t: Text)
    requires IsTag(t)
    ensures Begins(s, t) <==>
      |t| <= |s| && forall k :: 0 <= k < |t| ==> s[k] == t[k] || (0x61 <= t[k] <= 0x7A && s[k] == t[k] - 0x20)
  {
    TagIsLower(t);
    if |t| <= |s| {
      var front := s[..|t|];
      assert forall k :: 0 <= k < |t| ==>
        front[k] == s[k] && Lower(front)[k] == LowerByte(s[k]) && LowerByte(t[k]) == t[k];
    }
  }

  /** At each position, a tag whose last byte ends a token is consumed; otherwise one
      byte is emitted with the current label. */
  function Scan(s: seq<Mark>, m: Mode): seq<Labelled>
    decreases |s|
  {
    if s == [] then []
    else
      var t := TagAt(BytesOf(s));
      if t != [] && s[|t| - 1].ends then Scan(s[|t|..], Enter(t, m))
      else [Labelled(s[0].b, CurrentType(m))] + Scan(s[1..], m)
  }

  /** The ideal filter: every tag is consumed, wherever the tokens end. */
  function Strip(s: Text, m: Mode): seq<Labelled>
    decreases |s|
  {
    if s == [] then []
    else
      var t := TagAt(s);
      if t != [] then Strip(s[|t|..], Enter(t, m))
      else [Labelled(s[0], CurrentType(m))] + Strip(s[1..], m)
  }

  // ---- Facts about the front of a text --------------------------------------------

  lemma TagAtIsUnique(s: Text, t: Text)
    requires IsTag(t) && Begins(s, t)
    ensures TagAt(s) == t
  {
    var u := TagAt(s);
    LowerSlice(s, |t|);
    LowerSlice(s, |u|);
    if |u| <= |t| {
      assert u == Lower(s)[..|u|] == t[..|u|];
      PrefixFree(u, t);
    } else {
      assert t == u[..|t|];
      PrefixFree(t, u);
    }
  }

  /** The bytes of a tag occurrence after the first are not `<`. */
  lemma TagAtShape(s: Text)
    requires TagAt(s) != []
    ensures 7 <= |TagAt(s)| <= |s| && |TagAt(s)| <= 12 && s[0] == LT
    ensures forall k :: 0 < k < |TagAt(s)| ==> s[k] != LT
  {
    var t := TagAt(s);
    TagShape(t);
    forall k | 0 <= k < |t| ensures t[k] == LowerByte(s[k]) {
      assert Lower(s[..|t|])[k] == LowerByte(s[k]);
    }
  }

  lemma NoTagWithoutLt(s: Text)
    requires s == [] || s[0] != LT
    ensures TagAt(s) == []
  {
    if TagAt(s) != [] { TagAtShape(s); }
  }

  // ---- Scanning through text that starts no tag ------------------------------------

  lemma LabelCons(w: seq<Mark>, l: Label, rest: seq<Labelled>)
    requires w != []
    ensures LabelAll(BytesOf(w), l) + rest == [Labelled(w[0].b, l)] + (LabelAll(BytesOf(w[1..]), l) + rest)
  {
    assert LabelAll(BytesOf(w), l) == [Labelled(w[0].b, l)] + LabelAll(BytesOf(w[1..]), l);
  }

  lemma {:induction false} ScanPast(w: seq<Mark>, s: seq<Mark>, m: Mode)
    requires forall i :: 0 <= i < |w| ==> w[i].b != LT
    ensures Scan(w + s, m) == LabelAll(BytesOf(w), CurrentType(m)) + Scan(s, m)
    decreases |w|, 1
  {
    if w == [] {
      assert w + s == s;
    } else {
      NoTagWithoutLt(BytesOf(w + s));
      ScanFront(w, s, m);
    }
  }

  /** A front that is not consumed and holds no further `<` is emitted whole. */
  lemma {:induction false} ScanFront(w: seq<Mark>, s: seq<Mark>, m: Mode)
    requires w != [] && forall i :: 0 < i < |w| ==> w[i].b != LT
    requires var t := TagAt(BytesOf(w + s)); t == [] || !(w + s)[|t| - 1].ends
    ensures Scan(w + s, m) == LabelAll(BytesOf(w), CurrentType(m)) + Scan(s, m)
    decreases |w|, 0
  {
    assert (w + s)[1..] == w[1..] + s;
    ScanPast(w[1..], s, m);
    LabelCons(w, CurrentType(m), Scan(s, m));
  }

  /** A held partial tag is scanned alike whichever of its bytes ended tokens. */
  lemma ScanHeld(v: seq<Mark>, w: seq<Mark>, s: seq<Mark>, m: Mode)
    requires BytesOf(v) == BytesOf(w) && IsPartial(Lower(BytesOf(v)))
    ensures Scan(v + s, m) == Scan(w + s, m)
  {
    hide IsTag, IsPartial, TagAt, Begins, Enter, Lower, CurrentType;
    var h := BytesOf(v);
    PartialOnce(h);
    var t := TagAt(BytesOf(v + s));
    assert BytesOf(v + s) == h + BytesOf(s) == BytesOf(w + s);
    if t != [] {
      TagAtShape(BytesOf(v + s));
      PartialThenTag(h, BytesOf(s));
      assert (v + s)[|t| - 1] == (w + s)[|t| - 1];
      assert (v + s)[|t|..] == (w + s)[|t|..];
    }
    if t == [] || !(v + s)[|t| - 1].ends {
      assert forall i :: 0 <= i < |v| ==> v[i].b == h[i] == w[i].b;
      ScanFront(v, s, m);
      ScanFront(w, s, m);
    }
  }

  lemma PartialOnce(h: Text)
    requires IsPartial(Lower(h))
    ensures 1 <= |h| <= 11 && h[0] == LT
    ensures forall k :: 0 < k < |h| ==> h[k] != LT
    ensures forall k :: 0 <= k < |h| ==> h[k] < 0x80
  {
    PartialShape(Lower(h));
    assert forall k :: 0 <= k < |h| ==> Lower(h)[k] == LowerByte(h[k]);
  }

  /** A tag that occurs at the front of a held partial tag ends beyond it. */
  lemma PartialThenTag(h: Text, s: Text)
    requires IsPartial(Lower(h)) && TagAt(h + s) != []
    ensures |h| < |TagAt(h + s)|
  {
    var t := TagAt(h + s);
    if |t| <= |h| {
      assert (h + s)[..|t|] == h[..|t|];
      LowerSlice(h, |t|);
      var u := Completion(Lower(h));
      assert t == u[..|t|];
      PrefixFree(t, u);
    }
  }

  // ---- Every byte of a partial tag is emitted by a flush ---------------------------

  lemma ScanFlush(h: Text, m: Mode)
    requires h == [] || IsPartial(Lower(h))
    ensures Scan(Unmarked(h), m) == LabelAll(h, CurrentType(m))
  {
    if h != [] {
      PartialOnce(h);
      var w := Unmarked(h);
      assert w + [] == w && BytesOf(w) == h;
      var t := TagAt(BytesOf(w));
      if t != [] {
        assert h + [] == h;
        PartialThenTag(h, []);
      }
      ScanFront(w, [], m);
    }
  }

  // ---- When the streaming filter is the ideal one -----------------------------------

  /** Every tag occurrence of the text ends at the end of a token. */
  predicate TagsCloseTokens(s: seq<Mark>) {
    forall i :: 0 <= i < |s| ==>
      var t := TagAt(BytesOf(s[i..]));
      t != [] ==> s[i + |t| - 1].ends
  }

  lemma ClosingSuffix(s: seq<Mark>, n: nat)
    requires n <= |s| && TagsCloseTokens(s)
    ensures TagsCloseTokens(s[n..])
  {
    forall i | 0 <= i < |s[n..]|
      ensures var t := TagAt(BytesOf(s[n..][i..])); t != [] ==> s[n..][i + |t| - 1].ends
    {
      assert s[n..][i..] == s[n + i..];
      var t := TagAt(BytesOf(s[n + i..]));
      if t != [] { assert s[n..][i + |t| - 1] == s[n + i + |t| - 1]; }
    }
  }

  lemma ClosingFront(s: seq<Mark>)
    requires TagsCloseTokens(s) && s != []
    ensures var t := TagAt(BytesOf(s)); t != [] ==> s[|t| - 1].ends
  {
    assert s[0..] == s;
  }

  lemma ClosingCons(s: seq<Mark>, n: nat)
    requires 0 < n <= |s| && TagsCloseTokens(s[n..])
    requires forall k :: 0 < k < n ==> s[k].b != LT
    requires var t := TagAt(BytesOf(s)); t != [] ==> s[|t| - 1].ends
    ensures TagsCloseTokens(s)
  {
    forall i | 0 <= i < |s|
      ensures var t := TagAt(BytesOf(s[i..])); t != [] ==> s[i + |t| - 1].ends
    {
      if i == 0 {
        assert s[0..] == s;
      } else if i < n {
        NoTagWithoutLt(BytesOf(s[i..]));
      } else {
        assert s[i..] == s[n..][i - n..];
        var t := TagAt(BytesOf(s[i..]));
        if t != [] { assert s[n..][i - n + |t| - 1] == s[i + |t| - 1]; }
      }
    }
  }

  /** How far one step of the ideal scanner moves. */
  function Stride(s: Text): (k: nat)
    requires s != []
    ensures 0 < k <= |s|
  {
    var t := TagAt(s);
    if t == [] then 1 else |t|
  }

  lemma StrideSkipsNoLt(s: Text)
    requires s != []
    ensures forall i :: 0 < i < Stride(s) ==> s[i] != LT
  {
    if TagAt(s) != [] { TagAtShape(s); }
  }

  /** Where every tag ends a token, the two scanners agree. */
  lemma {:induction false} ScanIsStrip(s: seq<Mark>, m: Mode)
    requires TagsCloseTokens(s)
    ensures Scan(s, m) == Strip(BytesOf(s), m)
    decreases |s|
  {
    hide IsTag, TagsCloseTokens, Enter, Begins, TagAt;
    if s != [] {
      var k := Stride(BytesOf(s));
      ClosingFront(s);
      ClosingSuffix(s, k);
      assert BytesOf(s[k..]) == BytesOf(s)[k..];
      var t := TagAt(BytesOf(s));
      ScanIsStrip(s[k..], if t == [] then m else Enter(t, m));
    }
  }

  /** The marked scanner never emits less than the ideal one, and emits more as soon
      as some tag occurrence does not end a token. */
  lemma {:induction false} ScanEmitsMore(s: seq<Mark>, m: Mode, n: Mode)
    ensures |Scan(s, m)| >= |Strip(BytesOf(s), n)|
    ensures |Scan(s, m)| == |Strip(BytesOf(s), n)| ==> TagsCloseTokens(s)
    decreases |s|
  {
    hide IsTag, IsPartial, TagAt, Begins, Enter, Lower;
    if s != [] {
      var k := Stride(BytesOf(s));
      var t := TagAt(BytesOf(s));
      assert BytesOf(s[k..]) == BytesOf(s)[k..];
      StrideSkipsNoLt(BytesOf(s));
      assert forall i :: 0 < i < k ==> s[i].b == BytesOf(s)[i];
      var n' := if t == [] then n else Enter(t, n);
      if t != [] && !s[k - 1].ends {
        assert s == s[..k] + s[k..];
        ScanFront(s[..k], s[k..], m);
        ScanEmitsMore(s[k..], m, n');
      } else {
        ScanEmitsMore(s[k..], if t == [] then m else Enter(t, m), n');
        if TagsCloseTokens(s[k..]) { ClosingCons(s, k); }
      }
    }
  }
}
