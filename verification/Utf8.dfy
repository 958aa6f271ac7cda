/** The UTF-8 cleaner: a greedy loop, proved to keep exactly the bytes that lie in a
    complete sequence of the input. */
module Utf8 {
  import opened Bytes

  // ---- Byte classes ------------------------------------------------------------------

  predicate IsContinuation(b: Byte) { 0x80 <= b <= 0xBF }

  /** The length of the sequence that `b` may start; 0 if it may start none. */
  function LeadLength(b: Byte): (n: nat)
    ensures n <= 4
    ensures IsContinuation(b) ==> n == 0
  {
    if b <= 0x7F then 1
    else if 0xC0 <= b <= 0xDF then 2
    else if 0xE0 <= b <= 0xEF then 3
    else if 0xF0 <= b <= 0xF7 then 4
    else 0
  }

  /** The classes are those of the mask tests. */
  lemma MasksAreRanges(b: Byte)
    ensures b as bv8 & 0xC0 == 0x80 <==> IsContinuation(b)
    ensures b as bv8 & 0xE0 == 0xC0 <==> 0xC0 <= b <= 0xDF
    ensures b as bv8 & 0xF0 == 0xE0 <==> 0xE0 <= b <= 0xEF
    ensures b as bv8 & 0xF8 == 0xF0 <==> 0xF0 <= b <= 0xF7
  {
  }

  /** What the mask tests of the bytes after position `i` say. */
  lemma TailMasks(s: Text, i: nat)
    ensures forall k :: i < k < i + 4 && k < |s| ==> (s[k] as bv8 & 0xC0 == 0x80 <==> IsContinuation(s[k]))
  {
    forall k | i < k < i + 4 && k < |s| ensures s[k] as bv8 & 0xC0 == 0x80 <==> IsContinuation(s[k]) {
      MasksAreRanges(s[k]);
    }
  }

  // ---- The declarative meaning ------------------------------------------------------

  /** A lead byte at `i`, followed by as many continuation bytes as it asks for. */
  predicate SequenceAt(s: Text, i: nat) {
    i < |s| && LeadLength(s[i]) > 0 && i + LeadLength(s[i]) <= |s| &&
    forall k :: i < k < i + LeadLength(s[i]) ==> IsContinuation(s[k])
  }

  predicate CoversFrom(s: Text, i: nat, j: nat) {
    SequenceAt(s, i) && i <= j < i + LeadLength(s[i])
  }

  /** Byte `j` lies inside some complete sequence of the text. */
  predicate Covered(s: Text, j: nat) {
    exists i: nat :: i <= j && CoversFrom(s, i, j)
  }

  /** The covered bytes from position `j` on, in order. */
  function SurvivorsFrom(s: Text, j: nat): (r: Text)
    requires j <= |s|
    decreases |s| - j
  {
    if j == |s| then []
    else (if Covered(s, j) then [s[j]] else []) + SurvivorsFrom(s, j + 1)
  }

  function Sanitized(s: Text): Text {
    SurvivorsFrom(s, 0)
  }

  /** No complete sequence starts before `j` and reaches past it. */
  predicate IsCut(s: Text, j: nat) {
    forall i: nat :: i < j && SequenceAt(s, i) ==> i + LeadLength(s[i]) <= j
  }

  /** Complete sequences never overlap. */
  lemma SequencesAreDisjoint(s: Text, i: nat, k: nat)
    requires SequenceAt(s, i) && SequenceAt(s, k) && i < k
    ensures i + LeadLength(s[i]) <= k
  {
  }

  lemma NotCovered(s: Text, j: nat)
    requires j < |s| && IsCut(s, j) && !SequenceAt(s, j)
    ensures !Covered(s, j) && IsCut(s, j + 1)
    ensures SurvivorsFrom(s, j) == SurvivorsFrom(s, j + 1)
  {
    assert !Covered(s, j);
  }

  /** A sequence that starts at a cut survives whole, and ends at a cut. */
  lemma SequenceSurvives(s: Text, i: nat)
    requires SequenceAt(s, i)
    ensures var n := LeadLength(s[i]); IsCut(s, i + n) && SurvivorsFrom(s, i) == s[i..i + n] + SurvivorsFrom(s, i + n)
  {
    var n := LeadLength(s[i]);
    forall k: nat | k < i + n && SequenceAt(s, k) ensures k + LeadLength(s[k]) <= i + n {
      if k < i { SequencesAreDisjoint(s, k, i); }
    }
    CoveredRun(s, i, i);
  }

  lemma {:induction false} CoveredRun(s: Text, i: nat, j: nat)
    requires SequenceAt(s, i) && i <= j <= i + LeadLength(s[i])
    ensures SurvivorsFrom(s, j) == s[j..i + LeadLength(s[i])] + SurvivorsFrom(s, i + LeadLength(s[i]))
    decreases i + LeadLength(s[i]) - j
  {
    if j < i + LeadLength(s[i]) {
      assert CoversFrom(s, i, j);
      CoveredRun(s, i, j + 1);
    }
  }

  // ---- The greedy loop ----------------------------------------------------------------

  lemma KeepStep(s: Text, output: Text, i: nat, n: nat)
    requires SequenceAt(s, i) && n == LeadLength(s[i])
    requires Sanitized(s) == output + SurvivorsFrom(s, i)
    ensures IsCut(s, i + n) && Sanitized(s) == output + s[i..i + n] + SurvivorsFrom(s, i + n)
  {
    SequenceSurvives(s, i);
  }

  /** The tests of the loop decide whether a sequence starts at `i`. */
  lemma SequenceTests(s: Text, i: nat)
    requires i < |s|
    ensures LeadLength(s[i]) == 0 ==> !SequenceAt(s, i)
    ensures LeadLength(s[i]) == 1 ==> SequenceAt(s, i)
    ensures LeadLength(s[i]) == 2 ==> (SequenceAt(s, i) <==> i + 1 < |s| && IsContinuation(s[i + 1]))
    ensures LeadLength(s[i]) == 3 ==> (SequenceAt(s, i) <==>
      i + 2 < |s| && IsContinuation(s[i + 1]) && IsContinuation(s[i + 2]))
    ensures LeadLength(s[i]) == 4 ==> (SequenceAt(s, i) <==>
      i + 3 < |s| && IsContinuation(s[i + 1]) && IsContinuation(s[i + 2]) && IsContinuation(s[i + 3]))
  {
  }

  lemma ZeroIsCut(s: Text)
    ensures IsCut(s, 0) && Sanitized(s) == [] + SurvivorsFrom(s, 0)
  {
  }

  method SanitizeUtf8(input: Text) returns (output: Text)
    ensures output == Sanitized(input)
  {
    hide SequenceAt, IsCut, Sanitized, Covered, IsContinuation;
    output := [];
    var i := 0;
    ZeroIsCut(input);
    while i < |input|
      invariant 0 <= i <= |input| && IsCut(input, i)
      invariant Sanitized(input) == output + SurvivorsFrom(input, i)
    {
      var c := input[i];
      ghost var n := LeadLength(c);
      SequenceTests(input, i);
      MasksAreRanges(c);
      TailMasks(input, i);
      if SequenceAt(input, i) { KeepStep(input, output, i, n); } else { NotCovered(input, i); }
      if c <= 0x7F {
        output := output + input[i..i + 1];
        i := i + 1;
      } else if c as bv8 & 0xE0 == 0xC0 {
        if i + 1 < |input| && input[i + 1] as bv8 & 0xC0 == 0x80 {
          output := output + input[i..i + 2];
          i := i + 2;
        } else {
          i := i + 1;
        }
      } else if c as bv8 & 0xF0 == 0xE0 {
        if i + 2 < |input| && input[i + 1] as bv8 & 0xC0 == 0x80 && input[i + 2] as bv8 & 0xC0 == 0x80 {
          output := output + input[i..i + 3];
          i := i + 3;
        } else {
          i := i + 1;
        }
      } else if c as bv8 & 0xF8 == 0xF0 {
        if i + 3 < |input| && input[i + 1] as bv8 & 0xC0 == 0x80 &&
           input[i + 2] as bv8 & 0xC0 == 0x80 && input[i + 3] as bv8 & 0xC0 == 0x80
        {
          output := output + input[i..i + 4];
          i := i + 4;
        } else {
          i := i + 1;
        }
      } else {
        i := i + 1;
      }
    }
  }

  // ---- Structural well-formedness -------------------------------------------------------

  /** A concatenation of complete sequences: the shape of section 3 of RFC 3629 without
      its range limits. */
  predicate WellFormed(s: Text)
    decreases |s|
  {
    s == [] || (SequenceAt(s, 0) && WellFormed(s[LeadLength(s[0])..]))
  }

  lemma SequenceShift(a: Text, s: Text, i: nat)
    ensures SequenceAt(a + s, |a| + i) <==> SequenceAt(s, i)
  {
    if i < |s| {
      assert (a + s)[|a| + i] == s[i];
      assert forall k :: i < k < |s| ==> (a + s)[|a| + k] == s[k];
      if SequenceAt(a + s, |a| + i) {
        forall k | i < k < i + LeadLength(s[i]) ensures IsContinuation(s[k]) {
          assert IsContinuation((a + s)[|a| + k]);
        }
      }
    }
  }

  lemma SequenceExtends(a: Text, b: Text, i: nat)
    requires SequenceAt(a, i)
    ensures SequenceAt(a + b, i) && LeadLength((a + b)[i]) == LeadLength(a[i])
  {
  }

  lemma {:induction false} WellFormedAppend(a: Text, b: Text)
    requires WellFormed(a) && WellFormed(b)
    ensures WellFormed(a + b)
    decreases |a|
  {
    if a == [] {
      assert a + b == b;
    } else {
      var n := LeadLength(a[0]);
      SequenceExtends(a, b, 0);
      WellFormedAppend(a[n..], b);
      assert (a + b)[n..] == a[n..] + b;
    }
  }

  /** In a well-formed text a byte that is not a continuation byte starts a sequence, so
      the text may be cut before it. */
  lemma {:induction false} WellFormedSplit(a: Text, b: Text)
    requires WellFormed(a + b) && (b == [] || !IsContinuation(b[0]))
    ensures WellFormed(a) && WellFormed(b)
    decreases |a|
  {
    if a == [] {
      assert a + b == b;
    } else {
      var n := LeadLength(a[0]);
      assert (a + b)[0] == a[0];
      assert b != [] ==> (a + b)[|a|] == b[0];
      assert (a + b)[n..] == a[n..] + b;
      WellFormedSplit(a[n..], b);
      assert forall k :: 0 <= k < |a| ==> (a + b)[k] == a[k];
    }
  }

  lemma DropAscii(s: Text)
    requires WellFormed(s) && s != [] && s[0] <= 0x7F
    ensures WellFormed(s[1..])
  {
  }

  /** Cutting on either side of an ASCII byte keeps both parts well-formed. */
  lemma WellFormedBesideAscii(s: Text, i: nat)
    requires WellFormed(s) && i < |s| && s[i] <= 0x7F
    ensures WellFormed(s[..i]) && WellFormed(s[i..]) && WellFormed(s[..i + 1]) && WellFormed(s[i + 1..])
  {
    hide WellFormed;
    assert s == s[..i] + s[i..];
    WellFormedSplit(s[..i], s[i..]);
    DropAscii(s[i..]);
    assert s[i..][1..] == s[i + 1..];
    AsciiIsWellFormed([s[i]]);
    WellFormedAppend(s[..i], [s[i]]);
    assert s[..i + 1] == s[..i] + [s[i]];
  }

  lemma {:induction false} AsciiIsWellFormed(s: Text)
    requires forall k :: 0 <= k < |s| ==> s[k] <= 0x7F
    ensures WellFormed(s)
    decreases |s|
  {
    if s != [] { AsciiIsWellFormed(s[1..]); }
  }

  // ---- What the cleaner guarantees --------------------------------------------------------

  lemma {:induction false} SurvivorsAreWellFormed(s: Text, j: nat)
    requires j <= |s| && IsCut(s, j)
    ensures WellFormed(SurvivorsFrom(s, j))
    decreases |s| - j
  {
    hide Covered, IsCut;
    if j < |s| {
      if SequenceAt(s, j) {
        var n := LeadLength(s[j]);
        SequenceSurvives(s, j);
        SurvivorsAreWellFormed(s, j + n);
        var w := s[j..j + n];
        assert w[n..] == [] && SequenceAt(w, 0);
        WellFormedAppend(w, SurvivorsFrom(s, j + n));
      } else {
        NotCovered(s, j);
        SurvivorsAreWellFormed(s, j + 1);
      }
    }
  }

  lemma SanitizedIsWellFormed(s: Text)
    ensures WellFormed(Sanitized(s))
  {
    SurvivorsAreWellFormed(s, 0);
  }

  lemma {:induction false} SurvivorsShift(a: Text, s: Text, j: nat)
    requires j <= |s| && IsCut(a + s, |a|)
    ensures SurvivorsFrom(a + s, |a| + j) == SurvivorsFrom(s, j)
    decreases |s| - j
  {
    if j < |s| {
      assert Covered(a + s, |a| + j) <==> Covered(s, j) by { CoveredShift(a, s, j); }
      SurvivorsShift(a, s, j + 1);
      assert (a + s)[|a| + j] == s[j];
    }
  }

  lemma CoveredShift(a: Text, s: Text, j: nat)
    requires j < |s| && IsCut(a + s, |a|)
    ensures Covered(a + s, |a| + j) <==> Covered(s, j)
  {
    if Covered(s, j) {
      var i: nat :| i <= j && CoversFrom(s, i, j);
      SequenceShift(a, s, i);
      assert CoversFrom(a + s, |a| + i, |a| + j);
    }
    if Covered(a + s, |a| + j) {
      var i: nat :| i <= |a| + j && CoversFrom(a + s, i, |a| + j);
      assert i >= |a|;
      SequenceShift(a, s, i - |a|);
      assert CoversFrom(s, i - |a|, j);
    }
  }

  /** The cleaner changes a text exactly when the text is not well-formed. */
  lemma {:induction false} FixedPointsAreWellFormed(s: Text)
    ensures Sanitized(s) == s <==> WellFormed(s)
  {
    if WellFormed(s) { WellFormedIsKept(s); }
    SanitizedIsWellFormed(s);
  }

  lemma {:induction false} WellFormedIsKept(s: Text)
    requires WellFormed(s)
    ensures Sanitized(s) == s
    decreases |s|
  {
    if s != [] {
      var n := LeadLength(s[0]);
      SequenceSurvives(s, 0);
      WellFormedIsKept(s[n..]);
      assert s == s[..n] + s[n..];
      SurvivorsShift(s[..n], s[n..], 0);
      assert s[0..n] == s[..n];
    }
  }

  lemma SanitizeIdempotent(s: Text)
    ensures Sanitized(Sanitized(s)) == Sanitized(s)
  {
    SanitizedIsWellFormed(s);
    WellFormedIsKept(Sanitized(s));
  }

  // ---- Cleaning a text in two parts ----------------------------------------------------------

  lemma {:induction false} SurvivorsOfFront(a: Text, b: Text, j: nat)
    requires j <= |a|
    ensures |SurvivorsFrom(a + b, j)| >= |SurvivorsFrom(a, j)| + |SurvivorsFrom(a + b, |a|)|
    ensures IsCut(a + b, |a|) ==> SurvivorsFrom(a + b, j) == SurvivorsFrom(a, j) + SurvivorsFrom(a + b, |a|)
    ensures |SurvivorsFrom(a + b, j)| == |SurvivorsFrom(a, j)| + |SurvivorsFrom(a + b, |a|)|
        ==> forall k: nat :: j <= k < |a| ==> (Covered(a, k) <==> Covered(a + b, k))
    decreases |a| - j
  {
    hide Covered, IsCut;
    if j < |a| {
      SurvivorsOfFront(a, b, j + 1);
      assert (a + b)[j] == a[j];
      CoveredFront(a, b, j);
      Assoc(if Covered(a, j) then [a[j]] else [], SurvivorsFrom(a, j + 1), SurvivorsFrom(a + b, |a|));
    }
  }

  lemma CoveredFront(a: Text, b: Text, j: nat)
    requires j < |a|
    ensures Covered(a, j) ==> Covered(a + b, j)
    ensures IsCut(a + b, |a|) && Covered(a + b, j) ==> Covered(a, j)
  {
    if Covered(a, j) {
      var i: nat :| i <= j && CoversFrom(a, i, j);
      SequenceExtends(a, b, i);
      assert CoversFrom(a + b, i, j);
    }
    if IsCut(a + b, |a|) && Covered(a + b, j) {
      var i: nat :| i <= j && CoversFrom(a + b, i, j);
      assert forall k :: 0 <= k < |a| ==> (a + b)[k] == a[k];
      assert CoversFrom(a, i, j);
    }
  }

  lemma {:induction false} SurvivorsOfBack(a: Text, b: Text, j: nat)
    requires j <= |b|
    ensures |SurvivorsFrom(a + b, |a| + j)| >= |SurvivorsFrom(b, j)|
    decreases |b| - j
  {
    if j < |b| {
      SurvivorsOfBack(a, b, j + 1);
      if Covered(b, j) {
        var i: nat :| i <= j && CoversFrom(b, i, j);
        SequenceShift(a, b, i);
        assert CoversFrom(a + b, |a| + i, |a| + j);
      }
    }
  }

  /** Cleaning two parts on their own gives the cleaned whole exactly when no complete
      sequence of the whole straddles the cut. */
  lemma SanitizeDistributes(a: Text, b: Text)
    ensures Sanitized(a + b) == Sanitized(a) + Sanitized(b) <==> IsCut(a + b, |a|)
  {
    SurvivorsOfFront(a, b, 0);
    SurvivorsOfBack(a, b, 0);
    if IsCut(a + b, |a|) {
      SurvivorsShift(a, b, 0);
    } else {
      var i: nat :| i < |a| && SequenceAt(a + b, i) && i + LeadLength((a + b)[i]) > |a|;
      StraddlingIsLost(a, b, i);
    }
  }

  /** The lead byte of a straddling sequence survives in the whole but not in the front. */
  lemma StraddlingIsLost(a: Text, b: Text, i: nat)
    requires i < |a| && SequenceAt(a + b, i) && i + LeadLength((a + b)[i]) > |a|
    ensures Covered(a + b, i) && !Covered(a, i)
  {
    assert CoversFrom(a + b, i, i);
    forall k: nat | k <= i ensures !CoversFrom(a, k, i) {
      if SequenceAt(a, k) {
        SequenceExtends(a, b, k);
        assert k < i ==> k + LeadLength(a[k]) <= i by {
          if k < i { SequencesAreDisjoint(a + b, k, i); }
        }
      }
    }
  }

  // ---- Scalar values of RFC 3629 ---------------------------------------------------------------

  newtype Scalar = x: int | 0 <= x < 0xD800 || 0xE000 <= x < 0x11_0000 witness 0

  /** The UTF-8 encoding of a scalar value (RFC 3629, section 3). */
  function Encode(v: Scalar): Text {
    var c := v as int;
    if c < 0x80 then [c as Byte]
    else if c < 0x800 then [(0xC0 + c / 0x40) as Byte, (0x80 + c % 0x40) as Byte]
    else if c < 0x1_0000 then
      [(0xE0 + c / 0x1000) as Byte, (0x80 + c / 0x40 % 0x40) as Byte, (0x80 + c % 0x40) as Byte]
    else
      [(0xF0 + c / 0x4_0000) as Byte, (0x80 + c / 0x1000 % 0x40) as Byte,
       (0x80 + c / 0x40 % 0x40) as Byte, (0x80 + c % 0x40) as Byte]
  }

  function EncodeAll(vs: seq<Scalar>): Text {
    if vs == [] then [] else Encode(vs[0]) + EncodeAll(vs[1..])
  }

  // ---- When a text is valid UTF-8 -----------------------------------------------------------------

  /** The sequence at `i` respects the range limits of the grammar of RFC 3629, section 4. */
  predicate InRange(s: Text, i: nat)
    requires SequenceAt(s, i)
  {
    match LeadLength(s[i])
    case 1 => true
    case 2 => s[i] >= 0xC2
    case 3 => (s[i] == 0xE0 ==> s[i + 1] >= 0xA0) && (s[i] == 0xED ==> s[i + 1] <= 0x9F)
    case _ => s[i] <= 0xF4 && (s[i] == 0xF0 ==> s[i + 1] >= 0x90) && (s[i] == 0xF4 ==> s[i + 1] <= 0x8F)
  }

  /** Every complete sequence of the text is in range. */
  predicate AllInRange(s: Text) {
    forall i :: 0 <= i < |s| && SequenceAt(s, i) ==> InRange(s, i)
  }

  /** The grammar of RFC 3629, section 4. */
  predicate IsUtf8(s: Text) {
    WellFormed(s) && AllInRange(s)
  }

  function SequenceOf(s: Text, i: nat): (w: Text)
    requires SequenceAt(s, i)
    ensures |w| == LeadLength(s[i]) && w[0] == s[i]
  {
    s[i..i + LeadLength(s[i])]
  }

  /** A complete sequence in range is the encoding of some scalar value. */
  lemma Decode(w: Text) returns (v: Scalar)
    requires SequenceAt(w, 0) && LeadLength(w[0]) == |w| && InRange(w, 0)
    ensures Encode(v) == w
  {
    assert forall k :: 0 < k < |w| ==> 0x80 <= w[k] <= 0xBF;
    if |w| == 1 {
      v := w[0] as int as Scalar;
    } else if |w| == 2 {
      v := Decode2(w);
    } else if |w| == 3 {
      v := Decode3(w);
    } else {
      v := Decode4(w);
    }
  }

  lemma Decode2(w: Text) returns (v: Scalar)
    requires |w| == 2 && 0xC2 <= w[0] <= 0xDF && 0x80 <= w[1] <= 0xBF
    ensures Encode(v) == w
  {
    v := ((w[0] as int - 0xC0) * 0x40 + (w[1] as int - 0x80)) as Scalar;
  }

  lemma Decode3(w: Text) returns (v: Scalar)
    requires |w| == 3 && 0xE0 <= w[0] <= 0xEF && 0x80 <= w[1] <= 0xBF && 0x80 <= w[2] <= 0xBF
    requires (w[0] == 0xE0 ==> w[1] >= 0xA0) && (w[0] == 0xED ==> w[1] <= 0x9F)
    ensures Encode(v) == w
  {
    var a, b, c := w[0] as int - 0xE0, w[1] as int - 0x80, w[2] as int - 0x80;
    var n := a * 0x1000 + b * 0x40 + c;
    LastDigit(a * 0x40 + b, c, n);
    LastDigit(a, b, n / 0x40);
    assert n / 0x1000 == n / 0x40 / 0x40;
    v := n as Scalar;
  }

  lemma Decode4(w: Text) returns (v: Scalar)
    requires |w| == 4 && 0xF0 <= w[0] <= 0xF4 && 0x80 <= w[1] <= 0xBF && 0x80 <= w[2] <= 0xBF && 0x80 <= w[3] <= 0xBF
    requires (w[0] == 0xF0 ==> w[1] >= 0x90) && (w[0] == 0xF4 ==> w[1] <= 0x8F)
    ensures Encode(v) == w
  {
    var a, b, c, d := w[0] as int - 0xF0, w[1] as int - 0x80, w[2] as int - 0x80, w[3] as int - 0x80;
    var n := a * 0x4_0000 + b * 0x1000 + c * 0x40 + d;
    assert 0x1_0000 <= n < 0x11_0000;
    LastDigit(a * 0x1000 + b * 0x40 + c, d, n);
    LastDigit(a * 0x40 + b, c, n / 0x40);
    LastDigit(a, b, n / 0x1000);
    assert n / 0x1000 == n / 0x40 / 0x40 && n / 0x4_0000 == n / 0x1000 / 0x40;
    v := n as Scalar;
  }

  lemma LastDigit(q: int, r: int, n: int)
    requires 0 <= r < 0x40 && n == q * 0x40 + r
    ensures n / 0x40 == q && n % 0x40 == r
  {
  }

  lemma EncodeIsSequence(v: Scalar)
    ensures var e := Encode(v); SequenceAt(e, 0) && LeadLength(e[0]) == |e|
  {
    var e := Encode(v);
    assert forall k :: 0 < k < |e| ==> IsContinuation(e[k]);
  }

  lemma EncodeIsInRange(v: Scalar)
    ensures var e := Encode(v); SequenceAt(e, 0) && LeadLength(e[0]) == |e| && InRange(e, 0)
  {
    EncodeIsSequence(v);
    hide SequenceAt;
    var e := Encode(v);
    if |e| == 3 {
      assert e[0] == 0xE0 ==> 0x800 <= v < 0x1000;
      assert e[0] == 0xED ==> 0xD000 <= v <= 0xD7FF;
    } else if |e| == 4 {
      assert e[0] == 0xF0 ==> 0x1_0000 <= v < 0x4_0000;
      assert e[0] == 0xF4 ==> 0x10_0000 <= v;
    }
  }

  /** The range limits are those of the encoding: the sequence encodes a scalar value. */
  lemma InRangeIsEncoded(s: Text, i: nat)
    requires SequenceAt(s, i)
    ensures InRange(s, i) <==> exists v: Scalar :: SequenceOf(s, i) == Encode(v)
  {
    var w := SequenceOf(s, i);
    assert SequenceAt(w, 0) && (InRange(w, 0) <==> InRange(s, i));
    if InRange(s, i) { var v := Decode(w); }
    if v: Scalar :| w == Encode(v) { EncodeIsInRange(v); }
  }

  lemma {:induction false} WellFormedIsCut(a: Text, b: Text)
    requires WellFormed(a)
    ensures IsCut(a + b, |a|)
    decreases |a|
  {
    if a != [] {
      var n := LeadLength(a[0]);
      SequenceExtends(a, b, 0);
      WellFormedIsCut(a[n..], b);
      assert a[..n] + (a[n..] + b) == a + b;
      forall i: nat | i < |a| && SequenceAt(a + b, i) ensures i + LeadLength((a + b)[i]) <= |a| {
        if i > 0 {
          SequencesAreDisjoint(a + b, 0, i);
          SequenceShift(a[..n], a[n..] + b, i - n);
        }
      }
    }
  }

  /** A text cut between complete sequences is in range exactly when both parts are. */
  lemma AllInRangeAppend(a: Text, b: Text)
    requires WellFormed(a)
    ensures AllInRange(a + b) <==> AllInRange(a) && AllInRange(b)
  {
    hide WellFormed, InRange;
    WellFormedIsCut(a, b);
    forall i: nat | i < |a|
      ensures SequenceAt(a, i) <==> SequenceAt(a + b, i)
      ensures SequenceAt(a, i) ==> (InRange(a, i) <==> InRange(a + b, i))
    {
      SequenceInFront(a, b, i);
    }
    forall i: nat | i < |b|
      ensures SequenceAt(b, i) <==> SequenceAt(a + b, |a| + i)
      ensures SequenceAt(b, i) ==> (InRange(b, i) <==> InRange(a + b, |a| + i))
    {
      SequenceInBack(a, b, i);
    }
    if AllInRange(a + b) {
      forall i: nat | i < |b| && SequenceAt(b, i) ensures InRange(b, i) {
        assert SequenceAt(a + b, |a| + i);
      }
    }
    if AllInRange(a) && AllInRange(b) {
      forall i: nat | i < |a + b| && SequenceAt(a + b, i) ensures InRange(a + b, i) {
        assert i >= |a| ==> SequenceAt(b, i - |a|) && a + b == a + b && |a| + (i - |a|) == i;
      }
    }
  }

  lemma SequenceInFront(a: Text, b: Text, i: nat)
    requires i < |a| && IsCut(a + b, |a|)
    ensures SequenceAt(a, i) <==> SequenceAt(a + b, i)
    ensures SequenceAt(a, i) ==> (InRange(a, i) <==> InRange(a + b, i))
  {
    assert forall k :: 0 <= k < |a| ==> (a + b)[k] == a[k];
  }

  lemma SequenceInBack(a: Text, b: Text, i: nat)
    requires i < |b|
    ensures SequenceAt(b, i) <==> SequenceAt(a + b, |a| + i)
    ensures SequenceAt(b, i) ==> (InRange(b, i) <==> InRange(a + b, |a| + i))
  {
    SequenceShift(a, b, i);
    assert forall k :: 0 <= k < |b| ==> (a + b)[|a| + k] == b[k];
  }

  lemma AsciiIsUtf8(s: Text)
    requires forall k :: 0 <= k < |s| ==> s[k] <= 0x7F
    ensures IsUtf8(s)
  {
    AsciiIsWellFormed(s);
  }

  lemma Utf8Append(a: Text, b: Text)
    requires WellFormed(a) && WellFormed(b)
    ensures IsUtf8(a + b) <==> IsUtf8(a) && IsUtf8(b)
  {
    WellFormedAppend(a, b);
    AllInRangeAppend(a, b);
  }

  lemma {:induction false} EncodedIsUtf8(vs: seq<Scalar>)
    ensures IsUtf8(EncodeAll(vs))
  {
    if vs != [] {
      EncodedIsUtf8(vs[1..]);
      EncodeIsInRange(vs[0]);
      Utf8Append(Encode(vs[0]), EncodeAll(vs[1..]));
    }
  }

  /** Every correct UTF-8 text passes unchanged. */
  lemma SanitizeKeepsEncodings(vs: seq<Scalar>)
    ensures Sanitized(EncodeAll(vs)) == EncodeAll(vs)
  {
    EncodedIsUtf8(vs);
    WellFormedIsKept(EncodeAll(vs));
  }

  lemma {:induction false} Utf8IsEncoded(s: Text) returns (vs: seq<Scalar>)
    requires IsUtf8(s)
    ensures s == EncodeAll(vs)
    decreases |s|
  {
    if s == [] { return []; }
    var n := LeadLength(s[0]);
    var w := s[..n];
    assert SequenceAt(w, 0) && InRange(s, 0) && InRange(w, 0);
    assert s == w + s[n..] && w[n..] == [];
    AllInRangeAppend(w, s[n..]);
    var rest := Utf8IsEncoded(s[n..]);
    var v := Decode(w);
    vs := [v] + rest;
    assert vs[1..] == rest;
  }

  ghost predicate IsEncoded(s: Text) {
    exists vs :: s == EncodeAll(vs)
  }

  /** The grammar of section 4 of RFC 3629 generates exactly the encodings of section 3. */
  lemma GrammarIsEncoding(s: Text)
    ensures IsUtf8(s) <==> IsEncoded(s)
  {
    if IsUtf8(s) { var vs := Utf8IsEncoded(s); }
    if vs :| s == EncodeAll(vs) { EncodedIsUtf8(vs); }
  }

  lemma {:induction false} SurvivorsInRange(s: Text, j: nat)
    requires j <= |s| && IsCut(s, j)
    ensures AllInRange(SurvivorsFrom(s, j)) <==>
      forall i :: j <= i < |s| && SequenceAt(s, i) ==> InRange(s, i)
    decreases |s| - j
  {
    hide Covered, IsCut;
    if j < |s| {
      if SequenceAt(s, j) {
        var n := LeadLength(s[j]);
        var w := SequenceOf(s, j);
        SequenceSurvives(s, j);
        SurvivorsInRange(s, j + n);
        assert w[n..] == [] && SequenceAt(w, 0) && (InRange(w, 0) <==> InRange(s, j));
        AllInRangeAppend(w, SurvivorsFrom(s, j + n));
        forall i: nat | j < i < |s| && SequenceAt(s, i) ensures j + n <= i { SequencesAreDisjoint(s, j, i); }
        AllInRangeOne(w);
      } else {
        NotCovered(s, j);
        SurvivorsInRange(s, j + 1);
      }
    }
  }

  lemma AllInRangeOne(w: Text)
    requires SequenceAt(w, 0) && LeadLength(w[0]) == |w|
    ensures AllInRange(w) <==> InRange(w, 0)
  {
    assert forall i :: 0 < i < |w| ==> IsContinuation(w[i]);
  }

  /** The cleaner keeps range errors and makes none. */
  lemma SanitizedInRange(s: Text)
    ensures IsUtf8(Sanitized(s)) <==> AllInRange(s)
  {
    ZeroIsCut(s);
    SanitizedIsWellFormed(s);
    SurvivorsInRange(s, 0);
  }

  /** Each complete sequence of the text encodes a scalar value. */
  ghost predicate Encodes(s: Text) {
    forall i: nat :: SequenceAt(s, i) ==> exists v: Scalar :: SequenceOf(s, i) == Encode(v)
  }

  /** The cleaned text is valid UTF-8 exactly when each complete sequence of the input
      encodes a scalar value. */
  lemma ValidExactlyWhenInRange(s: Text)
    ensures IsEncoded(Sanitized(s)) <==> Encodes(s)
  {
    hide InRange, SequenceAt, LeadLength;
    SanitizedInRange(s);
    GrammarIsEncoding(Sanitized(s));
    forall i: nat | SequenceAt(s, i)
      ensures i < |s| && (InRange(s, i) <==> exists v: Scalar :: SequenceOf(s, i) == Encode(v))
    {
      SequenceIsInside(s, i);
      InRangeIsEncoded(s, i);
    }
  }

  lemma SequenceIsInside(s: Text, i: nat)
    requires SequenceAt(s, i)
    ensures i < |s|
  {
  }

  /** So the cleaner does not make every text valid: an overlong form, an encoded surrogate
      and a lead byte F5 pass unchanged, though no list of scalar values is encoded so. */
  lemma RangeLimitsAreNotChecked(x: Text)
    requires x == [0xC0, 0x80] || x == [0xED, 0xA0, 0x80] || x == [0xF5, 0x80, 0x80, 0x80]
    ensures Sanitized(x) == x && forall vs :: EncodeAll(vs) != x
  {
    assert SequenceAt(x, 0) && !InRange(x, 0) && x[|x|..] == [];
    WellFormedIsKept(x);
    GrammarIsEncoding(x);
  }
}
