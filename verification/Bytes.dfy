/** Byte strings, the model of `std::string`. */
module Bytes {

  newtype Byte = x: int | 0 <= x < 256

  type Text = seq<Byte>

  /** The concatenation of a list of byte strings, in order. */
  function Join(parts: seq<Text>): Text {
    if parts == [] then [] else parts[0] + Join(parts[1..])
  }

  lemma {:induction false} JoinAppend(a: seq<Text>, b: seq<Text>)
    ensures Join(a + b) == Join(a) + Join(b)
  {
    if a == [] {
      assert a + b == b;
    } else {
      assert (a + b)[1..] == a[1..] + b;
      JoinAppend(a[1..], b);
    }
  }

  lemma Assoc<T>(a: seq<T>, b: seq<T>, c: seq<T>)
    ensures (a + b) + c == a + (b + c)
  {
  }

  lemma JoinOne(t: Text)
    ensures Join([t]) == t
  {
    assert Join([t]) == t + Join([]);
  }
}
