/** Bytes, and numbers written as bytes with the most significant first. */
module Bytes {
  import opened Machine

  type Byte = b: int | 0 <= b < 256

  function Pow256(width: nat): (p: nat)
    ensures p > 0
  {
    if width == 0 then 1 else 256 * Pow256(width - 1)
  }

  /** The big-endian number. */
  function Value(s: seq<Byte>): (v: nat) {
    if s == [] then 0 else 256 * Value(s[..|s| - 1]) + s[|s| - 1]
  }

  lemma ValueSnoc(s: seq<Byte>, b: Byte)
    ensures Value(s + [b]) == 256 * Value(s) + b
  {
    assert (s + [b])[..|s|] == s;
  }

  /** The largest number of a width is the one whose bytes are all 255. */
  lemma {:induction false} ValueBound(s: seq<Byte>)
    ensures Value(s) < Pow256(|s|)
    ensures Value(s) == Pow256(|s|) - 1 <==> forall i :: 0 <= i < |s| ==> s[i] == 255
  {
    if s != [] {
      var init := s[..|s| - 1];
      ValueBound(init);
      assert forall i :: 0 <= i < |init| ==> init[i] == s[i];
    }
  }

  /** The next byte string of the same width, if there is one. */
  function Successor(s: seq<Byte>): (t: Option<seq<Byte>>)
    ensures t.Some? ==> |t.value| == |s|
  {
    if s == [] then None
    else
      var init, last := s[..|s| - 1], s[|s| - 1];
      if last < 255 then Some(init + [last + 1])
      else
        var up := Successor(init);
        if up.Some? then Some(up.value + [0]) else None
  }

  lemma {:induction false} SuccessorAddsOne(s: seq<Byte>)
    ensures Successor(s).None? <==> Value(s) == Pow256(|s|) - 1
    ensures Successor(s).Some? ==> Value(Successor(s).value) == Value(s) + 1
    ensures Successor(s).Some? ==> Successor(s).value[0] >= s[0]
  {
    ValueBound(s);
    if s != [] {
      var init, last := s[..|s| - 1], s[|s| - 1];
      SuccessorAddsOne(init);
      ValueBound(init);
      if last < 255 {
        ValueSnoc(init, last + 1);
      } else if Successor(init).Some? {
        ValueSnoc(Successor(init).value, 0);
      }
    }
  }
}
