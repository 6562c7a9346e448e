/**
 Sequences built by appending variable fields and constant fragments in turn,
 `frags[0] + fields[0] + frags[1] + ... + fields[n-1] + frags[n]`, and the
 decoder that recovers the fields when their lengths are known.
 */
module Splice {
  import opened Common

  /** Sum of the lengths of the parts. */
  function TotalLength<T>(parts: seq<seq<T>>): nat
  {
    if |parts| == 0 then 0 else TotalLength(parts[..|parts| - 1]) + |parts[|parts| - 1]|
  }

  /** The length of each part, in order. */
  function Lengths<T>(parts: seq<seq<T>>): (lens: seq<nat>)
    ensures |lens| == |parts|
  {
    if |parts| == 0 then [] else Lengths(parts[..|parts| - 1]) + [|parts[|parts| - 1]|]
  }

  /**
   The splice grows at its end, one field and the fragment after it at a time,
   the way a buffer is filled by successive appends.
   */
  function Interleave<T>(frags: seq<seq<T>>, fields: seq<seq<T>>): seq<T>
    requires |frags| == |fields| + 1
    decreases |fields|
  {
    var n := |fields|;
    if n == 0 then frags[0]
    else Interleave(frags[..n], fields[..n - 1]) + fields[n - 1] + frags[n]
  }

  /** The splice of the first k + 1 fields extends the splice of the first k by one field and one fragment. */
  lemma InterleaveGrow<T>(frags: seq<seq<T>>, fields: seq<seq<T>>, k: nat)
    requires |frags| == |fields| + 1
    requires k < |fields|
    ensures Interleave(frags[..k + 2], fields[..k + 1])
            == Interleave(frags[..k + 1], fields[..k]) + fields[k] + frags[k + 1]
  {
    assert frags[..k + 2][..k + 1] == frags[..k + 1];
    assert fields[..k + 1][..k] == fields[..k];
  }

  /** The spliced sequence is exactly as long as all its parts together. */
  lemma {:induction false} InterleaveLength<T>(frags: seq<seq<T>>, fields: seq<seq<T>>)
    requires |frags| == |fields| + 1
    ensures |Interleave(frags, fields)| == TotalLength(frags) + TotalLength(fields)
    decreases |fields|
  {
    var n := |fields|;
    if n == 0 {
      assert TotalLength(frags[..0]) == 0;
    } else {
      InterleaveLength(frags[..n], fields[..n - 1]);
    }
  }

  /**
   Cuts `s` into fields of the given lengths, checking that the expected
   fragments sit between them; None when `s` does not have that shape.
   */
  function Split<T(==)>(frags: seq<seq<T>>, fieldLens: seq<nat>, s: seq<T>): (r: Option<seq<seq<T>>>)
    requires |frags| == |fieldLens| + 1
    ensures r.Some? ==> Lengths(r.value) == fieldLens
    ensures r.Some? ==> Interleave(frags, r.value) == s
    decreases |fieldLens|
  {
    var n := |fieldLens|;
    var last := frags[n];
    if n == 0 then
      if s == last then Some([]) else None
    else if |s| < fieldLens[n - 1] + |last| || s[|s| - |last|..] != last then None
    else
      var cut := |s| - |last| - fieldLens[n - 1];
      var field := s[cut..|s| - |last|];
      match Split(frags[..n], fieldLens[..n - 1], s[..cut])
      case None => None
      case Some(init) =>
        AppendField(frags, init, field);
        AppendFieldLength(fieldLens, init, field);
        ThreeWaySplit(s, cut, |s| - |last|);
        Some(init + [field])
  }

  /** Appending one field and the fragment after it extends the splice at its end. */
  lemma AppendField<T>(frags: seq<seq<T>>, init: seq<seq<T>>, field: seq<T>)
    requires |frags| == |init| + 2
    ensures Interleave(frags, init + [field])
            == Interleave(frags[..|init| + 1], init) + field + frags[|init| + 1]
  {
  }

  /** The lengths side of the recursive case of `Split`. */
  lemma AppendFieldLength<T>(fieldLens: seq<nat>, init: seq<seq<T>>, field: seq<T>)
    requires |fieldLens| == |init| + 1
    requires Lengths(init) == fieldLens[..|init|]
    requires |field| == fieldLens[|init|]
    ensures Lengths(init + [field]) == fieldLens
  {
  }

  /** A sequence is the concatenation of its pieces cut at two positions. */
  lemma ThreeWaySplit<T>(s: seq<T>, i: nat, j: nat)
    requires i <= j <= |s|
    ensures s == s[..i] + s[i..j] + s[j..]
  {
  }

  /** Splitting a spliced sequence at its own field lengths gives the fields back. */
  lemma {:induction false} SplitInterleave<T>(frags: seq<seq<T>>, fields: seq<seq<T>>)
    requires |frags| == |fields| + 1
    ensures Split(frags, Lengths(fields), Interleave(frags, fields)) == Some(fields)
    decreases |fields|
  {
    var n := |fields|;
    if n != 0 {
      var init := Interleave(frags[..n], fields[..n - 1]);
      var s := Interleave(frags, fields);
      var last := frags[n];
      assert s == init + fields[n - 1] + last;
      var cut := |init|;
      assert s[|s| - |last|..] == last;
      assert s[cut..|s| - |last|] == fields[n - 1];
      assert s[..cut] == init;
      assert Lengths(fields) == Lengths(fields[..n - 1]) + [|fields[n - 1]|];
      SplitInterleave(frags[..n], fields[..n - 1]);
      assert fields[..n - 1] + [fields[n - 1]] == fields;
    }
  }
}
