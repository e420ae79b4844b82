/** The marker scanner: first occurrence of a byte pattern in a buffer,
    as Buffer.prototype.indexOf computes it for a non-negative start offset. */
module Scanner {
  import opened Bytes

  /** `p` occurs in `s` starting at index `i`. */
  predicate MatchAt(s: seq<byte>, p: seq<byte>, i: int)
  {
    0 <= i && i + |p| <= |s| && s[i..i + |p|] == p
  }

  /** `p` occurs somewhere in `s`. */
  predicate Occurs(s: seq<byte>, p: seq<byte>)
  {
    exists i | 0 <= i <= |s| :: MatchAt(s, p, i)
  }

  /** `buf.indexOf(p, from)`: the first index at or after `from` where `p` occurs, or -1. */
  function IndexOfFrom(s: seq<byte>, p: seq<byte>, from: nat): (r: int)
    ensures r == -1 || (from <= r && MatchAt(s, p, r))
    ensures forall i :: from <= i && (r == -1 || i < r) ==> !MatchAt(s, p, i)
    decreases |s| - from
  {
    if from + |p| > |s| then -1
    else if s[from..from + |p|] == p then from
    else IndexOfFrom(s, p, from + 1)
  }

  /** `buf.indexOf(p)`: the first occurrence of `p` in `s`, or -1 when there is none. */
  function IndexOf(s: seq<byte>, p: seq<byte>): (r: int)
    ensures r == -1 <==> !Occurs(s, p)
    ensures r != -1 ==> MatchAt(s, p, r) && forall i :: 0 <= i < r ==> !MatchAt(s, p, i)
  {
    IndexOfFrom(s, p, 0)
  }

  /** A match with no earlier match at or after `from` is the one the scan reports. */
  lemma FirstMatch(s: seq<byte>, p: seq<byte>, from: nat, k: int)
    requires from <= k && MatchAt(s, p, k)
    requires forall i :: from <= i < k ==> !MatchAt(s, p, i)
    ensures IndexOfFrom(s, p, from) == k
  {
  }

  /** A buffer that begins with `p` reports `p` at index 0. */
  lemma MatchAtStart(p: seq<byte>, t: seq<byte>)
    ensures MatchAt(p + t, p, 0)
    ensures IndexOf(p + t, p) == 0
  {
    assert (p + t)[0..|p|] == p;
  }

  /** A match at the start survives appending more bytes. */
  lemma MatchExtends(s: seq<byte>, p: seq<byte>, t: seq<byte>)
    requires MatchAt(s, p, 0)
    ensures MatchAt(s + t, p, 0)
  {
    assert (s + t)[0..|p|] == s[0..|p|];
  }

  /** A match survives appending more bytes. */
  lemma MatchPrefix(s: seq<byte>, p: seq<byte>, i: int, t: seq<byte>)
    requires MatchAt(s, p, i)
    ensures MatchAt(s + t, p, i)
  {
    assert (s + t)[i..i + |p|] == s[i..i + |p|];
  }

  /** A pattern appended to a buffer matches right after the old end. */
  lemma MatchAppended(s: seq<byte>, p: seq<byte>)
    ensures MatchAt(s + p, p, |s|)
  {
    assert (s + p)[|s|..|s| + |p|] == p;
  }

  /** A pattern whose first byte is missing from `s` does not occur in it. */
  lemma HeadAbsent(s: seq<byte>, p: seq<byte>)
    requires p != [] && p[0] !in s
    ensures !Occurs(s, p)
  {
    forall i | 0 <= i <= |s|
      ensures !MatchAt(s, p, i)
    {
      if i + |p| <= |s| {
        assert s[i..i + |p|][0] == s[i];
      }
    }
  }

  /** A one-byte pattern matches exactly where that byte sits. */
  lemma MatchSingle(s: seq<byte>, b: byte, i: int)
    ensures MatchAt(s, [b], i) <==> 0 <= i < |s| && s[i] == b
  {
    if 0 <= i < |s| {
      assert s[i..i + 1] == [s[i]];
    }
  }

  /** The single-byte fact for every index at once. */
  lemma MatchSingleEverywhere(s: seq<byte>, b: byte)
    ensures forall i :: MatchAt(s, [b], i) <==> 0 <= i < |s| && s[i] == b
  {
    forall i
      ensures MatchAt(s, [b], i) <==> 0 <= i < |s| && s[i] == b
    {
      MatchSingle(s, b, i);
    }
  }

  /** A pattern whose first byte appears nowhere in `s[..k]` cannot start before `k`. */
  lemma NoMatchBefore(s: seq<byte>, p: seq<byte>, k: int)
    requires |p| > 0
    requires forall i :: 0 <= i < k && i < |s| ==> s[i] != p[0]
    ensures forall i :: 0 <= i < k ==> !MatchAt(s, p, i)
  {
    forall i | 0 <= i < k
      ensures !MatchAt(s, p, i)
    {
      if 0 <= i && i + |p| <= |s| {
        assert s[i..i + |p|][0] == s[i];
      }
    }
  }
}
