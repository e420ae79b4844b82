/** Bytes, latin1 text and the slicing rules of JavaScript's Buffer and String. */
module Bytes {

  type byte = b: int | 0 <= b < 256

  /** The bytes Node.js writes for one character in the 'binary' (latin1) encoding: the
      low eight bits of each of its UTF-16 code units — the code itself below U+10000,
      otherwise a high and a low surrogate. */
  function CharBytes(c: char): (r: seq<byte>)
    ensures |r| == if c as int < 0x10000 then 1 else 2
  {
    var v := c as int;
    if v < 0x10000 then [v % 256]
    else [(0xD800 + (v - 0x10000) / 0x400) % 256, (0xDC00 + (v - 0x10000) % 0x400) % 256]
  }

  /** The bytes Node.js writes for the string `s` in the 'binary' encoding: one byte per
      UTF-16 code unit, so a character above U+FFFF takes two. */
  function Latin1(s: string): (r: seq<byte>)
    ensures |s| <= |r| <= 2 * |s|
  {
    if s == [] then [] else CharBytes(s[0]) + Latin1(s[1..])
  }

  /** The string `fs.readFileSync(path, { encoding: 'binary' })` returns for the file's
      bytes: one character per byte, with that byte as its code. */
  function Binary(b: seq<byte>): (s: string)
    ensures |s| == |b|
  {
    seq(|b|, i requires 0 <= i < |b| => (b[i] as int) as char)
  }

  /** The encoding works character by character. */
  lemma {:induction false} Latin1Append(s: string, t: string)
    ensures Latin1(s + t) == Latin1(s) + Latin1(t)
    decreases |s|
  {
    if s != [] {
      assert (s + t)[0] == s[0] && (s + t)[1..] == s[1..] + t;
      Latin1Append(s[1..], t);
      assert Latin1(s + t) == CharBytes(s[0]) + Latin1(s[1..] + t);
      Regroup(CharBytes(s[0]), Latin1(s[1..]), Latin1(t));
    } else {
      assert s + t == t;
    }
  }

  /** On text below U+10000 the encoding keeps one byte per character: its code modulo 256,
      so latin1 text keeps its codes. */
  lemma {:induction false} Latin1Text(s: string)
    requires forall i :: 0 <= i < |s| ==> s[i] as int < 0x10000
    ensures |Latin1(s)| == |s|
    ensures forall i :: 0 <= i < |s| ==> Latin1(s)[i] == (s[i] as int) % 256
    decreases |s|
  {
    if s != [] {
      Latin1Text(s[1..]);
      forall i | 1 <= i < |s|
        ensures Latin1(s)[i] == (s[i] as int) % 256
      {
        assert Latin1(s)[i] == Latin1(s[1..])[i - 1];
      }
    }
  }

  /** Reading bytes as a 'binary' string and writing the string back in the same encoding
      gives the same bytes: the write-mode image reaches the port unchanged. */
  lemma {:induction false} Latin1Binary(b: seq<byte>)
    ensures Latin1(Binary(b)) == b
    decreases |b|
  {
    if b != [] {
      assert Binary(b)[1..] == Binary(b[1..]);
      Latin1Binary(b[1..]);
    }
  }

  /** Concatenation regrouped to the right. */
  lemma Regroup<T>(a: seq<T>, b: seq<T>, c: seq<T>)
    ensures a + b + c == a + (b + c)
  {
  }

  /** A slice inside the left part of a concatenation. */
  lemma SliceLeft<T>(a: seq<T>, b: seq<T>, i: int, j: int)
    requires 0 <= i <= j <= |a|
    ensures (a + b)[i..j] == a[i..j]
  {
  }

  /** A slice inside the right part of a concatenation. */
  lemma SliceRight<T>(a: seq<T>, b: seq<T>, i: int, j: int)
    requires |a| <= i <= j <= |a| + |b|
    ensures (a + b)[i..j] == b[i - |a|..j - |a|]
  {
  }

  /** A slice bound as Buffer.prototype.slice and String.prototype.slice resolve it:
      a negative bound counts back from the end, then the bound is clamped to [0, len]. */
  function SliceBound(i: int, len: nat): (r: nat)
    ensures r <= len
    ensures 0 <= i <= len ==> r == i
    ensures len < i ==> r == len
    ensures i < 0 ==> r <= len && (len + i >= 0 ==> r == len + i) && (len + i < 0 ==> r == 0)
  {
    if i < 0 then (if len + i < 0 then 0 else len + i)
    else if i > len then len
    else i
  }

  /** `s.slice(start, end)` in JavaScript: the bytes between the two resolved bounds,
      empty when the end bound does not lie after the start bound. */
  function JsSlice<T>(s: seq<T>, start: int, end: int): (r: seq<T>)
    ensures |r| <= |s|
    ensures 0 <= start <= end <= |s| ==> r == s[start..end]
    ensures 0 <= end <= start ==> r == []
    ensures |s| <= start ==> r == []
  {
    var a := SliceBound(start, |s|);
    var b := SliceBound(end, |s|);
    if b <= a then [] else s[a..b]
  }
}
