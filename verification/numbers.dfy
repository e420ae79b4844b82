/** Decimal numbers in the byte stream: `parseInt(text, 10)` over ASCII bytes,
    and the decimal rendering the device uses for block offsets and addresses. */
module Numbers {
  import opened Bytes
  import opened Wrappers

  predicate IsDigit(b: byte)
  {
    '0' as int <= b <= '9' as int
  }

  /** A code point `parseInt` skips before the number: the white space and line
      terminators of ECMA-262 (its StrWhiteSpaceChar), all of them below U+10000. */
  predicate JsSpace(c: int)
  {
    || c == 0x09 || c == 0x0A || c == 0x0B || c == 0x0C || c == 0x0D || c == 0x20
    || c == 0xA0 || c == 0x1680 || 0x2000 <= c <= 0x200A || c == 0x2028 || c == 0x2029
    || c == 0x202F || c == 0x205F || c == 0x3000 || c == 0xFEFF
  }

  /** A code point that UTF-8 writes in one to three bytes: below U+10000, not a surrogate. */
  predicate Bmp(c: int)
  {
    0 <= c < 0x10000 && !(0xD800 <= c < 0xE000)
  }

  /** The UTF-8 encoding of such a code point. */
  function Utf8(c: int): (r: seq<byte>)
    requires Bmp(c)
    ensures 1 <= |r| <= 3
  {
    if c < 0x80 then [c]
    else if c < 0x800 then [0xC0 + c / 64, 0x80 + c % 64]
    else [0xE0 + c / 4096, 0x80 + c / 64 % 64, 0x80 + c % 64]
  }

  predicate Continuation(b: byte)
  {
    0x80 <= b < 0xC0
  }

  /** The code point and length of the well-formed UTF-8 sequence of one to three bytes
      that starts at index `i`, as `Buffer.prototype.toString` decodes it. `None` where no
      such sequence starts: decoding yields U+FFFD there, or a code point above U+FFFF,
      and neither is white space, a sign or a digit. */
  function Utf8At(s: seq<byte>, i: nat): (r: Option<(int, nat)>)
    ensures r.Some? ==> 1 <= r.value.1 <= 3 && i + r.value.1 <= |s|
  {
    if i >= |s| then None
    else if s[i] < 0x80 then Some((s[i], 1))
    else if 0xC2 <= s[i] < 0xE0 && i + 1 < |s| && Continuation(s[i + 1]) then
      Some(((s[i] as int - 0xC0) * 64 + (s[i + 1] as int - 0x80), 2))
    else if 0xE0 <= s[i] < 0xF0 && i + 2 < |s| && Continuation(s[i + 1]) && Continuation(s[i + 2]) then
      var c := (s[i] as int - 0xE0) * 4096 + (s[i + 1] as int - 0x80) * 64 + (s[i + 2] as int - 0x80);
      if c < 0x800 || 0xD800 <= c < 0xE000 then None else Some((c, 3))
    else None
  }

  /** How many bytes of white space start at index `i`: the length of the UTF-8 sequence
      there when it encodes a white-space code point, 0 otherwise. */
  function SpaceWidth(s: seq<byte>, i: nat): (w: nat)
    ensures w <= 3 && (w > 0 ==> i + w <= |s|)
  {
    match Utf8At(s, i)
    case Some((c, n)) => if JsSpace(c) then n else 0
    case None => 0
  }

  predicate AllDigits(s: seq<byte>)
  {
    forall i :: 0 <= i < |s| ==> IsDigit(s[i])
  }

  /** The value of a digit string read most significant first, on top of `acc`. */
  function Fold(ds: seq<byte>, acc: nat): nat
    requires AllDigits(ds)
  {
    if ds == [] then acc else Fold(ds[1..], acc * 10 + (ds[0] - '0' as int))
  }

  /** The run of digits starting at index `i` of `s`, folded onto `acc`. */
  function DigitsFrom(s: seq<byte>, i: nat, acc: nat): nat
    decreases |s| - i
  {
    if i < |s| && IsDigit(s[i]) then DigitsFrom(s, i + 1, acc * 10 + (s[i] - '0' as int)) else acc
  }

  /** The unsigned number starting at index `i`, or NaN when no digit is there. */
  function NumberAt(s: seq<byte>, i: nat): Option<nat>
  {
    if i < |s| && IsDigit(s[i]) then Some(DigitsFrom(s, i, 0)) else None
  }

  /** parseInt from index `i`: skip white space, take an optional sign, then digits. */
  function ParseFrom(s: seq<byte>, i: nat): Option<int>
    decreases |s| - i
  {
    var w := SpaceWidth(s, i);
    if w > 0 then ParseFrom(s, i + w)
    else if i < |s| && s[i] == '-' as int then
      (match NumberAt(s, i + 1) case None => None case Some(v) => Some(-(v as int)))
    else if i < |s| && s[i] == '+' as int then
      (match NumberAt(s, i + 1) case None => None case Some(v) => Some(v))
    else
      (match NumberAt(s, i) case None => None case Some(v) => Some(v))
  }

  /** `parseInt(buf.slice(…), 10)`: the bytes are decoded as UTF-8, then leading white
      space is skipped, an optional sign taken, and the longest run of digits read;
      `None` (NaN) when no digit follows the sign. */
  function ParseInt(s: seq<byte>): (r: Option<int>)
    ensures s == [] ==> r == None
    ensures |s| > 0 && IsDigit(s[0]) ==> r.Some? && r.value >= 0
  {
    ParseFrom(s, 0)
  }

  /** The decimal rendering of `n` without leading zeros. */
  function Decimal(n: nat): (ds: seq<byte>)
    ensures |ds| >= 1 && AllDigits(ds)
    decreases n
  {
    if n < 10 then ['0' as int + n]
    else Decimal(n / 10) + ['0' as int + n % 10]
  }

  /** Scanning a digit string inside a longer buffer folds exactly its digits. */
  lemma {:induction false} DigitsFromFold(ds: seq<byte>, tail: seq<byte>, i: nat, acc: nat)
    requires AllDigits(ds) && i <= |ds|
    requires tail == [] || !IsDigit(tail[0])
    ensures DigitsFrom(ds + tail, i, acc) == Fold(ds[i..], acc)
    decreases |ds| - i
  {
    var s := ds + tail;
    if i < |ds| {
      assert s[i] == ds[i];
      assert ds[i..][1..] == ds[i + 1..];
      DigitsFromFold(ds, tail, i + 1, acc * 10 + (ds[i] - '0' as int));
    } else {
      assert ds[i..] == [];
      assert i < |s| ==> s[i] == tail[0];
    }
  }

  /** Appending a digit multiplies the folded value by ten and adds the digit. */
  lemma {:induction false} FoldSnoc(ds: seq<byte>, d: byte, acc: nat)
    requires AllDigits(ds) && IsDigit(d)
    ensures Fold(ds + [d], acc) == Fold(ds, acc) * 10 + (d - '0' as int)
    decreases |ds|
  {
    if ds == [] {
      assert [] + [d] == [d];
    } else {
      assert (ds + [d])[1..] == ds[1..] + [d];
      FoldSnoc(ds[1..], d, acc * 10 + (ds[0] - '0' as int));
    }
  }

  /** Reading back a rendered number gives the number. */
  lemma {:induction false} DecimalValue(n: nat)
    ensures Fold(Decimal(n), 0) == n
    decreases n
  {
    if n < 10 {
      assert Decimal(n)[1..] == [];
    } else {
      DecimalValue(n / 10);
      FoldSnoc(Decimal(n / 10), '0' as int + n % 10, 0);
    }
  }

  /** parseInt recovers a rendered number from a field that continues with a non-digit
      (the carriage return before the line feed, for instance). */
  lemma ParseDecimal(n: nat, tail: seq<byte>)
    requires tail == [] || !IsDigit(tail[0])
    ensures ParseInt(Decimal(n) + tail) == Some(n)
  {
    var s := Decimal(n) + tail;
    assert s[0] == Decimal(n)[0];
    DigitsFromFold(Decimal(n), tail, 0, 0);
    assert Decimal(n)[0..] == Decimal(n);
    DecimalValue(n);
  }

  /** A field whose first byte is neither whitespace, a sign nor a digit is NaN. */
  lemma ParseLetter(s: seq<byte>)
    requires |s| > 0 && SpaceWidth(s, 0) == 0 && !IsDigit(s[0])
    requires s[0] != '-' as int && s[0] != '+' as int
    ensures ParseInt(s) == None
  {
  }

  /** Decoding the UTF-8 encoding of a code point gives back the code point and the
      encoding's length, whatever follows it. */
  lemma Utf8Decodes(c: int, tail: seq<byte>)
    requires Bmp(c)
    ensures Utf8At(Utf8(c) + tail, 0) == Some((c, |Utf8(c)|))
  {
    var s := Utf8(c) + tail;
    if c < 0x80 {
      assert s[0] == c;
    } else if c < 0x800 {
      assert s[0] == 0xC0 + c / 64 && s[1] == 0x80 + c % 64;
    } else {
      assert s[0] == 0xE0 + c / 4096 && s[1] == 0x80 + c / 64 % 64 && s[2] == 0x80 + c % 64;
      Base64Split(c);
    }
  }

  /** Conversely, a decoded sequence is the UTF-8 encoding of the code point it decodes to. */
  lemma Utf8Encodes(s: seq<byte>, i: nat)
    requires Utf8At(s, i).Some?
    ensures Bmp(Utf8At(s, i).value.0)
    ensures s[i..i + Utf8At(s, i).value.1] == Utf8(Utf8At(s, i).value.0)
  {
    if 0x80 <= s[i] < 0xE0 {
      Base64Pair(s[i] as int - 0xC0, s[i + 1] as int - 0x80);
    } else if 0xE0 <= s[i] {
      Base64Triple(s[i] as int - 0xE0, s[i + 1] as int - 0x80, s[i + 2] as int - 0x80);
    }
  }

  /** A value below 2^18 is its three six-bit groups put together. */
  lemma Base64Split(c: int)
    requires 0 <= c
    ensures c == c / 4096 * 4096 + c / 64 % 64 * 64 + c % 64
  {
    assert c == c / 64 * 64 + c % 64;
    assert c / 64 == c / 64 / 64 * 64 + c / 64 % 64;
    assert c / 64 / 64 == c / 4096;
  }

  /** The six-bit groups of a two-group value. */
  lemma Base64Pair(a: int, b: int)
    requires 0 <= a && 0 <= b < 64
    ensures (a * 64 + b) / 64 == a && (a * 64 + b) % 64 == b
  {
  }

  /** The six-bit groups of a three-group value. */
  lemma Base64Triple(a: int, b: int, d: int)
    requires 0 <= a && 0 <= b < 64 && 0 <= d < 64
    ensures var c := a * 4096 + b * 64 + d;
            c / 4096 == a && c / 64 % 64 == b && c % 64 == d
  {
    var c := a * 4096 + b * 64 + d;
    Base64Pair(a * 64 + b, d);
    Base64Pair(a, b);
    assert c == (a * 64 + b) * 64 + d;
    assert c / 4096 == c / 64 / 64;
  }

  /** The white space parseInt skips is exactly the UTF-8 encoding of a white-space code
      point: a skip of `w` bytes covers one such encoding, and such an encoding is skipped
      whole. */
  lemma SpaceIsUtf8(s: seq<byte>, i: nat)
    requires SpaceWidth(s, i) > 0
    ensures exists c :: JsSpace(c) && Bmp(c) && s[i..i + SpaceWidth(s, i)] == Utf8(c)
  {
    Utf8Encodes(s, i);
  }

  lemma Utf8Space(c: int, tail: seq<byte>)
    requires JsSpace(c)
    ensures Bmp(c) && SpaceWidth(Utf8(c) + tail, 0) == |Utf8(c)|
  {
    Utf8Decodes(c, tail);
  }

  /** parseInt skips a leading white-space character in any of its UTF-8 forms: the text
      parses as it would without it. */
  lemma ParseSkipsSpace(c: int, s: seq<byte>)
    requires JsSpace(c)
    ensures Bmp(c) && ParseInt(Utf8(c) + s) == ParseInt(s)
  {
    Utf8Space(c, s);
    ParseFromShift(Utf8(c), s, 0);
  }

  /** For instance a no-break space (bytes C2 A0) before a rendered number and its CR. */
  lemma ParseAfterNoBreakSpace(n: nat)
    ensures ParseInt([0xC2, 0xA0] + Decimal(n) + [13]) == Some(n)
  {
    assert Utf8(0xA0) == [0xC2, 0xA0];
    ParseSkipsSpace(0xA0, Decimal(n) + [13]);
    Regroup([0xC2, 0xA0], Decimal(n), [13]);
    ParseDecimal(n, [13]);
  }

  /** Parsing inside `p + s` from a point past `p` is parsing `s`. */
  lemma {:induction false} ParseFromShift(p: seq<byte>, s: seq<byte>, j: nat)
    ensures ParseFrom(p + s, |p| + j) == ParseFrom(s, j)
    decreases |s| - j
  {
    var t := p + s;
    Utf8AtShift(p, s, j);
    var w := SpaceWidth(s, j);
    if w > 0 {
      ParseFromShift(p, s, j + w);
    } else {
      NumberAtShift(p, s, j);
      NumberAtShift(p, s, j + 1);
      if j < |s| {
        assert t[|p| + j] == s[j];
      }
    }
  }

  lemma Utf8AtShift(p: seq<byte>, s: seq<byte>, j: nat)
    ensures Utf8At(p + s, |p| + j) == Utf8At(s, j)
  {
    var t := p + s;
    if j < |s| {
      assert t[|p| + j] == s[j];
    }
    if j + 1 < |s| {
      assert t[|p| + j + 1] == s[j + 1];
    }
    if j + 2 < |s| {
      assert t[|p| + j + 2] == s[j + 2];
    }
  }

  lemma NumberAtShift(p: seq<byte>, s: seq<byte>, j: nat)
    ensures NumberAt(p + s, |p| + j) == NumberAt(s, j)
  {
    if j < |s| {
      assert (p + s)[|p| + j] == s[j];
      DigitsFromShift(p, s, j, 0);
    }
  }

  lemma {:induction false} DigitsFromShift(p: seq<byte>, s: seq<byte>, j: nat, acc: nat)
    ensures DigitsFrom(p + s, |p| + j, acc) == DigitsFrom(s, j, acc)
    decreases |s| - j
  {
    if j < |s| {
      assert (p + s)[|p| + j] == s[j];
      if IsDigit(s[j]) {
        DigitsFromShift(p, s, j + 1, acc * 10 + (s[j] - '0' as int));
      }
    }
  }

  /** Dropping the last digit of a rendered number renders the number divided by ten. */
  lemma DecimalDropLast(n: nat)
    requires n >= 10
    ensures Decimal(n)[..|Decimal(n)| - 1] == Decimal(n / 10)
  {
  }
}
