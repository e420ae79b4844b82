/** `saveLatestData`: append each arriving chunk to the pending buffer, then run the
    parser step over it repeatedly, trimming what each step consumed. */
module Driver {
  import opened Bytes
  import opened Session
  import opened Protocol

  /** What a run of the loop leaves behind: the pending buffer, and every step it took,
      in order, including a final step that asked to wait. */
  datatype Drained = Drained(rest: seq<byte>, steps: seq<Outcome>)

  /** `r` is what is left of `s` once some prefix is dropped. */
  predicate IsSuffix(r: seq<byte>, s: seq<byte>)
  {
    |r| <= |s| && r == s[|s| - |r|..]
  }

  /** Total bytes the steps reported as consumed. */
  function Consumed(steps: seq<Outcome>): nat
  {
    if steps == [] then 0 else steps[0].consumed + Consumed(steps[1..])
  }

  /** The parser step the loop runs, for a given configuration. */
  function Parser(cfg: Config): seq<byte> -> Outcome
  {
    buf => Step(buf, cfg)
  }

  /** The loop as a function of the buffer, for any step `parse`: stop on a zero step,
      trim and repeat while the step leaves bytes over, empty the buffer and stop once a
      step reaches or passes its end. What is left is always a suffix of the buffer; it
      is the whole buffer exactly when the first step waits; a non-empty remainder is
      one the step waits on; and the trimmed bytes are exactly those the steps
      consumed, unless the last step ran past the end. */
  function Drain(buf: seq<byte>, parse: seq<byte> -> Outcome): (d: Drained)
    ensures |d.rest| <= |buf|
    ensures |d.steps| >= 1 && d.steps[0] == parse(buf)
    ensures buf != [] ==> (d.rest == buf <==> parse(buf).consumed == 0)
    ensures d.rest != [] ==> parse(d.rest).consumed == 0
    decreases |buf|
  {
    var o := parse(buf);
    if o.consumed == 0 then Drained(buf, [o])
    else if o.consumed < |buf| then
      var tail := buf[o.consumed..];
      var d := Drain(tail, parse);
      Drained(d.rest, [o] + d.steps)
    else Drained([], [o])
  }

  /** What a run leaves is the end of the buffer it started from. */
  lemma {:induction false} DrainSuffix(buf: seq<byte>, parse: seq<byte> -> Outcome)
    ensures IsSuffix(Drain(buf, parse).rest, buf)
    decreases |buf|
  {
    var o := parse(buf);
    if 0 < o.consumed < |buf| {
      var tail := buf[o.consumed..];
      DrainSuffix(tail, parse);
      var r := Drain(tail, parse).rest;
      assert Drain(buf, parse).rest == r;
      var k := |tail| - |r|;
      assert o.consumed + k == |buf| - |r|;
      assert tail[k..] == buf[o.consumed + k..];
    }
  }

  /** The steps of a run: every step but the last consumed something; the last waited
      unless the buffer was emptied; and the bytes trimmed from the buffer are those
      the steps consumed, exactly so when something is left over (the last step can
      report more than was there, as the ready marker's two extra bytes allow). */
  lemma {:induction false} DrainSteps(buf: seq<byte>, parse: seq<byte> -> Outcome)
    ensures forall i :: 0 <= i < |Drain(buf, parse).steps| - 1 ==> Drain(buf, parse).steps[i].consumed > 0
    ensures Drain(buf, parse).steps[|Drain(buf, parse).steps| - 1].consumed == 0 || Drain(buf, parse).rest == []
    ensures Consumed(Drain(buf, parse).steps) >= |buf| - |Drain(buf, parse).rest|
    ensures Drain(buf, parse).rest != [] ==> Consumed(Drain(buf, parse).steps) == |buf| - |Drain(buf, parse).rest|
    decreases |buf|
  {
    var o := parse(buf);
    if 0 < o.consumed < |buf| {
      var tail := buf[o.consumed..];
      DrainSteps(tail, parse);
      var d := Drain(tail, parse);
      assert Drain(buf, parse).steps == [o] + d.steps;
      assert ([o] + d.steps)[1..] == d.steps;
    }
  }

  /** One `saveLatestData(data)` call on the pending buffer `pending`: the loop, run on
      `pending + data`, yields the new pending buffer and the steps taken. */
  method Feed(pending: seq<byte>, data: seq<byte>, cfg: Config) returns (rest: seq<byte>, steps: seq<Outcome>)
    ensures Drained(rest, steps) == Drain(pending + data, Parser(cfg))
    ensures IsSuffix(rest, pending + data)
    ensures rest != [] ==> Step(rest, cfg).consumed == 0
  {
    rest, steps := Run(pending + data, Parser(cfg));
    DrainSuffix(pending + data, Parser(cfg));
  }

  /** The `while (true)` loop of `saveLatestData`, for any step `parse`. */
  method Run(start: seq<byte>, parse: seq<byte> -> Outcome) returns (rest: seq<byte>, steps: seq<Outcome>)
    ensures Drained(rest, steps) == Drain(start, parse)
  {
    var buf := start;
    steps := [];
    RemainingStart(start, parse);
    while true
      invariant Remaining(start, steps, buf, parse)
      decreases |buf|
    {
      var o := parse(buf);
      Advance(start, steps, buf, parse);
      if o.consumed == 0 {
        return buf, steps + [o];
      } else if o.consumed < |buf| {
        steps, buf := steps + [o], buf[o.consumed..];
      } else {
        return [], steps + [o];
      }
    }
  }

  /** The loop invariant of `Run`: the steps taken so far, followed by a run of the
      loop on the current buffer, make up a run on the whole input. */
  predicate Remaining(start: seq<byte>, steps: seq<Outcome>, buf: seq<byte>, parse: seq<byte> -> Outcome)
  {
    Drain(start, parse) == Drained(Drain(buf, parse).rest, steps + Drain(buf, parse).steps)
  }

  lemma RemainingStart(start: seq<byte>, parse: seq<byte> -> Outcome)
    ensures Remaining(start, [], start, parse)
  {
    assert [] + Drain(start, parse).steps == Drain(start, parse).steps;
  }

  /** One turn of the loop keeps the invariant, or ends the run with what it returns. */
  lemma Advance(start: seq<byte>, steps: seq<Outcome>, buf: seq<byte>, parse: seq<byte> -> Outcome)
    requires Remaining(start, steps, buf, parse)
    ensures parse(buf).consumed == 0 ==> Drain(start, parse) == Drained(buf, steps + [parse(buf)])
    ensures 0 < parse(buf).consumed < |buf| ==>
              Remaining(start, steps + [parse(buf)], buf[parse(buf).consumed..], parse)
    ensures 0 < parse(buf).consumed && |buf| <= parse(buf).consumed ==>
              Drain(start, parse) == Drained([], steps + [parse(buf)])
  {
    var o := parse(buf);
    if 0 < o.consumed < |buf| {
      RemainingTrims(start, steps, buf, parse);
    }
  }

  lemma RemainingTrims(start: seq<byte>, steps: seq<Outcome>, buf: seq<byte>, parse: seq<byte> -> Outcome)
    requires Remaining(start, steps, buf, parse) && 0 < parse(buf).consumed < |buf|
    ensures Remaining(start, steps + [parse(buf)], buf[parse(buf).consumed..], parse)
  {
    var o := parse(buf);
    var next := Drain(buf[o.consumed..], parse);
    assert Drain(buf, parse).steps == [o] + next.steps;
    assert steps + ([o] + next.steps) == (steps + [o]) + next.steps;
  }
}
