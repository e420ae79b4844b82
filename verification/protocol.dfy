/** The protocol step: one call of `parseMessage` over the accumulated buffer.
    The phase is not stored; it is re-derived on every call from which markers the
    buffer holds, searched for in a fixed priority order. */
module Protocol {
  import opened Bytes
  import opened Wrappers
  import opened Scanner
  import opened Numbers
  import opened Session

  /** The device's prompt for the next command, "Wait commands...\r\n", as the bytes
      the step searches for; it already ends in CR LF. */
  const Ready: seq<byte> := [87, 97, 105, 116, 32, 99, 111, 109, 109, 97, 110, 100, 115, 46, 46, 46, 13, 10]

  const LineFeed: byte := 10
  const CarriageReturn: byte := 13

  /** The phases a buffer can be in, one per marker the step tests. */
  datatype Phase =
    | ChipNotSelected
    | ChipSelected
    | ReadMode
    | BlockComplete
    | WriteBlock
    | BlockError
    | AddressError

  /** The ASCII text announcing each phase, as the bytes the step searches for. */
  function Marker(p: Phase): seq<byte>
  {
    match p
    case ChipNotSelected => [67, 104, 105, 112, 32, 110, 111, 116, 32, 115, 101, 108, 101, 99, 116, 101, 100, 33] // "Chip not selected!"
    case ChipSelected => [83, 101, 108, 101, 99, 116, 101, 100, 32] // "Selected "
    case ReadMode => [82, 101, 97, 100, 32, 109, 111, 100, 101, 46] // "Read mode."
    case BlockComplete => [67, 111, 109, 112, 108, 101, 116, 101, 32, 98, 108, 111, 99, 107, 32] // "Complete block "
    case WriteBlock => [87, 114, 105, 116, 101, 32, 98, 108, 111, 99, 107, 32] // "Write block "
    case BlockError => [69, 114, 114, 111, 114, 32, 111, 110, 32, 98, 108, 111, 99, 107, 32] // "Error on block "
    case AddressError => [69, 114, 114, 111, 114, 32, 111, 110, 32, 97, 100, 100, 114, 101, 115, 115, 32] // "Error on address "
  }

  /** The order in which the step tests the markers: earlier entries win. */
  const Order: seq<Phase> :=
    [ChipNotSelected, ChipSelected, ReadMode, BlockComplete, WriteBlock, BlockError, AddressError]

  /** Position of a phase in `Order`. */
  function Rank(p: Phase): (k: nat)
    ensures k < |Order| && Order[k] == p
  {
    match p
    case ChipNotSelected => 0
    case ChipSelected => 1
    case ReadMode => 2
    case BlockComplete => 3
    case WriteBlock => 4
    case BlockError => 5
    case AddressError => 6
  }

  /** `Rank` and `Order` are inverse: the phase at position `k` ranks `k`. */
  lemma RankOfOrder(k: nat)
    requires k < |Order|
    ensures Rank(Order[k]) == k
  {
    assert k == 0 || k == 1 || k == 2 || k == 3 || k == 4 || k == 5 || k == 6;
  }

  /** The phase chosen for a buffer and where its marker first occurs. */
  datatype Match = Found(phase: Phase, at: nat) | NoMarker

  /** Scans `Order` from position `k` for the first marker the buffer contains. */
  function ClassifyFrom(buf: seq<byte>, k: nat): Match
    requires k <= |Order|
    decreases |Order| - k
  {
    if k == |Order| then NoMarker
    else
      var i := IndexOf(buf, Marker(Order[k]));
      if i != -1 then Found(Order[k], i)
      else ClassifyFrom(buf, k + 1)
  }

  /** The scan from `k` finds the first phase at or after position `k` whose marker occurs,
      at that marker's first index; it finds nothing only when none of them occurs. */
  lemma {:induction false} ClassifyFromSpec(buf: seq<byte>, k: nat)
    requires k <= |Order|
    ensures var m := ClassifyFrom(buf, k);
            && (m.Found? ==> k <= Rank(m.phase) && m.at == IndexOf(buf, Marker(m.phase)))
            && (m.Found? ==> forall q :: k <= Rank(q) < Rank(m.phase) ==> !Occurs(buf, Marker(q)))
            && (m.NoMarker? ==> forall q :: k <= Rank(q) ==> !Occurs(buf, Marker(q)))
    decreases |Order| - k
  {
    if k < |Order| {
      var p := Order[k];
      RankOfOrder(k);
      if IndexOf(buf, Marker(p)) == -1 {
        assert !Occurs(buf, Marker(p));
        ClassifyFromSpec(buf, k + 1);
        var m := ClassifyFrom(buf, k + 1);
        forall q | k <= Rank(q) && (m.NoMarker? || Rank(q) < Rank(m.phase))
          ensures !Occurs(buf, Marker(q))
        {
          if Rank(q) == k {
            assert q == p;
          }
        }
      }
    }
  }

  /** The phase of a buffer: the first marker, in priority order, that occurs anywhere in it.
      Later markers are ignored, wherever they sit. */
  function Classify(buf: seq<byte>): (m: Match)
    ensures m.Found? ==> Occurs(buf, Marker(m.phase)) && m.at == IndexOf(buf, Marker(m.phase))
    ensures m.Found? ==> forall q :: Rank(q) < Rank(m.phase) ==> !Occurs(buf, Marker(q))
    ensures m.NoMarker? <==> forall q :: !Occurs(buf, Marker(q))
  {
    ClassifyFromSpec(buf, 0);
    ClassifyFrom(buf, 0)
  }

  /** What one step does besides consuming: `sent` is what it writes to the serial port
      (`None` when it writes nothing), `saved` is what it hands to the output file,
      `notice` is what it reports to the operator about the session. */
  datatype Notice =
    | Silent
    | LastBlockWritten
    | BlockFailed(index: Option<int>)
    | AddressFailed(address: Option<int>)

  datatype Outcome = Outcome(consumed: nat, sent: Option<seq<byte>>, saved: Option<seq<byte>>, notice: Notice)

  /** "Wait for more bytes": nothing consumed, nothing done. */
  const Wait := Outcome(0, None, None, Silent)

  /** Bytes the step writes per block request. */
  const BlockSize := 16

  /** `romFile.slice(offset, offset + 16)`; a NaN offset makes both bounds 0, and a
      negative offset counts back from the image end. */
  function RomBlock(image: seq<byte>, offset: Option<int>): (r: seq<byte>)
    ensures |r| <= BlockSize
    ensures offset.None? ==> r == []
    ensures offset.Some? && 0 <= offset.value <= |image| ==>
              r == image[offset.value..if offset.value + BlockSize <= |image| then offset.value + BlockSize else |image|]
    ensures offset.Some? && |image| <= offset.value ==> r == []
    ensures offset.Some? && -|image| <= offset.value && offset.value + BlockSize < 0 ==>
              r == image[|image| + offset.value..|image| + offset.value + BlockSize]
    ensures offset.Some? && offset.value < 0 <= offset.value + BlockSize && BlockSize <= |image| ==> r == []
  {
    match offset
    case None => []
    case Some(o) => JsSlice(image, o, o + BlockSize)
  }

  /** The line-feed search that ends a numeric field: `buf.indexOf('\n', from)`. */
  function LineEnd(buf: seq<byte>, from: nat): (r: int)
    ensures r == -1 <==> forall i :: from <= i < |buf| ==> buf[i] != LineFeed
    ensures r != -1 ==> from <= r < |buf| && buf[r] == LineFeed
    ensures r != -1 ==> forall i :: from <= i < r ==> buf[i] != LineFeed
  {
    MatchSingleEverywhere(buf, LineFeed);
    IndexOfFrom(buf, [LineFeed], from)
  }

  /** The guarantees every branch keeps: it consumes at most two bytes past the buffer
      end, and when it asks to wait it has done nothing else. */
  predicate Sound(buf: seq<byte>, o: Outcome)
  {
    && o.consumed <= |buf| + 2
    && (o.consumed == 0 ==> o.sent.None? && o.saved.None? && o.notice == Silent)
  }

  /** Branches 1 and 2: the device has no chip, or has just acknowledged it; once it
      prompts, send one byte — the chip code in branch 1, the mode in branch 2. */
  function SendOnPrompt(buf: seq<byte>, b: byte): (o: Outcome)
    ensures Sound(buf, o)
  {
    var cmd := IndexOf(buf, Ready);
    if cmd == -1 then Wait
    else Outcome(cmd + |Ready| + 2, Some([b]), None, Silent)
  }

  /** Branch 3: a memory dump; once the prompt follows it, save the bytes between the
      marker plus 12 and the prompt minus 2. */
  function SaveDump(buf: seq<byte>, at: nat): (o: Outcome)
    ensures Sound(buf, o)
  {
    var cmd := IndexOf(buf, Ready);
    if cmd == -1 then Wait
    else Outcome(cmd + |Ready| + 2, None, Some(JsSlice(buf, at + 12, cmd - 2)), Silent)
  }

  /** Branch 4: a block was programmed; the prompt means the whole image is done,
      otherwise consume the line. The block number is parsed but never used. */
  function CompleteBlock(buf: seq<byte>, at: nat): (o: Outcome)
    ensures Sound(buf, o)
  {
    var finish := LineEnd(buf, at + 15);
    var cmd := IndexOf(buf, Ready);
    if cmd != -1 then Outcome(cmd + |Ready| + 2, None, None, LastBlockWritten)
    else Outcome(finish + 1, None, None, Silent)
  }

  /** Branch 5 as the code has it: parse the offset up to the line feed and send the
      16-byte block, even when no line feed has arrived yet — then the field is cut
      one byte short of the buffer end and the step still returns 0. */
  function WriteBlockAsWritten(buf: seq<byte>, at: nat, image: seq<byte>): (o: Outcome)
    ensures o.sent.Some? && |o.sent.value| <= BlockSize
    ensures LineEnd(buf, at + 12) != -1 ==> o == ServeBlock(buf, at, image)
    ensures LineEnd(buf, at + 12) == -1 ==> o.consumed == 0 && !Sound(buf, o)
  {
    var finish := LineEnd(buf, at + 12);
    var offset := ParseInt(JsSlice(buf, at + 12, finish));
    Outcome(finish + 1, Some(RomBlock(image, offset)), None, Silent)
  }

  /** Branch 5 corrected: wait until the request line is complete, then send the block. */
  function ServeBlock(buf: seq<byte>, at: nat, image: seq<byte>): (o: Outcome)
    ensures Sound(buf, o)
  {
    var finish := LineEnd(buf, at + 12);
    if finish == -1 then Wait
    else
      var offset := ParseInt(buf[at + 12..finish]);
      Outcome(finish + 1, Some(RomBlock(image, offset)), None, Silent)
  }

  /** Branch 6: the device failed to program a block; report it once it prompts. */
  function BlockFault(buf: seq<byte>, at: nat): (o: Outcome)
    ensures Sound(buf, o)
  {
    var cmd := IndexOf(buf, Ready);
    if cmd == -1 then Wait
    else
      var finish := LineEnd(buf, at + 15);
      var index := ParseInt(JsSlice(buf, at + 15, finish));
      Outcome(cmd + |Ready| + 2, None, None, BlockFailed(index))
  }

  /** The result of a call that may throw. */
  datatype Completion = Returned(outcome: Outcome) | Threw(error: string)

  /** Branch 7 as the code has it: the address is read 15 bytes past a 17-byte marker,
      and the log line names the undeclared `index`, which throws a ReferenceError. */
  function AddressFaultAsWritten(buf: seq<byte>, at: nat): (r: Completion)
    ensures r.Threw? <==> Occurs(buf, Ready)
    ensures r.Returned? ==> r.outcome == Wait
  {
    var cmd := IndexOf(buf, Ready);
    if cmd == -1 then Returned(Wait)
    else Threw("ReferenceError: index is not defined")
  }

  /** Branch 7 corrected: read the address after the whole marker, report it, and
      consume past the prompt as the block-error branch does. */
  function AddressFault(buf: seq<byte>, at: nat): (o: Outcome)
    ensures Sound(buf, o)
  {
    var cmd := IndexOf(buf, Ready);
    if cmd == -1 then Wait
    else
      var finish := LineEnd(buf, at + 17);
      var address := ParseInt(JsSlice(buf, at + 17, finish));
      Outcome(cmd + |Ready| + 2, None, None, AddressFailed(address))
  }

  /** The branch for a phase whose marker first occurs at `at`. Branches 5 and 7, write
      block and address error, are the corrected `ServeBlock` and `AddressFault`;
      `StepAsWritten` keeps them as the code has them. */
  function Handle(buf: seq<byte>, cfg: Config, p: Phase, at: nat): (o: Outcome)
    ensures Sound(buf, o)
  {
    match p
    case ChipNotSelected => SendOnPrompt(buf, cfg.chip)
    case ChipSelected => SendOnPrompt(buf, cfg.mode)
    case ReadMode => SaveDump(buf, at)
    case BlockComplete => CompleteBlock(buf, at)
    case WriteBlock => ServeBlock(buf, at, cfg.image)
    case BlockError => BlockFault(buf, at)
    case AddressError => AddressFault(buf, at)
  }

  /** One call of the parser. The mode is never consulted: every branch is reachable in
      either mode. A zero result means "wait": nothing may be discarded, and nothing has
      been sent or saved. A positive result may pass the buffer end by the two bytes the
      code adds after the prompt. */
  function Step(buf: seq<byte>, cfg: Config): (o: Outcome)
    ensures o.consumed <= |buf| + 2
    ensures o.consumed == 0 ==> o.sent.None? && o.saved.None? && o.notice == Silent
    ensures buf == [] ==> o == Wait
  {
    match Classify(buf)
    case NoMarker => Wait
    case Found(p, at) => Handle(buf, cfg, p, at)
  }

  /** One call of the parser exactly as the code has it. */
  function StepAsWritten(buf: seq<byte>, cfg: Config): (r: Completion)
    ensures r.Threw? <==> Classify(buf).Found? && Classify(buf).phase == AddressError && Occurs(buf, Ready)
    ensures r.Returned? ==> r.outcome.consumed <= |buf| + 2
  {
    match Classify(buf)
    case NoMarker => Returned(Wait)
    case Found(WriteBlock, at) => Returned(WriteBlockAsWritten(buf, at, cfg.image))
    case Found(AddressError, at) => AddressFaultAsWritten(buf, at)
    case Found(p, at) => Returned(Handle(buf, cfg, p, at))
  }
}
