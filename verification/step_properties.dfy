/** What one parser step does, branch by branch, stated in terms of which markers
    the buffer contains, and what it does with complete device messages. */
module StepProperties {
  import opened Bytes
  import opened Wrappers
  import opened Scanner
  import opened Numbers
  import opened Session
  import opened Protocol

  /** No marker that outranks `p` occurs anywhere in `buf`. */
  predicate Unpreempted(buf: seq<byte>, p: Phase)
  {
    forall q :: Rank(q) < Rank(p) ==> !Occurs(buf, Marker(q))
  }

  const CRLF: seq<byte> := [CarriageReturn, LineFeed]

  /** A device line announcing `p` with the number `n`, such as "Write block 32\r\n". */
  function NumberLine(p: Phase, n: nat): seq<byte>
  {
    Marker(p) + Decimal(n) + CRLF
  }

  /** A complete memory dump as the device sends it: the marker, a line break, the data,
      a line break and the prompt. */
  function DumpMessage(data: seq<byte>): seq<byte>
  {
    Marker(ReadMode) + CRLF + data + CRLF + Ready
  }

  /** The branch taken is the first marker in the fixed order that occurs anywhere in
      the buffer, acting on that marker's first occurrence. */
  lemma Priority(buf: seq<byte>, p: Phase)
    requires Occurs(buf, Marker(p))
    requires Unpreempted(buf, p)
    ensures Classify(buf) == Found(p, IndexOf(buf, Marker(p)))
  {
  }

  /** Hence the step runs the branch of that marker. */
  lemma StepRuns(buf: seq<byte>, cfg: Config, p: Phase)
    requires Occurs(buf, Marker(p))
    requires Unpreempted(buf, p)
    ensures Step(buf, cfg) == Handle(buf, cfg, p, IndexOf(buf, Marker(p)))
  {
    Priority(buf, p);
  }

  /** With no marker at all the step waits. */
  lemma NoMarkerWaits(buf: seq<byte>, cfg: Config)
    requires forall q :: !Occurs(buf, Marker(q))
    ensures Step(buf, cfg) == Wait
  {
  }

  /** Branches 1 and 2, chip not selected and chip selected: wait until the prompt
      occurs anywhere in the buffer, then send the one byte (chip code or mode) and
      consume 20 bytes past the prompt's first index. */
  lemma SendOnPromptSpec(buf: seq<byte>, b: byte)
    ensures !Occurs(buf, Ready) ==> SendOnPrompt(buf, b) == Wait
    ensures Occurs(buf, Ready) ==>
              SendOnPrompt(buf, b) == Outcome(IndexOf(buf, Ready) + 20, Some([b]), None, Silent)
  {
  }

  /** Branch 1 on a buffer that holds the chip-not-selected marker, which nothing
      outranks: it waits for the prompt, then sends the chip code and nothing else. */
  lemma ChipCodeSent(buf: seq<byte>, cfg: Config)
    requires Occurs(buf, Marker(ChipNotSelected))
    ensures Step(buf, cfg) ==
              if Occurs(buf, Ready) then Outcome(IndexOf(buf, Ready) + 20, Some([cfg.chip]), None, Silent)
              else Wait
  {
    StepRuns(buf, cfg, ChipNotSelected);
  }

  /** Branch 2 on a buffer that holds the chip-selected marker and not the one above it:
      it waits for the prompt, then sends the mode byte and nothing else. */
  lemma ModeSent(buf: seq<byte>, cfg: Config)
    requires Occurs(buf, Marker(ChipSelected)) && Unpreempted(buf, ChipSelected)
    ensures Step(buf, cfg) ==
              if Occurs(buf, Ready) then Outcome(IndexOf(buf, Ready) + 20, Some([cfg.mode]), None, Silent)
              else Wait
  {
    StepRuns(buf, cfg, ChipSelected);
  }

  /** A whole handshake message — "Chip not selected!" or "Selected " with the rest of its
      text, then the prompt — is answered with the chip code or the mode byte, and the
      message plus two bytes is consumed. */
  lemma HandshakeAnswered(p: Phase, text: seq<byte>, tail: seq<byte>, cfg: Config)
    requires p == ChipNotSelected || p == ChipSelected
    requires Ready[0] !in text
    requires Unpreempted(Marker(p) + text + Ready + tail, p)
    ensures Step(Marker(p) + text + Ready + tail, cfg) ==
              Outcome(|Marker(p) + text| + 20, Some([if p == ChipNotSelected then cfg.chip else cfg.mode]), None, Silent)
  {
    var line := Marker(p) + text;
    var buf := line + Ready + tail;
    HandshakePromptFree(p, text);
    PromptAt(line, tail);
    MatchAtStart(Marker(p), text);
    MatchExtends(line, Marker(p), Ready);
    MatchExtends(line + Ready, Marker(p), tail);
    if p == ChipNotSelected {
      ChipCodeSent(buf, cfg);
    } else {
      ModeSent(buf, cfg);
    }
  }

  /** The handshake markers lack the prompt's first letter 'W' too. */
  lemma HandshakePromptFree(p: Phase, text: seq<byte>)
    requires p == ChipNotSelected || p == ChipSelected
    requires Ready[0] !in text
    ensures Ready[0] !in Marker(p) + text
  {
    assert Ready[0] == 'W' as int;
    if p == ChipNotSelected {
      assert 'W' as int !in Marker(ChipNotSelected);
    } else {
      assert 'W' as int !in Marker(ChipSelected);
    }
  }

  /** Branch 3, read mode: waits for the prompt; then saves the bytes from 12 past the
      marker to 2 before the prompt, whose count is the prompt index less the marker
      index less 14, and consumes 20 bytes past the prompt. */
  lemma SaveDumpSpec(buf: seq<byte>, at: nat)
    ensures !Occurs(buf, Ready) ==> SaveDump(buf, at) == Wait
    ensures Occurs(buf, Ready) ==>
              var cmd, o := IndexOf(buf, Ready), SaveDump(buf, at);
              && o.consumed == cmd + 20 && o.sent.None? && o.notice == Silent && o.saved.Some?
              && (at + 14 <= cmd ==> o.saved.value == buf[at + 12..cmd - 2])
              && (at + 14 <= cmd ==> |o.saved.value| == cmd - at - 14)
              && (2 <= cmd < at + 14 ==> o.saved.value == [])
  {
  }

  /** Branch 4, block complete: never sends or saves. With the prompt present the
      session is done and the step consumes past it; otherwise it consumes through the
      first line feed after the number, and waits exactly when there is none. */
  lemma CompleteBlockSpec(buf: seq<byte>, at: nat)
    ensures CompleteBlock(buf, at).sent.None? && CompleteBlock(buf, at).saved.None?
    ensures Occurs(buf, Ready) ==>
              CompleteBlock(buf, at) == Outcome(IndexOf(buf, Ready) + 20, None, None, LastBlockWritten)
    ensures !Occurs(buf, Ready) ==>
              var o := CompleteBlock(buf, at);
              && o.notice == Silent
              && (o.consumed == 0 <==> forall i :: at + 15 <= i < |buf| ==> buf[i] != LineFeed)
              && (o.consumed > 0 ==> at + 15 < o.consumed && buf[o.consumed - 1] == LineFeed)
              && (o.consumed > 0 ==> forall i :: at + 15 <= i < o.consumed - 1 ==> buf[i] != LineFeed)
  {
  }

  /** Branch 5, write block (corrected): waits until the request line is complete; then
      sends the 16-byte image block at the parsed offset and consumes through the line
      feed. */
  lemma ServeBlockSpec(buf: seq<byte>, at: nat, image: seq<byte>)
    ensures var o := ServeBlock(buf, at, image);
            && o.saved.None? && o.notice == Silent
            && (o.consumed == 0 <==> forall i :: at + 12 <= i < |buf| ==> buf[i] != LineFeed)
            && (o.consumed == 0 ==> o == Wait)
            && (o.consumed > 0 ==> at + 12 < o.consumed && buf[o.consumed - 1] == LineFeed)
            && (o.consumed > 0 ==> forall i :: at + 12 <= i < o.consumed - 1 ==> buf[i] != LineFeed)
            && (o.consumed > 0 ==> o.sent == Some(RomBlock(image, ParseInt(buf[at + 12..o.consumed - 1]))))
  {
  }

  /** Branch 6, block error: nothing is sent or saved, and how much is consumed depends
      only on the prompt, not on whether the block number parses. */
  lemma BlockFaultSpec(buf: seq<byte>, at: nat)
    ensures BlockFault(buf, at).sent.None? && BlockFault(buf, at).saved.None?
    ensures !Occurs(buf, Ready) ==> BlockFault(buf, at) == Wait
    ensures Occurs(buf, Ready) ==>
              BlockFault(buf, at).consumed == IndexOf(buf, Ready) + 20 && BlockFault(buf, at).notice.BlockFailed?
  {
  }

  /** Branch 7, address error (corrected): as for a block error. */
  lemma AddressFaultSpec(buf: seq<byte>, at: nat)
    ensures AddressFault(buf, at).sent.None? && AddressFault(buf, at).saved.None?
    ensures !Occurs(buf, Ready) ==> AddressFault(buf, at) == Wait
    ensures Occurs(buf, Ready) ==>
              AddressFault(buf, at).consumed == IndexOf(buf, Ready) + 20 && AddressFault(buf, at).notice.AddressFailed?
  {
  }

  /** Where the line feed of a number line sits: right after the digits and the CR;
      the field up to it parses back to the number. */
  lemma NumberLineEnd(m: seq<byte>, n: nat, rest: seq<byte>)
    ensures LineEnd(m + Decimal(n) + CRLF + rest, |m|) == |m| + |Decimal(n)| + 1
    ensures ParseInt((m + Decimal(n) + CRLF + rest)[|m|..|m| + |Decimal(n)| + 1]) == Some(n)
  {
    NumberLineFeed(m, n, rest);
    NumberField(m, n, rest);
    ParseDecimal(n, [CarriageReturn]);
  }

  /** The first line feed after the marker is the one ending the line. */
  lemma NumberLineFeed(m: seq<byte>, n: nat, rest: seq<byte>)
    ensures LineEnd(m + Decimal(n) + CRLF + rest, |m|) == |m| + |Decimal(n)| + 1
  {
    var d := Decimal(n);
    var buf := m + d + CRLF + rest;
    var k := |m| + |d| + 1;
    assert buf[k] == LineFeed;
    forall i | |m| <= i < k
      ensures buf[i] != LineFeed
    {
      if i < |m| + |d| {
        assert buf[i] == d[i - |m|];
      } else {
        assert buf[i] == CarriageReturn;
      }
    }
  }

  /** The field between the marker and the line feed is the digits and the CR. */
  lemma NumberField(m: seq<byte>, n: nat, rest: seq<byte>)
    ensures (m + Decimal(n) + CRLF + rest)[|m|..|m| + |Decimal(n)| + 1] == Decimal(n) + [CarriageReturn]
  {
    var d := Decimal(n);
    var k := |m| + |d| + 1;
    SliceLeft(m + d + CRLF, rest, |m|, k);
    Regroup(m, d, CRLF);
    SliceRight(m, d + CRLF, |m|, k);
    assert (d + CRLF)[0..|d| + 1] == d + [CarriageReturn];
  }

  /** The phases whose lines carry a number and may be followed by the prompt. */
  predicate Reporting(p: Phase)
  {
    p == BlockComplete || p == BlockError || p == AddressError
  }

  /** Their markers lack the prompt's first letter 'W', so the prompt cannot start
      inside them. */
  lemma PromptFree(p: Phase)
    requires Reporting(p)
    ensures Ready[0] !in Marker(p)
  {
    assert Ready[0] == 'W' as int;
    if p == BlockComplete {
      assert 'W' as int !in Marker(BlockComplete);
    } else if p == BlockError {
      assert 'W' as int !in Marker(BlockError);
    } else {
      assert 'W' as int !in Marker(AddressError);
    }
  }

  /** The prompt right after a progress or error line is the prompt's first occurrence. */
  lemma PromptAfterLine(p: Phase, n: nat, tail: seq<byte>)
    requires Reporting(p)
    ensures IndexOf(NumberLine(p, n) + Ready + tail, Ready) == |NumberLine(p, n)|
  {
    PromptFree(p);
    PromptAfter(Marker(p), n, tail);
  }

  /** The same for any marker `m` that lacks the prompt's first byte. */
  lemma PromptAfter(m: seq<byte>, n: nat, tail: seq<byte>)
    requires Ready[0] !in m
    ensures IndexOf(m + Decimal(n) + CRLF + Ready + tail, Ready) == |m| + |Decimal(n)| + 2
  {
    LinePromptFree(m, n);
    PromptAt(m + Decimal(n) + CRLF, tail);
  }

  /** The prompt right after a line without the prompt's first byte is its first occurrence. */
  lemma PromptAt(line: seq<byte>, tail: seq<byte>)
    requires Ready[0] !in line
    ensures IndexOf(line + Ready + tail, Ready) == |line|
  {
    var buf := line + Ready + tail;
    Regroup(line, Ready, tail);
    AbsentBefore(line, Ready + tail, Ready[0]);
    NoMatchBefore(buf, Ready, |line|);
    MatchAppended(line, Ready);
    MatchPrefix(line + Ready, Ready, |line|, tail);
    FirstMatch(buf, Ready, 0, |line|);
  }

  /** Nor does the whole line: its number and line end hold no letter either. */
  lemma LinePromptFree(m: seq<byte>, n: nat)
    requires Ready[0] !in m
    ensures Ready[0] !in m + Decimal(n) + CRLF
  {
    assert Ready[0] == 'W' as int;
    assert Ready[0] !in Decimal(n);
  }

  /** A byte missing from `line` is at none of the indices `line` covers in `line + rest`. */
  lemma AbsentBefore(line: seq<byte>, rest: seq<byte>, x: byte)
    requires x !in line
    ensures forall i :: 0 <= i < |line| ==> (line + rest)[i] != x
  {
    forall i | 0 <= i < |line|
      ensures (line + rest)[i] != x
    {
      assert (line + rest)[i] == line[i];
    }
  }

  /** A buffer that starts with an unpreempted marker runs that marker's branch at 0. */
  lemma StepAtStart(buf: seq<byte>, p: Phase, cfg: Config)
    requires MatchAt(buf, Marker(p), 0) && Unpreempted(buf, p)
    ensures Step(buf, cfg) == Handle(buf, cfg, p, 0)
  {
    FirstMatch(buf, Marker(p), 0, 0);
    StepRuns(buf, cfg, p);
  }

  /** A buffer that starts with an unpreempted marker runs that marker's branch at 0,
      one lemma per branch. `StepAtStart` says the same for every phase at once, but using
      it leaves the dispatch on the phase to expand, and that brings all seven branches
      into the proof. Each `Handles` lemma below picks one branch out of the dispatch on
      its own, so the proofs about whole messages only ever see that one branch. */
  lemma SaveDumpVia(buf: seq<byte>, cfg: Config)
    requires MatchAt(buf, Marker(ReadMode), 0) && Unpreempted(buf, ReadMode)
    ensures Step(buf, cfg) == SaveDump(buf, 0)
  {
    StepAtStart(buf, ReadMode, cfg);
    HandlesSaveDump(buf, cfg, 0);
  }

  lemma HandlesSaveDump(buf: seq<byte>, cfg: Config, at: nat)
    ensures Handle(buf, cfg, ReadMode, at) == SaveDump(buf, at)
  {
  }

  lemma CompleteBlockVia(buf: seq<byte>, cfg: Config)
    requires MatchAt(buf, Marker(BlockComplete), 0) && Unpreempted(buf, BlockComplete)
    ensures Step(buf, cfg) == CompleteBlock(buf, 0)
  {
    StepAtStart(buf, BlockComplete, cfg);
    HandlesCompleteBlock(buf, cfg, 0);
  }

  lemma HandlesCompleteBlock(buf: seq<byte>, cfg: Config, at: nat)
    ensures Handle(buf, cfg, BlockComplete, at) == CompleteBlock(buf, at)
  {
  }

  lemma ServeBlockVia(buf: seq<byte>, cfg: Config)
    requires MatchAt(buf, Marker(WriteBlock), 0) && Unpreempted(buf, WriteBlock)
    ensures Step(buf, cfg) == ServeBlock(buf, 0, cfg.image)
  {
    StepAtStart(buf, WriteBlock, cfg);
    HandlesServeBlock(buf, cfg, 0);
  }

  lemma HandlesServeBlock(buf: seq<byte>, cfg: Config, at: nat)
    ensures Handle(buf, cfg, WriteBlock, at) == ServeBlock(buf, at, cfg.image)
  {
  }

  lemma BlockFaultVia(buf: seq<byte>, cfg: Config)
    requires MatchAt(buf, Marker(BlockError), 0) && Unpreempted(buf, BlockError)
    ensures Step(buf, cfg) == BlockFault(buf, 0)
  {
    StepAtStart(buf, BlockError, cfg);
    HandlesBlockFault(buf, cfg, 0);
  }

  lemma HandlesBlockFault(buf: seq<byte>, cfg: Config, at: nat)
    ensures Handle(buf, cfg, BlockError, at) == BlockFault(buf, at)
  {
  }

  lemma AddressFaultVia(buf: seq<byte>, cfg: Config)
    requires MatchAt(buf, Marker(AddressError), 0) && Unpreempted(buf, AddressError)
    ensures Step(buf, cfg) == AddressFault(buf, 0)
  {
    StepAtStart(buf, AddressError, cfg);
    HandlesAddressFault(buf, cfg, 0);
  }

  lemma HandlesAddressFault(buf: seq<byte>, cfg: Config, at: nat)
    ensures Handle(buf, cfg, AddressError, at) == AddressFault(buf, at)
  {
  }

  /** A number line starts with its marker. */
  lemma LineStart(p: Phase, n: nat)
    ensures MatchAt(NumberLine(p, n), Marker(p), 0)
  {
    MatchAtStart(Marker(p), Decimal(n));
    MatchExtends(Marker(p) + Decimal(n), Marker(p), CRLF);
  }

  /** So does a number line with the prompt and more after it. */
  lemma PromptedLineStart(p: Phase, n: nat, tail: seq<byte>)
    ensures MatchAt(NumberLine(p, n) + Ready + tail, Marker(p), 0)
  {
    LineStart(p, n);
    MatchExtends(NumberLine(p, n), Marker(p), Ready);
    MatchExtends(NumberLine(p, n) + Ready, Marker(p), tail);
  }

  /** A dump message starts with the read-mode marker. */
  lemma DumpStart(data: seq<byte>, tail: seq<byte>)
    ensures MatchAt(DumpMessage(data) + tail, Marker(ReadMode), 0)
  {
    var m := Marker(ReadMode);
    MatchAtStart(m, CRLF);
    MatchExtends(m + CRLF, m, data);
    MatchExtends(m + CRLF + data, m, CRLF);
    MatchExtends(m + CRLF + data + CRLF, m, Ready);
    MatchExtends(DumpMessage(data), m, tail);
  }

  lemma ServeBlockLine(n: nat, tail: seq<byte>, image: seq<byte>)
    ensures ServeBlock(NumberLine(WriteBlock, n) + tail, 0, image)
            == Outcome(|NumberLine(WriteBlock, n)|, Some(RomBlock(image, Some(n))), None, Silent)
  {
    var buf := NumberLine(WriteBlock, n) + tail;
    NumberLineEnd(Marker(WriteBlock), n, tail);
    assert |Marker(WriteBlock)| == 12;
    ServeBlockAt(buf, image, 12 + |Decimal(n)| + 1, n);
  }

  /** The write-block branch on a buffer whose request line ends at `finish`. */
  lemma ServeBlockAt(buf: seq<byte>, image: seq<byte>, finish: nat, n: nat)
    requires 12 <= finish && LineEnd(buf, 12) == finish && ParseInt(buf[12..finish]) == Some(n)
    ensures ServeBlock(buf, 0, image) == Outcome(finish + 1, Some(RomBlock(image, Some(n))), None, Silent)
  {
  }

  /** A complete write request is answered with the block at its offset, and exactly the
      request line is consumed. */
  lemma WriteRequestServed(n: nat, tail: seq<byte>, cfg: Config)
    requires Unpreempted(NumberLine(WriteBlock, n) + tail, WriteBlock)
    ensures Step(NumberLine(WriteBlock, n) + tail, cfg)
            == Outcome(|NumberLine(WriteBlock, n)|, Some(RomBlock(cfg.image, Some(n))), None, Silent)
  {
    var buf := NumberLine(WriteBlock, n) + tail;
    LineStart(WriteBlock, n);
    MatchExtends(NumberLine(WriteBlock, n), Marker(WriteBlock), tail);
    ServeBlockLine(n, tail, cfg.image);
    ServeBlockVia(buf, cfg);
  }

  lemma CompleteBlockLine(n: nat, tail: seq<byte>)
    requires !Occurs(NumberLine(BlockComplete, n) + tail, Ready)
    ensures CompleteBlock(NumberLine(BlockComplete, n) + tail, 0)
            == Outcome(|NumberLine(BlockComplete, n)|, None, None, Silent)
  {
    NumberLineEnd(Marker(BlockComplete), n, tail);
  }

  /** A progress line with no prompt yet is consumed exactly, sending nothing. */
  lemma BlockCompleteLine(n: nat, tail: seq<byte>, cfg: Config)
    requires Unpreempted(NumberLine(BlockComplete, n) + tail, BlockComplete)
    requires !Occurs(NumberLine(BlockComplete, n) + tail, Ready)
    ensures Step(NumberLine(BlockComplete, n) + tail, cfg)
            == Outcome(|NumberLine(BlockComplete, n)|, None, None, Silent)
  {
    var buf := NumberLine(BlockComplete, n) + tail;
    LineStart(BlockComplete, n);
    MatchExtends(NumberLine(BlockComplete, n), Marker(BlockComplete), tail);
    CompleteBlockLine(n, tail);
    CompleteBlockVia(buf, cfg);
  }

  lemma CompleteBlockLast(n: nat, tail: seq<byte>)
    ensures CompleteBlock(NumberLine(BlockComplete, n) + Ready + tail, 0)
            == Outcome(|NumberLine(BlockComplete, n)| + 20, None, None, LastBlockWritten)
  {
    PromptAfterLine(BlockComplete, n, tail);
  }

  /** The last progress line followed by the prompt ends the session: the step reports
      it and consumes 2 bytes past the prompt. */
  lemma LastBlockLine(n: nat, tail: seq<byte>, cfg: Config)
    requires Unpreempted(NumberLine(BlockComplete, n) + Ready + tail, BlockComplete)
    ensures Step(NumberLine(BlockComplete, n) + Ready + tail, cfg)
            == Outcome(|NumberLine(BlockComplete, n)| + 20, None, None, LastBlockWritten)
  {
    var buf := NumberLine(BlockComplete, n) + Ready + tail;
    PromptedLineStart(BlockComplete, n, tail);
    CompleteBlockLast(n, tail);
    CompleteBlockVia(buf, cfg);
  }

  /** The pieces a reporting branch reads from a number line followed by the prompt:
      the prompt sits right after the line, and the field from the end of the marker to
      the line feed is the number's digits and CR, which parse back to the number. */
  lemma ReportLineParts(m: seq<byte>, n: nat, tail: seq<byte>)
    requires Ready[0] !in m
    ensures var buf := m + Decimal(n) + CRLF + Ready + tail;
            && IndexOf(buf, Ready) == |m| + |Decimal(n)| + 2
            && LineEnd(buf, |m|) == |m| + |Decimal(n)| + 1
            && ParseInt(buf[|m|..|m| + |Decimal(n)| + 1]) == Some(n)
  {
    PromptAfter(m, n, tail);
    Regroup(m + Decimal(n) + CRLF, Ready, tail);
    NumberLineEnd(m, n, Ready + tail);
  }

  lemma BlockFaultLine(n: nat, tail: seq<byte>)
    ensures BlockFault(NumberLine(BlockError, n) + Ready + tail, 0)
            == Outcome(|NumberLine(BlockError, n)| + 20, None, None, BlockFailed(Some(n)))
  {
    PromptFree(BlockError);
    BlockFaultParts(Marker(BlockError), n, tail);
  }

  /** The same for any 15-byte marker without the prompt's first byte, so that the
      proof never looks inside the marker's bytes. */
  lemma BlockFaultParts(m: seq<byte>, n: nat, tail: seq<byte>)
    requires |m| == 15 && Ready[0] !in m
    ensures BlockFault(m + Decimal(n) + CRLF + Ready + tail, 0)
            == Outcome(|m + Decimal(n) + CRLF| + 20, None, None, BlockFailed(Some(n)))
  {
    var buf := m + Decimal(n) + CRLF + Ready + tail;
    ReportLineParts(m, n, tail);
    BlockFaultAt(buf, |m + Decimal(n) + CRLF|, 15 + |Decimal(n)| + 1, n);
  }

  /** The block-error branch on a buffer whose prompt sits at `cmd` and whose error line
      ends at `finish`. */
  lemma BlockFaultAt(buf: seq<byte>, cmd: nat, finish: nat, n: nat)
    requires IndexOf(buf, Ready) == cmd
    requires 15 <= finish && LineEnd(buf, 15) == finish && ParseInt(buf[15..finish]) == Some(n)
    ensures BlockFault(buf, 0) == Outcome(cmd + 20, None, None, BlockFailed(Some(n)))
  {
  }

  /** A block error followed by the prompt reports the block number and leaves the
      parser positioned after the prompt. */
  lemma BlockErrorReported(n: nat, tail: seq<byte>, cfg: Config)
    requires Unpreempted(NumberLine(BlockError, n) + Ready + tail, BlockError)
    ensures Step(NumberLine(BlockError, n) + Ready + tail, cfg)
            == Outcome(|NumberLine(BlockError, n)| + 20, None, None, BlockFailed(Some(n)))
  {
    var buf := NumberLine(BlockError, n) + Ready + tail;
    PromptedLineStart(BlockError, n, tail);
    BlockFaultLine(n, tail);
    BlockFaultVia(buf, cfg);
  }

  lemma AddressFaultLine(n: nat, tail: seq<byte>)
    ensures AddressFault(NumberLine(AddressError, n) + Ready + tail, 0)
            == Outcome(|NumberLine(AddressError, n)| + 20, None, None, AddressFailed(Some(n)))
  {
    PromptFree(AddressError);
    AddressFaultParts(Marker(AddressError), n, tail);
  }

  /** The same for any 17-byte marker without the prompt's first byte, so that the
      proof never looks inside the marker's bytes. */
  lemma AddressFaultParts(m: seq<byte>, n: nat, tail: seq<byte>)
    requires |m| == 17 && Ready[0] !in m
    ensures AddressFault(m + Decimal(n) + CRLF + Ready + tail, 0)
            == Outcome(|m + Decimal(n) + CRLF| + 20, None, None, AddressFailed(Some(n)))
  {
    var buf := m + Decimal(n) + CRLF + Ready + tail;
    ReportLineParts(m, n, tail);
    AddressFaultAt(buf, |m + Decimal(n) + CRLF|, 17 + |Decimal(n)| + 1, n);
  }

  /** The corrected address-error branch, likewise. */
  lemma AddressFaultAt(buf: seq<byte>, cmd: nat, finish: nat, n: nat)
    requires IndexOf(buf, Ready) == cmd
    requires 17 <= finish && LineEnd(buf, 17) == finish && ParseInt(buf[17..finish]) == Some(n)
    ensures AddressFault(buf, 0) == Outcome(cmd + 20, None, None, AddressFailed(Some(n)))
  {
  }

  /** An address error followed by the prompt reports the address (the corrected
      branch) and leaves the parser positioned after the prompt. */
  lemma AddressErrorReported(n: nat, tail: seq<byte>, cfg: Config)
    requires Unpreempted(NumberLine(AddressError, n) + Ready + tail, AddressError)
    ensures Step(NumberLine(AddressError, n) + Ready + tail, cfg)
            == Outcome(|NumberLine(AddressError, n)| + 20, None, None, AddressFailed(Some(n)))
  {
    var buf := NumberLine(AddressError, n) + Ready + tail;
    PromptedLineStart(AddressError, n, tail);
    AddressFaultLine(n, tail);
    AddressFaultVia(buf, cfg);
  }

  lemma SaveDumpMessage(data: seq<byte>, tail: seq<byte>)
    requires forall i :: 0 <= i < |data| + 14 ==> !MatchAt(DumpMessage(data) + tail, Ready, i)
    ensures SaveDump(DumpMessage(data) + tail, 0) == Outcome(|DumpMessage(data)| + 2, None, Some(data), Silent)
  {
    DumpPrompt(data, tail);
    DumpField(data, tail);
  }

  /** The prompt that ends a dump message is the first one in the buffer. */
  lemma DumpPrompt(data: seq<byte>, tail: seq<byte>)
    requires forall i :: 0 <= i < |data| + 14 ==> !MatchAt(DumpMessage(data) + tail, Ready, i)
    ensures IndexOf(DumpMessage(data) + tail, Ready) == |data| + 14
  {
    var body := Marker(ReadMode) + CRLF + data + CRLF;
    assert |body| == |data| + 14;
    MatchAppended(body, Ready);
    MatchPrefix(body + Ready, Ready, |body|, tail);
    FirstMatch(DumpMessage(data) + tail, Ready, 0, |body|);
  }

  /** The field between the two line ends of a dump message is the data. */
  lemma DumpField(data: seq<byte>, tail: seq<byte>)
    ensures JsSlice(DumpMessage(data) + tail, 12, |data| + 12) == data
  {
    var head := Marker(ReadMode) + CRLF;
    var k := |data| + 12;
    assert |head| == 12;
    SliceLeft(DumpMessage(data), tail, 12, k);
    SliceLeft(head + data + CRLF, Ready, 12, k);
    SliceLeft(head + data, CRLF, 12, k);
    SliceRight(head, data, 12, k);
    assert data[0..|data|] == data;
  }

  /** A whole dump in one buffer is saved byte for byte, and the step consumes the
      message plus the two bytes the code adds after the prompt. */
  lemma ReadDumpDelivered(data: seq<byte>, tail: seq<byte>, cfg: Config)
    requires Unpreempted(DumpMessage(data) + tail, ReadMode)
    requires forall i :: 0 <= i < |data| + 14 ==> !MatchAt(DumpMessage(data) + tail, Ready, i)
    ensures Step(DumpMessage(data) + tail, cfg)
            == Outcome(|DumpMessage(data)| + 2, None, Some(data), Silent)
  {
    var buf := DumpMessage(data) + tail;
    DumpStart(data, tail);
    SaveDumpMessage(data, tail);
    SaveDumpVia(buf, cfg);
  }

  /** The corrected step and the step as written differ only on a write request whose
      line feed has not arrived and on an address error whose prompt has. */
  lemma StepAsWrittenAgrees(buf: seq<byte>, cfg: Config)
    ensures StepAsWritten(buf, cfg) != Returned(Step(buf, cfg)) ==>
              && Classify(buf).Found?
              && ((Classify(buf).phase == WriteBlock && LineEnd(buf, Classify(buf).at + 12) == -1)
                  || (Classify(buf).phase == AddressError && Occurs(buf, Ready)))
  {
  }
}
