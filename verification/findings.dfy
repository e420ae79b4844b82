/** Two places where the parser as written departs from what it evidently intends,
    each shown on the code as written and contrasted with the corrected branch. */
module Findings {
  import opened Bytes
  import opened Wrappers
  import opened Scanner
  import opened Numbers
  import opened Session
  import opened Protocol
  import opened StepProperties

  /** As written, a write request whose line feed has not arrived is answered anyway.
      With no line feed the field ends one byte before the buffer end, so the last digit
      is lost: a partial "Write block 16" sends the block at offset 1. The step still
      returns 0, so once the line is complete the request is answered a second time. */
  lemma PartialWriteRequestAsWritten(n: nat, image: seq<byte>)
    requires n >= 10
    ensures WriteBlockAsWritten(Marker(WriteBlock) + Decimal(n), 0, image)
            == Outcome(0, Some(RomBlock(image, Some(n / 10))), None, Silent)
  {
    PartialRequestOpen(n);
    PartialRequestField(n);
    ParseDecimal(n / 10, []);
    assert Decimal(n / 10) + [] == Decimal(n / 10);
  }

  /** A request line without its line feed has none after the marker. */
  lemma PartialRequestOpen(n: nat)
    ensures LineEnd(Marker(WriteBlock) + Decimal(n), 12) == -1
  {
    var m, d := Marker(WriteBlock), Decimal(n);
    var buf := m + d;
    assert |m| == 12;
    forall i | 12 <= i < |buf|
      ensures buf[i] != LineFeed
    {
      assert buf[i] == d[i - 12];
    }
  }

  /** Cut one byte before the end, the field after the marker loses the last digit. */
  lemma PartialRequestField(n: nat)
    requires n >= 10
    ensures JsSlice(Marker(WriteBlock) + Decimal(n), 12, -1) == Decimal(n / 10)
  {
    var m, d := Marker(WriteBlock), Decimal(n);
    var buf := m + d;
    assert |m| == 12;
    assert buf[12..|buf| - 1] == d[..|d| - 1];
    DecimalDropLast(n);
  }

  /** The concrete case: "Write block 16" without its line end sends image bytes 1 to 16. */
  lemma WriteBlock16AsWritten(image: seq<byte>)
    requires |image| >= 17
    ensures WriteBlockAsWritten(WriteBlock16, 0, image) == Outcome(0, Some(image[1..17]), None, Silent)
  {
    assert Decimal(16) == [49, 54];
    assert WriteBlock16 == Marker(WriteBlock) + Decimal(16);
    PartialWriteRequestAsWritten(16, image);
  }

  /** The bytes of "Write block 16". */
  const WriteBlock16: seq<byte> := [87, 114, 105, 116, 101, 32, 98, 108, 111, 99, 107, 32, 49, 54]

  /** Corrected: the same partial request makes the step wait and send nothing. */
  lemma PartialWriteRequestWaits(n: nat, cfg: Config)
    requires Unpreempted(Marker(WriteBlock) + Decimal(n), WriteBlock)
    ensures Step(Marker(WriteBlock) + Decimal(n), cfg) == Wait
  {
    var m, d := Marker(WriteBlock), Decimal(n);
    var buf := m + d;
    MatchAtStart(m, d);
    PartialRequestOpen(n);
    ServeBlockVia(buf, cfg);
  }

  /** As written, the address field is read 15 bytes past a 17-byte marker, so it starts
      at the marker's trailing "s " and never parses. */
  lemma AddressFieldAsWrittenIsNaN(buf: seq<byte>, at: nat)
    requires MatchAt(buf, Marker(AddressError), at)
    ensures ParseInt(JsSlice(buf, at + 15, LineEnd(buf, at + 15))) == None
  {
    var m := Marker(AddressError);
    assert |m| == 17 && m[15] == 's' as int && m[16] == ' ' as int;
    assert buf[at + 15] == m[15] && buf[at + 16] == m[16];
    var finish := LineEnd(buf, at + 15);
    assert finish == -1 || finish >= at + 17;
    var field := JsSlice(buf, at + 15, finish);
    if finish == -1 {
      assert field == buf[at + 15..|buf| - 1];
    } else {
      assert field == buf[at + 15..finish];
    }
    assert field[0] == 's' as int;
    ParseLetter(field);
  }

  /** As written, an address error whose prompt has arrived throws a ReferenceError
      instead of returning: the log line names `index`, which is not declared there. */
  lemma AddressErrorAsWrittenThrows(buf: seq<byte>, cfg: Config)
    requires Occurs(buf, Marker(AddressError)) && Unpreempted(buf, AddressError)
    requires Occurs(buf, Ready)
    ensures StepAsWritten(buf, cfg).Threw?
  {
    Priority(buf, AddressError);
  }
}
