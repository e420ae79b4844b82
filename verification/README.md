# EPROM programmer host: serial protocol parser

A Dafny model of the host side of an Arduino-based 27-series EPROM programmer
(`app/main.js`). The host picks a chip size and a mode (`r` read, `w` write) from
its command line. It then talks to the device over a serial port. Incoming bytes
are appended to a pending buffer. `parseMessage` is run on that buffer over and
over; each call reports how many bytes it consumed, and 0 means "wait for more".

The model covers three parts of the file:

- **Argument mapping** (`Session`). The six chip sizes map to the codes `a`–`f`,
  and the mode must be `r` or `w`. In read mode the third argument is the output
  path; in write mode it is the image file, read as a 'binary' string.
- **The parser step** (`Protocol`). The step has no stored state. On every call
  it searches the whole buffer for seven markers in a fixed priority order and
  takes the branch of the first marker that occurs anywhere. That branch then:
  - sends a chip code or a mode byte;
  - saves a memory dump;
  - answers a block request with 16 bytes of the image;
  - or reports progress and errors.

  It returns how many bytes it consumed, which may be 2 past the prompt
  `Wait commands...\r\n` and so 2 past the buffer end. `Scanner`, `Numbers` and
  `Bytes` model `Buffer.indexOf`, `parseInt(…, 10)` on a UTF-8 decoded field,
  and JavaScript's `slice` and 'binary' encoding rules that the step depends on.
- **The receive loop** (`Driver`). `saveLatestData` appends a delivery, runs the
  step and drops the consumed bytes. It stops on 0 and empties the buffer once a
  step reaches its end. `Drain` is the loop as a function, and `Feed`/`Run` is the
  loop as written with `while (true)`.

The model represents side effects as data. What the step writes to the port and
hands to `fs.writeFile` is returned in an `Outcome`. So are the three operator
messages that end a session, at lines 142, 176 and 190, as the outcome's `Notice`.
The message at line 190 also throws as written; `StepAsWritten` models that.

`Step` uses corrected versions of two branches. The code as written is kept in
`WriteBlockAsWritten`, `AddressFaultAsWritten` and `StepAsWritten`.
`StepAsWrittenAgrees` proves that the two versions differ only in those two
branches (see Findings).

## Model

| member | source | states |
|---|---|---|
| Session.ChipCodeInverse | app/main.js:17-39 | every accepted chip size maps to a code that maps back to that size |
| Session.ChipSizeInverse | app/main.js:17-39 | every chip code comes from exactly the size that maps to it |
| Session.ChipCodeInjective | app/main.js:17-39 | two different chip sizes never share a code |
| Session.ChipCode | app/main.js:17-39 | a size is accepted iff it is one of 16, 32, 64, 128, 256, 512, and its code is one of `a`–`f` |
| Session.Configure | app/main.js:12-51 | the arguments are accepted iff there are exactly three, the size is known and the mode is `r` or `w`. A wrong count gives the usage error, an unknown size gives the chip error, and a bad mode gives the mode error. On success the chip and mode bytes are set. `romFile` is the path in read mode, written back in the 'binary' encoding; in write mode it is the file's bytes unchanged, since reading them as 'binary' and writing them back is the identity |
| Bytes.Latin1 | app/main.js:159-160 | `myPort.write(romData, 'binary')` writes one byte per UTF-16 code unit of `romFile` (the read-mode path of line 48): one or two bytes per character |
| Bytes.Latin1Text | app/main.js:159-160 | on characters below U+10000 the encoding keeps one byte per character, its code modulo 256, so latin1 text keeps its codes |
| Bytes.Latin1Append | app/main.js:159-160 | the encoding of a concatenation is the concatenation of the encodings: the string is written character by character |
| Bytes.Latin1Binary | app/main.js:50 | reading bytes with `readFileSync(…, 'binary')` and writing the string back with `'binary'` gives the same bytes |
| Bytes.JsSlice | app/main.js:118 | the slice is never longer than the input; in-range bounds give the plain subsequence; an end at or before the start, or a start past the end, gives an empty result |
| Scanner.IndexOfFrom | app/main.js:135 | the result is -1 or a match at or after `from`, and there is no match between `from` and the result |
| Scanner.IndexOf | app/main.js:75 | -1 exactly when the pattern occurs nowhere; otherwise the first occurrence |
| Scanner.FirstMatch | app/main.js:78 | a match with no earlier match is the index the search reports |
| Scanner.NoMatchBefore | app/main.js:78 | a pattern cannot start before the first appearance of its first byte |
| Numbers.ParseInt | app/main.js:154 | `parseInt` of an empty field is NaN, and a field that starts with a digit gives a non-negative number |
| Numbers.Utf8Decodes | app/main.js:154 | `parseInt` sees the field decoded as UTF-8: decoding the encoding of any code point below U+10000 other than a surrogate gives back that code point and length |
| Numbers.Utf8Encodes | app/main.js:154 | conversely, every sequence the decoder accepts is the UTF-8 encoding of the code point it yields |
| Numbers.SpaceIsUtf8 | app/main.js:154 | every run of bytes `parseInt` skips as white space is the UTF-8 encoding of an ECMAScript white-space or line-terminator code point |
| Numbers.ParseSkipsSpace | app/main.js:154 | conversely, such a code point in front of a field, in its UTF-8 form, leaves the parsed value unchanged |
| Numbers.ParseAfterNoBreakSpace | app/main.js:154 | the field `C2 A0`, digits of `n`, CR parses to `n` |
| Numbers.DecimalValue | app/main.js:154 | reading the decimal digits of `n` back gives `n` |
| Numbers.ParseDecimal | app/main.js:154 | `parseInt` on the digits of `n` followed by a non-digit gives `n` |
| Numbers.ParseLetter | app/main.js:189 | `parseInt` of text that starts with a letter is NaN |
| Numbers.DecimalDropLast | app/main.js:151-154 | the digits of `n` without the last one are the digits of `n / 10` |
| Protocol.Rank | app/main.js:75-181 | each phase has its own place in the fixed order in which the step tests the markers |
| Protocol.ClassifyFromSpec | app/main.js:75-195 | searching for the markers from any point of the order on, the step takes the first one that occurs, at its first index, and none of those it passed over occurs. It finds none only when none of the remaining markers occurs |
| Protocol.Classify | app/main.js:75-195 | the chosen marker occurs, at its first index, and no marker earlier in the order occurs anywhere. "No marker" is chosen exactly when none of the seven occurs |
| Protocol.SendOnPrompt | app/main.js:75-100 | branches 1 and 2: consumes at most 2 bytes past the buffer end and, when it waits, sends nothing; `SendOnPromptSpec` gives the rest |
| Protocol.SaveDump | app/main.js:103-130 | branch 3 keeps the same bound and does nothing when it waits; `SaveDumpSpec` gives the rest |
| Protocol.CompleteBlock | app/main.js:133-147 | branch 4 keeps the same bound and does nothing when it returns 0; `CompleteBlockSpec` gives the rest |
| Protocol.ServeBlock | app/main.js:149-164 | corrected branch 5 keeps the same bound and sends nothing when it waits; `ServeBlockSpec` gives the rest |
| Protocol.BlockFault | app/main.js:167-179 | branch 6 keeps the same bound and reports nothing when it waits; `BlockFaultSpec` gives the rest |
| Protocol.AddressFault | app/main.js:181-193 | corrected branch 7 keeps the same bound and reports nothing when it waits; `AddressFaultSpec` gives the rest |
| Protocol.WriteBlockAsWritten | app/main.js:149-164 | branch 5 as written always sends a block of at most 16 bytes. With a line feed after the marker it is exactly the corrected branch; without one it returns 0 after sending, which breaks the rule that a wait does nothing |
| Protocol.AddressFaultAsWritten | app/main.js:181-193 | branch 7 as written throws exactly when the prompt occurs in the buffer, and otherwise waits |
| Protocol.StepAsWritten | app/main.js:71-196 | `parseMessage` as written throws exactly when the address-error marker is the one chosen and the prompt has arrived; what it returns consumes at most 2 bytes past the buffer end |
| Protocol.RomBlock | app/main.js:159 | a served block is at most 16 bytes: the image from the offset, clipped at the image end. It is empty for a NaN offset or an offset past the end. A negative offset counts back from the image end, as `slice` does: an offset from -|image| to -17 gives the 16 bytes starting that far before the end, and an offset from -16 to -1 gives nothing once the image holds at least 16 bytes |
| Protocol.LineEnd | app/main.js:135 | -1 iff there is no line feed at or after `from`; otherwise the first line feed there |
| Protocol.Handle | app/main.js:76-193 | with the corrected branches 5 and 7, every branch consumes at most 2 bytes past the buffer end, and a branch that returns 0 has sent, saved and reported nothing |
| Protocol.Step | app/main.js:71-196 | one call consumes at most 2 bytes past the buffer end. A zero result has no side effect, and an empty buffer always waits |
| StepProperties.Priority | app/main.js:75-181 | if marker `p` occurs and no marker ranked before it occurs, the step picks `p` at its first occurrence, wherever later markers sit |
| StepProperties.StepRuns | app/main.js:71-196 | under the same condition the step runs `p`'s branch at that index |
| StepProperties.NoMarkerWaits | app/main.js:195 | a buffer with none of the seven markers waits |
| StepProperties.StepAtStart | app/main.js:71-196 | a buffer that starts with a marker that nothing outranks runs that marker's branch at index 0 |
| StepProperties.SendOnPromptSpec | app/main.js:75-100 | for any byte `b`: waits iff the prompt occurs nowhere; otherwise sends `[b]` and nothing else and consumes the buffer up to 20 bytes past the prompt's first index (the prompt and two more bytes) |
| StepProperties.ChipCodeSent | app/main.js:75-86 | on a buffer holding "Chip not selected!": waits iff the prompt occurs nowhere; otherwise sends exactly the configured chip code and consumes up to 20 bytes past the prompt |
| StepProperties.ModeSent | app/main.js:89-100 | on a buffer holding "Selected " and not the marker above it: waits iff the prompt occurs nowhere; otherwise sends exactly the configured mode byte and consumes up to 20 bytes past the prompt |
| StepProperties.HandshakeAnswered | app/main.js:75-100 | a whole handshake message (either marker, text without a `W`, the prompt) is answered with the chip code or the mode byte respectively, and the message plus 2 bytes is consumed |
| StepProperties.SaveDumpSpec | app/main.js:103-130 | waits iff the prompt occurs nowhere. Otherwise it saves the bytes from marker+12 to prompt−2, whose length is prompt − marker − 14. The saved field is empty when the prompt comes too early, and the step consumes up to 20 bytes past the prompt's first index |
| StepProperties.CompleteBlockSpec | app/main.js:133-147 | never sends or saves. With the prompt it reports the last block and consumes up to 20 bytes past the prompt's first index. Without it, it consumes through the first line feed after the number, and returns 0 exactly when there is none |
| StepProperties.ServeBlockSpec | app/main.js:149-164 | corrected branch. It waits exactly when the request line has no line feed. Otherwise it sends the image block at the offset parsed from the number and consumes through the line feed |
| StepProperties.BlockFaultSpec | app/main.js:167-179 | waits iff the prompt occurs nowhere. Otherwise it reports a block failure and consumes up to 20 bytes past the prompt's first index, whether or not the number parses |
| StepProperties.AddressFaultSpec | app/main.js:181-193 | corrected branch: like the block error, it reports an address failure |
| StepProperties.NumberLineEnd | app/main.js:135-136 | in a line "marker, digits of `n`, CR LF" followed by anything, the first line feed after the marker sits right after the CR, and the field up to it parses back to `n` |
| StepProperties.PromptFree | app/main.js:72 | the progress and error markers lack the prompt's first letter |
| StepProperties.PromptAfterLine | app/main.js:139 | the prompt right after such a line is its first occurrence |
| StepProperties.WriteRequestServed | app/main.js:149-164 | a complete "Write block n" line is answered with the image block at offset `n`, and exactly that line is consumed |
| StepProperties.BlockCompleteLine | app/main.js:133-146 | a complete "Complete block n" line without a prompt is consumed exactly, and nothing is sent |
| StepProperties.LastBlockLine | app/main.js:139-144 | the same line followed by the prompt reports the last block and consumes 20 bytes past the line |
| StepProperties.BlockErrorReported | app/main.js:167-179 | "Error on block n" followed by the prompt reports block `n` and consumes 20 past the line |
| StepProperties.AddressErrorReported | app/main.js:181-193 | corrected branch: "Error on address n" followed by the prompt reports address `n` |
| StepProperties.ReadDumpDelivered | app/main.js:103-130 | a whole dump message is saved byte for byte, and the message plus 2 bytes is consumed |
| StepProperties.StepAsWrittenAgrees | app/main.js:149-193 | the corrected step and the code as written give the same result except on a write request without its line feed and on an address error whose prompt has arrived |
| Findings.PartialWriteRequestAsWritten | app/main.js:151-163 | as written, "Write block" plus the digits of `n ≥ 10` with no line feed sends the block at `n / 10` and returns 0 |
| Findings.WriteBlock16AsWritten | app/main.js:151-163 | as written, a partial "Write block 16" sends image bytes 1–16 |
| Findings.PartialWriteRequestWaits | app/main.js:149-164 | corrected, the same partial request waits and sends nothing |
| Findings.AddressFieldAsWrittenIsNaN | app/main.js:186-189 | as written, the address field starts inside the 17-byte marker and never parses |
| Findings.AddressErrorAsWrittenThrows | app/main.js:183-190 | as written, an address error whose prompt has arrived throws instead of returning |
| Driver.Drain | app/main.js:198-221 | what is left is a suffix of the buffer. It is the whole buffer exactly when the first step waits, a non-empty remainder is one the step waits on, and the first recorded step is the step on the whole buffer |
| Driver.DrainSuffix | app/main.js:209-212 | every trim keeps the end of the buffer, so the remainder is a suffix of the input |
| Driver.DrainSteps | app/main.js:206-219 | every step but the last consumed something; the last waited unless the buffer was emptied. The bytes trimmed are those the steps consumed, and exactly those when something is left |
| Driver.Advance | app/main.js:203-220 | one turn of the loop: return on 0, trim on `0 < n < length`, empty and stop on `n ≥ length`, each agreeing with `Drain` |
| Driver.Run | app/main.js:203-220 | the `while (true)` loop returns exactly the remainder and the steps of `Drain` |
| Driver.Feed | app/main.js:198-221 | one delivery: the loop runs on the pending bytes plus the new data. The new pending buffer is a suffix of that, and the parser waits on it when it is non-empty |
| Delivery.SplitDelivery | app/main.js:198-221 | how bytes are split into deliveries changes the result. The last "Complete block" line arriving with the prompt ends the session in one step, leaving nothing. The same line alone is consumed silently, and the prompt delivered after it is left pending |

## Left out

- The serial port, its events and open/close/error logging (lines 54-69, 223-229), and the empty `writeRom` stub (lines 231-233). The configuration file and `fs` calls are left out as well. What the step writes or saves is returned in `Outcome`, not performed.
- The other console logging inside branches: line 92 (with the ` chip.` search at line 91), lines 109-110 (the read-progress count), line 114 and line 155. These lines only print.
- Numbers.ParseInt: digit runs longer than a double's 53-bit precision are modelled as exact integers, not rounded as `parseInt` rounds them.
- Bytes.Latin1: takes a string of whole characters, so a read-mode path holding a lone surrogate, which a JavaScript string can hold, is not representable.
- StepProperties.SaveDumpSpec: says nothing about the saved bytes when the prompt is found at index 0 or 1. There the slice end is negative and counts from the buffer end.
- Protocol.Handle: dispatches to the corrected ServeBlock and AddressFault; StepAsWritten keeps the code as written.
- Protocol.Step: uses the corrected write-block and address-error branches (see Findings). `Protocol.StepAsWritten` is the code as written, and `Driver` runs the corrected step.
- Driver.Feed: no property relates several deliveries to a single one, because none holds: `Delivery.SplitDelivery` shows a split that changes the outcome.

## Findings

| source | as written | input that shows it | evidently intended | confidence | as-written member | corrected member |
|---|---|---|---|---|---|---|
| app/main.js:151-163 | with no line feed yet, `finishIndex` is -1, so the offset field is `slice(at+12, -1)`. That drops the last digit. The block is sent anyway and the step returns 0 | the buffer `Write block 16` before its `\r\n` arrives: bytes 1–16 of the image are sent, then the block at 16 once the line completes | wait for the line feed before answering | not executed | Findings.PartialWriteRequestAsWritten | Findings.PartialWriteRequestWaits |
| app/main.js:186-190 | the log line names `index`, which is not declared in that branch. So the branch throws a ReferenceError whenever the prompt has arrived. The field is also read 15 bytes into a 17-byte marker | `Error on address 12\r\nWait commands...\r\n` | read the address after the marker, report it, and consume past the prompt | not executed | Findings.AddressErrorAsWrittenThrows | StepProperties.AddressErrorReported |
