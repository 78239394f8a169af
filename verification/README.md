# UNP and tour models

Dafny models of the algorithms in the bundled "UNIX Network Programming" tree (`A1/unpv13e`)
and of the tour protocol of `A4/assign4`, with proofs of what each is for. Every system call is
a step of the environment: its result is a parameter, an entry of a script that a theorem
quantifies over, or an arbitrary choice. `dafny verify dfyconfig.toml` checks the whole project.

| file | what it models | form |
|---|---|---|
| `Fields.dfy` | texts cut at separators, numbers in digits: the reference for all address texts | functions |
| `InetText4.dfy` | `inet_pton4`, `inet_ntop4`, `inet_aton` | methods on arrays |
| `InetText6.dfy` | `inet_pton6`: the one-pass scan and the in-place shift | methods on arrays |
| `InetText6Case.dfy` | either case of the hexadecimal digits | lemmas |
| `InetText6Legal.dfy` | the text forms of section 2.2 of RFC 1884 and what the parser does with them | data type and lemmas |
| `InetText6Print.dfy` | `inet_ntop6` and the round trip | methods on arrays |
| `Checksum.dfy` | `in_cksum`, `udp_write` | methods on arrays |
| `Readline.dfy` | `readline`, `readline_r`, the library `readline` | classes |
| `Rtt.dfy`, `DgClient.dfy` | the RTT estimator and `dg_send_recv` | classes |
| `Ring.dfy` | contents of a circular buffer | functions |
| `ThreadPool.dfy` | serv08 and pthread08: ring, mutex, condition variable | state machine refined by a class |
| `BoundedBuffer.dfy` | example03: two condition variables | state machine refined by a class |
| `SignalQueue.dfy` | dgecho01: ring shared with a signal handler | plain queue refined by a class |
| `StrCli.dfy` | strclinonb: two buffers, one select | relay over sequences refined by a class |
| `Prefork.dfy` | serv05 and child05 | pool of children refined by a class |
| `Downloader.dfy` | web, start_connect, write_get_cmd | class whose turns meet a rule over the files |
| `AddrInfo.dfy` | ga_aistruct, ga_port, ga_clone, ga_serv | linked list in the heap |
| `Tour.dfy` | tour_and: source route and roll call | classes and a network machine |

How to read the proofs:

* The address texts have a reference meaning (fields between separators) and the source's loops
  are proved equal to it on all strings. The legal forms of RFC 1884 are a data type of their own
  with a text and a meaning; the parser is proved to map the one to the other.
* ThreadPool, BoundedBuffer and Tour are machines of atomic steps with lemmas over all runs; the
  methods of their classes are proved to be exactly those steps.
* SignalQueue, StrCli and Prefork are driven by a script that says what the environment does between
  and during steps. For each there is a plain state over sequences with one function for every step
  and for a whole run; every method of the class, with its arrays, indices and counters, is proved to
  take that state where the function takes it, and the properties of all runs are lemmas about the
  functions. In Downloader, where the system chooses descriptors, a turn is a relation over the files.
* Definitions that a method is proved equal to have lemmas of their own that say what they give in plain
  numbers, bytes and lists, such as `Fields.DigitValues`, `Rtt.MinMaxIs` or `StrCli.TurnExactly`; and the
  machines have lemmas that say what can always be brought about, such as `ThreadPool.CanDrain`.
* Fields marked as history in a class are ghost: they have no counterpart in the source and record what
  the environment has seen.

Where the code and its documentation differ, the model follows the code:

* `inet_pton6` is documented (libfree/inet_pton.c:131) to return 1 for the texts of RFC 1884 only. It
  also takes texts that end in a single colon, and a `::` beside groups that already fill the address:
  `InetText6Legal.ColonAtTheEnd` and `GroupsLost` are such texts, and `ExactlyAccepted` says that there
  is nothing else.
* The note that such a `::` is ignored (libfree/inet_pton.c:134) is not what happens: the bytes from
  the gap on are set to zero. `InetText6Legal.GroupsLost` loses four groups; by `FullGapLoses` the note
  is right if and only if all those bytes are zero.
* `inet_ntop4` compares the length without its NUL with `size`, and the copy then writes the NUL too
  (libfree/inet_ntop.c:96-100). `InetText4.CopyFits` says that the copy stays within `size` if and only
  if the text does not have exactly that length, and `CopyOverruns` gives an address where it does.
* `readline` and `readline_r` do not always return the count of bytes stored:
  `Readline.ReturnedIsNotCount` has the inputs, `ReturnedIsCount` and `LibReturnedIsCount` the exact
  conditions. The claims are therefore about bytes stored as well as values.
* `readline_r` repeats an interrupted read and the one-byte `readline` returns -1. `Readline.SameAnswer`
  says exactly when one call is the same all the same, `SameAnswers` when any sequence of calls is, and
  `InterruptionIsVisible` has a stream on which they differ.
* `str_cli` is to copy the socket to standard output, and returns at end-of-file on the socket without
  draining its buffers: `StrCli.LeftBehind` is a run that loses a byte, and by `NothingLeftBehind` none is
  lost if and only if no write to standard output was tried or the last one took all it was offered.
* The handler of dgecho01 tests for a full queue before it finds out that nothing more is to be read,
  so it gives up when the eighth slot is filled, not when a ninth datagram comes:
  `SignalQueue.EightAreTooMany` is such a run, and `GivesUpEarly` says exactly when that happens.

## Model

| member | source | states |
|---|---|---|
| `Fields.SplitRest` | A1/unpv13e/libfree/inet_pton.c:191-196 | If no separator follows, the last field is the text from its first character on, which is what the `curtok` pointer relies on |
| `Fields.NumeralRoundTrip` | A1/unpv13e/libfree/inet_ntop.c:94-94 | Reading a number printed with %u or %x, digit by digit, gives the number back |
| `Fields.NumValMonotone` | A1/unpv13e/libfree/inet_pton.c:102-106 | The value of a field never falls as digits are read, so testing the running value is testing the final one |
| `Fields.DecimalAsHex` | A1/unpv13e/libfree/inet_pton.c:165-173 | A decimal octet read as hexadecimal before its dot is seen stays within 16 bits, so `val` never overflows on the way to a dotted tail |
| `Fields.DigitChars` | A1/unpv13e/libfree/inet_pton.c:144-145 | The digits are 0-9 in decimal and 0-9, a-f and A-F in hexadecimal, and nothing else is one |
| `Fields.DigitValues` | A1/unpv13e/libfree/inet_pton.c:165-171 | What every digit is worth, the same for either case |
| `Fields.PlaceValues` | A1/unpv13e/libfree/inet_pton.c:165-173 | What the places of a number are worth |
| `Fields.LeadingZero` | A1/unpv13e/libfree/inet_pton.c:165-173 | Leading zeros change nothing, in either base |
| `Fields.CanonicalIsNumeral` | A1/unpv13e/libfree/inet_ntop.c:181-181 | %u and %x print a number as the one text for it in lower case without leading zeros |
| `Fields.NumeralIsCanonical` | A1/unpv13e/libfree/inet_ntop.c:181-181 | No leading zeros and lower case, for every number |
| `InetText4.InetPton4` | A1/unpv13e/libfree/inet_pton.c:86-125 | Accepts exactly four dot-separated non-empty decimal fields of value at most 255, stores their values, and leaves `dst` untouched otherwise; the exit for a fifth octet is never taken |
| `InetText4.NotQuad` | A1/unpv13e/libfree/inet_pton.c:104-118 | Each reason for giving up early rules out every continuation of the text read so far |
| `InetText4.ScanEnd4` | A1/unpv13e/libfree/inet_pton.c:120-124 | After the whole text the count of octets is 4 exactly when the text is a dotted quad, and `tmp` holds its bytes |
| `InetText4.InetNtop4` | A1/unpv13e/libfree/inet_ntop.c:85-101 | Prints the four bytes and a NUL or refuses, by comparing the length without the NUL with the bound; a NUL that goes one past the bound is reported, and written if the array still has room for it; nothing else outside is written |
| `InetText4.CopyFits` | A1/unpv13e/libfree/inet_ntop.c:96-100 | The copy with its NUL stays within `size` characters if and only if the text does not have exactly that many; 16 are always enough |
| `InetText4.CopyOverruns` | A1/unpv13e/libfree/inet_ntop.c:96-100 | 255.255.255.255 and a size of 15: the copy has 16 characters |
| `InetText4.QuadTextLength` | A1/unpv13e/libfree/inet_ntop.c:91-94 | The printed quad fits the 16-character buffer |
| `InetText4.QuadRoundTrip` | A1/unpv13e/libfree/inet_ntop.c:85-101 | Every printed address is a dotted quad that stands for that address |
| `InetText4.InetAton` | A1/unpv13e/libfree/inet_aton.c:22-75 | Accepts exactly the texts of at most four possibly empty decimal fields whose wrapped value is an octet, and stores missing low octets as zero in network byte order |
| `InetText4.AccStep` | A1/unpv13e/libfree/inet_aton.c:42-42 | Letting the accumulator wrap at every digit is wrapping once at the end, for any width of unsigned long |
| `InetText4.WrapIsRemainder` | A1/unpv13e/libfree/inet_aton.c:42-42 | Wrapping is the remainder modulo the number of values |
| `InetText4.StoreAddress` | A1/unpv13e/libfree/inet_aton.c:64-72 | The shift for missing fields and htonl give the fields read followed by zero octets |
| `InetText4.AtonVersusPton4` | A1/unpv13e/libfree/inet_aton.c:22-75 | inet_aton reads every dotted quad with the same result as inet_pton4, and its texts that are not dotted quads are exactly those with a missing, an empty or a wrapping field |
| `InetText4.AtonTakesMissing` | A1/unpv13e/libfree/inet_aton.c:59-72 | "1" is read as 1.0.0.0: a concrete text with missing fields that only inet_aton takes |
| `InetText4.AtonTakesEmpty` | A1/unpv13e/libfree/inet_aton.c:47-57 | "1.." is read as 1.0.0.0: a concrete text with empty fields that only inet_aton takes |
| `InetText4.AtonTakesWrapped` | A1/unpv13e/libfree/inet_aton.c:42-54 | For every address and every width of unsigned long there is a text with a wrapping field that inet_aton reads as that address |
| `InetText6.InetPton6` | A1/unpv13e/libfree/inet_pton.c:140-224 | On any string at all: no write leaves the 16-byte buffer, `dst` is untouched unless 1 is returned, and the result is the reference reading of the fields between colons |
| `InetText6.ScanText` | A1/unpv13e/libfree/inet_pton.c:162-204 | The one-pass scan stores exactly the bytes of all fields and the position of the gap, or gives up only on texts the reference refuses |
| `InetText6.EndField` | A1/unpv13e/libfree/inet_pton.c:175-190 | At a colon: an empty field opens the gap once, a group is stored if it fits |
| `InetText6.ScanQuad` | A1/unpv13e/libfree/inet_pton.c:191-196 | The first dot: the rest from `curtok` is a dotted quad that fits, or no continuation is acceptable |
| `InetText6.ScanDot` | A1/unpv13e/libfree/inet_pton.c:191-196 | inet_pton4 on the text from `curtok` succeeds exactly when the last field is a dotted quad, although it is asked before the rest has been seen |
| `InetText6.BadScan` | A1/unpv13e/libfree/inet_pton.c:167-172 | A group whose running value passes 0xffff cannot become part of an accepted text, not even as a dotted tail |
| `InetText6.ShiftGap` | A1/unpv13e/libfree/inet_pton.c:205-218 | The in-place backwards loop equals one overlapping move plus zero fill; with no room left it zeroes everything from the gap on |
| `InetText6.Finish` | A1/unpv13e/libfree/inet_pton.c:205-220 | After the scan the text is accepted exactly when there was a gap or the 16 bytes are full, and the value is the opened buffer |
| `InetText6Case.CaseDoesNotMatter` | A1/unpv13e/libfree/inet_pton.c:144-171 | Putting A-F into lower case changes neither whether a text is accepted nor its bytes, for every string |
| `InetText6Case.FourDigits` | A1/unpv13e/libfree/inet_pton.c:165-173 | Four digits of either case are two bytes, high digits first |
| `InetText6Legal.LegalTextIsRead` | A1/unpv13e/libfree/inet_pton.c:140-224 | Every text form of section 2.2 of RFC 1884 (either hex case, leading zeros, `::` for one or more groups anywhere, dotted tail) is read as the 16 bytes it stands for |
| `InetText6Legal.RenderFields` | A1/unpv13e/libfree/inet_pton.c:155-159 | Dropping a leading colon and cutting at the others gives the tokens of a legal text back |
| `InetText6Legal.TokensAccepted` | A1/unpv13e/libfree/inet_pton.c:162-220 | The tokens of a legal form are accepted with its meaning |
| `InetText6Legal.ExactlyAccepted` | A1/unpv13e/libfree/inet_pton.c:127-139 | A text is legal if and only if it is accepted, does not end in a single colon and has no `::` beside 16 full bytes: the exact set for which the documented promise holds |
| `InetText6Legal.ColonAtTheEnd` | A1/unpv13e/libfree/inet_pton.c:175-190 | 1:1:1:1:1:1:1:1: is accepted and is not a legal text |
| `InetText6Legal.TrailingColonTaken` | A1/unpv13e/libfree/inet_pton.c:175-220 | So is every text of eight groups with a colon behind it, for the same bytes |
| `InetText6Legal.FullGapLoses` | A1/unpv13e/libfree/inet_pton.c:205-218 | A `::` in a full address: the bytes from the gap on become zero, and the result is what it would be if the `::` were ignored if and only if they are zero already |
| `InetText6Legal.FullGapTaken` | A1/unpv13e/libfree/inet_pton.c:205-218 | Any eight groups around a `::` are accepted, for the groups before it and zeros |
| `InetText6Legal.GroupsLost` | A1/unpv13e/libfree/inet_pton.c:205-218 | 1:1:1:1::1:1:1:1 is read as four ones and eight zero bytes |
| `InetText6Print.ChosenIsLeftmostLongest` | A1/unpv13e/libfree/inet_ntop.c:135-156 | The run that is compressed is the leftmost of the longest runs of at least two zero words, as section 4.2 of RFC 5952 asks |
| `InetText6Print.LeftmostLongestIsUnique` | A1/unpv13e/libfree/inet_ntop.c:135-156 | That description determines the run |
| `InetText6Print.FindRun` | A1/unpv13e/libfree/inet_ntop.c:135-156 | The loop over `best` and `cur` computes that run |
| `InetText6Print.Preprocess` | A1/unpv13e/libfree/inet_ntop.c:132-134 | The word array holds the eight big-endian words of the address |
| `InetText6Print.Format` | A1/unpv13e/libfree/inet_ntop.c:158-187 | The formatting loop writes the text of the form with the chosen gap, and never leaves its 46-character buffer |
| `InetText6Print.PrintStep` | A1/unpv13e/libfree/inet_ntop.c:162-183 | What one turn of the formatting loop adds, wherever the word lies relative to the run |
| `InetText6Print.PrintedLength` | A1/unpv13e/libfree/inet_ntop.c:122-122 | At most five characters a word, the bound behind the buffer size |
| `InetText6Print.PrintedMeans` | A1/unpv13e/libfree/inet_ntop.c:109-198 | For every address the printed form is a legal text whose meaning is that address |
| `InetText6Print.InetNtop6` | A1/unpv13e/libfree/inet_ntop.c:109-198 | Prints the form and its NUL if they fit `size`, and otherwise leaves `dst` untouched |
| `InetText6Print.RoundTrip` | A1/unpv13e/libfree/inet_ntop.c:109-198 | For all 16-byte addresses, parsing what was printed succeeds and gives the address back |
| `InetText6Print.QuadShown` | A1/unpv13e/libfree/inet_ntop.c:173-180 | The addresses printed with a dotted tail: 96 zero bits and then not sixteen more, or 80 zero bits and sixteen ones |
| `InetText6Print.PrintedShape` | A1/unpv13e/libfree/inet_ntop.c:158-187 | What is printed: groups in lower case without leading zeros, `::` just where the chosen run is, and the last four bytes as a dotted quad for just those addresses |
| `Checksum.InCksum` | A1/unpv13e/libfree/in_cksum.c:3-32 | Up to 131074 bytes, more than any IP packet, the result is the complement of the one's complement sum on a host of either byte order |
| `Checksum.SumWords` | A1/unpv13e/libfree/in_cksum.c:16-25 | The 32-bit accumulator does not overflow within that length; an odd byte counts as a word with a zero byte |
| `Checksum.Add32Wraps` | A1/unpv13e/libfree/in_cksum.c:16-18 | Beyond that length the accumulator wraps modulo 2^32 |
| `Checksum.TwoFoldsAreEnough` | A1/unpv13e/libfree/in_cksum.c:27-30 | For every 32-bit sum two folds equal folding until no carry remains |
| `Checksum.FoldAllIsResidue` | A1/unpv13e/libfree/in_cksum.c:27-30 | Folding is the sum modulo 65535, with zero only for zero |
| `Checksum.ZeroOnlyForZeros` | A1/unpv13e/libfree/in_cksum.c:11-31 | The result is all ones only for a packet of zero bytes |
| `Checksum.OnesSumIsResidue` | A1/unpv13e/libfree/in_cksum.c:11-15 | Adding first and folding later is adding with end-around carry at every step |
| `Checksum.SwapSum` | A1/unpv13e/libfree/in_cksum.c:16-25 | Swapping the bytes of every word swaps the bytes of the sum (section 2 of RFC 1071) |
| `Checksum.SameBytesOnEveryHost` | A1/unpv13e/libfree/in_cksum.c:3-32 | The checksum as two bytes in memory is the same on hosts of either byte order |
| `Checksum.FilledPacketChecks` | A1/unpv13e/udpcksum/udpwrite.c:49-52 | A zeroed aligned field filled with the checksum, or with 0xffff when that is 0, makes the whole packet check to 0 |
| `Checksum.CksumIsResidue` | A1/unpv13e/libfree/in_cksum.c:3-32 | The checksum is the complement of the residue of the sum modulo 65535 |
| `Checksum.UdpWrite` | A1/unpv13e/udpcksum/udpwrite.c:28-73 | Every field of the finished header: protocol, source, destination, ports, UDP length, and the IP fields in front; the packet checks to 0 for a receiver that rebuilds the pseudo-header from it, is never sent with checksum field 0 unless asked to, and carries the data unchanged |
| `Checksum.FillIpHeader` | A1/unpv13e/udpcksum/udpwrite.c:58-70 | Filling in the rest of the IP header changes nothing from the protocol byte on |
| `Readline.LineConserves` | A1/unpv13e/server/readline.c:4-27 | Bytes stored, at most one end marker and the stream that is left are together the stream: nothing is lost, invented or reordered |
| `Readline.LineEnds` | A1/unpv13e/server/readline.c:11-25 | A line has no newline but its last byte and stops short of one only when full or at the end |
| `Readline.ReturnedIsCount` | A1/unpv13e/server/readline.c:11-26 | The value returned is the number of bytes stored if and only if a newline comes among the first `maxlen - 1` bytes or the stream is at its end at once |
| `Readline.LibReturnedIsCount` | A1/unpv13e/lib/readline.c:35-48 | For the library's form if and only if a newline or the end of the stream comes before the buffer is full |
| `Readline.ReturnValues` | A1/unpv13e/server/readline.c:11-26 | Both values from the stream: full, end, newline, or -1 exactly when a failing or interrupted read ends the line |
| `Readline.ReturnedIsNotCount` | A1/unpv13e/server/readline.c:11-26 | A stream of one byte: with room for that byte alone both values are 2, with more room the server's is 2 and the library's 1 |
| `Readline.ReadlinePlain` | A1/unpv13e/server/readline.c:4-27 | The one-byte reader stores, returns and leaves what the reference line says, with its NUL behind the stored bytes |
| `Readline.Rline.ReadlineR` | A1/unpv13e/server/readline_r.c:38-61 | The buffered reader does the same on the stream made of its buffer and the kernel's bytes |
| `Readline.Rline.Readline` | A1/unpv13e/lib/readline.c:28-49 | The library's reader stores the same bytes; it returns the count without the NUL at end-of-file |
| `Readline.Rline.ReadLoop` | A1/unpv13e/server/readline_r.c:45-57 | The loop shared by both buffered forms, at any state of the buffer |
| `Readline.Rline.MyRead` | A1/unpv13e/server/readline_r.c:5-25 | One byte taken from buffer plus kernel, whatever chunk the last read delivered; interrupted reads are repeated |
| `Readline.BufferedCalls` | A1/unpv13e/server/readline_r.c:38-61 | Any sequence of calls with any buffer sizes, of the server's or the library's buffered form, gives the reference lines of the one stream and leaves the rest |
| `Readline.PlainCalls` | A1/unpv13e/server/readline.c:4-27 | The same for the one-byte form |
| `Readline.SideBySide` | A1/unpv13e/server/readline_r.c:5-61 | The same stream in any two splits into chunks, interrupted reads included: each form gives its reference lines over any sequence of calls, and both store and return the same if the one-byte form comes upon no interrupted read |
| `Readline.SameAnswer` | A1/unpv13e/server/readline_r.c:8-13 | One call, any stream and room: the one-byte form and the buffered form store and return the same if and only if no interrupted read ends the line, or the read repeated after it fails |
| `Readline.SameAnswers` | A1/unpv13e/server/readline_r.c:8-13 | Any sequence of calls: they answer alike and leave the same stream if and only if the one-byte form comes upon no interrupted read |
| `Readline.MeetsIsTaken` | A1/unpv13e/server/readline.c:13-23 | That is, if and only if there is no interrupted read among the items that the calls take from the stream |
| `Readline.InterruptionIsVisible` | A1/unpv13e/server/readline.c:22-23 | A concrete interrupted stream on which the values returned are -1 and 1 |
| `Rtt.MinMaxIs` | A1/unpv13e/lib/rtt.c:12-20 | The time-out is unchanged within 2 and 60 seconds, 2 below and 60 above |
| `Rtt.RttInfo.Init` | A1/unpv13e/lib/rtt.c:22-35 | The first time-out is 3 seconds; the retransmission count is left alone |
| `Rtt.RttInfo.Ts` | A1/unpv13e/lib/rtt.c:45-54 | The timestamp is milliseconds since the base, in 32 bits |
| `Rtt.RttInfo.Stop` | A1/unpv13e/lib/rtt.c:79-102 | One sample moves the estimate and the deviation by Jacobson's rule, and the time-out is srtt + 4 rttvar where that lies in [2, 60], 2 below and 60 above |
| `Rtt.TimeoutOfHistory` | A1/unpv13e/lib/rtt.c:79-102 | The same after every history of samples |
| `Rtt.RttInfo.Timeout` | A1/unpv13e/lib/rtt.c:110-119 | The time-out doubles and the fourth expiration gives up |
| `Rtt.EstimatesStayBounded` | A1/unpv13e/lib/rtt.c:79-102 | Over any history srtt lies in [0, largest sample], the deviation is non-negative and bounded, and the time-out is in [2, 60] |
| `Rtt.EqualSamplesConverge` | A1/unpv13e/lib/rtt.c:91-94 | n equal samples shrink the error by exactly (7/8)^n |
| `Rtt.EqualSamplesDeviation` | A1/unpv13e/lib/rtt.c:95-99 | The closed form of the deviation over n equal samples |
| `Rtt.TotalWait` | A1/unpv13e/lib/unprtt.h:15-17 | Timeouts r, 2r, 4r, 8r add up to between 30 and 900 seconds and none is below 2, so the alarm is never set to zero |
| `DgClient.Client.SendRecv` | A1/unpv13e/rtt/dg_send_recv.c:18-93 | For every script of losses, duplicates, delays and reorderings, what ends the call and how many transmissions it makes is exactly what the first matching arrival and the alarms of the script say; the alarms are r, 2r, 4r, 8r; with fewer than 2^32 calls a reply is the echo of this call's own payload, and with a clock that does not go back the RTT sample is exactly the age of that very transmission |
| `DgClient.FateMeans` | A1/unpv13e/rtt/dg_send_recv.c:56-92 | What ends a call: the first arrival with its sequence number, if at most three alarms come before it, or else the fourth alarm; and the transmissions are one more than the alarms before |
| `DgClient.Client.Exchange` | A1/unpv13e/rtt/dg_send_recv.c:56-92 | The retry loop: what it has sent, the alarms it has set, and which transmission a reply belongs to |
| `DgClient.Client.Try` | A1/unpv13e/rtt/dg_send_recv.c:56-90 | One transmission and what comes of it: a reply, the next transmission, or the end |
| `DgClient.Client.Take` | A1/unpv13e/rtt/dg_send_recv.c:86-92 | The sample joins the history of the estimator, and the data is cut to the caller's buffer |
| `DgClient.Client.Bounded` | A1/unpv13e/lib/rtt.c:79-102 | Over any history of calls srtt lies in [0, largest sample], the deviation is bounded, and the next time-out is in [2, 60] |
| `DgClient.Client.AgeIsExact` | A1/unpv13e/rtt/dg_send_recv.c:90-90 | If the call takes less than 2^32 ms by a clock that does not go back, the age modulo 2^32 is the age |
| `DgClient.Client.Await` | A1/unpv13e/rtt/dg_send_recv.c:81-86 | The receive loop passes over runts and other sequence numbers and nothing else, and stops at the first match or alarm |
| `DgClient.Client.Begin` | A1/unpv13e/rtt/dg_send_recv.c:26-54 | Each call gets the next sequence number and starts with a time-out in [2, 60], also after giving up |
| `DgClient.Client.Accept` | A1/unpv13e/rtt/dg_send_recv.c:88-90 | The sample is the difference between now and the echoed timestamp, that is the age of the transmission echoed, modulo 2^32 ms |
| `DgClient.AgeOfTimestamp` | A1/unpv13e/lib/rtt.c:45-54 | The difference of two 32-bit timestamps is the age, whatever the base |
| `ThreadPool.StepKeepsInv` | A1/unpv13e/server/serv08.c:35-47 | Every atomic step of the main thread, of any worker and of spurious wake-ups keeps the invariant |
| `ThreadPool.ReachableInv` | A1/unpv13e/server/pthread08.c:20-32 | Hence it holds after every interleaving of any number of workers |
| `ThreadPool.EachConnectionOnce` | A1/unpv13e/server/pthread08.c:20-32 | Connections are taken in accept order, each by exactly one worker; no two workers serve the same one |
| `ThreadPool.NoLiveSlotOverwritten` | A1/unpv13e/server/serv08.c:40-44 | Storing a descriptor never overwrites a waiting one, even when the pool quits for a full ring |
| `ThreadPool.QuitsWhenFull` | A1/unpv13e/server/serv08.c:41-44 | err_quit is reached exactly when a connection arrives while 31 descriptors wait |
| `ThreadPool.NoLostWakeup` | A1/unpv13e/server/serv08.c:45-45 | While some worker sleeps, at most as many descriptors wait as workers are woken and have not rechecked; a waiting descriptor always has an awake worker |
| `ThreadPool.AcceptedAreArrived` | A1/unpv13e/server/serv08.c:39-42 | What has been accepted are the descriptors of the accept steps, in order |
| `ThreadPool.AcceptQueues` | A1/unpv13e/server/serv08.c:39-46 | A new descriptor comes behind those that wait, and exactly the workers signalled are woken |
| `ThreadPool.EnterTakes` | A1/unpv13e/server/pthread08.c:21-27 | A worker that gets the mutex takes the oldest descriptor, or goes to sleep if none waits |
| `ThreadPool.FinishFrees` | A1/unpv13e/server/pthread08.c:30-31 | A worker that has served can come back, and nothing else changes |
| `ThreadPool.SpuriousWakes` | A1/unpv13e/server/pthread08.c:22-23 | A spurious wake-up makes one sleeper test again |
| `ThreadPool.AlwaysOffered` | A1/unpv13e/server/pthread08.c:20-32 | Every worker always has a step, and a connection can be accepted with any wake-up that a signal may bring about |
| `ThreadPool.CanDrain` | A1/unpv13e/server/pthread08.c:20-32 | From every reachable state the workers alone can take all that waits, each connection in at most two steps |
| `ThreadPool.Server.Accept` | A1/unpv13e/server/serv08.c:39-46 | The critical section of the main thread is exactly the Accept step of the machine |
| `ThreadPool.Server.Enter` | A1/unpv13e/server/pthread08.c:21-27 | The critical section of a worker is exactly the Enter step |
| `BoundedBuffer.StepKeepsInv` | A1/unpv13e/threads/example03.c:62-104 | Each critical section and each spurious wake-up keeps the invariant |
| `BoundedBuffer.ReachableInv` | A1/unpv13e/threads/example03.c:62-130 | The invariant holds after every interleaving, for any loop count |
| `BoundedBuffer.ConsumedInOrder` | A1/unpv13e/threads/example03.c:82-104 | Consumed values are the produced ones in order, and `b_nitems` is the ring distance from `b_nextget` to `b_nextput` |
| `BoundedBuffer.NeverStuck` | A1/unpv13e/threads/example03.c:67-78 | The two threads never both sleep, and until both are done one of them can move an item at once: no deadlock |
| `BoundedBuffer.StepMoves` | A1/unpv13e/threads/example03.c:67-80 | A step that is no wait and no wake-up puts exactly one value in or takes one out |
| `BoundedBuffer.StepSchedules` | A1/unpv13e/threads/example03.c:67-101 | Who sleeps, who is woken and who is done after every step |
| `BoundedBuffer.AlwaysOffered` | A1/unpv13e/threads/example03.c:67-101 | A thread that is not done always has a step |
| `BoundedBuffer.CanFinish` | A1/unpv13e/threads/example03.c:106-130 | From every reachable state both threads can finish, in exactly as many steps as there are values to be moved, and all values have then been consumed in order |
| `BoundedBuffer.Buffer.Produce` | A1/unpv13e/threads/example03.c:62-80 | produce() from lock to unlock or wait is exactly the machine's step |
| `BoundedBuffer.Buffer.Consume` | A1/unpv13e/threads/example03.c:82-104 | consume() from lock to unlock or wait is exactly the machine's step |
| `SignalQueue.Server.SigIo` | A1/unpv13e/sigio/dgecho01.c:78-108 | One run of the handler is exactly one step of a plain queue: it appends what recvfrom delivers in order, counts the run, and ends the process exactly when the queue is full at a test, even if nothing more is there to be read, or when recvfrom fails |
| `SignalQueue.HandleKeeps` | A1/unpv13e/sigio/dgecho01.c:78-108 | A run keeps: received = echoed + queued, one slot free, and `cntread` weighing up to the number received |
| `SignalQueue.HandleAllKeeps` | A1/unpv13e/sigio/dgecho01.c:78-108 | Any number of runs leave what is queued in place and append everything that has come until the process ends |
| `SignalQueue.Server.Signals` | A1/unpv13e/sigio/dgecho01.c:78-108 | Any number of handler runs at one point are exactly as many steps of the queue |
| `SignalQueue.Server.Send` | A1/unpv13e/sigio/dgecho01.c:61-65 | The datagram in the slot is the same when sendto starts and when it ends, whatever handlers run before and during the call |
| `SignalQueue.Server.Advance` | A1/unpv13e/sigio/dgecho01.c:67-68 | `iget` may advance before `nqueue` drops: the handler's free slot is computed from both, and for the queue nothing changes |
| `SignalQueue.Server.Turnaround` | A1/unpv13e/sigio/dgecho01.c:61-72 | From the unblocking to the count, with the handler anywhere between: exactly what the queue does |
| `SignalQueue.TurnedKeeps` | A1/unpv13e/sigio/dgecho01.c:57-72 | One turn: something is echoed exactly if something is queued after the suspension, then it is the oldest, to its own sender; which runs of the handler the turn takes; received = echoed + queued |
| `SignalQueue.Server.DgEcho` | A1/unpv13e/sigio/dgecho01.c:49-73 | Over any number of turns and any signals the ring does exactly what the plain queue does |
| `SignalQueue.AnyRun` | A1/unpv13e/sigio/dgecho01.c:57-73 | Any run: echoes go out in arrival order, and all that has come is either echoed or queued until the process ends |
| `SignalQueue.EchoesGoBack` | A1/unpv13e/sigio/dgecho01.c:61-65 | Any run: the i-th datagram echoed or queued is the i-th that came, with its own sender and its own data up to 4096 bytes |
| `SignalQueue.QueueDrains` | A1/unpv13e/sigio/dgecho01.c:57-73 | When no more signals come each turn sends the oldest datagram back, until the queue is empty |
| `SignalQueue.KeepsAll` | A1/unpv13e/sigio/dgecho01.c:85-106 | A run of the handler stores everything that has come if and only if there is a slot for each datagram |
| `SignalQueue.GivesUpEarly` | A1/unpv13e/sigio/dgecho01.c:85-93 | It ends the process with nothing lost if and only if the datagrams of the run fill exactly the last slot, or recvfrom fails before that |
| `SignalQueue.EightAreTooMany` | A1/unpv13e/sigio/dgecho01.c:85-93 | Eight datagrams at once end the process with all of them stored |
| `SignalQueue.WeightUpdate` | A1/unpv13e/sigio/dgecho01.c:107-107 | Counting one more run of n datagrams adds n to the weight of the histogram |
| `Ring.Put` | A1/unpv13e/server/serv08.c:40-42 | Storing behind the last item of a ring appends to its contents |
| `Ring.Get` | A1/unpv13e/server/pthread08.c:24-26 | Stepping the get index drops the oldest item |
| `StrCli.SelectNeverEmpty` | A1/unpv13e/nonblock/strclinonb.c:27-39 | select is never called with empty sets, and a direction whose buffer cannot be read into can be written from |
| `StrCli.Client.ReadStdin` | A1/unpv13e/nonblock/strclinonb.c:42-62 | The read behind the live part of `to` is the relay's step: never for zero bytes, so 0 means end-of-file; FIN is sent at once if nothing is left to write |
| `StrCli.Client.ReadSocket` | A1/unpv13e/nonblock/strclinonb.c:64-86 | End-of-file on the socket ends the loop, normally exactly if standard input had ended |
| `StrCli.Client.WriteStdout` | A1/unpv13e/nonblock/strclinonb.c:89-103 | The relay's step: as much of the live part of `fr` as is accepted moves to standard output in order; an empty buffer is rewound |
| `StrCli.Client.WriteSocket` | A1/unpv13e/nonblock/strclinonb.c:105-122 | The same for `to`, with FIN behind the last byte |
| `StrCli.Client.Once` | A1/unpv13e/nonblock/strclinonb.c:27-122 | One turn with its four reads and writes does exactly what the relay over sequences does, including the writes tried at once for what has just been read |
| `StrCli.TurnedKeeps` | A1/unpv13e/nonblock/strclinonb.c:27-122 | One turn keeps conservation in both directions and FIN exactly once behind the last byte; streams only grow, and nothing is written after FIN |
| `StrCli.TurnExactly` | A1/unpv13e/nonblock/strclinonb.c:41-122 | What a turn does to the four streams, the end of input and the exit, fixed by what select reports and how the four calls come out |
| `StrCli.TurnMoves` | A1/unpv13e/nonblock/strclinonb.c:39-122 | A turn that select reports and whose calls succeed moves a byte, meets the end of input or ends the loop: no busy loop |
| `StrCli.Client.Run` | A1/unpv13e/nonblock/strclinonb.c:5-124 | For any script the arrays and pointers end where the relay ends; normal return only after the end of input |
| `StrCli.LeftBehind` | A1/unpv13e/nonblock/strclinonb.c:69-76 | A run that returns normally although a byte from the socket has not reached standard output |
| `StrCli.NothingLeftBehind` | A1/unpv13e/nonblock/strclinonb.c:89-122 | In terms of what the system calls return: all bytes from the socket have reached standard output if and only if no write to it was tried or the last one took all it was offered; likewise for the other direction, unless input came in a turn that ended before its write |
| `StrCli.OutOfAnyRun` | A1/unpv13e/nonblock/strclinonb.c:89-103 | From any state and over any run: `fr` ends empty if and only if the last write tried took all, or none was tried and it was empty before |
| `StrCli.SendOfAnyRun` | A1/unpv13e/nonblock/strclinonb.c:105-122 | The same for `to` |
| `StrCli.AnyRun` | A1/unpv13e/nonblock/strclinonb.c:5-124 | Any run: bytes read from stdin are the bytes written to the socket followed by the live part of `to`, likewise for the other direction; FIN exactly when input is over and written |
| `AddrInfo.GaPort` | A1/unpv13e/libgai/ga_port.c:30-65 | On any list: the walk terminates although the list grows under it, and the new list shows exactly each old node expanded in place; the count returned is the number of ports set, or -1 exactly if the memory is too short for the clones; every node has its own address buffer |
| `AddrInfo.Turn` | A1/unpv13e/libgai/ga_port.c:37-63 | One turn of the walk seen in the linked list: what is done and what is still ahead stay disjoint and intact |
| `AddrInfo.Visit` | A1/unpv13e/libgai/ga_port.c:38-62 | One node is stamped, cloned and stamped, or skipped |
| `AddrInfo.GaClone` | A1/unpv13e/libgai/ga_clone.c:8-30 | The copy goes in behind the node with AI_CLONE off and a fresh address buffer; what is left behind when one of its two allocations fails |
| `AddrInfo.Result.GaAistruct` | A1/unpv13e/libgai/ga_aistruct.c:8-86 | A node is appended through the tail pointer; AI_CLONE is set exactly if no socket type was given; the result for failed allocations and long Unix-domain paths; when the path is unlinked |
| `AddrInfo.GaServ` | A1/unpv13e/libgai/ga_serv.c:8-57 | The list after all calls that the service string leads to, and the exact result: EAI_MEMORY if the memory is too short, success if some port was set |
| `AddrInfo.GetAddrInfo` | A1/unpv13e/libgai/getaddrinfo.c:132-162 | From the addresses found to the final list with the canonical name on its first node and the exact result; which lists and which errors the service string and the answers of the service database lead to |
| `AddrInfo.ServiceLists` | A1/unpv13e/libgai/ga_serv.c:15-57 | For every service string and its two answers: the list, whether a port was set and how many clones were made; a number is for both types, the tcp answer for streams and the udp answer for datagrams |
| `AddrInfo.PortOfText` | A1/unpv13e/libgai/ga_serv.c:16-17 | A port number is read in decimal up to the first other character and kept in 16 bits |
| `AddrInfo.PortRoundTrip` | A1/unpv13e/libgai/ga_serv.c:16-17 | Every port is read back from its number |
| `AddrInfo.HostsAre` | A1/unpv13e/libgai/ga_aistruct.c:21-48 | The node of each address, field by field, and the canonical name on the first one |
| `AddrInfo.LocalHasNoPort` | A1/unpv13e/libgai/ga_port.c:49-62 | A Unix-domain address is given no port and counted for none |
| `AddrInfo.SetName` | A1/unpv13e/libgai/getaddrinfo.c:144-153 | The name goes to the first node and the rest of the list is as it was |
| `AddrInfo.GaPorts` | A1/unpv13e/libgai/ga_port.c:30-65 | Any sequence of calls on one list: each count is the number of ports its call has set, and they are all made exactly if the memory lasts |
| `AddrInfo.GaPortsMultihomed` | A1/unpv13e/libgai/ga_port.c:8-65 | On the list of a multihomed host every call returns the number of addresses, and the list in the heap ends as the blocks |
| `AddrInfo.AfterOneMore` | A1/unpv13e/libgai/ga_serv.c:15-44 | What a further call adds to list, ports and clones |
| `AddrInfo.MultihomedBlocks` | A1/unpv13e/libgai/ga_port.c:8-65 | k untyped addresses and distinct socket types t1..tm: each call finds k, and the list is k blocks in address order, each t1, tm, ..., t2 with their ports |
| `AddrInfo.BlockGrows` | A1/unpv13e/libgai/ga_port.c:38-47 | A further call turns a block into the block of one more type and finds it once |
| `AddrInfo.StreamAndDatagram` | A1/unpv13e/libgai/ga_serv.c:24-46 | No socket type: a stream and a datagram node for each address, in this order, each with its own port |
| `AddrInfo.TypedList` | A1/unpv13e/libgai/ga_serv.c:15-19 | With a socket type given no node is added and only nodes of that type get the port |
| `Prefork.Server.Once` | A1/unpv13e/server/serv05.c:43-81 | One turn of the parent, with children running or dying between any two of its steps, is exactly the turn of the pool |
| `Prefork.PassedKeeps` | A1/unpv13e/server/serv05.c:47-81 | What one return of select leads to: the exact condition of each error exit, and otherwise at most one connection accepted, by the first free child, and exactly the children reported become free; `no available children` is unreachable |
| `Prefork.TurnedKeeps` | A1/unpv13e/server/serv05.c:43-81 | The same for a turn, in terms of the state in which select returns; a child that has died without a byte ends the parent |
| `Prefork.Server.Scan` | A1/unpv13e/server/serv05.c:70-80 | The loop that counts `nsel` down is the scan that stops after the last descriptor reported |
| `Prefork.ScanKeeps` | A1/unpv13e/server/serv05.c:70-80 | The early exit skips no descriptor that select reported; the scan ends the process exactly if one of them belongs to a dead child without a byte, and it never waits for one |
| `Prefork.Server.Accept` | A1/unpv13e/server/serv05.c:50-65 | The connection goes to the first child with status 0 |
| `Prefork.AcceptKeeps` | A1/unpv13e/server/serv05.c:50-65 | If `navail` is positive there is one, and `navail` stays the number of them |
| `Prefork.FreedKeeps` | A1/unpv13e/server/serv05.c:72-76 | Reading the byte of a child that select has reported frees it and `navail` stays the number of free ones; at end-of-file the parent quits |
| `Prefork.StepKeeps` | A1/unpv13e/server/child05.c:31-51 | A step of a child, or its death, keeps: busy exactly if one request, one request in service or one ready byte is outstanding |
| `Prefork.AllStepsKeep` | A1/unpv13e/server/child05.c:40-50 | Any steps of children leave every status alone and take no reported byte away |
| `Prefork.Server.Serve` | A1/unpv13e/server/serv05.c:43-82 | For any script the parent ends where the pool ends, with `navail` within bounds |
| `Prefork.AnyRun` | A1/unpv13e/server/serv05.c:43-82 | All runs, with deaths of children, keep `navail` the number of children with status 0 and every connection accounted for |
| `Prefork.RunByTurns` | A1/unpv13e/server/serv05.c:43-82 | Any run turn by turn: where the parent goes on the turn obeys its rule, and it stops early only at an error exit |
| `Prefork.ServesInTwoSteps` | A1/unpv13e/server/child05.c:40-50 | Two steps of a living child serve the connection it has, and then its byte is ready |
| `Prefork.DiesForGood` | A1/unpv13e/server/child05.c:40-50 | A child that dies is dead from then on and serves nothing more |
| `Prefork.EachConnectionOnce` | A1/unpv13e/server/child05.c:40-50 | Every accepted connection is either served or with exactly the one child it was given to |
| `Prefork.NeverDeaf` | A1/unpv13e/server/serv05.c:44-47 | When all children are busy one of them can go on or has a byte ready, so the select without the listening socket is not for ever |
| `Downloader.Web.Once` | A1/unpv13e/nonblock/web.c:32-79 | One turn, in terms of the files: connections for the first idle ones, then each file treated by the readiness of its own descriptor; an error exit only if a connect, a write or a read of the turn fails; "nothing found" is unreachable, and select is called with nothing open if and only if no connection is allowed at all |
| `Downloader.Web.Fill` | A1/unpv13e/nonblock/web.c:33-43 | The first idle files get the connections up to the limit, each with the outcome that falls to it; an error exit exactly if one of those outcomes is a failure; the counters stay the numbers of files by state |
| `Downloader.NoneFailsAtAll` | A1/unpv13e/nonblock/web.c:33-43 | When filling stops no further connection is wanted or allowed, so none of those that are can have failed |
| `Downloader.Web.StartConnect` | A1/unpv13e/nonblock/start_connect.c:3-31 | Whatever descriptor the system hands out, `rset` and `wset` stay exactly those of the live files and no two share one |
| `Downloader.Web.WriteGetCmd` | A1/unpv13e/nonblock/write_get_cmd.c:3-18 | The file becomes a reading one, watched for input |
| `Downloader.Web.Serve` | A1/unpv13e/nonblock/web.c:50-78 | What the scan makes of one file, from the readiness of its own descriptor only, and exactly when it is an error exit; a closed descriptor leaves both sets |
| `Downloader.Web.Scan` | A1/unpv13e/nonblock/web.c:49-79 | All files are treated by the readiness reported before the scan, although sets and descriptors change during it; an error exit exactly if one of them fails |
| `Downloader.Web.Fetch` | A1/unpv13e/nonblock/web.c:25-80 | Any run is a sequence of such turns: nconn + nlefttoconn = nlefttoread, nconn within the limit; the loop ends early only when every file is done, and then nothing is watched, or with the failure of a turn |
| `Downloader.TurnsAdvance` | A1/unpv13e/nonblock/web.c:32-80 | A turn changes nothing or brings the files nearer to done: at most three turns for each file in which anything happens |
| `Downloader.TurnServes` | A1/unpv13e/nonblock/web.c:49-79 | What a turn makes of each file, from what select reports of its descriptor and how its read comes out |
| `Downloader.EagerRunEnds` | A1/unpv13e/nonblock/web.c:32-80 | If everything open is reported and at its end, a run is over after at most three turns for each file |
| `Downloader.QuietTurn` | A1/unpv13e/nonblock/web.c:33-79 | No error exit if no connect is refused, no command fails and no read fails |
| `Downloader.RefusalEnds` | A1/unpv13e/nonblock/start_connect.c:19-25 | A connect that is made and refused ends the process |
| `Downloader.FailureEnds` | A1/unpv13e/nonblock/web.c:65-68 | A command or a read that fails ends it |
| `Downloader.SomethingOpen` | A1/unpv13e/nonblock/web.c:33-47 | Something is watched exactly if a connection is counted |
| `Downloader.Opened` | A1/unpv13e/nonblock/start_connect.c:20-30 | A fresh descriptor keeps the sets exact, including one that was used before |
| `Downloader.Closed` | A1/unpv13e/nonblock/web.c:69-75 | A closed descriptor is in neither set, so a file that gets it again inherits no readiness |
| `Tour.Process.HandleTour` | A4/assign4/tour_and.c:233-287 | One delivery: join at the first visit, forward with the index stepped, or stop at the last entry |
| `Tour.Process.StartTour` | A4/assign4/tour_and.c:290-303 | The starting node joins and sends the list, itself first, to the first stop |
| `Tour.Frame.Fill` | A4/assign4/tour_and.c:120-141 | The payload is the starting node and the resolved stops; a name that does not resolve repeats the stop before it |
| `Tour.ResolvedStops` | A4/assign4/tour_and.c:120-141 | Every stop that has an address is at its place, and one that has none repeats the stop before |
| `Tour.Process.HandleMcMsg` | A4/assign4/tour_and.c:305-326 | A node identifies itself at the first multicast message only |
| `Tour.Process.Timeout` | A4/assign4/tour_and.c:403-429 | The end message goes out at the fifth timeout after the tour has stopped there, and at no other |
| `Tour.EndedAfterFive` | A4/assign4/tour_and.c:403-429 | In every run the end message has been sent if and only if all deliveries have been made and the last stop has had at least five timeouts since |
| `Tour.StepKeepsInv` | A4/assign4/tour_and.c:394-480 | Every delivery, timeout and multicast receipt keeps the invariant of the whole network |
| `Tour.ReachableInv` | A4/assign4/tour_and.c:394-480 | Hence it holds after every interleaving |
| `Tour.VisitsInOrder` | A4/assign4/tour_and.c:249-284 | The stops are visited in order, exactly one delivery each; the recorded predecessor is the real sender; a packet in flight can always be delivered |
| `Tour.JoinsOnce` | A4/assign4/tour_and.c:257-276 | Every distinct node on the tour joins exactly once, repeat visits included, and no other node does |
| `Tour.RollCall` | A4/assign4/tour_and.c:418-429 | Only the last stop ends the tour, once, after the last delivery; only members identify themselves, each once and after that |
| `Tour.RollIsComplete` | A4/assign4/tour_and.c:305-326 | In every reachable state in which the tour has been ended and no message is still to be received, every node on the tour has identified itself, once |
| `Tour.CanCallTheRoll` | A4/assign4/tour_and.c:394-480 | From every reachable state the tour can be finished and every node on it identify itself |
| `Tour.RollCallEnds` | A4/assign4/tour_and.c:305-326 | However the run goes on, the number of multicast receipts is bounded by the tour alone |

## Left out

- DgClient.Client.SendRecv: the window between alarm and sigsetjmp is closed: sending, arming and waiting are one step, because a signal in that window has undefined behaviour.
- Rtt.RttInfo.Stop: the C floats are real numbers, because rounding is not what the estimator is about.
- DgClient.Client.SendRecv: from the 2^32nd call on it does not say that a matching sequence number belongs to this call, because the number has wrapped around.
- AddrInfo.GetAddrInfo: ga_unix and freeaddrinfo are not modelled: on an error no list is handed out, and freeing has no meaning here.
- AddrInfo.GaServ: numbers too long for an int are read without overflow and cut to 16 bits, because atoi is undefined for them.
- Downloader.Web.Serve: a failed connect is only reported by the source, so the model goes on to write the command; the report itself is left out.
- Tour.Frame.Fill: more than 24 stops would write past the payload array and are excluded.
- Tour.RollCallEnds: a multicast message reaches a member at most once; duplicates of the network are not modelled.
- Readline.Rline.Readline: `readlinebuf` and the thread safety of the static buffer are left out.
- The dispatchers inet_pton and inet_ntop on the address family, and errno.
- The tour's ping list, packet layout and its own checksum routine, which is handed a byte count as a word count.
- arp_and.c: a second entry for an address takes over the waiters, so not every waiter is answered.
- threads/web02.c and threads/web03.c: they set F_DONE before taking the mutex and join while holding it, so freedom from deadlock does not hold.
- The select and poll echo servers: the slot table of serv05 and web.c without their counters.
- thread_count, child_count and the CPU-time reports of the servers.
- SCTP, XTI, routing and key sockets, STREAMS, option printing, daytime and the client and server main programs: plumbing without a hard invariant.
