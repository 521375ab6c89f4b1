# TCP relay (netcat-style) — verified model of its sequential core

The program is one C++ file, `main.cpp`. It either accepts one TCP connection (`-s port`) or dials one (`-c host:port`). It then relays bytes both ways between that socket and its standard input and output. This project models the three pieces of sequential logic in it:

- **`copyfd`, the byte pump** (`pump.dfy`, `pump_properties.dfy`). It reads chunks of at most 65536 bytes into one buffer. It writes each chunk out, looping on partial writes, and stops at the first read that returns 0 or less. It returns -1 at the first failed write and otherwise the sum of the write counts.
  - `read` and `write` are replaced by scripts, one reply per call. `Reading`/`Writing` define what the pump does with them, one function per loop.
  - `CopyFd` is the two-loop method, with the inner loop in `WriteChunk`. It works over an `array` buffer and is proved equal to `Run`.
  - The lemmas state the accounting, where the pump stops, the equivalence of read error and end of stream, and full copying when writes are whole.
  - They also state the partial-write defect (see Findings). The parameter `advance` selects the code as written (`false`) or the corrected pump (`true`).
- **`send_recv`** (`relay.dfy`). One pump, `copyfd` as written, runs per direction. A pump that succeeds shuts down its half of the socket (SHUT_WR for sending, SHUT_RD for receiving); a pump that fails is only reported.
- **Client mode** (`client.dfy`). `socket_client` returns -2 for a host that is not IPv4. Otherwise it tries the resolved addresses in list order and keeps the first that accepts; it returns -1 when all fail. `client_mode` maps a negative result to -1 and otherwise relays and returns 0.
- **`main`** (`grammar.dfy`, `command_line.dfy`). `main` runs the `getopt` loop over `-s`/`-c`. Each argument is checked against its `sscanf` grammar:
  - `-s` takes `"%d%c"` and needs exactly 1 conversion;
  - `-c` takes `"%256[^:]:%d%c"` and needs exactly 2.
  Any other option is rejected, as is using neither mode or both. `main` then dispatches.
  - `Classify` states declaratively what `main` decides. `ParseOptions` is the option loop, proved to decide the same. `Launch` gives the exit status.

The operating system is replaced by parameters:
- the read replies `source` (data, or -1; past the script, 0);
- the write replies `sink` (a positive entry is the most the sink takes on that call; past the script, -1);
- the resolver's answer `HostEntry`;
- the socket descriptor `sock`;
- the connect outcomes `connectOk`, one per attempt.

In these places the code's behaviour may surprise a reader; the model follows the code:
- When no address accepts, `client_mode` returns -1 and `main` returns it as is. The exit status is therefore 255 on POSIX, not 1.
- `copyfd` as written does not deliver its input unchanged under partial writes.
- On a failed write, `copyfd` returns -1, not the number of bytes written so far.

## Model

| member | source | states |
|---|---|---|
| Pump.Piece | main.cpp:83-86 | defines the bytes one write takes: as written, the first `w` bytes of the buffer; corrected, the `w` bytes after those already taken |
| Pump.Reading | main.cpp:82-96 | defines the outer loop from read call `ri`: a read of 0 or less ends the pump with the running total, a positive read hands its chunk to the inner loop |
| Pump.Writing | main.cpp:85-93 | defines the inner loop: with nothing left of the chunk the next read follows, a failed write ends the pump with -1, otherwise the write's count is added and its bytes appended |
| Pump.Run | main.cpp:76-96 | defines `copyfd` started afresh: total 0, nothing sent, read and write calls counted from 0 |
| Pump.WriteRet | main.cpp:86 | a write reports at most the bytes asked for, and a positive count exactly when the call succeeds |
| Pump.ReadInto | main.cpp:82 | a read returns what the script says and, when positive, leaves the chunk at the head of the buffer |
| Pump.WriteChunk | main.cpp:83-93 | the inner loop ends in the state `Writing` describes: -1 at a failed write, otherwise the chunk accounted for and the next read due |
| Pump.CopyFd | main.cpp:76-97 | the two loops return the count, deliver the bytes and issue the read and write calls that `Run` defines |
| PumpProperties.ReadingAccounts | main.cpp:82-96 | from any state of the outer loop the result is -1 or the running total plus the bytes delivered since, and delivered bytes are only appended |
| PumpProperties.WritingAccounts | main.cpp:85-93 | the same accounting from any state of the inner loop |
| PumpProperties.RunAccounts | main.cpp:91-96 | `copyfd` returns -1 or exactly the number of bytes the sink received |
| PumpProperties.ReadingStopsAtFailedWrite | main.cpp:82-90 | every write but the last succeeded; the result is -1 exactly when the last write issued failed, and no write follows a failed one |
| PumpProperties.WritingStopsAtFailedWrite | main.cpp:85-90 | the same from any state of the inner loop |
| PumpProperties.ReadingStopsAtEndOfInput | main.cpp:82 | every read but the last returned data; the result is non-negative exactly when the last read returned 0 or less |
| PumpProperties.WritingStopsAtEndOfInput | main.cpp:82-93 | from the inner loop: every read issued but the last returned data, and a non-negative result ends on a read of 0 or less |
| PumpProperties.WritingFinishesChunk | main.cpp:85-93 | the inner loop issues no read: it either fails at a write before the next read, or accounts for the whole chunk and hands the next read to the outer loop |
| PumpProperties.ReadingStopIsStop | main.cpp:82 | two read scripts that differ only at one read, where both return 0 or less, give the same run |
| PumpProperties.WritingStopIsStop | main.cpp:82-93 | the same from any state of the inner loop |
| PumpProperties.ReadErrorEndsLikeEndOfStream | main.cpp:82 | a read returning -1 ends `copyfd` exactly as end of stream does, with the running total |
| PumpProperties.WholeWriteStep | main.cpp:82-93 | a chunk the sink takes in one write (its entry at least the chunk's length) is delivered whole, and the next read follows |
| PumpProperties.WholeWritesCopyInput | main.cpp:76-96 | with every chunk taken in one write (`WholeWrites`), the pump delivers the input up to the first read of 0 or less, one write per chunk |
| PumpProperties.RunCopiesInputOnWholeWrites | main.cpp:76-96 | with every chunk taken in one write, `copyfd` delivers the input unchanged and returns its length, after one read per chunk plus one and one write per chunk |
| PumpProperties.AsWrittenReportsInputUnlessWriteFails | main.cpp:86-96 | as written, `copyfd` returns the length of the source's data exactly when none of the writes it issued failed |
| PumpProperties.ReadingDeliversInput | main.cpp:82-96 | with the cursor advanced, the sink receives a prefix of the input; all of it on success, strictly less on failure |
| PumpProperties.WritingDeliversInput | main.cpp:83-93 | the same from inside a chunk, with the chunk's unwritten tail |
| PumpProperties.CorrectedRunDeliversInput | main.cpp:83-96 | corrected `copyfd` delivers a prefix of its input; it succeeds exactly when it delivered all of it, and returns its length |
| PumpProperties.ReadingSameAccounting | main.cpp:83-93 | where a write starts does not change the count, the reads, the writes or the number of bytes the sink takes |
| PumpProperties.WritingSameAccounting | main.cpp:83-93 | the same from any state of the inner loop |
| PumpProperties.AsWrittenReportsInputLength | main.cpp:91-96 | as written, `copyfd` reports the same result as the corrected pump and the sink takes as many bytes: it succeeds exactly when the sink took as many bytes as the input holds, and then returns that length |
| PumpProperties.AsWrittenWritesFromHead | main.cpp:86 | as written, every write of a chunk, the first or any later one, appends the chunk's first `w` bytes, where `w` is the write's count |
| PumpProperties.CorrectedWritesFromCursor | main.cpp:83-86 | corrected, every write appends the `w` bytes of the chunk that follow those already taken |
| PumpProperties.AsWrittenResendsHead | main.cpp:83-86 | as written, after a partial write of w bytes the next write resends the chunk's first byte at offset w |
| PumpProperties.CorrectedContinuesAfterPartialWrite | main.cpp:83-86 | corrected, the byte at offset w is the chunk's byte w |
| PumpProperties.PartialWriteExample | main.cpp:83-92 | input [1, 2] and a sink taking one byte per write: as written, the sink gets [1, 1] and 2 is returned; corrected, it gets [1, 2] |
| Relay.AfterPump | main.cpp:100-110 | defines what a relay thread does once its pump returns: a negative result is a complaint for that direction, otherwise SHUT_WR after sending and SHUT_RD after receiving |
| Relay.SendRecv | main.cpp:99-115 | each direction delivers what `copyfd` as written delivers; SHUT_WR or SHUT_RD is issued exactly when that pump succeeds, which is exactly when its sink took as many bytes as its source yielded; otherwise a complaint, with fewer bytes taken |
| Relay.CorrectedRelayDelivers | main.cpp:99-110 | with the corrected pump, each direction would deliver a prefix of its input, and the half-close would be issued exactly when all of it was delivered |
| Client.SocketClient | main.cpp:38-74 | -2 for a non-IPv4 host before any attempt; otherwise the socket, with addresses tried in order up to the first that accepts and none after; -1 when all were tried and failed |
| Client.ClientMode | main.cpp:127-134 | 0 exactly when the host is IPv4 and some address accepts, -1 otherwise, whatever the relay's outcome; the relay runs only when connected |
| Grammar.ScanInt | main.cpp:152 | defines the value when `sscanf(arg, "%d%c", …)` converts exactly one item: optional leading white space, an optional sign and one or more digits, with nothing after; None otherwise |
| Grammar.ScanHostPort | main.cpp:162 | defines the host and port when `sscanf(arg, "%256[^:]:%d%c", …)` converts exactly two items: the `:`-free field of 1 to 256 characters, then ':', then an integer with nothing after; None otherwise |
| Grammar.ScanShow | main.cpp:152 | every integer written in decimal is an accepted `-s` argument and reads back as itself |
| Grammar.ScanIntEndsInDigit | main.cpp:152 | an accepted `-s` argument ends in a digit: nothing may follow the integer |
| Grammar.ScanSpaces | main.cpp:152 | white space before the integer is skipped; white space after it is rejected |
| Grammar.SkipSpacesSuffix | main.cpp:152 | skipping leading white space leaves a suffix of the argument |
| Grammar.ColonFreePrefix | main.cpp:162 | the host field is at most 256 characters, a prefix of the argument, free of ':', and stops early only at a ':' |
| Grammar.ScanHostPortParts | main.cpp:162 | an accepted `-c` argument is a host of 1 to 256 characters without ':', then ':', then an accepted port |
| Grammar.HostFieldOf | main.cpp:162 | the host field of `h:rest` is `h` when `h` is short enough and free of ':' |
| Grammar.ScanHostPortShow | main.cpp:162 | `h:p` is accepted and read back as (h, p) exactly when h has 1 to 256 characters and no ':' |
| Grammar.HostAloneRejected | main.cpp:162-165 | a host without ':' and port is rejected |
| CommandLine.Rejection | main.cpp:149-174 | defines why `main` stops at one option: a bad `-s` port, a bad `-c` address, or any other option letter; None when it takes the option |
| CommandLine.Classify | main.cpp:145-193 | defines what `main` decides: the first rejected option's problem; else no mode or both modes; else server mode on the last `-s` port or client mode to the last `-c` host and port |
| CommandLine.FirstRejectedFrom | main.cpp:145-175 | the position of the first rejected option: every option before it is taken |
| CommandLine.LastBefore | main.cpp:150-168 | the last option with a given letter, or -1 when there is none |
| CommandLine.ParseOptions | main.cpp:145-193 | the option loop and mode checks decide exactly what `Classify` decides |
| CommandLine.Launch | main.cpp:145-199 | the exit status is 1 exactly for a usage error; server mode gives 0; client mode gives 0 exactly when the host is IPv4 and some address accepts, else -1 |
| CommandLine.UsageExactly | main.cpp:145-193 | a usage error happens exactly when some option is rejected or the number of modes used is not one |
| CommandLine.FirstProblemWins | main.cpp:145-175 | options after the first rejected one never affect the outcome |
| CommandLine.ServeRoundTrip | main.cpp:150-159 | `-s n` selects server mode on port n |
| CommandLine.DialRoundTrip | main.cpp:160-169 | `-c h:n` selects client mode to h and n, for a host of 1 to 256 characters without ':' |
| CommandLine.LastPortWins | main.cpp:150-159 | of two `-s` options, the last one's port is used |
| CommandLine.RejectsTrailingPort | main.cpp:152-155 | `-s 80x` is a usage error |
| CommandLine.RejectsHostWithoutPort | main.cpp:162-165 | `-c host` is a usage error |
| CommandLine.RejectsBothModes | main.cpp:187-193 | `-s 80 -c host:80` is a usage error |
| CommandLine.RejectsNoMode | main.cpp:177-185 | no options at all is a usage error |

## Findings

| source | as written | input that shows it | evidently intended | confidence | as-written member | corrected member |
|---|---|---|---|---|---|---|
| main.cpp:83-86 | every `write` is issued from `buf`; the cursor `p` is set but never used or advanced | one read of [1, 2], then a sink that takes one byte per write: the sink receives [1, 1] and `copyfd` returns 2 | write from `p` and advance it by each write count, so that the sink receives the input unchanged | high; not executed | PumpProperties.AsWrittenWritesFromHead | PumpProperties.CorrectedRunDeliversInput |

`Relay.SendRecv`, and through it client and server mode, follows the code and uses the pump as written. `PumpProperties.AsWrittenReportsInputLength` shows that the return value cannot reveal the defect, so every half-close and complaint is the same with either pump; only the bytes delivered differ. `Relay.CorrectedRelayDelivers` states what the relay delivers once the pump is corrected.

## Left out

- Socket creation, `bind`, `listen`, `accept`, `gethostbyname`, `inet_ntop`, `connect`, `shutdown` and `close` are operating-system calls. They appear only as the oracle parameters listed above. `server_mode` ignores a failed `socket_server` and always returns 0; `Launch` gives 0 for server mode without modelling the accept.
- The two threads of `send_recv` run concurrently. Relay.SendRecv runs them one after the other, since neither pump's outcome depends on the other. The final `close` after both joins is not represented.
- Relay.SendRecv and CommandLine.Launch: no SIGPIPE handler is installed, so a `write` to a socket or pipe whose reader is gone ends the whole process by the signal instead of returning -1. The model treats every failed write as returning -1, so the complaint is reached for all write errors; in the program it is reached only for the others.
- Diagnostic `printf`/`fprintf` text is not modelled.
- Grammar.ScanShow: `%d` reads into a C `int`, and text outside its range is undefined behaviour. The model reads an unbounded integer. The 16-bit truncation of the port by `htons` is not modelled either.
- Grammar.ScanHostPortShow: arguments are `string`s and each character stands for one byte of `argv`. `%256[^:]` counts bytes, so a host of more than 256 bytes written with fewer than 257 multi-byte characters is accepted by the model and rejected by the source; encodings are not modelled.
- `getopt`'s splitting of `argv` (bundled options, permutation, `--`) is not modelled. `main` is given the sequence of options `getopt` returns, with '?' for an unknown option or a missing argument.
- Memory-safety defects cannot be expressed in a value model:
  - `%256[^:]` can store 257 bytes into `char domain[256]`;
  - a null result of `gethostbyname` is dereferenced;
  - the buffer `copyfd` allocates is never freed.
- Client.SocketClient: a failing `socket()` is not modelled, because `sock` is a descriptor. The source reuses one socket for every connect attempt; what a failed attempt leaves behind is folded into the connect outcomes.
- `total_size` is a `ssize_t`; its overflow is not modelled, and the pump's counts are unbounded integers.
