# Slipmux on RIOT: a verified model

Slipmux multiplexes three kinds of traffic over one serial line:
- IP packets;
- diagnostic text (stdio);
- configuration messages (CoAP).

Every frame ends with the SLIP END byte `0xC0`. Inside a frame, END and ESC
`0xDB` are escaped as `ESC 0xDC` and `ESC 0xDD`. The first byte of a frame says
what it carries:
- `0x0A` opens a diagnostic frame;
- `0xA9` opens a configuration frame;
- a byte in `0x45..0x4F` or `0x60..0x6F` is the first byte of an IPv4 or IPv6 packet.

This project models the core of RIOT's slipmux support and proves properties
of that model:

- **C driver.** These are the constants and helpers of `slipmux_internal.h`:
  - marker bytes, receive states, `slipmux_write_byte`, lock and unlock;
  - the escaping writer `slipmux_write_bytes`;
  - the receive state machine `_slipmux_rx_cb`, which feeds the stdin pipe and two chunked ring buffers;
  - the CoAP worker thread, which drains the configuration ring, checks the CRC-16 residue, hands the packet to the CoAP stack and sends the reply framed and checksummed. Its loop is modelled as corrected (an oversized chunk is consumed, a negative handler result sends nothing); the as-written pass and test stand beside it under "## Findings";
  - the slipmux stdio provider.
- **Rust prototypes.**
  - `slipmux`: its state machine `fsm`, which stores configuration bytes in a 256-byte buffer, `_recv`, `_calc_csum`, `_get`, `_set`, `stdio_write` and the reply sender of `sec_thread`.
  - `slipmux2`: its frame handler and escaping stdio writer.
  - `demouart`: the uppercasing stdio backend and its echo callback.
- **Board and example code used with slipmux.** Each is read from its source:
  - RISC-V PMP helpers (`cpu/riscv_common/pmp.c`): CSR access, `read_pmpXcfg`, `set_pmpXcfg`, `print_pmpXcfg`'s region decoding and `make_napot`;
  - the SAM0 UART driver's configuration path (`cpu/sam0_common/periph/uart.c`):
    - baud register computation in fractional and arithmetic mode (`uart_init` is modelled with the arithmetic mode as written, 32-bit wrap included; the corrected computation stands beside it with its design equation proved);
    - `uart_init` and `uart_mode` register effects;
    - the flow-control pin queries;
    - blocking `uart_write`;
  - the music client's neighbour discovery (`examples/music_client/find_nodes.c`): neighbour table insertion, reply acceptance, ping scheduling and counting.

The model's main theorems are round trips between the two ends of the line:
- What the writers put on the wire, the receivers deliver unchanged.
  - Diagnostic text lands in stdin.
  - A configuration frame lands in the ring buffer as one committed chunk.
  - An IP packet lands in the net ring.
  - A CoAP reply with its FCS passes the residue test at the other end.
- Noise between frames is ignored.
- A frame is committed only at its END.
- An overflow drops the whole frame.

The serial line is a `Transport.Wire` object. It records a trace of events: one
`Tx(b)` per byte written with `uart_write`, and `Acquire`/`Release` for the
slipmux mutex. `WireBytes` reads the bytes back off a trace. The ring buffer
(`chunked_ringbuffer`) and the CRC (`crc16_ccitt`) are specified abstractly:
- the ring by its documented behaviour, a FIFO of committed chunks plus one open chunk bounded by the capacity;
- the CRC by RFC 1662 Appendix C.2, with the CRC-16-CCITT FCS, initial value `0xFFFF` and good residue `0xF0B8`.

Bytes are `bv8`. Words of the PMP code are `bv32`. Arithmetic that the C or Rust
code performs in 32 bits is wrapped explicitly (`Wrap32`).

## Model

| member | source | states |
|---|---|---|
| Framing.MarkersDistinct | drivers/slipmux/include/slipmux_internal.h:49-66 | the escape codes differ from END and ESC; neither start marker is END, ESC or an IP first byte; END and ESC are not IP first bytes |
| Framing.EscapeByte | drivers/slipmux/slipmux.c:235-248 | one byte becomes one or two wire bytes, never END; two exactly when it is END or ESC; any other byte is sent as itself |
| Framing.UnescapeByte | drivers/slipmux/slipmux.c:77-85 | after ESC, `0xDC` stands for END and `0xDD` for ESC; any other byte stands for itself |
| Framing.EscapeAppend | drivers/slipmux/slipmux.c:234-249 | escaping a concatenation is the concatenation of the escapings (the byte loop has no state between bytes) |
| Framing.EscapeLength | drivers/slipmux/slipmux.c:234-249 | escaped data is at least as long as the data and at most twice as long |
| Framing.EscapeHasNoEnd | drivers/slipmux/slipmux.c:232-250 | escaped data never contains END, so END can delimit frames |
| Framing.EscapeEscFollowed | drivers/slipmux/slipmux.c:232-250 | every ESC in escaped data is followed by `0xDC` or `0xDD` |
| Framing.UnescapeEscape | drivers/slipmux/slipmux.c:232-250 | unescaping the escaped data gives the data back (round trip) |
| SlipmuxInternal.Ordinal | drivers/slipmux/include/slipmux_internal.h:68-87 | the nine receive states are numbered 0..8, and NONE is exactly the one numbered 0 |
| SlipmuxInternal.OrdinalInjective | drivers/slipmux/include/slipmux_internal.h:68-87 | distinct states have distinct numbers |
| SlipmuxInternal.MutexEvent | drivers/slipmux/include/slipmux_internal.h:111-123 | the mutex is taken or released only when the stdio or the CoAP module is built in; otherwise nothing happens |
| SlipmuxInternal.WriteByte | drivers/slipmux/include/slipmux_internal.h:97-100 | exactly one byte is added to the wire |
| SlipmuxInternal.WriteEscaped | drivers/slipmux/slipmux.c:235-248 | the wire gains exactly the escape of one byte |
| SlipmuxInternal.WriteBytes | drivers/slipmux/slipmux.c:232-250 | the wire gains exactly the escape of the whole buffer, in order |
| SlipmuxInternal.Lock | drivers/slipmux/include/slipmux_internal.h:111-116 | the trace gains an acquire event exactly when a mutex user is built in |
| SlipmuxInternal.Unlock | drivers/slipmux/include/slipmux_internal.h:118-123 | the trace gains a release event exactly when a mutex user is built in |
| Transport.Wire.constructor | drivers/slipmux/include/slipmux_internal.h:97-100 | a fresh line has an empty trace and no receive callback |
| Transport.Wire.Put | drivers/slipmux/include/slipmux_internal.h:97-100 | `uart_write` of one byte appends that byte to the trace and changes nothing else |
| Transport.Wire.Lock | drivers/slipmux/include/slipmux_internal.h:114 | `mutex_lock` appends an acquire event |
| Transport.Wire.Unlock | drivers/slipmux/include/slipmux_internal.h:121 | `mutex_unlock` appends a release event |
| Transport.Wire.SetRxHook | drivers/slipmux/slipmux.c:258 | `uart_init` installs the given receive callback |
| ChunkRing.Init | drivers/slipmux/coap.c:64 | a new ring is valid and empty and has the given capacity |
| ChunkRing.PeekSize | drivers/slipmux/coap.c:22 | a size is reported exactly when a committed chunk exists, and it is the size of the oldest one |
| ChunkRing.Consume | drivers/slipmux/coap.c:26 | consuming returns the oldest committed chunk and leaves the rest of the FIFO, the open chunk and the capacity |
| ChunkRing.OperationsKeepValid | drivers/slipmux/slipmux.c:98-136 | starting, adding, ending and consuming all keep the contents within capacity |
| ChunkRing.ChunksFit | drivers/slipmux/coap.c:22-23 | no committed chunk is larger than the ring |
| ChunkRing.AddAllFits | drivers/slipmux/slipmux.c:105-115 | bytes that fit are all appended to the open chunk, and every add succeeds |
| ChunkRing.AbortForgets | drivers/slipmux/slipmux.c:108-113 | ending a chunk without commit, whatever was added to it, leaves the committed FIFO as it was and no chunk open |
| ChunkRing.CommitIsFifo | drivers/slipmux/slipmux.c:98-104 | committing appends the open chunk at the back, and the next consume still returns the oldest chunk |
| Fcs.Finish | drivers/slipmux/coap.c:49 | the final FCS is the ones' complement of the running CRC |
| Fcs.Le16 | drivers/slipmux/coap.c:54 | the FCS goes on the wire as two bytes, low byte first |
| Fcs.SpecialInitIsMarker | drivers/slipmux/coap.c:8-9 | `0x374C` is the CRC of the initial value over the configuration marker `0xA9` |
| Fcs.ResidueByte | drivers/slipmux/coap.c:28-29 | appending the complemented CRC low byte first drives the CRC to the good residue `0xF0B8` |
| Fcs.FrameWithFcsPasses | drivers/slipmux/coap.c:49-54 | any data followed by its finished FCS passes the residue test (RFC 1662 Appendix C.2) |
| Fcs.ShortChunksFail | drivers/slipmux/coap.c:29-34 | a chunk shorter than two bytes never passes the residue test |
| Fcs.PassingChunkHoldsFcs | drivers/slipmux/coap.c:29-34 | a chunk that passes has at least two bytes, so cutting off the FCS at line 34 cannot underflow |
| Fcs.NoByteGivesGood | drivers/slipmux/coap.c:29-34 | no single byte after the special init gives the good residue |
| SlipmuxRx.StdinByte | drivers/slipmux/slipmux.c:69-73 | a stdin byte reaches the pipe exactly when stdio is built in and the device is the stdio UART |
| SlipmuxRx.CoapAdd | drivers/slipmux/slipmux.c:105-136 | adding a configuration byte keeps the receiver invariant: rings valid, at most one open chunk, open chunk matching the state |
| SlipmuxRx.NetAdd | drivers/slipmux/slipmux.c:151-177 | adding a net byte keeps the receiver invariant |
| SlipmuxRx.IdleStep | drivers/slipmux/slipmux.c:180-228 | a frame start keeps the receiver invariant |
| SlipmuxRx.CoapEnd | drivers/slipmux/slipmux.c:98-104 | END of a configuration frame keeps the receiver invariant |
| SlipmuxRx.NetEnd | drivers/slipmux/slipmux.c:143-149 | END of an IP frame keeps the receiver invariant |
| SlipmuxRx.RxStep | drivers/slipmux/slipmux.c:55-229 | every received byte keeps the receiver invariant |
| SlipmuxRx.Feed | drivers/slipmux/slipmux.c:55-229 | any byte stream keeps the receiver invariant |
| SlipmuxRx.Device.constructor | drivers/slipmux/slipmux.c:53 | a new device is idle and valid, with empty pipe and rings |
| SlipmuxRx.Device.Init | drivers/slipmux/slipmux.c:252-272 | `slipmux_init`: if the UART comes up, the decoder is installed, the configuration ring gets its 512-byte buffer when CoAP is built in, and the net ring gets its buffer; if the UART fails, nothing changes |
| SlipmuxRx.Device.Step | drivers/slipmux/slipmux.c:55-229 | `_slipmux_rx_cb` changes the device fields exactly as the step function does |
| SlipmuxRx.Device.AddCoapByte | drivers/slipmux/slipmux.c:105-115 | one configuration byte changes the device as the model does: appended, or the frame dropped when the ring is full |
| SlipmuxRx.Device.AddNetByte | drivers/slipmux/slipmux.c:151-156 | one IP byte is appended, or the frame dropped when the ring is full |
| SlipmuxRx.Device.StartFrame | drivers/slipmux/slipmux.c:180-228 | the first byte of a frame selects the channel as the model does |
| SlipmuxRxProps.NoiseIgnored | drivers/slipmux/slipmux.c:180-227 | between frames, END and bytes that are no start marker leave the whole receiver unchanged |
| SlipmuxRxProps.CoapByte | drivers/slipmux/slipmux.c:93-137 | inside a configuration frame, the escape of any byte appends exactly that byte to the open chunk |
| SlipmuxRxProps.CoapBody | drivers/slipmux/slipmux.c:93-137 | inside a configuration frame, escaped data that fits is appended unchanged to the open chunk |
| SlipmuxRxProps.CoapFrameDelivered | drivers/slipmux/slipmux.c:93-196 | a whole escaped configuration frame that fits becomes one committed chunk, and the worker flag is raised |
| SlipmuxRxProps.CoapFrameIgnored | drivers/slipmux/slipmux.c:187-196 | without the CoAP module, a configuration frame changes nothing |
| SlipmuxRxProps.CoapBodyIgnored | drivers/slipmux/slipmux.c:105-115 | without the CoAP module, configuration bytes are discarded |
| SlipmuxRxProps.NetByte | drivers/slipmux/slipmux.c:138-178 | inside an IP frame, the escape of any byte appends exactly that byte |
| SlipmuxRxProps.NetBody | drivers/slipmux/slipmux.c:138-178 | inside an IP frame, escaped data that fits is appended unchanged |
| SlipmuxRxProps.NetFrameDelivered | drivers/slipmux/slipmux.c:198-219 | an escaped IP packet with a valid first byte, followed by END, becomes one committed chunk and one netdev event |
| SlipmuxRxProps.NetFirstByte | drivers/slipmux/slipmux.c:204-217 | the IP version byte that starts a frame is stored as its first byte |
| SlipmuxRxProps.StdinEscapedByte | drivers/slipmux/slipmux.c:60-92 | inside a diagnostic frame, the escape of any byte delivers that byte to stdin, when delivery is on |
| SlipmuxRxProps.StdinBody | drivers/slipmux/slipmux.c:60-92 | inside a diagnostic frame, escaped text reaches stdin unchanged |
| SlipmuxRxProps.StdinFrameDelivered | drivers/slipmux/slipmux.c:60-92 | a whole diagnostic frame delivers its text to stdin and returns the receiver to idle |
| SlipmuxRxProps.CommitOnlyAtEnd | drivers/slipmux/slipmux.c:98-104 | a chunk is committed only by END in the matching state, and then the committed FIFO grows by exactly the open chunk |
| SlipmuxRxProps.CoapCommitOnlyAtEnd | drivers/slipmux/slipmux.c:93-137 | the configuration FIFO changes only at END of a configuration frame |
| SlipmuxRxProps.NetCommitOnlyAtEnd | drivers/slipmux/slipmux.c:138-178 | the net FIFO changes only at END of an IP frame |
| SlipmuxRxProps.CoapOverflowDrops | drivers/slipmux/slipmux.c:106-113 | a configuration byte that does not fit drops the open chunk and returns to idle |
| SlipmuxRxProps.OverflowTailReparsed | drivers/slipmux/slipmux.c:106-113 | after an overflow, the rest of the dropped frame is parsed as new frames: an IP first byte in it starts an IP frame |
| SlipmuxCoap.ReplyLen | drivers/slipmux/coap.c:45-47 | corrected: a reply is sent exactly when the handler returns a positive length, and then of that length |
| SlipmuxCoap.ReplyLenAsWritten | drivers/slipmux/coap.c:44-45 | as written: `unsigned res <= 0` rejects only results that are 0 modulo 2^32 |
| SlipmuxCoap.NegativeReturnSent | drivers/slipmux/coap.c:44-47 | as written, a handler result of -1 becomes a reply of 4294967295 bytes from a 512-byte buffer; corrected, no reply |
| SlipmuxCoap.NegativeReturnsOverread | drivers/slipmux/coap.c:44-47 | every negative 32-bit result becomes, as written, a length of `ret + 2^32`, beyond the 512-byte buffer; corrected, it gives no reply |
| SlipmuxCoap.Serve | drivers/slipmux/coap.c:29-47 | corrected sign test: a chunk gets a reply exactly when it passes the residue test, parses without its two FCS bytes and the handler returns a positive length; the reply is then the first `ret` bytes of the handler's buffer, 1..512 of them |
| SlipmuxCoap.Examine | drivers/slipmux/coap.c:23-31 | a chunk is dropped exactly when it is larger than the 512-byte buffer |
| SlipmuxCoap.Drain | drivers/slipmux/coap.c:22-57 | corrected loop (an oversized chunk is consumed, a negative handler result sends nothing): draining answers at most as many chunks as are queued, each reply 1..512 bytes, and leaves at most the queue |
| SlipmuxCoap.DrainStep | drivers/slipmux/coap.c:22-57 | one pass of the corrected loop: an oversized chunk is consumed and dropped, a rejected one ends the loop, an accepted one is answered and the loop goes on |
| SlipmuxCoap.DrainLeavesSuffix | drivers/slipmux/coap.c:22-57 | what remains in the ring after draining is a suffix of the queue |
| SlipmuxCoap.DrainAllAccepted | drivers/slipmux/coap.c:22-57 | corrected loop: when every chunk fits the buffer and is accepted (good residue, parses, positive handler result), all are consumed and answered in order |
| SlipmuxCoap.DrainStopsAtRejected | drivers/slipmux/coap.c:22-57 | corrected loop: the first chunk that fits but is not accepted is consumed, the loop stops there, and exactly the chunks before it are answered |
| SlipmuxCoap.ReplyBody | drivers/slipmux/coap.c:49-54 | the reply body is the response followed by two FCS bytes |
| SlipmuxCoap.ReplyBodyPasses | drivers/slipmux/coap.c:29-54 | a reply body passes the residue test with the special init, so the peer accepts what this side sends |
| SlipmuxCoap.ReplyReadBack | drivers/slipmux/coap.c:49-56 | a sent reply, received by the C decoder, becomes one committed chunk holding the response and its FCS, and that chunk passes the residue test |
| SlipmuxCoap.FrameWireBytes | drivers/slipmux/coap.c:51-56 | the wire carries the configuration marker, the escaped payload and FCS, then END; the lock events carry no bytes |
| SlipmuxCoap.ReplyWireBytes | drivers/slipmux/coap.c:51-56 | the bytes of one reply on the wire are the marker, the escaped reply body and END |
| SlipmuxCoap.SendFrame | drivers/slipmux/coap.c:51-56 | the trace gains exactly lock, marker, escaped payload, escaped FCS, END and unlock |
| SlipmuxCoap.SendReply | drivers/slipmux/coap.c:49-56 | the trace gains exactly the framed reply with its finished FCS |
| SlipmuxCoap.OversizeChunkSpins | drivers/slipmux/coap.c:23-25 | as written, an oversized chunk at the head is never consumed: one pass leaves the ring unchanged and the loop condition still holds |
| SlipmuxCoap.OversizeExample | drivers/slipmux/coap.c:23-25 | a 1024-byte ring holding a 600-byte chunk spins for ever as written |
| SlipmuxCoap.DefaultRingNeverSpins | drivers/slipmux/coap.c:23-25 | with the default ring no larger than the buffer, every pass as written consumes a chunk |
| SlipmuxCoap.ServePending | drivers/slipmux/coap.c:22-57 | the worker's inner loop (corrected) leaves in the ring exactly what the drain leaves, and puts exactly the replies of the drain on the wire in order |
| SlipmuxCoap.ServeOne | drivers/slipmux/coap.c:23-56 | one pass of the corrected loop consumes the oldest chunk and sends a reply exactly when it is accepted |
| SlipmuxCoap.Wake | drivers/slipmux/coap.c:19-22 | on the thread flag, the worker clears it and drains the ring with the corrected loop |
| SlipmuxStdio.Write | drivers/slipmux/stdio.c:42-50 | `_write` returns the length and puts exactly lock, diagnostic marker, escaped text, END and unlock on the wire |
| SlipmuxStdio.Init | drivers/slipmux/stdio.c:32-40 | `_init` installs the raw-to-stdin callback and sends one END |
| SlipmuxStdio.RawReceive | drivers/slipmux/stdio.c:27-30 | before the decoder is installed, every received byte goes to stdin as it is |
| SlipmuxStdio.DiagnosticWireBytes | drivers/slipmux/stdio.c:44-48 | the written bytes are the diagnostic marker, the escaped text and END |
| SlipmuxStdio.DiagnosticReadBack | drivers/slipmux/stdio.c:42-50 | text written by `_write` and received by the C decoder reaches stdin unchanged, when delivery is on, and leaves everything else as it was |
| RustSlipmux.Fsm | drivers/slipmux/src/lib.rs:161-216 | a netdev event happens exactly at END of a configuration frame; a byte is stored exactly for data in a configuration frame; a byte goes to stdin exactly for data in a diagnostic frame; between frames nothing is done |
| RustSlipmux.NoPacketState | drivers/slipmux/src/lib.rs:164-167 | between frames `0x0A` opens diagnostic and `0xA9` opens configuration, and nothing else leaves NONE; IP first bytes are ignored (this prototype has no packet state) |
| RustSlipmux.EscapedByteIsData | drivers/slipmux/src/lib.rs:175-213 | after ESC the next byte is unescaped and is data in both frame kinds |
| RustSlipmux.Apply | drivers/slipmux/src/lib.rs:161-216 | one byte moves the state as the table says, stores at most one byte and raises at most one event |
| RustSlipmux.ConfigurationByte | drivers/slipmux/src/lib.rs:188-213 | in a configuration frame with room left in the 256-byte `rxbuf`, the escape of any byte stores exactly that byte |
| RustSlipmux.ConfigurationBody | drivers/slipmux/src/lib.rs:188-213 | in a configuration frame, escaped data that fits the 256-byte `rxbuf` is stored unchanged |
| RustSlipmux.ConfigurationFrameStored | drivers/slipmux/src/lib.rs:164-213 | a whole configuration frame whose payload fits what is left of the 256-byte `rxbuf` is appended to the stored bytes and raises one event; the index is not reset at frame start |
| RustSlipmux.FramesAccumulate | drivers/slipmux/src/lib.rs:189-213 | two frames without a `_recv` in between accumulate in the buffer, as long as together they fit its 256 bytes |
| RustSlipmux.DiagnosticByte | drivers/slipmux/src/lib.rs:169-186 | in a diagnostic frame, the escape of any byte reaches stdin as that byte |
| RustSlipmux.DiagnosticBody | drivers/slipmux/src/lib.rs:169-186 | in a diagnostic frame, escaped text reaches stdin unchanged |
| RustSlipmux.DiagnosticFrameDelivered | drivers/slipmux/src/lib.rs:164-186 | a whole diagnostic frame delivers its text to stdin and returns to NONE |
| RustSlipmux.NoiseIgnored | drivers/slipmux/src/lib.rs:164-167 | between frames, bytes that are not a start marker change nothing |
| RustSlipmux.Recv | drivers/slipmux/src/lib.rs:249-257 | `_recv` returns the stored length; it copies and resets exactly when the caller's buffer is large enough, and otherwise changes nothing |
| RustSlipmux.QueryThenFetch | drivers/slipmux/src/lib.rs:249-257 | a zero-length query reports the size without consuming; a fetch with that size returns the bytes; after it, the next frame (of at most 256 bytes) is stored from the start |
| RustSlipmux.Slipmux.constructor | drivers/slipmux/src/lib.rs:365-370 | the context starts in NONE with a zeroed 256-byte buffer and index 0 |
| RustSlipmux.Slipmux.Put | drivers/slipmux/src/lib.rs:195-196 | `rxbuf[index] = byte; index += 1` writes one buffer cell and advances the index |
| RustSlipmux.Slipmux.Step | drivers/slipmux/src/lib.rs:161-216 | `fsm` changes the context as the pure step does, and writes the buffer exactly where a byte is stored |
| RustSlipmux.Slipmux.Receive | drivers/slipmux/src/lib.rs:240-262 | `_recv` returns what the pure model says; it copies the stored bytes into the caller's buffer when they fit and leaves that buffer untouched otherwise |
| RustSlipmux.CalcCsum | drivers/slipmux/src/lib.rs:228-238 | the folded sum is below 2^16 and congruent to the word sum modulo `0xFFFF`, and is 0 exactly for a zero sum |
| RustSlipmux.WriteByte | drivers/slipmux/src/lib.rs:68-70 | exactly one byte is added to the wire |
| RustSlipmux.WriteEscapedByte | drivers/slipmux/src/lib.rs:74-86 | one byte goes out escaped |
| RustSlipmux.WriteEscapingBytes | drivers/slipmux/src/lib.rs:72-88 | the wire gains exactly the escape of the buffer |
| RustSlipmux.WriteFramed | drivers/slipmux/src/lib.rs:147-149 | the wire gains the marker, the escaped body and END |
| RustSlipmux.StdioWrite | drivers/slipmux/src/lib.rs:137-154 | with a UART it sends a diagnostic frame under the lock and returns the length; without one it sends nothing and returns 0 |
| RustSlipmux.SendReply | drivers/slipmux/src/lib.rs:325-334 | the reply of `sec_thread` is the first `len` bytes of its 512-byte buffer, sent as a configuration frame under the lock |
| RustSlipmux.StdioReadBack | drivers/slipmux/src/lib.rs:137-154 | the written frame, fed to the Rust state machine, delivers the text to stdin; without a UART no byte is sent |
| RustSlipmux.ReplyReadBack | drivers/slipmux/src/lib.rs:329-333 | a reply that fits what is left of the 256-byte `rxbuf`, fed to the Rust state machine, is stored unchanged and raises one event |
| RustSlipmux.Get | drivers/slipmux/src/lib.rs:279-295 | `_get` answers 1 for is-wired and 2 for the device type, which it writes; every other option gives -134, the only non-positive answer |
| RustSlipmux.Set | drivers/slipmux/src/lib.rs:296-303 | `_set` always fails with -61 |
| RustSlipmux2.Begin | drivers/slipmux2/src/lib.rs:149-156 | a new frame records its type and restarts the index, keeping the buffers and stdin |
| RustSlipmux2.Write | drivers/slipmux2/src/lib.rs:158-174 | a byte advances the index by one and never changes the buffer sizes |
| RustSlipmux2.End | drivers/slipmux2/src/lib.rs:176-180 | ending a frame clears the type and the index and keeps the data |
| RustSlipmux2.WriteAllConfiguration | drivers/slipmux2/src/lib.rs:163-165 | configuration bytes overwrite the buffer at the index, leaving the other cells |
| RustSlipmux2.WriteAllIp | drivers/slipmux2/src/lib.rs:166-168 | IP bytes overwrite the packet buffer at the index |
| RustSlipmux2.WriteAllDiagnostic | drivers/slipmux2/src/lib.rs:160-162 | diagnostic bytes are appended to stdin |
| RustSlipmux2.ConfigurationFrameLands | drivers/slipmux2/src/lib.rs:148-181 | a whole configuration frame that fits lands at the start of the buffer |
| RustSlipmux2.IpFrameLands | drivers/slipmux2/src/lib.rs:148-181 | a whole IP frame that fits lands at the start of the packet buffer |
| RustSlipmux2.DiagnosticFrameLands | drivers/slipmux2/src/lib.rs:148-181 | a whole diagnostic frame is appended to stdin |
| RustSlipmux2.FrameHandler.constructor | drivers/slipmux2/src/lib.rs:138-145 | the handler starts with no frame, index 0 and the given buffers |
| RustSlipmux2.FrameHandler.BeginFrame | drivers/slipmux2/src/lib.rs:149-156 | `begin_frame` changes the handler as the pure model does |
| RustSlipmux2.FrameHandler.WriteByte | drivers/slipmux2/src/lib.rs:158-174 | `write_byte` changes the handler and its buffers as the pure model does |
| RustSlipmux2.FrameHandler.EndFrame | drivers/slipmux2/src/lib.rs:176-180 | `end_frame` changes the handler as the pure model does, whatever error it gets |
| RustSlipmux2.PutEscaped | drivers/slipmux2/src/lib.rs:42-54 | one byte goes out escaped |
| RustSlipmux2.WriteEscapingBytes | drivers/slipmux2/src/lib.rs:40-56 | the wire gains exactly the escape of the buffer |
| RustSlipmux2.StdioWrite | drivers/slipmux2/src/lib.rs:97-113 | with a UART it sends a diagnostic frame and returns the length; without one it sends nothing and returns 0 |
| RustSlipmux2.StdioWireBytes | drivers/slipmux2/src/lib.rs:105-109 | the written frame is marker, escaped text and END, and it reaches stdin unchanged at the Rust receiver |
| DemoUart.Upper | drivers/demouart/src/lib.rs:58 | lower-case ASCII letters become upper-case and every other byte is kept |
| DemoUart.UpperIdempotent | drivers/demouart/src/lib.rs:58 | no uppercased byte is a lower-case letter, so uppercasing twice changes nothing more |
| DemoUart.UpperAll | drivers/demouart/src/lib.rs:56-60 | one output byte per input byte, each uppercased |
| DemoUart.UpperAllAppend | drivers/demouart/src/lib.rs:56-60 | uppercasing distributes over concatenation |
| DemoUart.UpperAllIdempotent | drivers/demouart/src/lib.rs:56-60 | uppercasing a buffer twice is uppercasing it once |
| DemoUart.WriteBytes | drivers/demouart/src/lib.rs:56-60 | the wire gains the uppercased buffer, one write per byte |
| DemoUart.Written | drivers/demouart/src/lib.rs:46-54 | the count is the length as a u32 when the UART exists, and 0 otherwise |
| DemoUart.Write | drivers/demouart/src/lib.rs:46-54 | `write` sends the uppercased buffer and returns its length when initialised, and sends nothing and returns 0 otherwise |
| DemoUart.StdioWrite | drivers/demouart/src/lib.rs:37-44 | `stdio_write` behaves as `write` |
| DemoUart.Receive | drivers/demouart/src/lib.rs:17-21 | the receive callback sends the uppercased echo line |
| DemoUart.EchoLine | drivers/demouart/src/lib.rs:17-21 | the echo line on the wire is `INPUT: `, the received byte uppercased, and a newline |
| Pmp.ByteShift | cpu/riscv_common/pmp.c:179 | the byte offset of an entry in its cfg word is 0, 8, 16 or 24 bits |
| Pmp.ByteShiftInjective | cpu/riscv_common/pmp.c:179 | the four entries of a word use four different bytes |
| Pmp.SetByteReplacesOne | cpu/riscv_common/pmp.c:241-244 | replacing an entry's byte sets that byte to the mode and leaves the other three bytes |
| Pmp.TimesEight | cpu/riscv_common/pmp.c:200 | `mask * 8` equals `mask << 3` on 32 bits |
| Pmp.NapotDecodeShape | cpu/riscv_common/pmp.c:183-201 | the decoded base is word-aligned and not above the register value; the range is 0 or a power of two of at least 8 |
| Pmp.TrailingOnesCleared | cpu/riscv_common/pmp.c:183-192 | `a & (a + 1)` clears exactly the trailing ones, which is what the base loop computes |
| Pmp.NapotBase | cpu/riscv_common/pmp.c:183-192 | the base loop returns the specified NAPOT base |
| Pmp.NapotRange | cpu/riscv_common/pmp.c:194-201 | the range loop returns the specified NAPOT range, which is 0 or a power of two of at least 8 |
| Pmp.NapotRoundTrip | cpu/riscv_common/pmp.c:247-256 | corrected `make_napot`: for an aligned power-of-two size, decoding gives back the base and the size |
| Pmp.NapotDecodes | cpu/riscv_common/pmp.c:183-201 | `addr \| (size/2 - 1)` decodes to addr and size for every aligned power-of-two size |
| Pmp.AlignedLowBits | cpu/riscv_common/pmp.c:250 | for a power-of-two size, `addr % size == 0` means the low bits below the size are clear |
| Pmp.NapotAsWrittenRoundTrip | cpu/riscv_common/pmp.c:251-253 | as written, `make_napot` is correct when the size bit of the address is clear |
| Pmp.NapotAsWrittenLosesBase | cpu/riscv_common/pmp.c:252 | as written, `make_napot(0x10, 0x10)` gives 7, which decodes to base 0 instead of `0x10` |
| Pmp.ApplicationRegion | examples/hello-world/main.c:41 | the region the example program protects, `make_napot(0x80000000, 64)`, is `0x8000001F` both ways and decodes to base `0x80000000`, size 64 |
| Pmp.RegionOfMode | cpu/riscv_common/pmp.c:208 | the decoded mode is the A field, one of OFF, TOR, NA4 and NAPOT |
| Pmp.RegionOfOff | cpu/riscv_common/pmp.c:207-208 | an OFF entry has no range |
| Pmp.RegionOfTor | cpu/riscv_common/pmp.c:209-213 | a TOR entry spans from the previous address register to its own |
| Pmp.RegionOfNa4 | cpu/riscv_common/pmp.c:214-218 | an NA4 entry spans four bytes from its address |
| Pmp.RegionOfNapot | cpu/riscv_common/pmp.c:219-224 | a NAPOT entry spans its decoded range from its decoded base |
| Pmp.PrintRange | cpu/riscv_common/pmp.c:208-225 | the printed region is the decoded one |
| Pmp.ReplaceByte | cpu/riscv_common/pmp.c:242-243 | the masked-and-or word update equals replacing one byte |
| Pmp.Registers.constructor | cpu/riscv_common/include/pmp.h:23-25 | 16 cfg words and 64 address registers, all zero |
| Pmp.Registers.ReadPmpcfg | cpu/riscv_common/pmp.c:42-45 | reading a cfg CSR returns its content |
| Pmp.Registers.WritePmpcfg | cpu/riscv_common/pmp.c:84-87 | writing a cfg CSR changes that register only |
| Pmp.Registers.ReadPmpaddr | cpu/riscv_common/pmp.c:126-129 | the address read back is the register shifted left by 2, so it is word-aligned |
| Pmp.Registers.WritePmpaddr | cpu/riscv_common/pmp.c:168-171 | writing an address stores it shifted right by 2 and changes that register only |
| Pmp.Registers.ReadXcfg | cpu/riscv_common/pmp.c:173-181 | `read_pmpXcfg` returns the entry's byte of its cfg word |
| Pmp.Registers.SetXcfg | cpu/riscv_common/pmp.c:238-245 | `set_pmpXcfg` writes the address and replaces only the entry's byte in its cfg word |
| Pmp.Registers.EntryRegion | cpu/riscv_common/pmp.c:203-225 | the region of an entry comes from its cfg byte, the previous address (0 for entry 0) and its own address |
| Pmp.AddrReadBack | cpu/riscv_common/pmp.c:126-171 | writing then reading an address returns it with its two low bits cleared |
| Pmp.SetThenRead | cpu/riscv_common/pmp.c:238-245 | after `set_pmpXcfg`, the entry reads back as the new mode and the other entries of the word read back unchanged |
| Sam0Uart.Clz | cpu/sam0_common/periph/uart.c:118 | `__builtin_clz` of a non-zero 32-bit value shifts its top bit to bit 31 |
| Sam0Uart.ChooseSampling | cpu/sam0_common/periph/uart.c:223-231 | 8x oversampling (with the clock doubled, in 32 bits) exactly when 16x oversampling is too slow; 16x otherwise |
| Sam0Uart.SamplingMeetsConstraint | cpu/sam0_common/periph/uart.c:223-231 | for a rate the clock can reach, the chosen sampling satisfies `16 * baud <= clock` |
| Sam0Uart.FracBaudOf | cpu/sam0_common/periph/uart.c:108-110 | the fractional part is below 8 and the integer part fits 13 bits |
| Sam0Uart.FracRegister | cpu/sam0_common/periph/uart.c:109-110 | the fractional baud register fits 16 bits |
| Sam0Uart.FracBaudEquation | cpu/sam0_common/periph/uart.c:105-110 | the register encodes `fsrc / (2 * baud)` in eighths: `8 * BAUD + FP` |
| Sam0Uart.ClzRange | cpu/sam0_common/periph/uart.c:118-127 | for rates from 2048 to 2^28, the shift stays within 4..20, so both shifts in the arithmetic formula are defined |
| Sam0Uart.ArithBaudAsWritten | cpu/sam0_common/periph/uart.c:118-128 | as written, the arithmetic baud result is 16 bits, with every 32-bit product wrapped |
| Sam0Uart.ArithBaud | cpu/sam0_common/periph/uart.c:118-128 | corrected, the result is 16 bits, without the wrap in the remainder product |
| Sam0Uart.ArithBaudAgrees | cpu/sam0_common/periph/uart.c:125-128 | the two agree whenever `rem << scale` fits in 32 bits |
| Sam0Uart.ArithBaudExact | cpu/sam0_common/periph/uart.c:113-128 | corrected, the register is exactly `65536 - 2^20 * baud / fsrc`, the exact value of the datasheet formula |
| Sam0Uart.InitBaudWraps | cpu/sam0_common/periph/uart.c:219-251 | `uart_init` at 921600 baud and 48 MHz programs 45493, not the exact 45404 |
| Sam0Uart.ArithBaudOverflow | cpu/sam0_common/periph/uart.c:125-128 | at 921600 baud and 48 MHz the code as written gives 45493; the exact value is 45404 |
| Sam0Uart.BaudRegister | cpu/sam0_common/periph/uart.c:219-251 | the baud register value written by `uart_init`, with the arithmetic mode as written (32-bit wrap included), fits 16 bits |
| Sam0Uart.SamprCode | cpu/sam0_common/periph/uart.c:221-243 | SAMPR is 0 in arithmetic mode and the chosen sampling code in fractional mode |
| Sam0Uart.InitConfigures | cpu/sam0_common/periph/uart.c:203-281 | `uart_init` resets the device and sets 8N1, the pads, the mode, the baud register, the transmitter when a TX pin exists, the receiver and its interrupt when a callback and an RX pin exist, and the enable bit |
| Sam0Uart.InitEnablesWrite | cpu/sam0_common/periph/uart.c:254-258 | after `uart_init`, bytes can be sent exactly when a TX pin is configured |
| Sam0Uart.InitBaudExact | cpu/sam0_common/periph/uart.c:219-251 | in arithmetic mode the programmed value is exactly `65536 - 2^20 * baud / fsrc` whenever `rem << scale` fits 32 bits; in fractional mode it meets the fractional equation for the chosen sampling |
| Sam0Uart.InitRegisters | cpu/sam0_common/periph/uart.c:203-297 | the register computation of `uart_init`, baud as written, yields the registers `InitRegs` specifies |
| Sam0Uart.ModeStatus | cpu/sam0_common/periph/uart.c:535-546 | `uart_mode` succeeds exactly for a known device with stop bits 1 or 2 and a supported parity; an unknown device gives NODEV and a bad mode gives NOMODE |
| Sam0Uart.ModeEffect | cpu/sam0_common/periph/uart.c:548-578 | the device is disabled, then character size, parity and stop bits are set as requested and the device is enabled again; nothing else changes |
| Sam0Uart.ModeIdempotent | cpu/sam0_common/periph/uart.c:548-578 | setting the same mode twice is setting it once |
| Sam0Uart.ModeEnablesWrite | cpu/sam0_common/periph/uart.c:548-578 | after `uart_mode`, bytes can be sent exactly when a TX pin is configured |
| Sam0Uart.ModeRegisters | cpu/sam0_common/periph/uart.c:548-578 | the register update of `uart_mode` yields the specified registers |
| Sam0Uart.PinCts | cpu/sam0_common/periph/uart.c:338-347 | the CTS pin is reported only with hardware flow control and the TX/RTS/CTS pad layout |
| Sam0Uart.PinRts | cpu/sam0_common/periph/uart.c:349-358 | the RTS pin is reported only under the same condition |
| Sam0Uart.FlowControlPinsTogether | cpu/sam0_common/periph/uart.c:338-358 | CTS and RTS are reported together or not at all |
| Sam0Uart.Uart.constructor | boards/adafruit-pybadge/include/periph_conf.h:87-108 | one device per entry of the board's `uart_config`, each in its reset state, with no callback and nothing sent |
| Sam0Uart.Uart.Init | cpu/sam0_common/periph/uart.c:179-300 | an unknown device gives NODEV and changes nothing; a known one gets the registers `uart_init` computes (baud as written) and its callback, and `uart_init` returns OK |
| Sam0Uart.Uart.Mode | cpu/sam0_common/periph/uart.c:532-582 | the status is as specified; on success only that device's registers change, as specified |
| Sam0Uart.Uart.Write | cpu/sam0_common/periph/uart.c:360-405 | blocking `uart_write` puts the data on that line exactly when the device can send, and changes nothing else |
| FindNodes.Compare | examples/music_client/find_nodes.c:89-91 | the comparison is 0 exactly for equal addresses and its sign is -1, 0 or 1 |
| FindNodes.CompareAntisymmetric | examples/music_client/find_nodes.c:89-91 | swapping the arguments negates the comparison |
| FindNodes.ScanStop | examples/music_client/find_nodes.c:238-248 | the scan stops at the first slot that is empty or holds the source, passing only filled slots holding other addresses |
| FindNodes.FilledCount | examples/music_client/find_nodes.c:155-162 | the number of filled slots is at most the table size |
| FindNodes.PlaceWellFormed | examples/music_client/find_nodes.c:238-253 | inserting keeps the table shape: filled slots first, then empty ones, with no address twice |
| FindNodes.PlaceEffect | examples/music_client/find_nodes.c:238-253 | after insertion the source is present exactly when it was already there or there was room; filled slots are unchanged; a full table without the source is unchanged |
| FindNodes.FilledCountUpdate | examples/music_client/find_nodes.c:238-253 | writing one slot changes the count by the change in that slot |
| FindNodes.PlaceCount | examples/music_client/find_nodes.c:238-253 | insertion adds one neighbour exactly when the source is new and there is room |
| FindNodes.FilledCountPrefix | examples/music_client/find_nodes.c:155-162 | in a well-formed table the count of filled slots is the length of the filled prefix |
| FindNodes.NeighbourTable.constructor | examples/music_client/gcoap_example.h:36 | the table of `NEIGHBOUR_LIMIT` slots starts all unspecified and well formed |
| FindNodes.NeighbourTable.Insert | examples/music_client/find_nodes.c:238-248 | the loop updates the table as insertion into the table specifies |
| FindNodes.NeighbourTable.PrintReply | examples/music_client/find_nodes.c:209-254 | an echo reply from the pinged host with the right id is accepted and its source inserted, returning 0; anything else returns -EINVAL and changes nothing; the table stays well formed |
| FindNodes.NeighbourTable.PingCount | examples/music_client/find_nodes.c:155-162 | the count loop returns the number of filled slots minus one, in -1..9 |
| FindNodes.NextEvent | examples/music_client/find_nodes.c:171-190 | another ping is scheduled exactly while the incremented counter is below the count, after the interval; without replies the finish comes after the timeout |
| FindNodes.FinishAfterRoundTrips | examples/music_client/find_nodes.c:183-189 | with replies, the finish timer is `floor(tmax / 2^19)` whole seconds (about twice the longest round trip, truncated), at least one second, while that product fits 32 bits |
| FindNodes.FinishTimerWraps | examples/music_client/find_nodes.c:185 | the timer product wraps in 32 bits: with a round trip of 4295 * 524288 us the timer is 32704 |
| FindNodes.Ping.constructor | examples/music_client/find_nodes.c:95-104 | the ping state starts with no pings sent or received, count 3, one second timeout and interval |
| FindNodes.Ping.Pinger | examples/music_client/find_nodes.c:165-207 | `_pinger` clears the check bit of the sequence number, sends a ping with it (16 bits), increments the counter in 32 bits and schedules the next event as specified; nothing else changes |

## Left out

- Concurrency is not modelled. This covers:
  - the handoff from the interrupt handler to threads;
  - thread flags, beyond the `coapFlag` bit the worker waits for;
  - the mutex itself (only its acquire and release events are recorded in the trace);
  - netdev event delivery (counted only);
  - thread creation and auto-init.
- The UART is the `Wire` trace. `uart_write` and the receive callbacks are its events and methods.
- `coap_parse` and `coap_handle_req` are not part of this model. They are the `Stack` parameter, bounded to the 512-byte buffer as the call at `coap.c:45` demands.
- `chunked_ringbuffer` and `crc16_ccitt` are not part of this model. They are specified abstractly: the ring by its documented FIFO behaviour, the CRC by RFC 1662 Appendix C.2.
  - ending a chunk as valid is modelled as always succeeding: a limit on chunk descriptors that the real ring may have is not modelled.
  - `crc16_ccitt_fcs_finish` is taken to be the ones' complement of the running FCS, as that appendix defines it.
- `slipmux_net_init` and the netdev driver of the C driver are not part of this model. The net ring is initialised with a default size of 2048.
- The `slipmux.c` net channel always calls `crb_add_byte` on the net ring (line 151 is outside the module guard). The model therefore keeps the net channel on in every build.
- STANDBY and SLEEP are receive states without transitions in the source. The model keeps them as states that ignore every byte.
- RustSlipmux.Recv: the `todo!()` branch taken before initialisation is not modelled, because it panics.
- RustSlipmux.CalcCsum: it requires the word sum to fit in 32 bits, because the Rust `+=` would panic (debug) or wrap (release) beyond that.
- RustSlipmux.Slipmux.Step: it requires that a stored byte fits the 256-byte buffer, because the Rust index panics beyond it.
- The pure Rust decoder `Feed` stores without bound. The lemmas about configuration frames require the payload to fit the 256-byte `rxbuf`, where the source would panic instead.
- RustSlipmux.SendReply: it requires `len <= 512`, because `&buffer[..len]` panics beyond it. `len` comes from the foreign `slip_recv`, which is not part of this model.
- The `slipmux2` decoder crate is not part of this model, and neither are the `uart_cb` and `cb` closures and `init`. The model starts from the frame handler callbacks.
- The `let _ = WRITE_SYNC.lock()` of `slipmux2` and `demouart` drops its guard at once, so those writers hold no lock. Their traces therefore carry no lock events.
- `set_pmpXcfg` with a shift that overflows a signed `int`, and `read_pmpXcfg` with a negative index, are undefined behaviour. The model limits `set_pmpXcfg` to entries 0..15 and `read_pmpXcfg` to 0..63. For the shifts by 24 bits (entries 3, 7, 11 and 15, and a value of 0x80 or more), which overflow a signed `int`, the model computes the intended 32-bit pattern.
- The `printf` output of `print_pmpXcfg` and `make_napot` is not modelled. Only the decoded region and the returned value are. The `assert`s of `make_napot` become its precondition.
- For the SAM0 UART, these are not modelled:
  - Standby and power-management blocks.
  - The ring buffer `tsrb`, the interrupt handlers and non-blocking `uart_write`.
  - Pin multiplexing, and the waits on `syncbusy` and reset.
- `sam0_gclk_freq` is the `fsrc` parameter. Registers are modelled as records of their fields, not bit positions.
- Sam0Uart.Uart.Init: for a configured device it requires arguments for which the source's `__builtin_clz` and shifts are defined, because `clz(0)` and negative shifts are undefined behaviour in C. An unknown device returns NODEV for any arguments, as in the source.
- Sam0Uart.Uart.Write: `uart_write` and the flow-control pin queries do not check the device number in the source. The model requires a configured device.
- The collision-detection and RX-start functions of the SAM0 driver are not modelled.
- For `find_nodes.c`, these are not modelled:
  - the message loop, the id derived from the clock, `echo_send` and the `printf` output;
  - `tmin` and `tsum`. Nothing in `find_nodes.c` writes `num_recv` or `tmax` (they are only read, at lines 135, 183 and 185), so in this program the branch of `_pinger` for a received reply is unreachable; FindNodes.FinishAfterRoundTrips states what it would do.
- The check table is an array of `bool`, not a bit set.
- `memcmp` is reduced to the sign of its result.
- FindNodes.Ping.Pinger: the result of sending is ignored, as in the source.

## Findings

| source | as written | input that shows it | evidently intended | confidence | as-written member | corrected member |
|---|---|---|---|---|---|---|
| drivers/slipmux/coap.c:44-45 | `unsigned int res` makes `res <= 0` true only for 0, so a negative error from `coap_handle_req` is sent as a huge length | a handler result of -1 becomes a reply length of 4294967295 from the 512-byte buffer | a negative result means no reply | not executed | SlipmuxCoap.NegativeReturnSent | SlipmuxCoap.ReplyLen |
| drivers/slipmux/coap.c:23-25 | `continue` without consuming the chunk leaves it at the head, so the loop spins for ever | a 1024-byte ring holding one 600-byte chunk | consume and drop the oversized chunk | not executed | SlipmuxCoap.OversizeExample | SlipmuxCoap.ServePending |
| cpu/riscv_common/pmp.c:252 | `addr &= ~size` clears the size bit of the base address | `make_napot(0x10, 0x10)` gives 7, which decodes to base 0 | `addr \| (size/2 - 1)`, which decodes to the base and size given | not executed | Pmp.NapotAsWrittenLosesBase | Pmp.NapotRoundTrip |
| cpu/sam0_common/periph/uart.c:128 | `rem << scale` is computed in 32 bits and wraps | 921600 baud at 48 MHz gives 45493 instead of 45404 | the exact product, giving `65536 - 2^20 * baud / fsrc` | not executed | Sam0Uart.ArithBaudOverflow | Sam0Uart.ArithBaudExact |
