# WIZnet ioLibrary: a verified model

A Dafny model of four parts of the ioLibrary for WIZnet's Ethernet chips, with proofs that hold for every
input, every run and every interleaving of the host with the chip. `dafny verify dfyconfig.toml` checks it.

## What is modelled

**The socket data path** (`Arith`, `Ring`, `Wire`, `Channel`, `SocketState`, `SocketApi`, `SocketEffects`,
`SocketRuns`, `TcpClient`, `Fifo5300`, `Counter5300`, `MemoryMap`, `PowerUp`). A `Channel` is one socket as host and
chip share it: pointer registers, status and interrupt registers, and its windows of TX and RX memory. The chip is a
set of steps - drain TX, deliver bytes or a whole datagram, raise SENDOK or TIMEOUT, move Sn_SR - and any number of
them may happen before every bus access of the host, also between two bytes of a counter or of a copy. On top of it
stand the driver's copies and counter loops, the calls of `socket.c`, the client of `usr_tcpc.c` and a method that
performs any sequence of calls on all sockets; `SocketEffects` has the calls as relations on states. The ghost history
of a socket - bytes accepted and taken, arrived and released, datagrams - is what the theorems speak of: while a
socket is open nothing is lost, repeated or reordered in either direction, datagrams are delivered once, in order and
unmixed, at most one TCP SEND is unacknowledged, every `sendto` is one datagram to its address, and no socket disturbs
another. `recv` may close a socket with received bytes waiting, which are then dropped: all that wait, if the status
it reads is neither ESTABLISHED nor CLOSE_WAIT, and in CLOSE_WAIT some if and only if any arrived between its two
reads (`GaveUp`, `WhatIsDropped`, `RecvCanDrop`). `PowerUp` goes from `wizchip_init` to the first call.

**The DNS codec** (`DnsName`, `DnsQuery`, `DnsMessage`, `DnsRun`). The decoder is compared with the expansion
of sections 3.1 and 4.1.4 of RFC 1035, the reply parser with the record format of section 4.1.3, the query
writer with the decoder.

**The DHCP client** (`DhcpOptions`, `DhcpMessage`, `DhcpState`, `DhcpExchange`, `DhcpRuns`, `DhcpClient`,
`DhcpConflict`). The class does what `dhcp.c` does to its globals and its buffer and is proved to take the steps of
a specification on values; the theorems about messages and runs are about that specification.

**The AT terminal** (`AtHistory`): line editor and history ring.

Assumptions, all stated in contracts: ring sizes are 1, 2, 4, 8 or 16 KB; a datagram socket's chip publishes a
packet as a whole; the chip follows the register descriptions of `Ethernet/W5100/w5100.h`; the socket number
is not equal to the number of sockets. Loops that poll the chip take a parameter `patience`: after that many
rounds the call is `Blocked`, which stands for every unfinished observation of it, so the contracts describe
every finite prefix of every run.

## What the proofs found

Where the code and its documentation or its purpose disagree the model follows the code:

- `CHECK_SOCKNUM` (`Ethernet/socket.c:83-86`) also lets the number of sockets itself through; the calls
  require another number (`SocketState.GuardIsLoose`).
- `recvfrom` returns 0 both for "busy" and for an empty datagram: in the contract of `SocketApi.RecvFrom` only
  the ghost result `taken` tells them apart.
- `listen` closes a socket whose connection was already established when it looks, and exactly one whose status is
  then not SOCK_LISTEN (`Ethernet/socket.c:246-250`; `ListenRace`, `SocketApi.Listen`).
- `connect` does not report a connection that the peer has ended before it looks: it goes on polling until the socket
  is closed or a timeout is raised (`Ethernet/socket.c:278-290`; `AwaitConnection`).
- `recv` drops received bytes when it closes a socket, in two ways. It reads the size before the status: data and
  the end of the connection that arrive in between are dropped (`LosingRace`); a size read a byte at a time while
  it passes from below 256 to a multiple of 256 is a torn 0, and then bytes that waited before are dropped as well
  (`TornRace`). And in any status but ESTABLISHED and CLOSE_WAIT - so after a non-blocking `disconnect`, or a reset -
  it closes the socket whatever the size is, and drops what it has just counted (`CountedRace`,
  `CountedCanBeLost`). Bytes can be dropped exactly in the states in which some wait or can still arrive
  (`RecvCanDrop`, `WhatIsDropped`).
- The TCP client disconnects in CLOSE_WAIT without a look at the received size (`Ethernet/usr_layer/usr_tcpc.c:88-90`):
  what came with the end of the connection is neither announced nor readable any more (`TailIsLost`).
- `wizchip_init` adds sizes in an `int8_t`, so four sizes of 128 are accepted (`WrapAccepted`); a size of 0
  yields 1 KB (`ZeroIsOneKilobyte`); its RX loop tests the TX size (`Ethernet/wizchip_conf.c:518`), so an RX
  size of 0 beside a nonzero TX size does not end (`Hangs`), and an RX vector without a TX vector reads through the
  null pointer unless every RX size is 1 (`NullRead`). Which vectors fit the chip is `AreaFits`.
- The W5300 counter loop believes a first reading of 1; on counters below 65536 that is harmless
  (`GetCounter`), beyond it need not be (`TornOne`).
- `parse_name` rejects a pointer that leads to a pointer (`PointerToPointerRejected`), and a text that is as
  long as its buffer has its terminator written one byte past it (`StaysInside`). A query for a name of 23
  bytes meets this when it is read back (`LongestNameOverruns`). After such a write the model gives no result.
- `dns_makequery` stops at the first empty label; `dns_answer` does not skip the data of TXT and unknown
  records (`AnswerEndsAtRecord`).
- `Internet/DNS/dns.h:95` gives a maximum waiting time of MAX_DNS_RETRY * DNS_WAIT_TIME = 6 seconds; it is 9.
- A DHCP renewal carries the requested-address and server options if the server's address ends in 255
  (`ListsSay`), which section 4.3.2 of RFC 2131 forbids in that state.
- DHCP_IP_CHANGED and its callback are unreachable, and DHCP_IP_ASSIGN is never returned
  (`LeaseIsEnteredByAck`).
- An OFFER accepted after two resends of DISCOVER gets no time to be acknowledged, any other does
  (`LateOfferDropped`).
- The 250-byte limit of the AT history never takes effect: at that point at most one line is left. If no
  allocation succeeds the terminal halts for ever (`SetPrev`), and `AT?` answers lines of more than 88 bytes
  past the end of its buffer (`ResponseFits`).

## Model

| member | source | states |
|---|---|---|
| Arith.MaskIsRemainder | Ethernet/W5100/w5100.c:309-315 | for every pointer and every power of two, `ptr & (size - 1)` is the remainder of ptr by size |
| Ring.MaskSelectsSlot | Ethernet/W5100/w5100.h:1773-1792 | for each ring size the chips offer, getSn_TxMASK selects the pointer's slot in the ring |
| Ring.SlotWrap | Ethernet/W5100/w5100.h:524-525 | dropping the carry of a pointer at 65536 never moves a position to another slot |
| Ring.WriteAt | Ethernet/W5100/w5100.c:309-326 | byte i of a write at ptr is found at slot (ptr + i) mod size |
| Ring.WriteElsewhere | Ethernet/W5100/w5100.c:309-326 | every other slot keeps its byte |
| Ring.ReadSplit | Ethernet/W5100/w5100.c:355-368 | reading a + b bytes is reading a and then b from the advanced 16-bit pointer |
| Ring.AppendKeepsPending | Ethernet/W5100/w5100.c:302-331 | bytes stored behind n pending ones are appended to them, whatever the pointers' wrap, as long as both fit the ring: nothing unsent is overwritten |
| ChannelModel.DrainKeeps | Ethernet/W5100/w5100.h:517-527 | the chip taking bytes from TX keeps "accepted = taken + pending in TX memory" |
| ChannelModel.ArriveKeeps | Ethernet/W5100/w5100.h:545-572 | bytes arriving keep "arrived = released + pending in RX memory" |
| ChannelModel.SendKeeps | Ethernet/W5100/w5100.h:517-541 | SEND moves exactly the stored bytes from "stored" to "accepted", in order |
| ChannelModel.RecvKeeps | Ethernet/W5100/w5100.h:552-563 | RECV releases exactly a prefix of the pending bytes |
| ChannelModel.NoTear | Ethernet/W5500/w5500.c:189-222 | two byte-wise readings of a growing counter that agree on a nonzero value name a value it really held; neither reading exceeds the value at its end |
| ChannelModel.HeldOrTorn | Ethernet/W5500/w5500.c:207-222 | a result of the loop is not among the values the register held exactly if it is 0 and the first byte was read of a nonzero value |
| ChannelModel.LinearSlot | Ethernet/W5500/w5500.c:224-239 | the W5500's linear offset, cut to 16 bits and reduced by the chip, is the same abstract slot |
| ChannelModel.Channel.GetSnTxFsr | Ethernet/W5100/w5100.c:228-242 | for every interleaving with a chip that only frees space: the loop ends, the result never exceeds the free space and is a value the register held at one instant of the call, except exactly for a 0 whose first byte was read of 1 to 255 |
| ChannelModel.Channel.GetSnRxRsr | Ethernet/W5500/w5500.c:207-222 | the same for the received size: never more than is there, exact if the register is at rest, never 0 with 256 bytes or more, and a value it never held exactly if a 0 was torn |
| ChannelModel.Channel.WriteMasked | Ethernet/W5100/w5100.c:302-331 | the masked copy in two pieces leaves in TX memory exactly the abstract ring write, for every 16-bit pointer, while the chip runs between any two bytes |
| ChannelModel.Channel.WriteLinear | Ethernet/W5500/w5500.c:224-239 | the linear-pointer copy leaves the same abstract ring write |
| ChannelModel.Channel.ReadMasked | Ethernet/W5100/w5100.c:344-374 | the masked copy out of RX memory yields the n oldest unreleased bytes, in order |
| ChannelModel.Channel.ReadLinear | Ethernet/W5500/w5500.c:241-256 | so does the linear-pointer copy |
| ChannelModel.Channel.WizSendData | Ethernet/W5100/w5100.c:302-331 | TX memory becomes the ring write behind the pending bytes, TX_WR moves by the length modulo 65536, memory outside the window is untouched |
| ChannelModel.Channel.WizRecvData | Ethernet/W5100/w5100.c:344-374 | returns exactly the next n arrived bytes and moves RX_RD past them |
| ChannelModel.Channel.Transmit | Ethernet/socket.c:364-375 | storing and SEND append exactly the data to what the chip is to transmit and add one unacknowledged SEND |
| ChannelModel.Channel.Fetch | Ethernet/socket.c:477-480 | copying and RECV hand out the oldest arrived bytes once |
| SocketState.WindowKept | Ethernet/W5100/w5100.c:264-289 | memory kept outside one socket's window means that every disjoint window is kept |
| Wire.HeaderLayout | Ethernet/socket.c:640-675 | where the fields of a datagram's header stand: address, port and length of UDP in 8 bytes, address and length of IPRAW in 6, and in MACRAW 2 bytes of a length that counts them |
| SocketState.ChipKeepsConsistent | Ethernet/socket.c:325-349 | whatever the chip does on its own, the socket invariant (one unacknowledged TCP SEND at most, sending bit, datagram cursor) stays |
| SocketState.HeaderIs | Ethernet/socket.c:640-675 | with no packet in progress, the first bytes of a nonempty RX ring are the next packet's header |
| SocketState.HeaderTaken | Ethernet/socket.c:640-675 | consuming it puts the cursor at the start of that packet's payload, once |
| SocketState.FragmentTaken | Ethernet/socket.c:676-693 | handing out n payload bytes leaves the cursor exactly n bytes further in the same packet |
| SocketState.HeaderParsed | Ethernet/socket.c:663-670 | reading a header back gives the packet's sender, port and payload length in each mode |
| SocketLayer.SocketApi.Close | Ethernet/socket.c:196-237 | the socket is closed, its variables cleared, its streams kept, every other socket's bits and memory unchanged |
| SocketLayer.SocketApi.AwaitPrevious | Ethernet/socket.c:323-349 | Sn_IR is read, once, exactly if the connection is up and a SEND is outstanding; the call then goes past it iff the read had SENDOK, closes with SOCKERR_TIMEOUT iff it had TIMEOUT without SENDOK, and is busy iff it had neither; a status error iff the connection was gone |
| SocketLayer.SocketApi.AwaitRoom | Ethernet/socket.c:350-363 | goes on only when the data fits the free space; busy, or still polling, only when it did not fit, in non-blocking and in blocking mode |
| SocketLayer.SocketApi.Send | Ethernet/socket.c:315-380 | a positive n: exactly the first n = min(len, TxMAX) bytes were appended and the sending bit is set with one SEND outstanding; otherwise nothing was appended. A previous SEND decides by the one read of Sn_IR: its SENDOK was seen, or SOCKERR_TIMEOUT iff TIMEOUT alone, or busy iff neither; busy and polling otherwise mean too little room, a status error that Sn_SR was read with the connection gone |
| SocketLayer.SocketApi.Recv | Ethernet/socket.c:383-486 | a positive n hands out the n oldest received bytes not handed out before, all that was asked for or waiting; otherwise nothing. A status error closes the socket and drops what waits, for one of two causes: in CLOSE_WAIT the size was read as 0, and something is dropped exactly when some arrived during the two reads; in any other status all that waits is, counted or not. In a state recv refuses (FIN_WAIT, CLOSING, LAST_ACK, TIME_WAIT, CLOSED, INIT) that is certain; once the peer has finished the dropping is exact in the state before the call and the status read |
| ChannelModel.TailCanBeLost | Ethernet/socket.c:404-420 | a chip run after which recv, having read the size as 0, closes a socket with received bytes waiting |
| ChannelModel.Channel.LosingRace | Ethernet/socket.c:404-420 | the same step by step: size 0, the arrival, CLOSE_WAIT, all of TX free, closed, the data never delivered |
| ChannelModel.Channel.TornRace | Ethernet/socket.c:404-413 | the torn 0 step by step: 1 to 255 bytes wait, more arrive up to 256 between the two byte reads, the size is read as 0, the peer has finished: the close drops also what waited before |
| ChannelModel.Channel.CountedRace | Ethernet/socket.c:414-420 | recv counts n > 0 bytes and reads a status it refuses: closed, all n undelivered; for every such status the chip may be or come to be in |
| SocketState.CountedCanBeLost | Ethernet/socket.c:414-420 | that run for every state in which bytes wait: a chip run, `GaveUp`, and the counted bytes among what arrived but was never delivered |
| SocketState.RecvCanDrop | Ethernet/socket.c:402-423 | in every state of a connection in which bytes wait or can still arrive there is a run in which recv drops some |
| SocketState.WhatIsDropped | Ethernet/socket.c:402-423 | the converse, from the state before the call: with the peer finished recv drops bytes exactly if some were waiting and the status read was not CLOSE_WAIT; with 256 or more waiting it never was |
| SocketLayer.SocketApi.TakeHeader | Ethernet/socket.c:638-675 | reads the next packet's header once and reports that packet's sender and length |
| SocketLayer.SocketApi.TakeFragment | Ethernet/socket.c:676-763 | hands out min(len, remaining) bytes of the packet in progress; afterwards PACK_REMAINED iff payload is left, PACK_COMPLETED iff none is |
| SocketLayer.SocketApi.RecvFrom | Ethernet/socket.c:592-771 | a fragment appended to the packet in progress, else the first of the next packet with its sender; the packet flags say whether it was the first and whether some is left; nothing is handed out on an error, and each error exactly in its case |
| SocketLayer.SocketApi.AwaitSendok | Ethernet/socket.c:562-582 | the first read of Sn_IR with SENDOK or TIMEOUT decides: SENDOK gives the length and is consumed, TIMEOUT alone gives SOCKERR_TIMEOUT and leaves the SEND unacknowledged, and only that bit is cleared |
| SocketLayer.SocketApi.SendTo | Ethernet/socket.c:488-588 | a positive result or a timeout means exactly one datagram of the first min(len, TxMAX) bytes to the address and port given, and which of the two is decided by the first SENDOK or TIMEOUT read; every other result that none was sent; each error exactly for its argument; the subnet mask is 0 at the SEND where the older chips need it and restored afterwards |
| SocketLayer.SocketApi.Socket | Ethernet/socket.c:103-194 | the result code for every protocol and flag combination; on success fresh streams, no sending bit, I/O mode from the flag, the port given or the next of the automatic ones; on an error nothing changes |
| SocketState.FlagsByProtocol | Ethernet/socket.c:139-166 | the accepted flags, protocol by protocol: what TCP and multicast UDP demand, which bit nobody accepts |
| SocketLayer.SocketApi.Listen | Ethernet/socket.c:239-252 | each error exactly when it should be; in SOCK_INIT the call succeeds exactly if SOCK_LISTEN is read after LISTEN, and closes the socket exactly if any other status is, that of an established connection included |
| ChannelModel.Channel.ListenRace | Ethernet/socket.c:243-250 | that run step by step: LISTEN, a client connects and sends, ESTABLISHED is read, the socket is closed and the data never delivered |
| ChannelModel.ClientCanBeLost | Ethernet/socket.c:243-250 | it is a run of the chip from SOCK_LISTEN, and the close keeps the data undelivered |
| SocketLayer.SocketApi.Connect | Ethernet/socket.c:255-293 | which argument or status gives which error; otherwise CONNECT has been given to the destination; busy exactly in non-blocking mode, success means SOCK_ESTABLISHED, a timeout exactly that the last read of Sn_IR had TIMEOUT; streams and variables untouched |
| SocketLayer.SocketApi.AwaitConnection | Ethernet/socket.c:278-292 | a connection that the peer has ended before the loop looks is never reported as connected |
| SocketLayer.SocketApi.Disconnect | Ethernet/socket.c:295-313 | the sending bit is released, the socket is in a state send and recv refuse; busy exactly in non-blocking mode, success means SOCK_CLOSED, a timeout exactly that the last read of Sn_IR had TIMEOUT |
| SocketLayer.SocketApi.SetIoMode | Ethernet/socket.c:774-785 | changes one socket's I/O mode bit only, for the arguments 0 and 1, and refuses every other |
| SocketEffects.Manage | Ethernet/socket.c:103-252 | socket, close, listen and ctlsocket as relations between the socket before and after: result codes and new state for every argument and state |
| SocketEffects.Handshake | Ethernet/socket.c:255-313 | the same for connect and disconnect |
| SocketEffects.Transfer | Ethernet/socket.c:315-486 | the same for send and recv |
| SocketEffects.Exchange | Ethernet/socket.c:488-771 | the same for sendto and recvfrom |
| SocketRuns.RecordMeaning | Ethernet/socket.c:315-588 | what the callers' results add up to: the bytes taken by the chip are a prefix of those reported accepted, the bytes returned a prefix of those arrived, the datagrams sent are those of the sendto calls with their addresses, the datagrams received whole and in order but for the one in progress |
| SocketRuns.NotedReads | Ethernet/socket.c:315-771 | a record kept from results alone goes on saying what the streams hold, call by call |
| SocketRuns.Step | Ethernet/socket.c:183-190 | one call has its effect on its socket, keeps every invariant and leaves every other socket's state and rings as they were |
| SocketRuns.Run | Ethernet/socket.c:103-785 | for every sequence of calls on all sockets and every interleaving with the chip: each call in turn has its effect and touches no other socket, only the last may be unfinished, and the records kept from the results say what every socket's streams hold |
| SocketRuns.KeptReads | Ethernet/socket.c:103-785 | the same of every run of that kind, by induction on its calls |
| PowerUp.MakeSockets | Ethernet/W5100/w5100.c:264-289 | sockets whose windows are the blocks of the size registers start with every invariant, disjoint windows and empty records, whenever the blocks fit the areas |
| PowerUp.Session | Ethernet/wizchip_conf.c:443-527 | wizchip_init with powers of two that add up to 8 succeeds and gives every socket the sizes asked for, and any sequence of calls and interleavings from there runs as above, from empty records |
| TcpClientModel.TcpClient.Send | Ethernet/usr_layer/usr_tcpc.c:116-130 | result 0 means exactly the whole buffer was appended, in order; otherwise a prefix, and the socket is closed on an error |
| TcpClientModel.TcpClient.Loop | Ethernet/usr_layer/usr_tcpc.c:63-110 | each turn keeps the socket invariant; what each status leads to: a closing connection is given up without a look at the received size, a client told to stay closed stays closed, another is reopened with fresh streams, and established is only reported of an established socket |
| TcpClientModel.TcpClient.Switch | Ethernet/usr_layer/usr_tcpc.c:70-109 | what each status makes the client do: the effect and the result of disconnect in CLOSE_WAIT and of connect in INIT, all that waits announced in ESTABLISHED, reopened or left alone in CLOSED, nothing in any other |
| TcpClientModel.TcpClient.TailIsLost | Ethernet/usr_layer/usr_tcpc.c:88-114 | bytes that wait unread when the loop sees CLOSE_WAIT are not announced, and recv after it is refused, whatever the chip does meanwhile |
| TcpClientModel.TcpClient.Restart | Ethernet/usr_layer/usr_tcpc.c:96-105 | a closed client that may resume ends in SOCK_INIT with fresh streams, or stays closed with the error |
| Fifo5300.FlatIsPrefix | Ethernet/socket.c:640-762 | all the bytes ever returned, followed by the rest of the packet in progress, are the concatenated payloads |
| Fifo5300.Reclosed | Ethernet/socket.c:467-473 | the carried byte is live exactly when PACK_FIFOBYTE is set, and then it is the next payload byte |
| Fifo5300.Fifo.WizRecvData | Ethernet/W5300/w5300.c:199-216 | from 16-bit words exactly the first len bytes; after an odd length the kept low byte is the next one |
| Fifo5300.Fifo.Fragment | Ethernet/socket.c:676-693 | carried byte first, then words: the next min(len, remaining) payload bytes, and flags that agree with what is left |
| Fifo5300.Fifo.Recv | Ethernet/socket.c:383-475 | mode and length errors; the waiting loop with its busy, status and close exits and their causes; then min(len, RxMAX, remaining) bytes of the segment in progress or of the next one; with none in progress a refused socket is closed and all of the FIFO dropped |
| Fifo5300.Fifo.RecvFrom | Ethernet/socket.c:592-763 | the same for a UDP datagram, naming the sender of each new one; a closed socket is reported |
| Fifo5300.Fifo.AwaitSegment | Ethernet/socket.c:403-432 | goes on only when the FIFO holds something; gives up only on a lost connection, dropping in CLOSE_WAIT exactly what arrived after the read of the size and in any other status all the FIFO holds |
| Fifo5300.Fifo.ReadMany | Ethernet/socket.c:435-762 | for every sequence of read lengths the outputs concatenate to the payload stream |
| Counter5300.GetCounter | Ethernet/W5300/w5300.c:161-173 | ends for every growing counter; the result was held by it exactly unless a first reading of 1 was torn, and always if the counter stays below 65536 |
| Counter5300.GetReceived | Ethernet/W5300/w5300.c:175-187 | the same for the received size, plus one for a byte the host already carries |
| Counter5300.SmallCountersNeverTear | Ethernet/W5300/w5300.c:161-187 | below 65536 no reading is torn, at whatever instants its halves are read |
| Counter5300.TornOne | Ethernet/W5300/w5300.c:164-169 | a counter going beyond 65535, which no memory size of the chip allows, could be read as 1 without ever holding it: the bound in GetCounter is needed |
| MemoryMap.FieldWritten | Ethernet/W5100/w5100.h:1629-1641 | a two-bit size field keeps two bits of what is written and the fields below it are untouched |
| MemoryMap.BlocksApart | Ethernet/W5100/w5100.c:264-289 | each block ends before any later one begins |
| MemoryMap.GetBase | Ethernet/W5100/w5100.c:278-289 | the accumulating loop gives the start of the block |
| MemoryMap.SizeRegisters.Log2 | Ethernet/wizchip_conf.c:481-484 | the shift-counting loop finds the size code of the largest power of two not above the size, 0 when it is skipped, and does not end exactly for a size of 0 beside a nonzero guard |
| MemoryMap.SizeRegisters.CheckSizes | Ethernet/wizchip_conf.c:468-477 | accepts exactly the vectors all of whose int8_t running sums are at most 8 |
| MemoryMap.SizeRegisters.WizchipInit | Ethernet/wizchip_conf.c:443-527 | whether it refuses, hangs, reads through a null pointer or succeeds, and the contents of both size registers, for every pair of vectors, either of them left out |
| MemoryMap.PowersAccepted | Ethernet/wizchip_conf.c:468-477 | sizes 1, 2, 4, 8 are accepted exactly when they add up to at most 8 |
| MemoryMap.SizesAsAsked | Ethernet/wizchip_conf.c:481-523 | every socket has the requested size exactly when every size is 1, 2, 4 or 8 and (RX) the TX size is nonzero or the RX size 1 |
| MemoryMap.PartitionIsSound | Ethernet/wizchip_conf.c:468-523 | for powers of two the blocks have the requested sizes, are disjoint and lie inside the 8 KB area |
| MemoryMap.AreaFits | Ethernet/wizchip_conf.c:478-523 | for every programmed pair of vectors: all blocks lie inside the 8 KB area exactly when the KB granted - the size rounded down to a power of two, its exponent modulo 4, or 1 - add up to at most 8 |
| MemoryMap.NonzeroFits | Ethernet/wizchip_conf.c:478-523 | sizes without a zero are never granted more than they ask for |
| MemoryMap.WrapAccepted | Ethernet/wizchip_conf.c:470-474 | four sizes of 128 pass the test because the int8_t wraps, and give 32 KB of blocks |
| MemoryMap.ZeroIsOneKilobyte | Ethernet/wizchip_conf.c:481-484 | a size of 0 yields 1 KB, so sizes 8, 0, 0, 0 are accepted and overrun the area |
| DnsName.OneExpansion | Internet/DNS/dns.c:153-204 | a name field has at most one expansion under section 4.1.4 of RFC 1035 |
| DnsName.PointerStandsFor | Internet/DNS/dns.c:170-179 | two bytes with the top two bits set and 14 bits of offset stand for the name at that offset; the other two values of the top bits begin no name |
| DnsName.ParseName | Internet/DNS/dns.c:153-204 | for every memory content, cyclic pointers included, and a buffer of exactly the length passed: it ends with the decoded text, its terminator and the in-place length, or -1, and tells whether all of it was written inside the buffer |
| DnsName.DecodeIsExpansion | Internet/DNS/dns.c:153-204 | with a buffer of at most 64 bytes it succeeds exactly when the field has an expansion that fits without a pointer leading straight to a pointer; text and length are then the expansion's and the in-place wire length |
| DnsName.StaysInside | Internet/DNS/dns.c:153-204 | a parse that succeeds has written inside its buffer of 2 to 64 bytes exactly when the expansion is shorter than the buffer |
| DnsName.LongBufferTakesReserved | Internet/DNS/dns.c:163-190 | with 65 bytes or more it accepts a reserved length byte: 64 is the exact limit |
| DnsName.PointerToPointerRejected | Internet/DNS/dns.c:170-179 | a pointer to a pointer is legal but rejected |
| DnsQuery.Query.MakeQuery | Internet/DNS/dns.c:413-463 | the identifier grows by one modulo 65536 and the buffer holds header, name field, type and class |
| DnsQuery.EncodeIsWire | Internet/DNS/dns.c:436-457 | the name field is the section 3.1 encoding of the labels before the first empty one |
| DnsQuery.WireExpands | Internet/DNS/dns.c:436-457 | that encoding expands to its labels without pointers and is as long as it should be |
| DnsQuery.NameRoundTrip | Internet/DNS/dns.c:153-204 | parse_name gives back what dns_makequery wrote, for every buffer large enough |
| DnsQuery.QueryRoundTrip | Internet/DNS/dns.c:214-229 | for every name the sender can copy: the same name with one trailing dot if no label is empty, and dns_question ends at the returned length; all inside the buffer exactly unless the name has 23 bytes and no empty label |
| DnsQuery.LongestNameOverruns | Internet/DNS/dns.c:216-219 | such a name: text and terminator take 25 bytes of a 24-byte buffer |
| DnsMessage.DnsAnswer | Internet/DNS/dns.c:240-322 | where the next record is looked for, or why it is not, and the address buffer, for every record type |
| DnsMessage.RdataEndIs | Internet/DNS/dns.c:259-319 | the data of each known type is skipped exactly, of any other type not at all |
| DnsMessage.AnswerEndsAtRecord | Internet/DNS/dns.c:240-322 | on a well-formed record the first name that cannot be read decides - refused, or written past its buffer - and otherwise it stops at the declared end, except for TXT and unknown types, where it does iff RDLENGTH is 0 |
| DnsMessage.AnswersAre | Internet/DNS/dns.c:376-384 | the answer section is read up to the first record with a name that cannot be read, keeping the last A record's address |
| DnsMessage.HeaderRead | Internet/DNS/dns.c:343-361 | for every header of section 4.1.1 - six words, one bit a flag, four bits for opcode and rcode - the fields read are those written |
| DnsMessage.ParseDnsMsg | Internet/DNS/dns.c:335-402 | header, result and address buffer for every message; no result after a write past a name buffer |
| DnsMessage.ReplyIsParsed | Internet/DNS/dns.c:363-402 | on a well-formed reply with the counts of its header: -1 iff the first unreadable name is refused, undefined iff it just fills its buffer, otherwise 1 iff the response code is 0; and the last readable A record's address |
| DnsMessage.AddressIsRead | Internet/DNS/dns.c:240-257 | the ordinary reply byte by byte: one question, one A record, and the four bytes of its data as the address |
| DnsMessage.FlagsRecombine | Internet/DNS/dns.c:344-358 | the header fields taken apart are the flag word again, each within its bits |
| DnsMessage.OwnQueryParses | Internet/DNS/dns.c:413-463 | the client's own query parses - its header field by field, one question, no error, address untouched - exactly unless its name fills the buffer; behind the name stand type A and class IN, and there it ends |
| DnsRun.Resolver.Run | Internet/DNS/dns.c:489-560 | for every pattern of polling: three transmissions at most, a timeout only after three waits, and after exactly 9 seconds when polled every second |
| DhcpOptions.Parser.ParseOptions | Internet/DHCP/dhcp.c:627-697 | for every memory content the loop advances and ends, with the reading of the walk specification |
| DhcpOptions.WalkReadsMeaning | Internet/DHCP/dhcp.c:627-697 | on a list well formed under RFC 2132 it stops at the end and has read the last occurrence of each option |
| DhcpOptions.LastFront | Internet/DHCP/dhcp.c:627-697 | reading front to back with overwriting keeps the last occurrence |
| DhcpMessage.ListsFit | Internet/DHCP/dhcp.c:370-409 | the option lists of all three messages fit the OPT field for every host name of at most 249 bytes |
| DhcpMessage.PutHost | Internet/DHCP/dhcp.c:388-398 | the host name option carries name and hexadecimal digits with the right patched length |
| DhcpMessage.HeadIsLayout | Internet/DHCP/dhcp.c:294-341 | the bytes before the options are the fixed fields of section 2 of RFC 2131, each in its place |
| DhcpMessage.WriteDiscover | Internet/DHCP/dhcp.c:354-410 | the whole 548-byte DISCOVER: header, cookie, option list, end option, zeros |
| DhcpMessage.WriteRequest | Internet/DHCP/dhcp.c:427-512 | the whole REQUEST, broadcast or renewing |
| DhcpMessage.WriteDecline | Internet/DHCP/dhcp.c:526-569 | the whole DECLINE |
| DhcpMessage.WrittenIsRead | Internet/DHCP/dhcp.c:627-697 | the client's option reader run over a written message sees exactly its list |
| DhcpMessage.ListsSay | Internet/DHCP/dhcp.c:456-498 | type, host name, requested address and server in each message; in a REQUEST the addresses exactly when the destination ends in 255 |
| DhcpMessage.OwnMessagesReadBack | Internet/DHCP/dhcp.c:534-566 | the reader finds each message's type, and the server identifier where one was written |
| DhcpClient.Dhcp.Parse | Internet/DHCP/dhcp.c:586-701 | ignores other ports, other MAC addresses and other servers; otherwise the reading of the options |
| DhcpClient.Dhcp.CheckTimeout | Internet/DHCP/dhcp.c:842-893 | resend, give up or wait, as the state step says, with the messages sent |
| DhcpClient.Dhcp.DhcpRun | Internet/DHCP/dhcp.c:706-834 | one call is one step of the specification: new state, result, messages and callback |
| DhcpClient.Dhcp.DhcpInit | Internet/DHCP/dhcp.c:930-962 | the state after initialisation, with a substitute for an all-zero MAC address and the transaction id computed from the address |
| DhcpExchange.DiscoverIs | Internet/DHCP/dhcp.c:354-423 | what a DISCOVER says, field by field and option by option |
| DhcpExchange.RequestIs | Internet/DHCP/dhcp.c:427-520 | what a REQUEST says, after an OFFER and in a renewal |
| DhcpExchange.DeclineIs | Internet/DHCP/dhcp.c:526-580 | what a DECLINE says |
| DhcpExchange.HexTailIs | Internet/DHCP/dhcp.c:391-396 | the digits behind the host name are those of the last three bytes of the hardware address |
| DhcpExchange.ReplyRead | Internet/DHCP/dhcp.c:586-701 | a message laid out as in RFC 2131 and RFC 2132 is read for what its options mean exactly if it comes from port 67, names this client, and comes from its server if it has one |
| DhcpExchange.OthersIgnored | Internet/DHCP/dhcp.c:606-628 | any other is as good as not received |
| DhcpExchange.Begins | Internet/DHCP/dhcp.c:717-724 | the first call sends one DISCOVER and forgets address and server |
| DhcpExchange.OfferIsTaken | Internet/DHCP/dhcp.c:725-741 | an OFFER with yiaddr y and server s gives one broadcast REQUEST that names y and s, and its settings |
| DhcpExchange.AckIsTaken | Internet/DHCP/dhcp.c:744-760 | an ACK begins the lease with the settings of its options if the address is unique, and is answered by one DECLINE of that address at that server otherwise |
| DhcpExchange.RenewalIsTaken | Internet/DHCP/dhcp.c:797-815 | an ACK of a renewal keeps the address and takes the settings |
| DhcpExchange.NakIsTaken | Internet/DHCP/dhcp.c:761-769 | a NAK leads back to waiting for an OFFER, with nothing sent |
| DhcpExchange.Unanswered | Internet/DHCP/dhcp.c:842-893 | no answer: nothing within ten seconds, then the same message again, twice at most, then failure or a new DISCOVER |
| DhcpExchange.LeaseObtained | Internet/DHCP/dhcp.c:704-760 | DISCOVER, OFFER, REQUEST, ACK: three calls from nothing to a lease of the offered address |
| DhcpConflict.CheckLeasedIp | Internet/DHCP/dhcp.c:895-928 | the address is unique exactly if the datagram to it timed out: TIMEOUT and not SENDOK in the first read that had either |
| DhcpRuns.InvKept | Internet/DHCP/dhcp.c:842-893 | retry count at most 2, wait of 10 seconds, no retries in INIT and LEASED, the old address the current one while renewing: kept by every event |
| DhcpRuns.LeaseIsEnteredByAck | Internet/DHCP/dhcp.c:741-820 | in every run: LEASED exactly by ACK in REQUEST after the conflict check or by ACK in REREQUEST; the leased address never changes, so DHCP_IP_CHANGED is unreachable |
| DhcpRuns.AddressWasOffered | Internet/DHCP/dhcp.c:728-760 | in every run: the address in use was the one of an accepted OFFER, and a leased one was confirmed by a later ACK that passed the conflict check |
| DhcpRuns.QuietTurn | Internet/DHCP/dhcp.c:842-893 | an unanswered call after any number of seconds lowers the measure if time has passed and accounts for every message, or reports failure exactly when nothing is left |
| DhcpRuns.SilenceEnds | Internet/DHCP/dhcp.c:842-893 | without answers, and however irregularly it is called, the client reaches DHCP_FAILED after at most Left(c) calls before which time passed, having sent exactly the messages left; called once a second, exactly at call Left(c) + 1 |
| DhcpRuns.SilenceBounded | Internet/DHCP/dhcp.c:842-893 | with calls at most g seconds apart no more than g * Left(c) seconds pass before DHCP_FAILED |
| DhcpRuns.TurnIsEvents | Internet/DHCP/dhcp.c:972-975 | a round of n seconds and a call is n timer ticks and a call in the runs above |
| DhcpRuns.Bounds | Internet/DHCP/dhcp.c:842-893 | at most two resends a phase; 22 seconds from a fresh DISCOVER, 45 from a fresh REQUEST or renewal |
| DhcpRuns.RenewedAtHalf | Internet/DHCP/dhcp.c:773-795 | while nothing received changes the lease it is kept for half its length, and at the first call after that exactly one REQUEST goes to the server that gave it; an infinite lease is never renewed |
| DhcpRuns.LateOfferDropped | Internet/DHCP/dhcp.c:728-741 | an OFFER does not reset the retry count: an accepted one is dropped at the next unanswered call if and only if DISCOVER had been resent twice |
| AtHistory.Terminal.Evict | Internet/ATcmd/atcmd.c:218-223 | frees the oldest line; order, slots and byte count stay right |
| AtHistory.Terminal.SetPrev | Internet/ATcmd/atcmd.c:213-248 | the history after a line for every number of failing allocations: eviction until one succeeds, or an empty history and a terminal halted for ever, exactly when none succeeds |
| AtHistory.Terminal.AtcRun | Internet/ATcmd/atcmd.c:135-211 | one character edits the line, or enters it into the history; slots and byte count stay right |
| AtHistory.Terminal.Recall | Internet/ATcmd/atcmd.c:266-277 | nothing with fewer than two lines, otherwise the formatted line before the newest, written inside its 100 bytes iff it has at most 88 |
| AtHistory.ResponseFits | Internet/ATcmd/atcmd.c:271-275 | the answer and its terminator fit 100 bytes exactly for lines of at most 88 bytes |
| AtHistory.Typed | Internet/ATcmd/atcmd.c:155-195 | what printable characters, a backspace, a line feed and any other character do to the line and to the lines entered |
| AtHistory.LengthShown | Internet/ATcmd/atcmd.c:271-275 | the answer is the text of the format, with the line's length in decimal and without a leading zero; with no line to recall it is the fixed one |
| AtHistory.TextIs | Internet/ATcmd/atcmd.c:169-242 | the string strcpy takes from the terminal buffer is the whole edited line: no zero byte in it, one behind it |
| AtHistory.Feed | Internet/ATcmd/atcmd.c:135-248 | for every character stream and every pattern of failures, the ring holds what the stream's meaning says, up to the first character at which no allocation succeeds |
| AtHistory.HistoryIsRecent | Internet/ATcmd/atcmd.c:213-248 | the history is always the most recent lines in order, two at most, and all of them when memory never fails |
| AtHistory.RecallAfter | Internet/ATcmd/atcmd.c:266-277 | when memory never fails `AT?` answers with the line before itself, inside its buffer iff that has at most 88 bytes |

## Left out

- SPI, bus and HAL callbacks, chip select and critical sections: register and memory accesses stand for them, and a 16-bit pointer register is accessed in one step.
- Bit masks over sockets are sets of socket numbers; flags of a packet are kept as bits.
- Liveness of the polling loops: a blocking call may poll for ever if the chip never answers.
- SocketLayer.SocketApi.Close: does not say that Sn_IR is clear, though the call clears it, because the chip may raise either bit again before the call returns.
- The command register's own acknowledgement loops: a command returns once accepted.
- W5200: its pointer-check and re-issued SEND (`Ethernet/socket.c:333-340`) and its rejection of one socket flag; its ring copies are those of W5100.
- W5100S data path: the same code as W5100.
- The destination registers as the chip writes them, of a socket that listens or resolves an address by itself.
- PPPoE sockets, and the flag bits copied into the socket mode register.
- W5300: the dummy datagram sent by `close`, the TX FIFO, alignment mode, byte swap, MACRAW and IPRAW fragments, packing of the size registers; the size register is read in one step in `Fifo`, its halves are the matter of `Counter5300`.
- `setsockopt`, `getsockopt` and the options of `ctlsocket` other than the I/O mode.
- wizchip_init for W5200, W5500 and W5300; the network settings that the software reset restores.
- UI, UART, GPIO, flash, the AT command handlers and `strsep_ex`, whose source is not part of this model; what they leave in the terminal buffer is arbitrary.
- DNS_run: the contents of a resent query (its length variable has been overwritten by then) and the socket calls around the loop.
- DnsQuery.Query.MakeQuery: does not use the length passed by the caller, as the code does not.
- dhcp.c: the retry-count register and the busy wait of the conflict check, and the ARP traffic, are not modelled; in the runs its answer is arbitrary; the socket is taken to be open, and replies are given as datagrams.
- DhcpRuns.SilenceEnds: is stated for runs in which the 32-bit second counter does not wrap between two calls (136 years).
- DhcpOptions.Parser.ParseOptions: what lies behind a received message in the buffer is arbitrary memory.
- Configuration storage, FTP, SNMP, SNTP, loopback and multicast demos.
