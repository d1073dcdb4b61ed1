# hev-socks5-tunnel in Dafny

hev-socks5-tunnel sends the traffic of a tun interface through a SOCKS5 proxy. This project
models the parts of it that hold state, speak a protocol or transform data, and proves what
they promise for every input, every run and every schedule.

**The mapped-DNS cache** answers address queries with made-up addresses and later resolves
these addresses back to the names. Names live in a red-black tree, a recency list and a table
of records at once.
- `RbShape`, `RbStore`, `RbFixup`, `RbUnlink`, `RbTree`: the red-black tree with parent links
  and colours in memory, its rotations, insertion and erasure. The proofs keep a tree apart
  from the memory that holds it, cut at the node the code works on.
- `KeyOrder`, `SearchTree`, `Search`: the descent by name. A smaller name sends it to the left,
  so walks of the tree are descending.
- `LinkedList`, `MappedDns`, `Address`, `Lru`: the three structures in step, the addresses, and
  the cache as a value over whole runs.
- `DnsMessage`, `DnsHandle`, `DnsTheorems`, `DnsReply`, `DnsQuery`: parsing queries in place,
  the reply byte by byte, what it means end to end, and which questions are answered.
- `Authenticator`: the user database of the SOCKS5 server, on the same tree.

**The TCP relay** moves bytes between lwIP and a socket.
- `Ring`: the ring buffer whose bytes stay in place until they are acknowledged.
- `Relay`, `RelayLoop`, `Session`: the relay as a state machine over all interleavings of its
  task with the callbacks of lwIP, when it stops, and the code that follows it step by step.

**SOCKS5.**
- `SocksAddr`, `UdpFraming`: addresses, and datagrams framed on a TCP stream.
- `Handshake`, `HandshakeOutcome`, `HandshakeReplies`: client and server as programs that
  exchange bytes, under every schedule and in both orders of the client.
- `HandshakePeers`: each of them alone, against any bytes.

**YAML**, in which the configuration is written.
- `YamlCharset`, `YamlReader`: decoding input that arrives in pieces.
- `YamlTokens`, `YamlLayout`, `YamlScanner`: the token queue, in which the start of a mapping is
  recognised only at the ':' behind its first key, and how the tokens lie in the text.
- `YamlGrammar`, `YamlStates`, `YamlParser`: the event parser and the grammar its events follow.
- `YamlRender`, `YamlStreams`, `YamlAccepts`: documents written as tokens, which are what the
  parser gives back and all that it accepts.
- `YamlNodes`, `YamlLoader`, `YamlWalk`, `YamlDumper`, `YamlRoundTrip`: loading events into a
  table of nodes and dumping such tables, which may share nodes or have cycles.

Findings, each with a lemma that gives the exact condition and one at an input that fails:
- An address of the cache leads back to its index for all indices only if the network address
  has no host bits (`Address.NetmaskRoundTripIff`, `Address.HostBits`).
- When a query asks for more names than the cache holds, some of its own answers do not
  resolve any more (`DnsTheorems.EndToEndIff`, `DnsTheorems.TwoNames`).
- The name pointer of an answer holds only the low octet of the offset, so it leads to its
  question only up to offset 255 (`DnsReply.PointerReaches`, `DnsReply.PointerMisses`).
- An IPv6 address that is an IPv4-mapped one comes back as an IPv4 address
  (`SocksAddr.IntoThenFromIff`, `SocksAddr.MappedBecomesV4`).
- Lengths that do not fit their fields, or the receiver's buffer, lose the message
  (`UdpFraming.RoundTripIff`, `UdpFraming.TooLong`).
- When a stream of datagrams ends or fails inside a message, the return value can be a number
  of bytes instead of a number of messages (`UdpFraming.ResultIff`, `UdpFraming.ShortHeader`,
  `UdpFraming.CutHeader`).
- Dumping and loading gives back a table only if its nodes are in the order in which they are
  met from the root, all of them reachable, and none has the tag "!"
  (`YamlRoundTrip.DumpThenLoadIff`, `YamlRoundTrip.NotGivenBack`).
- The comment above the parser's production for single pairs in flow sequences allows a pair
  without a key, with or without VALUE. The code skips the token behind KEY there, be it the
  VALUE, the comma or the bracket, so a pair without a key is parsed as written only if VALUE
  is there and no value follows it (`YamlRender.SingleIff`, `YamlRender.KeyLeftOut`,
  `YamlRender.KeyBeforeComma`, `YamlRender.KeyBeforeBracket`).
- The comment above the production for block mappings allows VALUE without KEY. The code
  refuses it (`YamlRender.BlockPairIff`, `YamlRender.ValueAlone`).

`Basics` holds definitions that several modules share. `dafny verify dfyconfig.toml` checks
the whole project.

## Model

| member | source | states |
|---|---|---|
| KeyOrder.CompareTotal | jni/src/core/src/hev-socks5-authenticator.c:39-70 | both orders on names, by strcmp and by length and then memcmp, are strict total orders |
| RbShape.HeightBound | jni/src/core/src/hev-rbtree.c:194-333 | a valid tree of n nodes has height at most 2*log2(n + 1) |
| RbStore.RotateRightLayout | jni/src/core/src/hev-rbtree.c:97-105 | the link updates of a rotation turn the memory of a tree into the memory of the rotated tree, and nothing outside changes |
| RbStore.RotateLeftLayout | jni/src/core/src/hev-rbtree.c:97-105 | the same for the mirrored rotation |
| RbTree.RBTree.ChangeChild | jni/src/core/src/hev-rbtree.c:78-90 | exactly the slot that held the old child holds the new one |
| RbTree.RBTree.RotateSetParents | jni/src/core/src/hev-rbtree.c:97-105 | the new node takes over parent, colour and slot of the old one; all other cells stay |
| RbTree.RBTree.Link | jni/src/core/src/hev-rbtree.h:45-53 | linking at an empty slot gives the old tree with one red leaf in that place |
| RbTree.RBTree.InsertRound | jni/src/core/src/hev-rbtree.c:205-333 | one round either finishes with a valid tree or moves the violation two levels up, with the same walk |
| RbTree.RBTree.InsertColor | jni/src/core/src/hev-rbtree.c:194-333 | after a link, the fix-up ends with a valid red-black tree whose walk is the old one with the node in its place |
| RbTree.RBTree.Splice | jni/src/core/src/hev-rbtree.c:414-440 | exactly the cells around a node with two children and its successor change, and where rebalancing has to start |
| RbTree.RBTree.UnlinkTwo | jni/src/core/src/hev-rbtree.c:383-444 | the successor takes the node's place; the walk loses exactly the node; at most one path is one black node short |
| RbTree.RBTree.UnlinkOne | jni/src/core/src/hev-rbtree.c:351-383 | the only child takes the node's place, with the same guarantees |
| RbTree.RBTree.Unlink | jni/src/core/src/hev-rbtree.c:351-444 | any linked node can be taken out with these guarantees |
| RbTree.RBTree.EraseLeftHalf | jni/src/core/src/hev-rbtree.c:463-572 | one round with the short side left: finished, or the shortage moves up, with the same walk |
| RbTree.RBTree.EraseRightHalf | jni/src/core/src/hev-rbtree.c:573-626 | the mirrored round |
| RbTree.RBTree.EraseColor | jni/src/core/src/hev-rbtree.c:450-626 | the fix-up after unlinking ends with a valid tree and the same walk |
| RbTree.RBTree.Erase | jni/src/core/src/hev-rbtree.c:628-635 | erasing any node of a valid tree gives a valid tree whose walk is the old one without exactly that node |
| RbTree.RBTree.First | jni/src/core/src/hev-rbtree.c:168-179 | the first node of the walk, or null |
| RbTree.RBTree.Next | jni/src/core/src/hev-rbtree.c:136-166 | the node behind the given one in the walk, or null |
| Search.Descend | jni/src/hev-mapped-dns.c:105-121 | finds the node with the name, or the one empty slot where the order allows it, in at most 2*log2(n + 1) steps |
| Search.InsertAt | jni/src/hev-mapped-dns.c:127-128 | inserting there keeps the tree valid and sorted, and no other node has the name |
| Search.EraseNode | jni/src/core/src/hev-rbtree.c:628-635 | erasing keeps the rest valid and sorted |
| LinkedList.List.AddTail | jni/src/misc/hev-list.c:14-25 | the node becomes the last one; all links agree with that order |
| LinkedList.List.Del | jni/src/misc/hev-list.c:27-39 | exactly this node leaves the order, wherever it stands |
| Address.RoundTripIff | jni/src/hev-mapped-dns.c:253-271 | every index below max survives the trip through its address if and only if the network has no host bits and every index fits the host bits |
| Address.NetmaskRoundTripIff | jni/src/hev-mapped-dns.c:273-294 | for a contiguous mask that the constructor accepts, only the host bits of the network matter |
| Address.HostBits | jni/src/hev-mapped-dns.c:273-294 | an accepted network with a host bit set, whose index 0 comes back as 1 |
| Address.MintWord | jni/src/hev-mapped-dns.c:224-224 | the address of an index is a 32-bit word |
| MappedDns.MappedDns.New | jni/src/hev-mapped-dns.c:44-62 | no cache if and only if it would have more records than there are host numbers; a new one is empty and valid |
| MappedDns.MappedDns.constructor | jni/src/hev-mapped-dns.c:273-294 | a new cache is empty and valid |
| MappedDns.MappedDns.Touch | jni/src/hev-mapped-dns.c:117-119 | a hit becomes the most recent entry; names and indices stay |
| MappedDns.MappedDns.Evict | jni/src/hev-mapped-dns.c:131-149 | in a full cache exactly the least recently touched entry goes, and the new name takes over its index |
| MappedDns.MappedDns.Find | jni/src/hev-mapped-dns.c:98-150 | tree, list and records stay in step, and the cache and the returned index are those of the value model, also when no node can be allocated |
| MappedDns.MappedDns.Lookup | jni/src/hev-mapped-dns.c:253-271 | the name that has the address's index, touched, or nothing |
| MappedDns.MappedDns.LookupRecord | jni/src/hev-mapped-dns.c:253-271 | the record at an index is the entry with that index, and only there is one |
| MappedDns.MappedDns.CacheWellFormed | jni/src/hev-mapped-dns.c:98-150 | in every reachable state names are distinct and the indices in use are 0 to use - 1, use at most max |
| Lru.RunWellFormed | jni/src/hev-mapped-dns.c:98-150 | every run of finds and lookups keeps names and indices distinct and within max |
| Lru.ListIsLastTouchOrder | jni/src/hev-mapped-dns.c:98-150 | at every point of every run the list is the names touched so far by last touch, cut to the max most recent |
| Lru.Retention | jni/src/hev-mapped-dns.c:98-271 | whatever touched a name last, a find or a lookup, it keeps its index if and only if fewer than max other names were touched since |
| Lru.RunsRetain | jni/src/hev-mapped-dns.c:98-271 | in every run from the empty cache, the index that the last find gave a name still leads to it if and only if fewer than max other names were touched since its own last touch |
| Lru.LastFind | jni/src/hev-mapped-dns.c:98-150 | every name touched in such a run has a last find |
| DnsMessage.MaskedIsDotted | jni/src/hev-mapped-dns.c:205-213 | turning length octets into dots gives the dotted form of the labels |
| DnsMessage.CStringWhole | jni/src/hev-mapped-dns.c:222-222 | the name reaches the cache whole if and only if it has no zero octet |
| DnsHandle.DotName | jni/src/hev-mapped-dns.c:205-213 | the loop fails exactly for names that leave the query, and changes only the name |
| DnsHandle.ParseQuestion | jni/src/hev-mapped-dns.c:203-229 | accepts exactly the questions that lie inside the query, with their class, type and name; on the bytes see DnsQuery.AnsweredIff |
| DnsHandle.ReadQuestions | jni/src/hev-mapped-dns.c:201-230 | overwriting names in place does not disturb the questions behind them; the cache is served question by question |
| DnsHandle.WriteAnswers | jni/src/hev-mapped-dns.c:232-245 | writes all records if and only if they fit |
| DnsHandle.WriteHeader | jni/src/hev-mapped-dns.c:247-248 | flags and answer count of the reply |
| DnsHandle.Handle | jni/src/hev-mapped-dns.c:174-251 | every outcome: when it fails, what it returns, the reply byte by byte and the new cache |
| DnsHandle.HandleShort | jni/src/hev-mapped-dns.c:174-251 | the outcomes for a query that is shorter than the header |
| DnsTheorems.EndToEndIff | jni/src/hev-mapped-dns.c:174-271 | after a query and any lookups all its answers resolve to the names asked for if and only if its address questions ask for at most max different names |
| DnsTheorems.TwoNames | jni/src/hev-mapped-dns.c:174-271 | two names and a cache for one: the first answer leads to the second name |
| DnsTheorems.EndToEnd | jni/src/hev-mapped-dns.c:174-271 | with at most max different names each answer resolves, also after any lookups in between |
| DnsTheorems.OneAnswerEach | jni/src/hev-mapped-dns.c:219-229 | one answer for each address question, in order, while memory lasts |
| DnsTheorems.LookupsKeep | jni/src/hev-mapped-dns.c:253-271 | lookups lose no entry |
| DnsTheorems.ParsedWithin | jni/src/hev-mapped-dns.c:201-230 | every question that is answered lies in the part of the query that was read |
| DnsReply.FlagBits | jni/src/hev-mapped-dns.c:247-247 | of the sixteen flags only QR is set, and RA when RD is |
| DnsReply.ReplyHeaderReads | jni/src/hev-mapped-dns.c:191-250 | read back, the header has the query's id and question count, one answer per record and no other section |
| DnsReply.ReplyQuestions | jni/src/hev-mapped-dns.c:191-191 | the questions are those of the query |
| DnsReply.ReplyAnswers | jni/src/hev-mapped-dns.c:232-245 | each record reads back as an A record of class IN with the minted address |
| DnsReply.PointerReaches | jni/src/hev-mapped-dns.c:236-237 | its pointer leads to its question if and only if the offset is at most 255 |
| DnsReply.RecordName | jni/src/hev-mapped-dns.c:236-237 | for labels of at most 63 octets and such an offset, the record's name read by section 4.1.4 of RFC 1035 is the question's |
| DnsReply.PointerMisses | jni/src/hev-mapped-dns.c:236-237 | a query whose second question starts at offset 269, and an answer that points to offset 13 |
| DnsReply.ReplyResolves | jni/src/hev-mapped-dns.c:174-271 | read as bytes, the i-th record answers the i-th address question, and looking its address up gives that question's dotted name |
| DnsQuery.AnsweredIff | jni/src/hev-mapped-dns.c:203-229 | on the bytes of the query: a question gets a record if and only if the four bytes behind its name are 0, 1, 0, 1, while memory lasts |
| DnsQuery.AnswerCount | jni/src/hev-mapped-dns.c:201-250 | the reply has as many records as there are such questions, in its size and in its header; without any it has none and the cache is as before |
| DnsQuery.QueryReads | jni/src/hev-mapped-dns.c:201-230 | questions written as labels, type and class are read as written, at their offsets |
| Authenticator.Authenticator.Add | jni/src/core/src/hev-socks5-authenticator.c:39-70 | refines a finite map: fails exactly if the name is taken, else adds it; at most 2*log2(n + 1) comparisons |
| Authenticator.Authenticator.Del | jni/src/core/src/hev-socks5-authenticator.c:72-102 | removes exactly this name, and tells whether it was there |
| Authenticator.Authenticator.Get | jni/src/core/src/hev-socks5-authenticator.c:104-131 | the user with this name, or null |
| Authenticator.Authenticator.Clear | jni/src/core/src/hev-socks5-authenticator.c:133-145 | empties the map, and ends |
| Ring.RingBuffer.Reading | jni/src/misc/hev-ring-buffer.c:25-45 | the regions hold exactly the readable bytes in order |
| Ring.RingBuffer.ReadFinish | jni/src/misc/hev-ring-buffer.c:47-52 | read bytes go in flight and are still in their cells |
| Ring.RingBuffer.ReadRelease | jni/src/misc/hev-ring-buffer.c:54-62 | the oldest bytes in flight are given back; nothing else changes |
| Ring.RingBuffer.Writing | jni/src/misc/hev-ring-buffer.c:64-85 | the regions are all free cells, none of them readable or in flight |
| Ring.RingBuffer.Store | jni/src/hev-socks5-session-tcp.c:92-101 | writing into these regions changes no readable or in-flight byte |
| Ring.RingBuffer.WriteFinish | jni/src/misc/hev-ring-buffer.c:87-93 | the written bytes become readable behind the others |
| Relay.TakeOffInv | jni/src/hev-socks5-session-tcp.c:70-83 | the 16-bit length never cuts what was written |
| Relay.HandOnFits | jni/src/hev-socks5-session-tcp.c:107-131 | lwIP always has room: a write is refused only when memory fails |
| Relay.RecvInv | jni/src/hev-socks5-session-tcp.c:133-152 | received data is never refused for the queue's length |
| Relay.RunInv | jni/src/hev-socks5-session-tcp.c:218-262 | every interleaving of the task with the callbacks keeps the invariant |
| Relay.ForwardConserved | jni/src/hev-socks5-session-tcp.c:44-83 | in every run: what lwIP delivered is what was written followed by the queue, and the window is credited by exactly what was taken off |
| Relay.BackwardConserved | jni/src/hev-socks5-session-tcp.c:85-163 | in every run: what was read is what was handed to lwIP followed by the ring, and the unacknowledged bytes are those in flight |
| Relay.HalfClose | jni/src/hev-socks5-session-tcp.c:44-131 | a direction is shut down only when everything it received has been passed on |
| Relay.EndedDelivered | jni/src/hev-socks5-session-tcp.c:245-262 | a session that ends with an empty ring has had every byte acknowledged |
| RelayLoop.RunTells | jni/src/hev-socks5-session-tcp.c:44-131 | in every run the results of the two directions say exactly whether one of the events so far ended that direction |
| RelayLoop.LoopEnds | jni/src/hev-socks5-session-tcp.c:236-254 | in every run the loop is left at a time-out or when both directions are over, and otherwise goes on |
| RelayLoop.GoesOn | jni/src/hev-socks5-session-tcp.c:218-262 | without time-outs, and with the connection at the start, the task waits or returns only when both directions are over, and returns only if the connection is gone or every byte read is acknowledged |
| RelayLoop.StartLeads | jni/src/hev-socks5-session-tcp.c:218-234 | without a connection the task returns at once, else it enters the loop |
| RelayLoop.DrainEnds | jni/src/hev-socks5-session-tcp.c:256-262 | behind the loop it waits until the connection is gone, the ring is empty or a time-out comes, and which of them it was |
| RelayLoop.ShutDown | jni/src/hev-socks5-session-tcp.c:44-131 | in every run a direction is shut down if and only if its source had ended when nothing of it was left |
| Session.Session.SpliceF | jni/src/hev-socks5-session-tcp.c:44-82 | the code up to the mutex is the step of the state machine that writes to the socket |
| Session.Session.SpliceFLocked | jni/src/hev-socks5-session-tcp.c:70-83 | the code under the mutex is the step that takes bytes off the queue |
| Session.Session.SpliceB | jni/src/hev-socks5-session-tcp.c:85-105 | the step that reads from the socket into the ring |
| Session.Session.HandOver | jni/src/hev-socks5-session-tcp.c:109-124 | hands all readable bytes on, region by region, and puts them in flight |
| Session.Session.SpliceBLocked | jni/src/hev-socks5-session-tcp.c:107-131 | the step that hands bytes to lwIP |
| Session.Session.RecvHandler | jni/src/hev-socks5-session-tcp.c:133-152 | the step that queues what lwIP received |
| Session.Session.SentHandler | jni/src/hev-socks5-session-tcp.c:154-163 | the step that gives acknowledged bytes back |
| Session.Session.Turn | jni/src/hev-socks5-session-tcp.c:236-262 | the step that goes round the loop, waits or ends; which of them it is, told by the events of the run, say RelayLoop.LoopEnds and DrainEnds |
| Session.PbufFreeHeader | jni/third-part/lwip/src/core/pbuf.c:675-693 | drops exactly the given number of bytes from the front of a chain |
| SocksAddr.FromThenInto | jni/src/core/src/hev-socks5-misc.c:161-227 | every socket address survives its wire form |
| SocksAddr.IntoThenFromIff | jni/src/core/src/hev-socks5-misc.c:161-227 | a wire address survives if and only if it is not an IPv4-mapped IPv6 one |
| SocksAddr.MappedBecomesV4 | jni/src/core/src/hev-socks5-misc.c:161-227 | what becomes of an IPv4-mapped one |
| UdpFraming.SendBatch | jni/src/core/src/hev-socks5-udp.c:56-100 | sends the frames of all messages, or nothing if an address is of unknown type |
| UdpFraming.RoundTripIff | jni/src/core/src/hev-socks5-udp.c:56-232 | a message comes back if and only if its lengths fit their fields and the buffer, whatever follows and however short the first read |
| UdpFraming.TooLong | jni/src/core/src/hev-socks5-udp.c:56-232 | a message of 65536 bytes is received as an empty one |
| UdpFraming.ReceiveOne | jni/src/core/src/hev-socks5-udp.c:160-232 | one message into one buffer, what is left of the stream, and every way in which its three reads can fail |
| UdpFraming.ReceiveMessages | jni/src/core/src/hev-socks5-udp.c:160-232 | a batch, whatever its reads return: its return value, the contents of every buffer and what is left of the stream |
| UdpFraming.ResultIff | jni/src/core/src/hev-socks5-udp.c:160-232 | the return value is the number of messages or not positive unless part of a header came and no message before it, or part of a body came whose size is not that number, and only then not |
| UdpFraming.CutHeader | jni/src/core/src/hev-socks5-udp.c:171-185 | three header bytes before the end of the stream: no message, and the value 3 |
| UdpFraming.SteadyResult | jni/src/core/src/hev-socks5-udp.c:160-232 | with waited reads that get all their bytes the return value is the number of messages, or what the first read returned if there is none; it is -1 if and only if a message was refused or that read returned -1 |
| UdpFraming.FramesResult | jni/src/core/src/hev-socks5-udp.c:56-232 | with enough frames that fit, all buffers are filled and the return value is their number |
| UdpFraming.RefusedIff | jni/src/core/src/hev-socks5-udp.c:160-232 | behind frames that fit, the value is -1 if and only if the next header claims less than an address or more than the buffer holds, whatever was received before |
| UdpFraming.Conserved | jni/src/core/src/hev-socks5-udp.c:160-232 | however the messages end, exactly the bytes that the reads returned are gone from the stream |
| UdpFraming.ShortHeader | jni/src/core/src/hev-socks5-udp.c:171-185 | a header cut short in the first buffer: no message, and the sum of what the two reads returned |
| UdpFraming.BatchTakesPrefix | jni/src/core/src/hev-socks5-udp.c:160-232 | whatever the reads return, a batch takes the next messages in order; if no waited read fails it leaves the rest of the stream whole |
| UdpFraming.FramesPossible | jni/src/core/src/hev-socks5-udp.c:160-232 | on a stream of frames every waited read can get all its bytes |
| UdpFraming.FramingRoundTrip | jni/src/core/src/hev-socks5-udp.c:56-232 | over any number of batches of any size what is received is a prefix of what was sent |
| UdpFraming.AllArrive | jni/src/core/src/hev-socks5-udp.c:56-232 | with enough batches everything arrives |
| Handshake.Commute | jni/src/core/src/hev-socks5-client.c:318-394 | moves of client and server that are both possible give the same state in either order |
| Handshake.Confluent | jni/src/core/src/hev-socks5-client.c:318-394 | all schedules end in the same state |
| Handshake.Bounded | jni/src/core/src/hev-socks5-server.c:474-528 | no schedule goes on for ever |
| HandshakeOutcome.ServerMethods | jni/src/core/src/hev-socks5-server.c:57-122 | what the server makes of the offered methods |
| HandshakeOutcome.ServerCreds | jni/src/core/src/hev-socks5-server.c:124-212 | admitted exactly if name and password are not empty and known |
| HandshakeOutcome.ServerRequest | jni/src/core/src/hev-socks5-server.c:241-528 | the reply and the result for every request |
| HandshakeOutcome.ClientReply | jni/src/core/src/hev-socks5-client.c:208-262 | what the client makes of a reply |
| HandshakeOutcome.Outcome | jni/src/core/src/hev-socks5-client.c:25-394 | under every schedule both peers return; each succeeds exactly under the stated condition; what each of them has written; on success no byte is left over |
| HandshakeOutcome.OrdersEquivalent | jni/src/core/src/hev-socks5-client.c:318-421 | pipelining changes neither the results nor, on success, the bytes |
| HandshakeReplies.OnlyRegistered | jni/src/core/src/hev-socks5-server.c:124-212 | a server with users returns 0 only if the name, as cut to its length field, is a key of the database with the password as cut; if it is so the server writes [1, 0], if not [1, 255] and both return -1 |
| HandshakeReplies.OpenServer | jni/src/core/src/hev-socks5-server.c:57-122 | a server without users lets in exactly the clients that offer no credentials |
| HandshakeReplies.Answers | jni/src/core/src/hev-socks5-server.c:350-528 | the reply to a client that is let in: 0 or 4 as connecting goes, 0 or 1 as binding goes, with the address bound, for each of the three commands; both results follow it |
| HandshakeReplies.Unresolved | jni/src/core/src/hev-socks5-server.c:289-295 | a name that cannot be resolved is answered with 8 |
| HandshakePeers.EachAlone | jni/src/core/src/hev-socks5-client.c:318-394 | what a peer writes and returns in any run is what it does alone with all the bytes of the other |
| HandshakePeers.ServerAccepts | jni/src/core/src/hev-socks5-server.c:57-528 | against any bytes the server returns 0 if and only if they begin with a greeting with its method, known credentials if it asks for them, and a request that it can serve |
| HandshakePeers.ClientAccepts | jni/src/core/src/hev-socks5-client.c:25-262 | against any bytes the client returns 0 if and only if it can ask and they begin with method 0, or method 2 and status 0, and then a reply 0 with an address that it accepts |
| YamlCharset.Complete | jni/third-part/yaml/src/reader.c:204-418 | the encoding of every allowed character decodes to it, whatever follows |
| YamlCharset.Sound | jni/third-part/yaml/src/reader.c:204-418 | what decodes is an allowed character, and the bytes consumed are its shortest encoding |
| YamlCharset.Stable | jni/third-part/yaml/src/reader.c:192-402 | what the bytes at hand decode to does not change when more arrive |
| YamlCharset.Asks | jni/third-part/yaml/src/reader.c:243-371 | more bytes are asked for only while fewer than four are there |
| YamlCharset.DecodeIff | jni/third-part/yaml/src/reader.c:204-418 | an input decodes to a text if and only if it is the UTF-8 or UTF-16 encoding of that text and all its characters are allowed |
| YamlReader.Utf8Unchanged | jni/third-part/yaml/src/reader.c:425-448 | for UTF-8 the bytes kept are the bytes read, without the byte order mark |
| YamlReader.Detects | jni/third-part/yaml/src/reader.c:41-87 | an input that begins with a byte order mark, written in one of the encodings, has that encoding, and the mark is skipped; any other is UTF-8 |
| YamlReader.MarkedReads | jni/third-part/yaml/src/reader.c:41-469 | any text behind a byte order mark, in any of the encodings, is read as it was written |
| YamlReader.PlainReads | jni/third-part/yaml/src/reader.c:41-469 | and so is a text in UTF-8 without one |
| YamlReader.Reader.UpdateRawBuffer | jni/third-part/yaml/src/reader.c:93-132 | moving and refilling lose no byte, and there is progress or the end |
| YamlReader.Reader.DetermineEncoding | jni/third-part/yaml/src/reader.c:50-87 | the encoding found on the first bytes is that of the whole input |
| YamlReader.Reader.DecodeFront | jni/third-part/yaml/src/reader.c:200-418 | the loop over the octets computes the decoding of one character |
| YamlReader.Reader.DecodeRaw | jni/third-part/yaml/src/reader.c:192-451 | the buffer never overflows, and decoding fails only on an input that does not decode as a whole |
| YamlReader.Reader.UpdateBuffer | jni/third-part/yaml/src/reader.c:141-469 | enough characters, or all of them and one NUL; fails only if the handler does or the input is bad or too long |
| YamlReader.ReadStream | jni/third-part/yaml/src/reader.c:50-469 | for every way the input is cut up, the text is that of decoding it as a whole, and it is read if and only if that decodes |
| YamlTokens.StoryInsert | jni/third-part/yaml/src/scanner.c:1690-1717 | a KEY put into the queue later leaves the tokens in the order of the text, nested, and each block collection headed by its first entry |
| YamlTokens.KeysInsert | jni/third-part/yaml/src/scanner.c:1690-1717 | and every other possible key still names the token it began with |
| YamlTokens.KeysSave | jni/third-part/yaml/src/scanner.c:1097-1128 | a saved key names the next token, behind those of the outer levels |
| YamlScanner.Scanner.StaleSimpleKeys | jni/third-part/yaml/src/scanner.c:1056-1090 | drops exactly the keys on an earlier line or too far back; fails if and only if one of them is required |
| YamlScanner.Scanner.SaveSimpleKey | jni/third-part/yaml/src/scanner.c:1097-1128 | fails exactly when it would drop a required key |
| YamlScanner.Scanner.RemoveSimpleKey | jni/third-part/yaml/src/scanner.c:1134-1155 | fails exactly for a required key |
| YamlScanner.Scanner.RollIndent | jni/third-part/yaml/src/scanner.c:1205-1249 | a level is opened exactly when the column is deeper, and where its token goes |
| YamlScanner.Scanner.UnrollIndent | jni/third-part/yaml/src/scanner.c:1258-1285 | closes exactly the deeper levels with one BLOCK-END each; the stack is never popped when empty |
| YamlScanner.Scanner.FetchStreamEnd | jni/third-part/yaml/src/scanner.c:1329-1361 | after it no key can be completed and, outside flow collections, every block collection is closed |
| YamlScanner.Scanner.FetchFlowCollectionStart | jni/third-part/yaml/src/scanner.c:1448-1485 | one flow level more, with the invariant of keys and tokens |
| YamlScanner.Scanner.FetchFlowCollectionEnd | jni/third-part/yaml/src/scanner.c:1491-1528 | one flow level less if there is one, with the invariant |
| YamlScanner.Scanner.FetchEntry | jni/third-part/yaml/src/scanner.c:1569-1677 | '-' and '?' open a collection exactly when deeper than the level, right before their own token |
| YamlScanner.Scanner.InsertKey | jni/third-part/yaml/src/scanner.c:1690-1717 | KEY, and the start of its mapping if needed, go directly before the token where the key began, which is not delivered yet |
| YamlScanner.Scanner.FetchValue | jni/third-part/yaml/src/scanner.c:1683-1759 | a simple key is completed only on its line and within 1024 characters; else the value of an explicit key; when it fails |
| YamlScanner.Scanner.FetchText | jni/third-part/yaml/src/scanner.c:1765-1913 | aliases, anchors, tags and scalars may begin a key; when they fail |
| YamlScanner.Scanner.ScanToNextToken | jni/third-part/yaml/src/scanner.c:1919-1983 | passes over blanks, line breaks, byte order marks at the beginning of a line and comments, and over no other character, until there are no more; tabs only where no key may begin; a simple key becomes possible exactly behind a line break in block context |
| YamlScanner.Scanner.Dispatch | jni/third-part/yaml/src/scanner.c:896-1048 | the token that is queued last begins here and is the one that these characters call for |
| YamlScanner.Scanner.FetchNextToken | jni/third-part/yaml/src/scanner.c:860-1049 | keeps the invariant, which holds the layout of all tokens, and gets closer to the end of the text |
| YamlScanner.Scanner.Approach | jni/third-part/yaml/src/scanner.c:872-889 | goes to where the next token begins; no block collection that is open is deeper than this column |
| YamlScanner.Scanner.FetchMoreTokens | jni/third-part/yaml/src/scanner.c:800-854 | ends, with a first token before which no key can be put any more |
| YamlScanner.Scanner.Scan | jni/third-part/yaml/src/scanner.c:742-776 | delivers each token once; what was delivered never changes |
| YamlScanner.ScanStream | jni/third-part/yaml/src/scanner.c:742-1983 | for every text, also when scanning fails: tokens in the order of the text, nothing but idle characters between them, each called for by its characters, block collections opened, filled and closed by their columns; if it succeeds, one stream with one start and one end, block collections headed and closed, every KEY before the token its key begins with, and two tokens if and only if the text is idle |
| YamlLayout.LayoutKey | jni/third-part/yaml/src/scanner.c:1690-1717 | a KEY and the start of its mapping put before tokens that are already queued leave the layout right: the tokens behind are still in their places |
| YamlLayout.BetweenTokens | jni/third-part/yaml/src/scanner.c:1919-1983 | every character between two neighbouring tokens is a blank, a line break, a byte order mark at the beginning of a line, or part of a comment |
| YamlLayout.EmptyIff | jni/third-part/yaml/src/scanner.c:742-1983 | there is a token between the start and the end of the stream if and only if some character is not idle |
| YamlGrammar.DocumentIff | jni/third-part/yaml/src/parser.c:225-304 | the automaton accepts exactly the event sequences of one node with properly nested collections and whole pairs |
| YamlGrammar.DocumentsInStream | jni/third-part/yaml/src/parser.c:225-304 | each document inside an accepted stream is such a sequence, which is what the loader needs |
| YamlParser.Parser.ParseNode | jni/third-part/yaml/src/parser.c:528-717 | follows its move and keeps the stacks and the grammar in agreement |
| YamlParser.Parser.InsideDocument | jni/third-part/yaml/src/parser.c:225-304 | each state function follows its move, its event is one that the grammar allows there, and marks and states are popped only when there are some, also for an error report |
| YamlParser.Parser.ProcessDirectives | jni/third-part/yaml/src/parser.c:1228-1335 | accepts exactly one version directive at most, 1.1 or 1.2, and no handle twice |
| YamlParser.Parser.DocumentBegin | jni/third-part/yaml/src/parser.c:341-431 | the next document, bare or explicit, or the end of the stream |
| YamlStates.NextCosts | jni/third-part/yaml/src/parser.c:225-304 | every event uses up some of a budget of six for a token, so the parser comes to an end on all tokens |
| YamlParser.ParseEvents | jni/third-part/yaml/src/parser.c:169-304 | on any tokens the events are a prefix of the grammar, end it unless the parser fails, are those of the machine's moves and are at most six for a token |
| YamlRender.NodeRun | jni/third-part/yaml/src/parser.c:528-1199 | a node written as tokens, in flow, block or indentless style, with or without a last comma, with anchor and tag in either order and the tag in full or by a handle, with nodes and indicators left out where that is allowed, comes back as its events, and the parser resumes behind it |
| YamlRender.SkippedRun | jni/third-part/yaml/src/parser.c:1009-1083 | a single pair in which a token stands where the key should be: an empty key, and the value behind VALUE if there is one |
| YamlStreams.HeadRead | jni/third-part/yaml/src/parser.c:1228-1335 | the directives in front of a document are accepted if and only if there is at most one version, 1.1 or 1.2, and no handle twice; then these handles are in force, and the two default ones unless they are declared |
| YamlStreams.DeclaredMeans | jni/third-part/yaml/src/parser.c:594-627 | a tag with a declared handle stands for its prefix and the suffix |
| YamlStreams.DefaultMeans | jni/third-part/yaml/src/parser.c:1234-1306 | otherwise '!' stands for itself and '!!' for "tag:yaml.org,2002:" |
| YamlStreams.TagRead | jni/third-part/yaml/src/parser.c:594-627 | a node with a tag is read if and only if its handle is empty or declared, and with the tag that this handle and suffix stand for |
| YamlStreams.StreamParses | jni/third-part/yaml/src/parser.c:169-1335 | any documents, with any directives that are in order, any number of lines that end them, and in any mix of styles and ways to write their tags, come back as exactly their events |
| YamlAccepts.NodeSound | jni/third-part/yaml/src/parser.c:528-1199 | the tokens of a node from which the parser comes to the end of the stream are a node written in one of these styles |
| YamlAccepts.AcceptsIff | jni/third-part/yaml/src/parser.c:169-1335 | the parser reads tokens to the end of the stream if and only if they are some documents written so, and then it delivers the events of those documents |
| YamlRender.BlockPairIff | jni/third-part/yaml/src/parser.c:821-887 | a pair of a block mapping is parsed as written if and only if its KEY is written |
| YamlRender.ValueAlone | jni/third-part/yaml/src/parser.c:877-886 | VALUE where a pair should start is refused |
| YamlRender.KeyLeftOut | jni/third-part/yaml/src/parser.c:1009-1062 | what happens to a single pair without a key when something is left behind the token that is skipped |
| YamlRender.KeyBeforeComma | jni/third-part/yaml/src/parser.c:1009-1062 | KEY alone before a comma: the comma is lost and the next entry is refused |
| YamlRender.KeyBeforeBracket | jni/third-part/yaml/src/parser.c:1009-1062 | KEY alone before the bracket: the bracket is lost and what stands behind it is refused |
| YamlRender.SingleIff | jni/third-part/yaml/src/parser.c:1003-1083 | a single pair, with KEY and with or without VALUE, is parsed as written if and only if it has a key, or VALUE but no value |
| YamlLoader.LoadTree | jni/third-part/yaml/src/loader.c:216-544 | the loader with its explicit stack builds what recursive descent over the tree builds |
| YamlLoader.LoadDocument | jni/third-part/yaml/src/loader.c:184-257 | a whole document: that table, or a refusal for a bad alias or a repeated anchor |
| YamlLoader.NeverBroken | jni/third-part/yaml/src/loader.c:298-544 | the loader's assertions hold at every point of every document |
| YamlLoader.LoadsIff | jni/third-part/yaml/src/loader.c:263-374 | a document loads if and only if every alias stands behind the node with its anchor and no anchor is there twice |
| YamlLoader.Loader.RegisterAnchor | jni/third-part/yaml/src/loader.c:263-292 | refuses exactly the anchors that are known |
| YamlLoader.Loader.AddNode | jni/third-part/yaml/src/loader.c:298-344 | a child goes to the open collection, as key and value in turn |
| YamlLoader.Loader.LoadNodes | jni/third-part/yaml/src/loader.c:216-257 | on every document that the parser delivers the loop computes the table |
| YamlWalk.MetOnce | jni/third-part/yaml/src/dumper.c:263-294 | on any table, cyclic or not, each node is met at most once |
| YamlWalk.MetCovers | jni/third-part/yaml/src/dumper.c:206-238 | every reference of a node that is met is visited |
| YamlWalk.VisitsAreReferences | jni/third-part/yaml/src/dumper.c:206-238 | visits are the references from the nodes met, and one for the start |
| YamlDumper.AnchorNamesDiffer | jni/third-part/yaml/src/dumper.c:240-257 | different anchors have different names |
| YamlDumper.AnchorForm | jni/third-part/yaml/src/dumper.c:240-257 | the name is "id" and the number in decimal, with three digits or more and no zero too many |
| YamlDumper.EmittedAreReachable | jni/third-part/yaml/src/dumper.c:263-294 | the nodes emitted in full are exactly those reachable from the root, each once |
| YamlDumper.ReferencesCounted | jni/third-part/yaml/src/dumper.c:206-238 | a node has an anchor if and only if it is referenced at least twice, the root counting once by itself |
| YamlDumper.AliasesAnchored | jni/third-part/yaml/src/dumper.c:300-309 | every alias names a node emitted before it that has an anchor |
| YamlDumper.Emitter.AnchorNode | jni/third-part/yaml/src/dumper.c:206-238 | the recursion ends on every table and counts the visits |
| YamlDumper.Emitter.DumpNode | jni/third-part/yaml/src/dumper.c:263-393 | the recursion ends on every table and emits the events of its walk |
| YamlDumper.Emitter.DumpDocument | jni/third-part/yaml/src/dumper.c:111-160 | the whole document; one without nodes ends the stream |
| YamlRoundTrip.LoadThenDump | jni/third-part/yaml/src/dumper.c:111-393 | dumping a loaded document gives its events back with new names, all different, for exactly the anchors that aliases refer to, no other anchors, and the default tags filled in |
| YamlRoundTrip.DumpThenLoad | jni/third-part/yaml/src/loader.c:184-544 | a normal table comes back when it is dumped and loaded |
| YamlRoundTrip.DumpThenLoadIff | jni/third-part/yaml/src/loader.c:184-544 | and only a normal one does |
| YamlRoundTrip.NotGivenBack | jni/third-part/yaml/src/loader.c:184-544 | a table out of order and one with the tag "!" that do not come back |
| YamlRoundTrip.RoundTrip | jni/third-part/yaml/src/dumper.c:111-393 | loader and dumper undo each other on every document that loads, up to the names of anchors |

## Left out

- `hev_rbtree_replace`, `hev_rbtree_last` and `hev_rbtree_node_prev`: mirror images or easy.
- Node memory is modelled as a map from addresses to cells, with the colour in a field of its own instead of the low bit of the parent word.
- Handle: one byte behind the query can be read, which the code takes for granted.
- HandleShort: the bytes of a header, and one behind it, can be read, which the code takes for granted.
- New: a cache without records is left out; the cache holds at least one.
- Lookup: tests only the host bits, as the code does, so nothing is claimed about addresses of other networks.
- The DNS socket and the tunnel that calls the cache, and destroying the cache.
- lwIP, the kernel's sockets and the scheduler are the environment of the relay: what they may do is an event, and any order that the locks allow is possible. Time-outs are events that may happen at any time.
- The ring is no larger than the send buffer of lwIP, as hev-config.c:432-433 makes sure.
- HandOver: one write per region; lwIP's copy and push flags are not modelled.
- UDP sessions, the UDP-in-UDP variants and the splice loop of hev-socks5-udp.c.
- ReceiveMessages: buffers hold at least an address (252 bytes), and a read never returns more than it was asked for or than there is.
- SentHandler: lwIP reports no more bytes than are in flight, which is its side of the contract.
- Client and server of the handshake are programs over values, with a counter that says where each of them is, instead of methods: only so can their moves be interleaved.
- Name resolution, connecting and binding are parameters of the handshake; socket errors while writing and time-outs are left out.
- The configuration itself, logging, signals and the Android and platform layers.
- UpdateBuffer: the scanner asks for at most 6144 characters at once; the code asks for at most eight.
- The texts of the reader's and scanner's errors, and where they point.
- The scanner's readers for directives, anchors, tags and scalars are parameters: what they answer and how far they reach, at least one character. Folding, chomping, escapes and quoting are left out, and so is the text of the emitter.
- ScanStream: does not say which texts are refused, as that depends on these readers; each fetching method says when it fails.
- Marks and styles of events, and the flags for implicit documents and tags.
- AcceptsIff: nothing stands behind the end of the stream; the scanner delivers nothing there.
- Whether the relay loop yields or waits for input between two rounds, which only the scheduler sees.
- The writer and its UTF-16 output, the emitter's analysis of scalars, and the limits on document size.
- Running out of memory, except where a cache node cannot be allocated.
