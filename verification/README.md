# Cornet, modelled and proved in Dafny

Cornet is a coroutine runtime on io_uring, one thread per context, with HTTP and WebSocket
on top. This project models the parts of it whose correctness is a matter of hand-written
state: byte-stream state machines, intrusive lists, counters, explicit stacks and a
two-sided wakeup protocol. Everything is checked by the Dafny verifier; `dafny verify
dfyconfig.toml` covers all files.

What is modelled, and the main result of each part:

- **WebSocket** (`Frame`, `Wire`, `Reassembly`, `HeadBuffer`, `Session` on a `Host`,
  `Peers`). The session's receive loop, fed by reads of any size, delivers exactly what a
  conforming peer meant and answers exactly what it asked (`Session.Session.ReceiveFrom`);
  over any calls the closing handshake of section 5.5.1 of RFC 6455 is kept
  (`Session.Session.Drive`); and what one session sends, through short writes, is what another
  receives (`Peers.Exchange`). The frame codec is a bijection between legal headers and
  accepted byte strings, and `Wire` says bit by bit what stands in them.
- **SHA-1** for the handshake (`Sha1`): any split into updates gives the digest of
  FIPS 180-4.
- **Timer wheel** (`TimerWheel`, with the list model `Chains`): any run is a run of a plain
  table of ticks left, so a timer fires exactly when its delay is over, also one armed in a
  callback, and its callback is called as often as it fires.
- **Canceler** (`Canceler`, with the tree model `Forests`): the pointer-climbing walk cancels
  exactly the subtree, each canceler once, and touches nothing else; the op count decides
  reset and self-deletion.
- **Router** (`Paths`, `Router`): the explicit-stack search equals the recursive search,
  which finds the most specific of all ways through the trie; the parameters are the pieces of
  the path at the places of the pattern's names.
- **Park and wakeup** (`Park`): no interleaving of the owner with any number of producers
  loses a wakeup. **Ready queue** (`RingQueue`): a FIFO across index wrap-around and growth.
- **Semaphore** (`Semaphore`): conservation of permits and grants in order of arrival, over
  all runs, with waiters that die and an abort at any point.
- **Client connection pool** (`Pool`): limits over all runs, conservation of connections, and
  one borrower for each connection on loan, with waiters that die or expire.
- **io_uring slot table** (`SlotTable`): generation-tagged tokens over any history.
- **Header index** (`Headers`): word compares, bitmap and two-level storage against a linear
  scan, and that against equality of names up to letter case. **Gather write**
  (`GatherWrite`): short writes neither repeat nor skip a byte.

How it is modelled. Objects the source updates in place are classes with the same fields,
and each method is proved against a value: a list order, a forest, a table, a byte stream.
Ghost fields hold those values and histories. Code between two suspension points is one
method. What an awaited call returns, whether memory or the transport fails, and whether a
deadline has fired are arbitrary choices of the surroundings, made in `Host.Host` and
`GatherWrite.Socket` and kept there on record, or passed in; what the code makes of them is
stated in terms of that record. `Drive` methods run any number of operations in any order. Words that wrap in the source (mask keys, 32-bit laps and permit counts, 64-bit
ring indices and lengths, 32-bit generations) wrap in the model.

Where the code departs from its comments or documentation, the model follows the code and
states how far the promise holds:

- A message of three frames or more loses its opcode (`Reassembly.OpcodeKeptIff`,
  `Reassembly.ThreeFramesLoseOpcode`).
- An empty data frame at the end of the window waits for another byte
  (`Reassembly.OutstandingIff`, `Reassembly.EmptyMessageWaits`).
- A header with an all-zero mask key does not survive being written out again
  (`Frame.RewriteIsFaithful`, `Frame.ZeroKeyIsLost`).
- A timer callback that cancels or re-arms the captured next node breaks the walk
  (`TimerWheel.Wheel.SuccessorCancelled`, `TimerWheel.Wheel.SuccessorRearmed`,
  `TimerWheel.CancelledStillFires`, `TimerWheel.RearmedFiresAtOnce`).
- Delays beyond 2^41 ticks are cut down, and negative ones of two ticks or more wrap around
  (`TimerWheel.DelayIsCovered`, `TimerWheel.LongDelayIsCut`, `TimerWheel.NegativeDelay`).
- The router does not go back from a full-depth node without a route
  (`Router.InnerNodeHidesRoute`, `Router.AnswerIsFirst`). A path without parameters that is
  registered for other methods only is no mismatch (`Router.StaticIsForItsMethod`,
  `Router.StaticMismatchIsLost`).
- Destroying a queued semaphore waiter does not run the grant loop
  (`Semaphore.StrandedIff`, `Semaphore.Stranded`).
- The pool's total limit is not an invariant. Connections and opens in flight together pass
  it exactly if an open begins while they are at the limit (`Pool.Pool.Acquire`,
  `Pool.Pool.Drive`, `Pool.OverTotal`).
- A waiter of the pool can be left with no connection out and no open under way in its
  bucket. That comes of parking on an empty bucket with the total full, of a last open
  failing, and of a return that wakes one waiter and leaves a second
  (`Pool.Pool.Acquire`, `Pool.Pool.OpenFailed`, `Pool.Pool.ReleaseIn`,
  `Pool.ForgottenWaiter`, `Pool.OtherOriginForgotten`).
- A connection on loan has one borrower exactly as long as nobody gives back one it does not
  have: a second return of a connection that is on loan again is not told from a first
  (`Pool.Pool.Drive`, `Pool.Pool.ReleaseIn`, `Pool.LentTwice`).
- A waiter of the pool that dies between its grant and its turn takes the connection with it
  (`Pool.Pool.Leave`, `Pool.LostLoan`), and one woken with just a slot can be overtaken
  (`Pool.Overtaken`).
- Setting the case bit is not letter case: in header names the caret and the tilde are taken
  for one another (`Headers.IEqualIff`, `Headers.ConfusedTokens`,
  `Headers.CaretAnswersForTilde`). Byte 8 of 17-byte header names is never compared
  (`Headers.WantedIff`, `Headers.ByteEightIsIgnored`). Every other lookup is right
  (`Headers.LookupIsRightIff`).
- Moving an armed op leaves its slot naming the old object (`SlotTable.Ring.Move`,
  `SlotTable.MovedWhileArmed`).
- A slot 0 whose generation has wrapped gives out token 0, which means "no slot"
  (`SlotTable.Ring.PrepareInto`, `SlotTable.Worn`).

## Model

| member | source | states |
|---|---|---|
| `Frame.OpcodeOf` | src/websocket/common/frame.cc:27-38 | a four-bit code is an opcode exactly when some opcode has that code, and then it is that one |
| `Frame.ParseEncoded` | src/websocket/common/frame.cc:10-88 | every header legal for the receiving role (any opcode, fin, payload length below 2^63, any key) parses back to itself, with its exact length, whatever bytes follow |
| `Frame.EncodeParsed` | src/websocket/common/frame.cc:10-88 | the converse: every accepted window starts with the one encoding of the header it was parsed to, and that header is legal, so no two byte strings are accepted as the same header |
| `Frame.VerdictIsStable` | src/websocket/common/frame.cc:10-88 | a verdict other than "need more" is unchanged by any bytes that arrive later |
| `Frame.PrefixNeedsMore` | src/websocket/common/frame.cc:10-88 | no strict prefix of a legal header is refused or taken for a header |
| `Frame.RewriteIsFaithful` | src/websocket/common/frame.cc:110-133 | writing a parsed header out again gives the same bytes if and only if it does not carry an all-zero mask key, which the writer takes for "unmasked" |
| `Frame.ZeroKeyIsLost` | src/websocket/common/frame.cc:110-133 | a masked header with key 0 parses, and is written out again without its mask |
| `Frame.FrameDecoder.ParseWindow` | src/websocket/common/frame.cc:10-88 | the decoder's step-by-step parse gives the specified verdict on a fresh window, and repeats its first refusal for ever after |
| `Frame.WriteFrameHeader` | src/websocket/common/frame.cc:110-133 | the bytes written are the canonical encoding that ParseEncoded reads back, and nothing behind them is touched |
| `Frame.MaskInvolutive` | src/websocket/common/frame.cc:90-108 | masking a run twice with the same key and offset gives the run back |
| `Frame.MaskRuns` | src/websocket/session.cc:383-387 | runs masked one after another with a running offset make up the mask of the whole payload, wherever it is cut |
| `Frame.ApplyMask` | src/websocket/common/frame.cc:90-108 | the head, word and tail passes in place equal the byte-wise XOR of section 5.3 of RFC 6455 at every offset and length, and leave the rest of the array alone; what that XOR is on the wire is Wire.ReceivedByte |
| `Wire.XorIsBitwise` | src/websocket/common/frame.cc:90-108 | the exclusive or the codec is specified with is the machine one, bit by bit |
| `Wire.HeaderBits` | src/websocket/common/frame.cc:10-88 | of every accepted window: where fin, the reserved bits, opcode, mask bit and the 7-, 16- or 64-bit length stand in its bytes, bit by bit as in section 5.2 of RFC 6455, and how long it is with its key |
| `Wire.KeyOnTheWire` | src/websocket/common/frame.cc:74-108 | masking with a key read from four bytes of the wire is exclusive or with those bytes themselves, in turn |
| `Wire.ReceivedByte` | src/websocket/common/frame.cc:90-108 | of every accepted masked window: payload byte i as received is the wire byte at its place exclusive-or the key byte i modulo 4 in front of the payload; of an unmasked one it is the wire byte |
| `Wire.ReceivedMessage` | src/websocket/session.cc:383-400 | a message in one frame that arrives is made of the wire bytes that way |
| `Wire.SentByte` | src/websocket/session.cc:149-202 | and so are the bytes of every legal frame sent |
| `Wire.HelloUnmasked` | src/websocket/session.cc:246-437 | the unmasked example of section 5.7 of RFC 6455 is received as "Hello" |
| `Wire.HelloMasked` | src/websocket/session.cc:246-437 | and so is the masked one |
| `Reassembly.ReceiveEncoded` | src/websocket/session.cc:246-437 | a legal frame at the head of a stream is received as the peer meant it, unless it is an empty data frame with nothing behind it, which waits |
| `Reassembly.ReceivesWhatWasSent` | src/websocket/session.cc:246-437 | for every frame sequence a conforming peer can send (any fragmentation, control frames anywhere, any keys), reading its byte stream yields exactly the peer's message payloads in order and its pings, and ends with its Close or with the stream; only a trailing empty data frame is outstanding |
| `Reassembly.OpcodeKeptIff` | src/websocket/session.cc:406-433 | of every message delivered from a conforming stream the payload is right, and the opcode is that of its first frame if and only if it was sent in at most two frames |
| `Reassembly.ThreeFramesLoseOpcode` | src/websocket/session.cc:406-433 | a text message in three frames is delivered whole, as a continuation |
| `Reassembly.OutstandingIff` | src/websocket/session.cc:376-382 | a message is outstanding at the end of the stream if and only if its final frame is the stream's last and empty |
| `Reassembly.EmptyMessageWaits` | src/websocket/session.cc:376-382 | an empty text message at the end of the stream is not delivered |
| `Reassembly.DeliveredFits` | src/websocket/session.cc:286-301 | whatever the bytes, conforming or not, no message and no partial aggregate above max_message_bytes comes out |
| `HeadBuffer.HeadBuffer.constructor` | src/websocket/session.cc:63-69 | the receive window starts with the bytes left over from the handshake |
| `HeadBuffer.HeadBuffer.Compact` | src/http/common/buffer.cc:93-106 | moving the unread bytes to the front keeps them, in order |
| `HeadBuffer.HeadBuffer.Commit` | include/cornet/http/common/buffer.h:194-199 | bytes read at the write cursor join the end of the unread bytes |
| `HeadBuffer.HeadBuffer.Consume` | include/cornet/http/common/buffer.h:200-200 | consuming takes bytes off the front of the unread ones |
| `HeadBuffer.HeadBuffer.Take` | src/websocket/session.cc:383-402 | unmasking in place and consuming gives the unmasked front and leaves the rest of the window as it was |
| `Host.Host.Recv` | src/websocket/session.cc:114-117 | a read gives some of what is there, nothing only at the end, or is on record as a failure |
| `Host.Host.Send` | src/websocket/session.cc:120-131 | header and payload go out together through the gather write: in full if and only if every call took some of them; otherwise a failure is on record |
| `Session.Session.constructor` | src/websocket/session.cc:54-79 | a new session has the leftover and then the wire as its stream, nothing sent and no Close handed over |
| `Session.Session.Fill` | src/websocket/session.cc:98-118 | a read of any size moves bytes from the wire to the window without changing the stream; end of stream is reported only when there is nothing left, and a fault exactly when the read failed; there is always room, so the branch the source marks unreachable is |
| `Session.Session.ParseHeader` | src/websocket/session.cc:248-308 | a refusal is the event the whole stream holds next, and "more" is asked for only when the header is incomplete; the stream is unchanged either way |
| `Session.Session.Check` | src/websocket/session.cc:280-302 | the fragment and size rules refuse exactly the headers the specification refuses |
| `Session.Session.OpenFrame` | src/websocket/session.cc:290-307 | opening a frame consumes its header and keeps the stream and the message in progress |
| `Session.Session.TakeControl` | src/websocket/session.cc:310-330 | the control payload taken is the one the stream holds, and what remains is the rest of the stream |
| `Session.Session.TakeRun` | src/websocket/session.cc:376-404 | a run, cut wherever the window ends, adds its unmasked bytes to the message in progress; a frame taken in one run outside a fragmented message skips the aggregate; it fails exactly when the aggregate cannot grow |
| `Session.Session.TakeWhole` | src/websocket/session.cc:389-404 | a frame that is all there, outside a fragmented message, is taken without the aggregate |
| `Session.Session.TakePart` | src/websocket/session.cc:383-404 | any other run joins the aggregate, if that can grow |
| `Session.Session.Unload` | src/websocket/session.cc:383-402 | aggregate plus run is what the frame's bytes so far unmask to |
| `Session.Session.FinishFrame` | src/websocket/session.cc:406-435 | a completed frame leaves the receiver where the stream specification says, with the message whole or the fragment remembered, unless the aggregate cannot grow |
| `Session.XorshiftNonzero` | src/websocket/session.cc:133-145 | the mask generator never maps a nonzero state to zero |
| `Session.XorshiftFromOne` | src/websocket/session.cc:133-145 | two steps of the generator from 1, which pin its three shifts |
| `Session.Session.NextMaskKey` | src/websocket/session.cc:133-145 | every key is the next state of the generator and nonzero, so the retry loop runs once and a client frame always reads as masked |
| `Session.Session.WriteFrame` | src/websocket/session.cc:149-202 | the header and payload put on the wire are the encoding of one legal frame with the caller's payload for the peer's role, every payload byte XORed with its key byte if masked; the frame is logged exactly if the gather write took all of it, and it fails only by a fault or a shortage on record; the log stays polite: at most one Close, no data after it; while no write has failed, the wire holds the encoding of the log and nothing else |
| `Session.Session.Put` | src/websocket/session.cc:120-131 | the bytes handed to the gather write are those of the frame, and what it takes in full is what is logged |
| `Session.Session.SendControl` | src/websocket/session.cc:183-202 | a control frame goes out with its payload cut to 125 bytes, or nothing is logged and the transport has failed |
| `Session.Session.Send` | src/websocket/session.cc:149-181 | data goes out only in the open state and only with a data opcode; otherwise the error the code gives and nothing sent; an error of the transport or of the pool is reported exactly when there was one |
| `Session.Session.SendPing` | src/websocket/session.cc:204-209 | a ping goes out only in the open state, and then fails only with the transport |
| `Session.CloseBody` | src/websocket/session.cc:218-220 | the two bytes of a close code read as that code, high byte first |
| `Session.Session.BeginClose` | src/websocket/session.cc:211-227 | closing is idempotent; it moves on exactly if the code is valid and the write went through, and then a Close with that code and the truncated reason is out |
| `Session.Session.FailProtocol` | src/websocket/session.cc:229-239 | a violation is reported as its error; the session is closed with its code if and only if it was open, the deadline had not fired, the code is valid and the write went through |
| `Session.Session.HandleControl` | src/websocket/session.cc:332-373 | pings are answered with their payload, a valid Close is echoed verbatim exactly when we had not closed, an invalid one is refused and told with its code exactly when FailProtocol does, and only a valid one reaches the final state; nothing else is sent, and an io error is reported exactly when the write failed |
| `Session.Session.Answer` | src/websocket/session.cc:332-344 | a ping read is answered before the loop goes on, and a pong is passed over |
| `Session.Session.AnswerClose` | src/websocket/session.cc:345-373 | a Close read is the stream's end, answered as the state then asks for |
| `Session.Session.Turn` | src/websocket/session.cc:247-436 | one turn of the receive loop keeps the promised outcome ahead, with every ping read so far answered and nothing else sent, or reaches it, and makes progress |
| `Session.Session.Step` | src/websocket/session.cc:246-437 | whatever sizes the reads come in, the event returned is the one the stream as a whole holds next, and the session is left with exactly the rest of that stream; the frames sent meanwhile are a Pong for every ping read, in order and with its payload, and then the echo of a Close or the code of a violation; the loop ends; an io error means that a read or write failed, out of memory that an allocation did, and any other result that neither happened, but for the Close to a violation; a failed read loses nothing, and a failed write loses the last Pong or the echo alone |
| `Session.Session.Recv` | src/websocket/session.cc:439-444 | after a Close or after finish() nothing is received or sent; otherwise the stream's next message, with what Step says of the frames sent, and a Close handed over at most once |
| `Session.Session.CloseOurs` | src/websocket/session.cc:454-459 | finish() sends a Close if and only if the session is open, the deadline has not fired and the write goes through: normal, or going away if request_close() was called |
| `Session.Session.RequestClose` | src/websocket/session.cc:91-94 | the request is remembered for finish() |
| `Session.Session.Finish` | src/websocket/session.cc:448-487 | finishing ends, hands no message over, keeps the closing handshake legal, gives the transport up, and a second call or one without a transport sends nothing; from the open state, unless the deadline has fired or a write fails, our Close is the next frame out; and unless something fails or the deadline fires, the wait ends with the peer's Close if and only if the stream holds one |
| `Session.Session.Linger` | src/websocket/session.cc:464-471 | unless something fails or the deadline fires, the wait ends with the peer's Close if and only if that is what the stream holds next |
| `Session.Session.ReceiveAll` | src/websocket/session.cc:246-444 | a reader that keeps asking gets a prefix of the stream's messages, and all of them unless a read or write fails or memory runs out, which its last result then says; otherwise that is the stream's ending; the frames written out are then exactly a Pong for every ping in the stream, in order, and the answer to that ending; on a failure they are the Pongs to the pings read so far, the last one missing only if the transport failed |
| `Session.Session.ReceiveFrom` | src/websocket/session.cc:246-444 | end to end: against a conforming peer, however recv() cuts its bytes, every message it meant arrives in order and whole if and only if no read, write or allocation fails; nothing is refused, and the frames written out are exactly a Pong for each of its pings, in order and with its payload, and then the echo of its Close if we had not closed |
| `Session.Session.Drive` | src/websocket/session.cc:91-487 | over any sequence of send, ping, close, recv, request_close, finish and pauses: at most one Close frame is written, no data frame after it, a Close surfaces at most once, the state never goes back, what was sent stays sent, every frame sent is one the peer accepts, and while no write has failed the wire holds their encoding and nothing else |
| `Peers.Hears` | src/websocket/session.cc:149-437 | reading the encoding of any frames a session may send yields exactly its messages, in order, whole and under their own opcodes, up to its Close; only an empty message with nothing behind it waits |
| `Peers.Exchange` | src/websocket/session.cc:149-444 | two sessions back to back: after any calls on the first, unless a write of it has failed, a reader on the second gets the messages of the first, if and only if no read, write or allocation of its own fails, however the writes were taken and the reads come in; and it answers the pings of the first |
| `Sha1.BlocksConcat` | src/websocket/common/handshake.cc:31-45 | compressing two whole-block messages one after the other is compressing their concatenation |
| `Sha1.FIs` | src/websocket/common/handshake.cc:78-92 | the or-forms in the code equal the exclusive-or forms of section 4.1.1 of FIPS 180-4, in every round |
| `Sha1.RolIs` | src/websocket/common/handshake.cc:67-67 | shift-and-or rotation is rotation, for the three amounts in use |
| `Sha1.RoundConstants` | src/websocket/common/handshake.cc:79-92 | the four round constants are the square roots of 2, 3, 5 and 10, cut off after thirty binary places |
| `Sha1.StartValue` | src/websocket/common/handshake.cc:23-29 | the bytes of the initial hash value, low byte of each word first |
| `Sha1.GapIsLeast` | src/websocket/common/handshake.cc:51-54 | the zero padding is the least that section 5.1.1 of FIPS 180-4 allows |
| `Sha1.Sha1.Schedule` | src/websocket/common/handshake.cc:69-75 | the 80 words are the message schedule of section 6.1.2 of FIPS 180-4 |
| `Sha1.Sha1.Compress` | src/websocket/common/handshake.cc:69-105 | the loop over the words computes the compression of section 6.1.2 of FIPS 180-4 |
| `Sha1.Sha1.Absorb` | src/websocket/common/handshake.cc:34-44 | bytes that fit the block join what was fed, and a full block is compressed |
| `Sha1.Sha1.Update` | src/websocket/common/handshake.cc:31-45 | any number of bytes, over any number of blocks, join what was fed |
| `Sha1.Sha1.Pad` | src/websocket/common/handshake.cc:47-57 | what has been hashed is the padded message, also when the 0x80 byte fills the block; the length field is the bit count modulo 2^64 |
| `Sha1.Sha1.Final` | src/websocket/common/handshake.cc:47-64 | the 20 bytes are the hash value of the padded message, most significant byte first |
| `Sha1.HashPieces` | src/websocket/common/handshake.cc:21-111 | for every message under 2^61 bytes and every way of cutting it into update() calls, the digest is the one-shot digest of FIPS 180-4 |
| `TimerWheel.DelayIsCovered` | src/timer_wheel.cc:49-52 | a nonnegative delay is rounded up to whole ticks, at least one; the wheel holds it exactly if and only if it is within 2^41 ticks |
| `TimerWheel.LongDelayIsCut` | src/timer_wheel.cc:49-57 | 2^41 + 1 ticks of a millisecond are held as one |
| `TimerWheel.NegativeDelay` | src/timer_wheel.cc:49-52 | a negative delay means the next tick if and only if it is above 1 ms minus two ticks; any other wraps around to 2^63 ticks or more |
| `TimerWheel.Placed` | src/timer_wheel.cc:53-57 | slot and laps together come to the requested ticks, modulo the span of 32-bit laps, also for exact multiples of a revolution |
| `TimerWheel.FiresOnTime` | src/timer_wheel.cc:49-92 | in every run of the abstract "ticks left" table, a node with k ticks left that nobody touches fires once, in the k-th tick, and in no other, and counts down until then |
| `TimerWheel.FiresOnceArmed` | src/timer_wheel.cc:49-92 | wherever in a run of the table a node is armed, left alone from then on it fires once, right after the ticks it was armed with |
| `TimerWheel.NeverFires` | src/timer_wheel.cc:49-92 | a node that is not armed and left alone never fires |
| `TimerWheel.ThreadedPush` | src/timer_wheel.cc:26-33 | linking keeps every slot a well-formed doubly linked list and every node in the list of its own slot only |
| `TimerWheel.ThreadedCut` | src/timer_wheel.cc:35-47 | so does unlinking, wherever the node stands |
| `TimerWheel.CountsTick` | src/timer_wheel.cc:75-79 | moving the cursor takes one tick off every armed node |
| `TimerWheel.CountsHead` | src/timer_wheel.cc:80-91 | the node the walk stands at is due exactly if it has no laps left; otherwise taking a lap off is right |
| `TimerWheel.Wheel.constructor` | src/timer_wheel.cc:8-9 | an empty wheel, with the default tick for a tick that is not positive |
| `TimerWheel.Wheel.Link` | src/timer_wheel.cc:26-33 | the pointer writes push the node on its slot's list and count it |
| `TimerWheel.Wheel.SpliceOut` | src/timer_wheel.cc:37-45 | the pointer writes take the node out of its list and clear its links, and touch no others |
| `TimerWheel.Wheel.Unlink` | src/timer_wheel.cc:35-47 | the slot lists stay well formed and the count goes down by one |
| `TimerWheel.Wheel.Detach` | src/timer_wheel.cc:35-47 | unlinking removes exactly that node from the table, and is safe on an unarmed one |
| `TimerWheel.Wheel.Cancel` | src/timer_wheel.cc:64-66 | cancelling is the cancel event of the table, also in the middle of a tick |
| `TimerWheel.Wheel.Attach` | src/timer_wheel.cc:56-58 | the node is due after the ticks its slot and laps stand for; nobody else's due time moves |
| `TimerWheel.Wheel.Arm` | src/timer_wheel.cc:49-62 | arming or re-arming is the arm event of the table with the effective tick count, also in the middle of a tick |
| `TimerWheel.Wheel.Callback` | src/timer_wheel.cc:86-88 | an owner that arms and cancels any nodes, in a callback any but the captured successor, keeps the walk's place, and every arming is logged with the ticks of its delay |
| `TimerWheel.Wheel.OnExpire` | src/timer_wheel.cc:86-88 | the callback of the node runs once more, and no other node's |
| `TimerWheel.Wheel.Expire` | src/timer_wheel.cc:85-89 | a due node leaves the wheel, and its callback is called if it has one |
| `TimerWheel.Wheel.Visit` | src/timer_wheel.cc:80-91 | one turn of the walk fires the node if and only if the table allows it, calling its callback if it has one, and goes to the right next node |
| `TimerWheel.Wheel.Advance` | src/timer_wheel.cc:75-92 | one call is one tick of the table, followed by the firing of all that is due and of nothing else; the callback of every node that has one is called exactly as often as the node fires; the walk ends |
| `TimerWheel.Wheel.Drive` | src/timer_wheel.cc:49-92 | any run of ticks, arms, re-arms and cancels, outside and inside callbacks, is a run of the table, with the lists well formed and armed_ their total length; every arming in it is logged with the ticks its delay comes to, and if the node is left alone afterwards it fires once, right after that many ticks; and every callback is called exactly as often as its node fires |
| `TimerWheel.FiresAfterDelay` | src/timer_wheel.cc:49-92 | whatever the other nodes do, a node armed with delay d, outside a tick or in a callback, and left alone from then on fires in exactly the max(1, ceil(d/tick))-th tick after arming, and in no other |
| `TimerWheel.Wheel.SuccessorCancelled` | src/timer_wheel.cc:79-91 | the exception: a callback that cancels the captured successor has it fire all the same if it was due, and everything behind it in the list is a revolution late |
| `TimerWheel.Wheel.SuccessorRearmed` | src/timer_wheel.cc:79-91 | and one that re-arms it has the walk follow it into its new slot: it fires at once if and only if its new delay is within a revolution, and otherwise comes a revolution early; everything behind it in the old list is a revolution late, unless the new delay is a multiple of a revolution: then it is first in the same list and the walk goes on from there |
| `TimerWheel.TwoDueWheel` | src/timer_wheel.cc:49-92 | such a walk is reached: two nodes armed for two ticks on an empty wheel, in the second tick |
| `TimerWheel.CancelledStillFires` | src/timer_wheel.cc:79-91 | there a cancelled node fires |
| `TimerWheel.RearmedFiresAtOnce` | src/timer_wheel.cc:79-91 | and a node just armed for five ticks fires at once |
| `Canceler.Canceler.Root` | include/cornet/coroutine/cancel.h:52-52 | a root canceler with nothing in flight; the tree pointers are those of the forest with the new root |
| `Canceler.Canceler.Child` | include/cornet/coroutine/cancel.h:58-65 | a new child is first among its parent's children, and the tree pointers stay those of a forest |
| `Canceler.Canceler.Unhook` | include/cornet/coroutine/cancel.h:67-78 | destroying a childless canceler takes it out of its parent's list, and the pointers stay those of the forest without it |
| `Canceler.Canceler.LinkNode` | include/cornet/coroutine/cancel.h:142-150 | an op is put at the head of the list and on the books |
| `Canceler.Canceler.UnlinkNode` | include/cornet/coroutine/cancel.h:158-169 | an op that is on the list is taken off; one that cancel() already detached leaves the list as it is, whatever it holds by then |
| `Canceler.Canceler.OpResolved` | include/cornet/coroutine/cancel.h:134-136 | the op leaves the books, and the last one out of an orphan deletes it, once |
| `Canceler.Canceler.Orphan` | include/cornet/coroutine/cancel.h:122-125 | the canceler is deleted now if and only if nothing is in flight |
| `Canceler.Canceler.Reset` | include/cornet/coroutine/cancel.h:97-106 | resetting succeeds if and only if nothing is in flight, listed or not, and otherwise changes nothing |
| `Canceler.Canceler.TakeApart` | src/cancel.cc:35-52 | the loop visits every node although it clears the links it walks on, and leaves them all detached |
| `Canceler.Canceler.CancelActiveTasks` | src/cancel.cc:28-53 | every listed op with a token is asked to cancel, once and in order; the list is empty afterwards and the ops are still on the books |
| `Canceler.Canceler.Climb` | src/cancel.cc:15-23 | from a leaf the climb finds the next canceler of the pre-order, or that the walk is complete |
| `Canceler.Canceler.Visit` | src/cancel.cc:8-12 | a stop of the walk marks that canceler alone, and touches the links of its own ops only, and only if it was not cancelled |
| `Canceler.Canceler.CancelSubtree` | src/cancel.cc:6-26 | the pointer-climbing walk ends and marks exactly the pre-order of the subtree: each newly cancelled canceler is swept once, its listed ops are asked to cancel and its list is empty; every other canceler keeps its flag, list and head, and their ops keep their links |
| `Canceler.Canceler.CancelAll` | include/cornet/coroutine/cancel.h:88-92 | the canceler itself and then the subtrees of its children come to the pre-order of its own subtree |
| `Canceler.Canceler.Cancel` | include/cornet/coroutine/cancel.h:86-93 | on a cancelled canceler nothing changes anywhere; otherwise exactly the cancelers in the subtree end up cancelled, each that was not is swept exactly once and left with an empty list, and the flags, lists, heads and op links of all others are as they were |
| `Canceler.Subtree` | src/cancel.cc:6-26 | the pre-order of a subtree holds exactly the descendants of its root, by the parent relation |
| `Canceler.MarkedOne` | src/cancel.cc:8-12 | marking a sequence of cancelers sweeps each of them at most once and changes no other |
| `Canceler.Awaiter.AwaitReady` | include/cornet/coroutine/cancel.h:233-244 | no suspension on a cancelled canceler, and the reason is remembered |
| `Canceler.Awaiter.AwaitSuspend` | include/cornet/coroutine/cancel.h:246-267 | an op is on the books, with its token, if and only if it was accepted and the canceler is live; a failed submission leaves no trace |
| `Canceler.Awaiter.AwaitResume` | include/cornet/coroutine/cancel.h:269-286 | a completion takes the op off the books once, however often it is called |
| `Canceler.Awaiter.Destroy` | include/cornet/coroutine/cancel.h:218-228 | a frame that dies with its op armed takes it off the books; any other changes nothing |
| `Canceler.Canceler.Drive` | include/cornet/coroutine/cancel.h:97-286 | over any run of submitting, completing, destroying, cancelling, resetting and orphaning, tracked_ops_ is the number of armed unresolved ops, detached or not, and the canceler is deleted once, exactly when orphaned with nothing in flight |
| `Canceler.Canceler.StillThere` | include/cornet/coroutine/cancel.h:122-136 | a canceler with an op in flight, or an owner, has not been deleted |
| `Forests.Forest.PreIsUnder` | src/cancel.cc:6-26 | everything in the pre-order of a node is a descendant of it |
| `Forests.Forest.UnderIsPre` | src/cancel.cc:6-26 | every descendant of a node is in its pre-order |
| `Forests.Forest.PreDistinct` | src/cancel.cc:6-26 | no canceler is visited twice |
| `Paths.SplitIsRuns` | src/http/server/router.cc:78-90 | the segments of a path are exactly its maximal runs of non-slash characters, in order, and cover all of them |
| `Paths.SplitPath` | src/http/server/router.cc:78-90 | the loop finds those segments and where each starts |
| `Paths.PieceStarts` | src/http/server/router.cc:328-330 | the path from where its j-th segment starts begins with a segment and has exactly the segments from the j-th on |
| `Paths.SplitJoin` | src/http/server/router.cc:188-199 | joining segments with slashes and splitting again gives the segments back |
| `Paths.NormalForm` | src/http/server/router.cc:184-199 | the normal form of a path has the segments of the path |
| `Paths.SameNormalForm` | src/http/server/router.cc:184-199 | two paths have one normal form if and only if they have the same segments |
| `Paths.KeyIsInjective` | src/http/server/router.cc:176-182 | two requests share an exact-table key if and only if they share method slot and segments |
| `Paths.NormaliseKeyInto` | src/http/server/router.cc:114-139 | the one-pass key equals the key of the two-step normalisation, and 0 is returned if and only if it does not fit the buffer |
| `Router.Walk.Capture` | src/http/server/router.cc:320-329 | a captured value is kept while one of the eight slots is free, and never disturbs what the stack remembers |
| `Router.Walk.Step` | src/http/server/router.cc:302-335 | one level down keeps the outcome of the whole search, with the untried alternatives on the stack |
| `Router.Walk.TryDescend` | src/http/server/router.cc:301-337 | a descent ends at the recursive search's answer or leaves exactly the untried alternatives |
| `Router.Walk.Backtrack` | src/http/server/router.cc:340-361 | taking a frame off enters its next alternative without losing the ones behind it, and the remaining work shrinks |
| `Router.Walk.Run` | src/http/server/router.cc:275-365 | the explicit-stack search ends, and equals the recursive search "literal, then parameter, then wildcard": the same node, the same captured values, a match if and only if there is one |
| `Router.SearchFirst` | src/http/server/router.cc:275-365 | the recursive search finds the first, in order of specificity, of all ways through the trie that take the path, and none only if there is none |
| `Router.SameNode` | src/http/server/router.cc:275-365 | the node found depends on the segments of the path alone |
| `Router.TrieMembers` | src/http/server/router.cc:230-248 | the trie holds the nodes on the way to some registered dynamic path and no others |
| `Router.TrieClosed` | src/http/server/router.cc:230-248 | every node's ancestors are in the trie |
| `Router.Router.Add` | src/http/server/router.cc:207-256 | one more registration in the log that both tables stand for |
| `Router.Router.Descend` | src/http/server/router.cc:230-248 | the loop creates exactly the missing nodes on the way and collects the names in order, stopping at a wildcard |
| `Router.Router.Lookup` | src/http/server/router.cc:258-381 | the exact table, through the key buffer or the heap key, and then the walk, give the answer the registrations specify; off the exact table a route is that of a registration whose pattern takes the path segment by segment, and the parameters are its named segments in order, up to eight, each with the segment of the path that stands there, or for a star the rest of the path from there |
| `Router.BindLoop` | src/http/server/router.cc:375-379 | as many pairs as the shorter of the two has, the k-th of the k-th name and the k-th value |
| `Router.AnswerIsFirst` | src/http/server/router.cc:275-381 | off the exact table, the answer is the route at the first of all ways that take the path; there is one if and only if that way ends in a route for the method, and a method mismatch if and only if it ends in routes for others only; the parameter for each capturing edge of the way carries the route's name for it and the segment at its place, or for a star the path from there on |
| `Router.AnswerServes` | src/http/server/router.cc:230-381 | the same said of patterns and paths alone: who answers has a pattern that takes the path, and every named segment of it is a parameter with the piece of the path at its place |
| `Router.FitsIsTakes` | src/http/server/router.cc:230-248 | the way of a pattern fits a path exactly if the pattern takes it: literals the same, a name any one segment, a star one or more to the end |
| `Router.NamesByPlace` | src/http/server/router.cc:231-239 | the names collected at registration stand where the pattern's named segments stand |
| `Router.ValueByPlace` | src/http/server/router.cc:319-329 | so do the values the walk captures, while there is a slot |
| `Router.UserById` | src/http/server/router.cc:258-381 | "/users/:id" answers "/users/7" with the one parameter id = 7 |
| `Router.StaticIsForItsMethod` | src/http/server/router.cc:261-273 | registering a path without parameters for one method changes the answer to no other method and no other path, not even to a mismatch |
| `Router.StaticMismatchIsLost` | src/http/server/router.cc:365-372 | so a path registered for another method only is answered as if it were not there |
| `Router.LastRegistrationWins` | src/http/server/router.cc:250-255 | the route at a node is that of the last registration ending there, and there is one if and only if some registration does |
| `Router.SpellingDoesNotMatter` | src/http/server/router.cc:74-90 | paths with the same segments get the same route and the same mismatch |
| `Router.InnerNodeHidesRoute` | src/http/server/router.cc:336-373 | a concrete table in which a registered route takes a path but the path is answered with nothing, because a more specific inner node is not gone back from |
| `Park.Preserved` | src/scheduler.cc:98-114 | every atomic step of the owner, of any producer and of the kernel keeps the handshake's invariant |
| `Park.NoLostWakeup` | src/scheduler.cc:102-114 | in no run, with any number of producers in any interleaving, is the owner blocked with work queued unless a wakeup is pending or a producer that has enqueued is yet to look for the token |
| `Park.WakeupArrives` | src/context.cc:264-272 | once every producer is through, a blocked owner with work has its completion or the kernel can post it |
| `Park.ProducerWakes` | src/context.cc:264-272 | until then the producer still on its way finds the token and writes the eventfd |
| `Park.SleepsIfNothingFound` | src/scheduler.cc:103-114 | an owner whose two looks find nothing does go to sleep, and one that has found something does not |
| `Park.NoBusyWaiting` | src/scheduler.cc:103-114 | it comes back from the sleeping place only with work found or woken |
| `Park.RecheckIsNeeded` | src/scheduler.cc:105-106 | without the second look at the queues the wakeup is lost, in two steps |
| `Park.StepKeepsWork` | src/scheduler.cc:40-76 | no step makes or loses a unit of work |
| `Park.NothingDropped` | src/scheduler.cc:40-76 | over every run, work handed over is still held or has been finished |
| `RingQueue.SlotOf` | include/cornet/scheduling/scheduler.h:47-51 | masking an index that wraps at 2^64 gives the slot of the index that never wrapped |
| `RingQueue.OwnSlots` | include/cornet/scheduling/scheduler.h:59-65 | live indices never share a slot, in the old ring or the doubled one |
| `RingQueue.Distance` | include/cornet/scheduling/scheduler.h:55-56 | the word difference of head and tail is the number of live entries, across the wrap |
| `RingQueue.RingQueue.constructor` | include/cornet/scheduling/scheduler.h:42-42 | an empty queue of 1024 places |
| `RingQueue.RingQueue.Size` | include/cornet/scheduling/scheduler.h:56-56 | the number of queued handles |
| `RingQueue.RingQueue.Empty` | include/cornet/scheduling/scheduler.h:55-55 | empty if and only if nothing is queued |
| `RingQueue.RingQueue.Front` | include/cornet/scheduling/scheduler.h:51-51 | the longest queued handle |
| `RingQueue.RingQueue.Pop` | include/cornet/scheduling/scheduler.h:53-53 | the longest queued handle leaves |
| `RingQueue.RingQueue.Grow` | include/cornet/scheduling/scheduler.h:59-68 | doubling re-hashes every live index without collision and keeps the queue and its order |
| `RingQueue.RingQueue.Push` | include/cornet/scheduling/scheduler.h:44-49 | the handle joins the end, whether or not the ring had to grow |
| `Semaphore.Semaphore.constructor` | src/semaphore.cc:7-7 | all permits are there and nobody waits |
| `Semaphore.Semaphore.AwaitReady` | src/semaphore.cc:32-48 | the fast path takes what there is, regardless of the queue, and fails only for want of permits |
| `Semaphore.Semaphore.AwaitSuspend` | src/semaphore.cc:50-64 | the waiter is last in the queue, and the last to have arrived |
| `Semaphore.Semaphore.Unlink` | src/semaphore.cc:79-96 | the waiter leaves the queue from wherever it stands; head, tail and links stay right |
| `Semaphore.Semaphore.WakeReady` | src/semaphore.cc:98-109 | exactly the longest prefix of the queue that the permits are enough for is granted, in order: those waiters and no others have their granted flag set; what is left waits for more than there is |
| `Semaphore.Semaphore.GrantHead` | src/semaphore.cc:100-108 | the first in the queue leaves it granted and scheduled, with its permits taken off the count, and nobody else is touched |
| `Semaphore.Books.GrantedOk` | src/semaphore.cc:98-109 | such a grant keeps the queue in order of arrival and the records in step with the flags |
| `Semaphore.Books.GoneOk` | src/semaphore.cc:21-30 | so does the end of a waiter's frame, wherever the waiter stood |
| `Semaphore.Semaphore.AwaitResume` | src/semaphore.cc:66-75 | a grant passes to the caller once |
| `Semaphore.Semaphore.TryAcquire` | src/semaphore.cc:111-115 | permits are taken if and only if there are enough and the semaphore is live |
| `Semaphore.Semaphore.Release` | src/semaphore.cc:117-121 | the permits come back, modulo 2^32, and exactly the waiters of the longest prefix of the queue they are enough for are granted; grants made stay made |
| `Semaphore.Semaphore.Destroy` | src/semaphore.cc:21-30 | a queued waiter's place is closed; an unused grant goes back, modulo 2^32, and exactly the waiters of the longest prefix of the queue that the permits are then enough for are granted; nothing else changes the count, the queue or anybody's grant |
| `Semaphore.Semaphore.GiveBack` | src/semaphore.cc:23-29 | the permits of a grant nobody will use go to the next in the queue, as in Release |
| `Semaphore.Semaphore.Abort` | src/semaphore.cc:123-133 | every queued waiter is turned away with the error and scheduled, and the queue is empty; a second abort changes nothing |
| `Semaphore.Semaphore.Drive` | src/semaphore.cc:21-133 | over any run, with waiters destroyed and the semaphore aborted at any point: the count plus the grants not yet consumed plus what was taken is the initial count plus what was released; the grants in the order made and then the queue are a subsequence of all arrivals in order, and all of them if and only if nobody left the queue without a grant; whoever queued has its granted flag set if and only if it is among the grants, and was scheduled once, when it left the queue; neither history is ever rewritten; and unless a queued waiter is destroyed the first in the queue needs more than there is |
| `Semaphore.StrandedIff` | src/semaphore.cc:21-22 | when a queued waiter is destroyed, the first in the queue could be granted and is not if and only if the one that left stood in front and the next fits |
| `Semaphore.Stranded` | src/semaphore.cc:21-22 | it happens: two waiters, one permit |
| `Pool.Pool.BucketFor` | src/http/client/pool.cc:105-121 | the bucket of an origin, made empty if it is new |
| `Pool.Pool.TakeIdle` | src/http/client/pool.cc:249-270 | the newest idle connection that is still sound goes to busy, and none only if there is none; exactly those behind it, all unsound, are closed, newest first, and no longer counted |
| `Pool.Pool.LendIdle` | src/http/client/pool.cc:265-269 | the newest idle connection is on loan |
| `Pool.Pool.Stale` | src/http/client/pool.cc:250-262 | the newest idle connection is closed and no longer counted |
| `Pool.Pool.Acquire` | src/http/client/pool.cc:240-302 | an idle connection if and only if the bucket holds a sound one, and then the newest, with the unsound ones behind it closed; else an open if and only if bucket and total leave room, or the last place in the queue; an open keeps connections and opens together within the total limit if and only if they were below it, and parking leaves a waiter with nothing held or opening if and only if nothing was |
| `Pool.Pool.BeginOpen` | src/http/client/pool.cc:272-275 | one more open is in flight, and whether connections and opens were at the limit is put on record |
| `Pool.Pool.Park` | src/http/client/pool.cc:293-295 | the waiter is last in the queue, and a bucket left with waiters and nothing else is put on record |
| `Pool.Pool.OpenDone` | src/http/client/pool.cc:285-289 | the new connection is busy and counted; connections and opens together stay what they were |
| `Pool.Pool.OpenFailed` | src/http/client/pool.cc:273-283 | the slot is free again and nobody is told: whoever waits is left with room in the bucket, and with nothing held or opening if and only if that was the last open and nothing was held |
| `Pool.Pool.WakeFront` | src/http/client/pool.cc:176-181 | the longest waiter is woken, with a connection or with just the slot; no other waiter is granted, woken or expired by it |
| `Pool.Pool.GrantOrPark` | src/http/client/pool.cc:155-194 | a returned connection goes to the longest waiter and to no other, or frees its slot for that waiter if it is stale, or is parked while there is room; it is closed in exactly the other cases |
| `Pool.Pool.TurnAway` | src/http/client/pool.cc:186-190 | with the idle list full the connection is closed and no longer counted |
| `Pool.Pool.ParkIdle` | src/http/client/pool.cc:192-193 | the connection is idle again, the newest |
| `Pool.Pool.GrantFront` | src/http/client/pool.cc:176-182 | the connection is on loan to the longest waiter and to nobody else |
| `Pool.Pool.ReleaseIn` | src/http/client/pool.cc:305-327 | a connection out on loan is taken back once, and its slot or the connection itself goes on to the longest waiter and to no other; a waiter is left with nothing held or opening if and only if it was the last loan, the connection is not kept and a second one waited; it is on record if the connection was not in the hands of a caller; it is closed exactly if it is not kept |
| `Pool.Pool.Detach` | src/http/client/pool.cc:305-309 | exactly that loan is over |
| `Pool.Pool.Discard` | src/http/client/pool.cc:310-324 | a connection not to be used again is closed and the longest waiter alone is woken with its slot |
| `Pool.Pool.Release` | src/http/client/pool.cc:305-327 | only the connection's own bucket and its longest waiter change; a second release while the connection is not on loan, or one of a foreign connection, changes nothing; a waiter is left behind exactly in the case of ReleaseIn |
| `Pool.Pool.DropIdle` | src/http/client/pool.cc:146-153 | an idle connection whose time is up is closed and no longer counted; anything else is left alone |
| `Pool.Pool.Leave` | src/http/client/pool.cc:205-215 | a destroyed waiter is out of the queue, the others keep their order, and none is left with nothing held or opening that was not before; a connection it had been granted is lost: it stays on loan with nobody to give it back |
| `Pool.Pool.Resume` | src/http/client/pool.cc:232-239 | a woken waiter gets an error if its time was up, the connection it was granted, or nothing but the slot; the connection is then in its hands and in no other |
| `Pool.Pool.WaitExpired` | src/http/client/pool.cc:196-203 | an expired waiter is out of the queue, marked and woken |
| `Pool.Pool.Drive` | src/http/client/pool.cc:146-327 | in every reachable state: idle + busy + opening is within the bucket's limit, idle within its own, a bucket with waiters has no idle connection, and the total is the sum of idle and busy over all buckets; connections and opens together pass the total limit in a run if and only if an open began with them at the limit, and then by less than the most opens ever in flight; no waiter is left with nothing held or opening unless one of the cases of Acquire, OpenFailed and Release has come up; and unless a connection on loan was given back by somebody who did not have it, every busy connection has exactly one borrower: a caller, one waiter it was granted to, or a waiter that died; every connection opened is idle, busy or closed, and closed at most once, so the total is the connections opened less those closed |
| `Pool.OverTotal` | src/http/client/pool.cc:273-289 | the total limit is not an invariant: two opens in flight pass it, by as much as Drive allows |
| `Pool.ForgottenWaiter` | src/http/client/pool.cc:279-283 | after a failed open a waiter is left waiting on an empty bucket |
| `Pool.OtherOriginForgotten` | src/http/client/pool.cc:305-327 | and so is a waiter parked because another origin had the last connection, once that is closed: the whole pool is empty and no open has failed |
| `Pool.LentTwice` | src/http/client/pool.cc:305-309 | a connection given back again by a caller that no longer has it is on loan to two waiters at once |
| `Pool.LostLoan` | src/http/client/pool.cc:205-215 | a waiter that dies between its grant and its turn leaves the bucket full for good |
| `Pool.Overtaken` | src/http/client/pool.cc:293-301 | a waiter woken with just a slot goes to the end of the queue if a newcomer opens in that slot first |
| `Pool.LendsToWaiter` | src/http/client/pool.cc:176-182 | granting a connection that was not on loan to one waiter keeps every loan with exactly one borrower |
| `SlotTable.DecodeEncode` | include/cornet/io_uring/io_slot.h:24-40 | index and generation come back out of a token |
| `SlotTable.EncodeDecode` | include/cornet/io_uring/io_slot.h:24-40 | every 64-bit word is the token of its index and generation |
| `SlotTable.FindIssued` | include/cornet/io_uring/io_slot.h:81-101 | over any history, a live token finds its task; a freed one finds anything if and only if its slot has since been freed a multiple of 2^32 times and is in use, so never with fewer frees |
| `SlotTable.LiveTokensDiffer` | include/cornet/io_uring/io_slot.h:61-75 | no two live allocations share a token |
| `SlotTable.TokenIsZeroIff` | include/cornet/io_uring/io_slot.h:24-26 | a token is 0, which means "no slot", if and only if it is slot 0's after a full wrap of its generation |
| `SlotTable.Worn` | include/cornet/io_uring/io_slot.h:61-87 | a slot can be taken and freed any number of times, so a wrapped slot 0 is reachable |
| `SlotTable.KeptAlloc` | include/cornet/io_uring/io_slot.h:70-74 | an allocation keeps the history invariant: generations count frees, every slot in use is one allocation's |
| `SlotTable.KeptFree` | include/cornet/io_uring/io_slot.h:81-87 | so does a free |
| `SlotTable.SlotTable.constructor` | include/cornet/io_uring/io_slot.h:49-54 | all slots are empty and on the free list, once each |
| `SlotTable.SlotTable.Grow` | include/cornet/io_uring/io_slot.h:62-69 | doubling moves no slot and puts exactly the new ones on the free list |
| `SlotTable.SlotTable.Alloc` | include/cornet/io_uring/io_slot.h:61-75 | an empty slot, old or new, now names the op, and the token is the new allocation's; no other slot changes |
| `SlotTable.SlotTable.Free` | include/cornet/io_uring/io_slot.h:81-87 | the slot is empty, its generation one on, and it is on the free list once |
| `SlotTable.SlotTable.Lookup` | include/cornet/io_uring/io_slot.h:94-101 | the lookup FindIssued is about |
| `SlotTable.SlotTable.ForEachActive` | include/cornet/io_uring/io_slot.h:103-110 | every slot in use is reported, once, with a token that finds its task |
| `SlotTable.Ring.PrepareInto` | src/task.cc:36-50 | an op gets a slot and counts as user io if it is; its token is nonzero and the books are right if and only if the slot taken is not slot 0 with its generation wrapped to 0 |
| `SlotTable.Ring.Complete` | src/task.cc:79-100 | the completion frees the op's slot, once, takes it off the count, and has its coroutine run if one awaits it |
| `SlotTable.Ring.Destroy` | src/task.cc:8-20 | an op abandoned while armed frees its slot and its count; any other frees nothing |
| `SlotTable.Ring.Move` | src/task.cc:22-34 | after a move the books are right if and only if the op was not armed; if it was, its token goes on finding the old object |
| `SlotTable.MovedWhileArmed` | src/task.cc:22-34 | it happens: a moved op whose token finds the object it left |
| `SlotTable.Ring.Process` | src/task.cc:66-77 | a completion is dispatched to the op that holds its token: that op has the result, no token and no count, its slot is freed once, its coroutine is to run if one awaits it, and every other op is as it was; a stale or made-up token changes nothing at all |
| `SlotTable.Ring.Drive` | src/task.cc:8-100 | over any run, of any length and across wraps of the generations, of arming (on any slot but a wrapped slot 0), completing with any tokens and destroying: the slots in use are those of the armed ops, one each, every armed op is found by its token, and the count of user io is right |
| `Headers.IEquals` | src/http/common/protocol.cc:110-116 | true if and only if the names agree byte for byte with the case bit set |
| `Headers.IEqualIff` | src/http/common/protocol.cc:110-116 | the comparison holds of every two names that are equal letter case aside, and of others if and only if they differ only in pairs of bytes told apart by the case bit alone though they are no letters |
| `Headers.ConfusedTokens` | src/http/common/protocol.cc:110-116 | among the characters section 5.6.2 of RFC 9110 allows in a field name that is the caret against the tilde, and nothing else |
| `Headers.LoadIsPack` | src/http/common/protocol.cc:20-43 | one load, one OR and a mask give the word that packing the lowercased bytes gives, for every length from 1 to 8 |
| `Headers.PackEqual` | src/http/common/protocol.cc:16-27 | two packed words are equal if and only if the names agree byte for byte with the case bit set |
| `Headers.MatchIsNear` | src/http/common/protocol.cc:45-49 | the word compares accept a name if and only if it agrees at every byte, or at every byte but byte 8 for 17-byte names |
| `Headers.FieldOfNear` | src/http/common/protocol.cc:53-106 | names that agree with the case bit set at every byte, or at every byte but byte 8 of 17, are the same field |
| `Headers.SameFieldIsNear` | src/http/common/protocol.cc:53-106 | and no others are: a known field has no other names |
| `Headers.OwnName` | src/http/common/protocol.cc:53-106 | every known field is recognised by its own name |
| `Headers.EarlyNames` | src/http/common/protocol.cc:56-66 | which name is which field, from "host" to "expect" |
| `Headers.ShortNames` | src/http/common/protocol.cc:67-77 | from "server" to "location" |
| `Headers.MediumNames` | src/http/common/protocol.cc:78-88 | from "connection" to "if-none-match" |
| `Headers.LongNames` | src/http/common/protocol.cc:89-101 | and from "cache-control" to "if-modified-since" |
| `Headers.FieldIff` | src/http/common/protocol.cc:53-106 | a field name is that of a known field if and only if it is the field's own letter case aside, and byte 8 aside if it has 17 bytes |
| `Headers.WantedIff` | src/http/common/headers.cc:72-101 | a lookup accepts every name that is the one asked for, letter case aside; it accepts another if and only if the two differ only in pairs of bytes told apart by the case bit alone though they are no letters, or at byte 8 of a known field's 17 |
| `Headers.PlainIsExact` | src/http/common/headers.cc:72-101 | among field names, a plain name is answered for by itself alone, letter case aside |
| `Headers.NotPlainIsNot` | src/http/common/headers.cc:72-101 | and any other name is answered for by a different one |
| `Headers.ByteEightIsIgnored` | src/http/common/protocol.cc:98-101 | a lookup of "transferXencoding" accepts "transfer-encoding" |
| `Headers.MappedMore` | src/http/common/headers.cc:20-27 | setting a field's bit keeps the bitmap exact for all fields of its section |
| `Headers.Headers.At` | include/cornet/http/common/headers.h:96-98 | entries come back in order of arrival across inline and overflow storage |
| `Headers.Headers.Clear` | include/cornet/http/common/headers.h:65-71 | an empty table |
| `Headers.Headers.Store` | src/http/common/headers.cc:12-18 | the entry is last, wherever it is stored |
| `Headers.Headers.Add` | src/http/common/headers.cc:5-29 | an entry is refused if and only if its own section, header or trailer, has used up its budget |
| `Headers.Headers.GetField` | src/http/common/headers.cc:49-70 | the value of the first entry of the section with that field; the bitmap answers for the fields the section does not have, and only for those |
| `Headers.Headers.Get` | src/http/common/headers.cc:72-101 | lookup by name through words, bitmap and storage equals the first match of a linear scan of its section; on a table of field names the answer for a plain name (no caret, no tilde, not a known field of 17 bytes) is the first entry of that very name, letter case aside |
| `Headers.ScanIsFirstNamed` | src/http/common/headers.cc:72-101 | the scan finds the first entry of that very name, letter case aside, in any table where no entry is mistaken for it |
| `Headers.LookupIsRightIff` | src/http/common/headers.cc:72-101 | the lookup of a field name finds the first entry of that very name on every table of field names if and only if the name is plain |
| `Headers.CaretAnswersForTilde` | src/http/common/protocol.cc:110-116 | a lookup of "x~" is answered with the value of "x^" |
| `GatherWrite.Advance` | src/tls/transport.cc:87-93 | after a short write of w bytes the list stands for the same bytes without the first w |
| `GatherWrite.Socket.Writev` | src/tls/transport.cc:78-84 | a call takes any part of what it is given from the front, or fails; the socket keeps what it answered and what it took |
| `GatherWrite.WritevAll` | src/tls/transport.cc:71-98 | the loop ends with the first answer that is an error or takes nothing, or as soon as all is taken: success if and only if every answer took something and together they took everything, a reset or an error if and only if the last answer says so; every call and every partial write is counted; what was taken and what the list still holds are together the buffers in order, no byte twice and none skipped |

## Left out

- Session.Session.constructor: the block is at least 4096 bytes, the smallest class of the buffer pool; a failed lease is not modelled.
- Session.Session.TakeRun: when the aggregation buffer cannot grow, what the session is left as is not specified; `Session.Session.Drive` ends its history there.
- Session.Session.Step: payload sizes of 4 GiB and more, which the source truncates to 32-bit buffer sizes, and how long a zero-copy view stays valid, are not modelled.
- Session.Session.Drive: calls follow one another; a writer that interleaves with a suspended reader inside one operation is not modelled; reads may fail at any time, so what request_close() makes of them is not told apart.
- Session.Session.Finish: the close timeout is an arbitrary moment, and the half-close and drain of the transport are left out.
- Session.Session.RequestClose: that it cancels the read under way is one of the read failures of `Host.Host.Recv`.
- Router.AnswerServes: a route handed to add() with parameter names of its own already is left to `Router.AnswerIsFirst`.
- Sha1.HashPieces: base64, the accept key and the handshake texts around the digest are not modelled.
- TimerWheel.Wheel.OnExpire: whether a node has a callback does not change while it is on the wheel.
- TimerWheel.Wheel.Callback: it does not touch the captured successor (what happens then is `TimerWheel.Wheel.SuccessorCancelled` and `TimerWheel.Wheel.SuccessorRearmed`), and it destroys no node.
- TimerWheel.Wheel.Visit: its callback is one of `TimerWheel.Wheel.Callback`.
- TimerWheel.Wheel.Advance: its callbacks are those of `TimerWheel.Wheel.Callback`.
- TimerWheel.Wheel.Drive: callbacks leave the captured successor alone; nodes are not destroyed; the runner coroutine, the tick counter and wrap-around of the 32-bit armed count are left out.
- TimerWheel.DelayIsCovered: delays whose rounding overflows 64-bit milliseconds are outside it; negative ones are `TimerWheel.NegativeDelay`.
- TimerWheel.FiresAfterDelay: delays whose rounding overflows 64-bit milliseconds, and negative delays, are outside it; `TimerWheel.Wheel.Drive` covers all, with the tick count the code computes.
- Canceler.Canceler.Unhook: a canceler destroyed while it still has children, whose parent pointers are then stale, is outside it.
- Canceler.Canceler.Drive: a canceler destroyed while it still has children, unregistered holders of an orphaned canceler, and wrap-around of the 32-bit op count are not modelled.
- Canceler.Canceler.CancelActiveTasks: a cancel request the ring has no room for is not modelled: the op then stays in flight unasked.
- Canceler.Awaiter.AwaitSuspend: the passthrough without a canceler is left out.
- Router.Router.Add: trie nodes are named by the edges that lead to them, so the tree of owning pointers is not modelled; a static path registered twice simply replaces the first.
- Router.Router.Lookup: method slots stand for methods; handlers, filters, fallbacks, the spill of the small vectors and 32-bit segment counts are left out.
- Park.NoLostWakeup: steps are sequentially consistent and the queues linearizable; a failed eventfd write and the io wait's timeout (an arbitrary wakeup here) are not told apart.
- RingQueue.RingQueue.Grow: a ring that would grow to 2^64 places is outside it.
- RingQueue.RingQueue.Push: a ring that would grow to 2^64 places is outside it.
- Semaphore.Semaphore.Drive: the guard object and the waiter count are left out; wrap-around of the permit count is counted in a ghost field.
- Pool.Pool.Resume: the loop that takes a waiter with a slot back to the start of acquire() is the caller's next `Pool.Pool.Acquire`.
- Pool.Pool.TakeIdle: whether a connection is sound is given with the call, not observed between its steps.
- Pool.Pool.Drive: clear(), name resolution, timers and metrics are left out; when a timer fires and when an open ends are arbitrary.
- SlotTable.SlotTable.constructor: an empty table, which can never grow, is outside it.
- SlotTable.SlotTable.Grow: growth past 2^32 slots is outside it.
- SlotTable.SlotTable.Alloc: growth past 2^32 slots is outside it.
- SlotTable.SlotTable.Free: a token whose slot is not in use, which the source's callers never pass, is outside it.
- SlotTable.Ring.PrepareInto: arming an op that is armed already, and growth past 2^32 slots, are outside it.
- SlotTable.Ring.Drive: no op is armed onto a slot 0 whose generation has wrapped, and moves are not part of a run.
- Headers.Headers.Get: names and values are byte strings; the offsets into the head and spill buffers they are resolved through are not modelled, nor are token lists and iteration.
- GatherWrite.WritevAll: the TLS branch is the same loop over another writer.
- io_uring submission and raw awaiters, OpenSSL, and the llhttp-driven connection loops: their behaviour is the kernel's or a library's.
- The frame pool, deadlines, adaptive batching, when_all and when_any, scopes, configuration, logging, metrics and the DNS cache: not part of this model.
