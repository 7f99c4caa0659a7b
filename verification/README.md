# A verified model of the execution platform

This project models the core of a market-data and order-execution platform and proves what it promises: the
lock-free ring and the asynchronous submit path built on it, the order books and the consolidated best quote, the
ITCH, OUCH and MoldUDP64 codecs and the session framer, the order lifecycle behind its risk gate, and the
guardrail control path. `dafny verify dfyconfig.toml` checks all of it.

Code that computes is modelled as functions. Code that changes things is modelled as classes and loops, each
method proved against a specification function, and the theorems are lemmas about those functions and about whole
runs of them.

| files | what they model |
|---|---|
| `Words`, `Wire`, `Options` | 64-bit counters and masks; big-endian fields and fixed-width text; optional values |
| `RingMachine`, `SpscRing` | the single-producer single-consumer ring, as a machine over its atomic steps and as an object |
| `WorkerMachine`, `WorkerRing`, `SubmitQueue` | the worker thread's protocol, and why its queue stands for the ring; the submit queue, the asynchronous backend and the recording backend |
| `Itch`, `ItchCodec`, `Ouch`, `OuchCodec`, `Mold` | the three wire formats |
| `Layout`, `ItchLayout`, `OuchLayout`, `MoldLayout` | where each field stands on the wire, by offset and letter, and that exactly the bytes so laid out decode |
| `Replay`, `ReplayApply` | reading packets back, framing a session, applying messages to the world |
| `Book`, `BookLaws`, `OrderBook`, `Instruments`, `MarketBooks`, `Venues`, `Bbo`, `MarketRun` | one book and what each message does to every order of it, the instrument directory, the books of all venues as values and as objects, the consolidated quote, and whole runs over several venues |
| `Controls`, `Lifecycle`, `Engine`, `EncodedSubmit` | the two gates, the order lifecycle, the engine that joins them, encoded submission |
| `ControlLaws`, `LifecycleLaws`, `EngineLaws` | what each change, request and submit must do and answer, told from its own fields |
| `GuardrailControl`, `Fpga`, `Latency` | numbered switch updates, the FPGA reference gate, the latency summary |

## What the proofs found

- **A batch of 65535 messages is framed but cannot be read.** The framer accepts it and moves its number on; the
  count is the end-of-session code, so the packet does not decode. `BatchReplays` gives the exact condition.
- **The MoldUDP64 encoder accepts more than the decoder does.** A data packet of 0 or 65535 messages, or one whose
  numbers wrap, encodes and does not read back as itself. `Mold.DecodeUndoesEncode` is an if-and-only-if.
- **A replacement with a new reference of zero loses the order it replaces.** The book reports an error and the old
  order is gone. This is the only error that is not atomic, and no decoded message is one.
- **Level totals are right exactly while they fit 64 bits**, which any 2^32 orders do.
- **The consolidated quote is not always independent of listing order.** Its price, quantity and venue are; its
  instrument is not, exactly when two different quotes are unbeaten: one venue lists the stock under two numbers that
  tie for the best.
- **Beyond 2^64 / 999 samples the latency ranks wrap**, and then samples that all differ get a wrong percentile.
- **The mean latency can be below the smallest sample** when the sum saturates: exactly when that many copies of the
  smallest sample do not fit 64 bits.
- **The 2^64th pushed guardrail update is numbered zero and dropped.** Nothing pushed before it is.
- A cancel's quantity is an amount to remove, not the amount that should be left, contrary to the comment at
  include/fgep/core/order_event.hpp:282-283. The model follows the code.

## Modelling notes

- A ring step is one load, comparison, reload, copy boundary or publishing store. A reload may be stale, down to the
  value seen last. Slot copies take two steps, so a race would show as a torn value.
- In `WorkerMachine` a push takes effect at its publishing store and a pop at its own, and what one side reads of the
  other may be stale by any number of requests. `WorkerRing` has the same threads at the granularity of the ring's own
  loads, copies and stores, over the 64-bit ring, and proves that every run of theirs is simulated by a run of this
  machine. The worker's reads may be stale but are never older than an index it read before; one that has seen the
  stop flag has seen the pushes ordered before the stop, which is stored with release and loaded with acquire order.
- In specification functions counters are true counts; the objects hold them modulo 2^64.
- A book is specified twice: `BookReference` keeps the resting orders alone, `OrderBook` adds the levels as the code
  updates them. A book is good when its levels are the ones recomputed from its orders.
- Each specification function that an object mirrors has a second, independent description beside it: in `BookLaws`,
  `LifecycleLaws`, `ControlLaws`, `EngineLaws` and the layout files what happens is told by the fields of the message
  or request, with offsets, letters and bounds written out, and the function is proved to do that. In `LifecycleLaws`
  the description is proved to leave one answer and one next state.
- The two gates are written out separately, notional arithmetic and symbol test included, as in the source.
- A failed result carries its error only; the value the code pairs with it is dropped.
- One-letter codes stay bytes, restricted to the letters the code accepts. Bytes joined with a bitwise or are
  written as a sum, as they do not overlap.
- A backend is anything that answers accept or reject and keeps the requests it took.
- The library sort is represented by its contract: sorted, and a permutation.

## Model

| member | source | states |
|---|---|---|
| Words.MaskIsMod | include/fgep/core/spsc_ring.hpp:86 | Masking with a power of two less one is the remainder, for every index. |
| Words.PowerOfTwoTest | include/fgep/core/spsc_ring.hpp:13-19 | A size that passes the static assertion is a power of two. |
| Words.MaskedSlot | include/fgep/core/spsc_ring.hpp:47 | The masked slot of a wrapped counter is the slot of the true count, however often the counter wrapped. |
| RingMachine.PowersAreCapacities | include/fgep/core/spsc_ring.hpp:13-19 | Every power of two from 2 to 2^63 is an accepted capacity. |
| RingMachine.RunKeepsInv | include/fgep/core/spsc_ring.hpp:34-69 | In every reachable state of every interleaving the published, unconsumed slots hold the pushed items in order and all indices are ordered. |
| RingMachine.RunsAgree | include/fgep/core/spsc_ring.hpp:34-86 | The code, with 64-bit counters and masked slots, takes the same steps with the same effects as the ring with unbounded counters, over runs of any length. |
| RingMachine.EveryRunIsFifo | include/fgep/core/spsc_ring.hpp:34-69 | Items come out whole, once, in the order they went in, and never more than the capacity are in flight. |
| RingMachine.EveryRunIsRaceFree | include/fgep/core/spsc_ring.hpp:47-66 | The producer never writes the slot the consumer is copying. |
| RingMachine.PushFailsExactlyWhenFull | include/fgep/core/spsc_ring.hpp:38-45 | A push fails exactly when the ring holds its capacity at the reload, counting what a stale reload did not see leave. |
| RingMachine.PopFailsExactlyWhenEmpty | include/fgep/core/spsc_ring.hpp:56-63 | A pop fails exactly when the ring is empty at the reload, but for what a stale reload did not see arrive. |
| RingMachine.SizeNeverUnderflows | include/fgep/core/spsc_ring.hpp:75-79 | Reading tail before head, any observer, however stale both reads, gets in 64 bits the pushes it saw beyond the pops it saw, never a negative number; one that saw every pop gets exactly the items it saw. |
| RingMachine.StepIsQueueStep | include/fgep/core/spsc_ring.hpp:34-69 | Only the publishing stores change the queue: one appends the item, the other removes the first. |
| SpscRing.SpscRing.constructor | include/fgep/core/spsc_ring.hpp:13-19 | A new ring is empty. |
| SpscRing.SpscRing.Push | include/fgep/core/spsc_ring.hpp:34-51 | A push succeeds exactly when there is room, and appends the item. |
| SpscRing.SpscRing.Pop | include/fgep/core/spsc_ring.hpp:53-69 | A pop succeeds exactly when there is an item, and takes the first; a failed one leaves the caller's variable alone. |
| SpscRing.SpscRing.ApproximateSize | include/fgep/core/spsc_ring.hpp:75-79 | At rest the size is the number of items, whatever the counters wrapped to. |
| SpscRing.SpscRing.Empty | include/fgep/core/spsc_ring.hpp:71-73 | At rest the ring reports empty exactly when it holds nothing. |
| WorkerMachine.RunKeepsInv | include/fgep/execution/async_execution_backend.hpp:43-93 | In every interleaving of submitter, controller and worker, with stale reads on both sides, requests handed over, in hand and waiting are in order the requests queued, and the counters account for them. |
| WorkerMachine.StopDrains | include/fgep/execution/async_execution_backend.hpp:70-93 | Once the worker has finished and every push was ordered before the stop, the backend was called once per queued request, in order, and queued equals accepted plus rejected, however stale the reads; otherwise at most the unordered pushes are left. |
| WorkerMachine.CountersCount | include/fgep/execution/async_execution_backend.hpp:43-93 | In every run the accepted and rejected counters are the calls so answered, submits queued and rejected are the submits made, and ring-full counts the submits that fit a slot and were not queued. |
| WorkerMachine.WorkerIsNeverBlocked | include/fgep/execution/async_execution_backend.hpp:156-169 | Until it finishes, the worker always has a step to take. |
| WorkerMachine.StoppedWorkerTerminates | include/fgep/execution/async_execution_backend.hpp:156-169 | After a stop with no later push the worker takes a bounded number of steps, however other steps interleave and however stale its reads, and leaves at most the unordered pushes behind. |
| WorkerRing.PublishSimulates | include/fgep/core/spsc_ring.hpp:47-50 | The publishing store of a push is the machine's successful push, with the same queue after. |
| WorkerRing.PrepareSimulates | include/fgep/core/spsc_ring.hpp:35-47 | What a push does before is not seen by the machine, unless it gives up after a stale reload: then it is the push that finds the queue full. |
| WorkerRing.TakeSimulates | include/fgep/core/spsc_ring.hpp:65-68 | The publishing store of a pop is the machine's pop of the oldest request, copied whole, reading as far behind as the worker did. |
| WorkerRing.SeekSimulates | include/fgep/core/spsc_ring.hpp:53-65 | What a pop does before is not seen, unless it gives up after a stale reload: then it is the pop that finds nothing. |
| WorkerRing.ObserveSimulates | include/fgep/core/spsc_ring.hpp:71-79 | The worker's emptiness query, however stale, answers as the machine's does when it reads as far behind. |
| WorkerRing.RunSimulates | include/fgep/execution/async_execution_backend.hpp:43-169 | Every run of submitter, worker and controller around the ring's own code, step by step and with stale reads, is simulated by a run of the machine with the same queue, calls and counts. |
| WorkerRing.ThreadsDrain | include/fgep/execution/async_execution_backend.hpp:70-169 | In every such run the backend is called for the first requests pushed, in order and whole; once the worker has finished at most the pushes not ordered before the stop are left in the ring, and if there are none every push was popped and handed over once and the counters balance. |
| WorkerRing.StoppedThreadTerminates | include/fgep/execution/async_execution_backend.hpp:156-169 | After a stop with no later push the worker thread makes a bounded number of moves, ring loads and copies included, and can always make another until it finishes. |
| SubmitQueue.MakeItem | include/fgep/execution/backend_submit_queue.hpp:148-173 | An empty or oversized payload is refused with its status; otherwise the slot reads back as the request, bytes as they were at submit time. |
| SubmitQueue.BackendSubmitQueue.Push | include/fgep/execution/backend_submit_queue.hpp:81-107 | A request is queued exactly when its payload is not empty, fits the slot and the ring has room; the status and every counter say which. |
| SubmitQueue.BackendSubmitQueue.Pop | include/fgep/execution/backend_submit_queue.hpp:109-111 | The oldest request comes out as it went in. |
| Requests.RecordingBackend.Submit | src/execution/execution_backend.cpp:11-39 | The backend takes a request exactly when it is open, the payload is not empty and there is capacity, keeps those it took in order, and its answer carries the request's fields and the reason. |
| AsyncBackend.AsyncExecutionBackend.Submit | include/fgep/execution/async_execution_backend.hpp:43-56 | A submit is accepted and counted as queued exactly when the payload is not empty, fits and the ring has room; the answer carries the request's reference, kind and size, and a refusal its reason. |
| AsyncBackend.AsyncExecutionBackend.PollOnce | include/fgep/execution/async_execution_backend.hpp:82-93 | One poll hands the oldest request to the backend and counts its answer as accepted or rejected, or reports there was none. |
| AsyncBackend.AsyncExecutionBackend.Drain | include/fgep/execution/async_execution_backend.hpp:95-103 | Draining hands over everything queued, in order, and as many answers are counted as requests were queued. |
| AsyncBackend.AsyncExecutionBackend.WorkerLoop | include/fgep/execution/async_execution_backend.hpp:156-169 | From any state, with other threads submitting any batches between its tests and then asking for a stop, the loop finishes and has handed over everything queued before or meanwhile, in order; it does not finish early unless a stop was asked for before. |
| Wire.ValueOfBE | include/fgep/wire/byte_io.hpp:52-248 | The value read from the bytes written for a number of any width is that number. |
| Wire.BEOfValue | include/fgep/wire/byte_io.hpp:52-248 | Any bytes are the bytes written for the number they read as. |
| Wire.WriteU16 | include/fgep/wire/byte_io.hpp:161-248 | Writes two big-endian bytes in place and nothing else, or refuses a field that does not fit and writes nothing. |
| Wire.WriteU32 | include/fgep/wire/byte_io.hpp:161-248 | Writes four big-endian bytes in place and nothing else, or refuses a field that does not fit. |
| Wire.WriteU48 | include/fgep/wire/byte_io.hpp:161-248 | Writes six big-endian bytes in place and nothing else, or refuses a field that does not fit. |
| Wire.WriteU64 | include/fgep/wire/byte_io.hpp:161-248 | Writes eight big-endian bytes in place and nothing else, or refuses a field that does not fit. |
| Wire.WriteText | include/fgep/wire/fixed_ascii.hpp:97-119 | Writes printable text in place and nothing else, or refuses it. |
| ItchCodec.EncodeMessage | src/itch/itch_encode.cpp:118-191 | Any message encodes in place to its wire bytes, laid out as `ItchLayout.EncodesExactly` says, exactly when it is valid and the buffer has its length; otherwise the error says which. |
| ItchCodec.EncodeSystemEvent | src/itch/itch_encode.cpp:197-233 | A system event is written field by field to its wire bytes, or refused for a wrong length or an invalid field with the buffer untouched. |
| ItchCodec.EncodeStockDirectory | src/itch/itch_encode.cpp:235-405 | The same for a stock directory message, with its eleven one-letter codes. |
| ItchCodec.EncodeStockTradingAction | src/itch/itch_encode.cpp:407-477 | The same for a trading action. |
| ItchCodec.EncodeAddOrder | src/itch/itch_encode.cpp:479-551 | The same for an add order. |
| ItchCodec.EncodeAddOrderWithMpid | src/itch/itch_encode.cpp:553-643 | The same for an add order with attribution. |
| ItchCodec.EncodeOrderExecuted | src/itch/itch_encode.cpp:645-705 | The same for an execution. |
| ItchCodec.EncodeOrderExecutedWithPrice | src/itch/itch_encode.cpp:707-790 | The same for an execution with price. |
| ItchCodec.EncodeOrderCancel | src/itch/itch_encode.cpp:792-842 | The same for a cancel. |
| ItchCodec.EncodeOrderDelete | src/itch/itch_encode.cpp:844-884 | The same for a delete. |
| ItchCodec.EncodeOrderReplace | src/itch/itch_encode.cpp:886-956 | The same for a replace. |
| ItchCodec.EncodeTradeNonCross | src/itch/itch_encode.cpp:958-1048 | The same for a trade. |
| ItchCodec.EncodeCrossTrade | src/itch/itch_encode.cpp:1050-1130 | The same for a cross trade. |
| ItchCodec.EncodeBrokenTrade | src/itch/itch_encode.cpp:1132-1172 | The same for a broken trade. |
| ItchCodec.DecodeUndoesEncode | src/itch/itch_decode.cpp:68-1290 | Every valid message of all thirteen types decodes from its encoding to itself; with `ItchLayout.DecodesExactly` this fixes every byte of it. |
| ItchCodec.EncodeUndoesDecode | src/itch/itch_decode.cpp:68-1290 | Every byte string that decodes is the encoding of a valid message, so the fields tile it without gap or overlap. |
| ItchLayout.HeaderLayout | src/itch/itch_decode.cpp:150-191 | Stock locate, tracking number and timestamp are the big-endian numbers at 1, 3 and 5; the timestamp is within a day, and a stock message's locate is not zero. |
| ItchLayout.SystemEventLayout | src/itch/itch_decode.cpp:376-419 | Exactly the 12 bytes S, header with locate zero, and one of the letters OSQMEC at 11 decode, to those fields. |
| ItchLayout.StockDirectoryLayout | src/itch/itch_decode.cpp:421-580 | Exactly 39 bytes R with fifteen fields at their offsets, text and codes printable, decode, to those fields. |
| ItchLayout.StockTradingActionLayout | src/itch/itch_decode.cpp:582-661 | Exactly 25 bytes H with printable stock, one of HPQT at 19, reserved byte and reason decode, to those fields. |
| ItchLayout.AddOrderLayout | src/itch/itch_decode.cpp:663-742 | Exactly 36 bytes A with reference at 11, B for buy or S for sell at 19, shares at 20, stock at 24 and price at 32, none of them zero, decode, to those fields. |
| ItchLayout.AddOrderWithMpidLayout | src/itch/itch_decode.cpp:744-833 | Likewise 40 bytes F with the attribution at 36. |
| ItchLayout.OrderExecutedLayout | src/itch/itch_decode.cpp:835-895 | Likewise 31 bytes E: reference, shares at 19, match number at 23. |
| ItchLayout.OrderExecutedWithPriceLayout | src/itch/itch_decode.cpp:897-984 | Likewise 36 bytes C: as an execution, then N or Y at 31 and the price at 32. |
| ItchLayout.OrderCancelLayout | src/itch/itch_decode.cpp:986-1036 | Likewise 23 bytes X: reference and shares at 19. |
| ItchLayout.OrderDeleteLayout | src/itch/itch_decode.cpp:1038-1080 | Likewise 19 bytes D: the reference. |
| ItchLayout.OrderReplaceLayout | src/itch/itch_decode.cpp:1082-1153 | Likewise 35 bytes U: old and new reference, which differ, shares at 27 and price at 31. |
| ItchLayout.TradeNonCrossLayout | src/itch/itch_decode.cpp:1155-1244 | Likewise 44 bytes P: as an add, with any reference, then the match number at 36. |
| ItchLayout.CrossTradeLayout | src/itch/itch_decode.cpp:68-148 | Likewise 40 bytes Q: shares in eight bytes, stock at 19, price at 27, match number at 31, one of OCH at 39. |
| ItchLayout.BrokenTradeLayout | src/itch/itch_decode.cpp:1248-1290 | Likewise 19 bytes B: the match number. |
| ItchLayout.DecodesExactly | src/itch/itch_decode.cpp:216-370 | Exactly the byte strings laid out as one of the thirteen messages decode, and to that message. |
| ItchLayout.RefusesTheRest | src/itch/itch_decode.cpp:216-370 | Any other bytes are refused: as unsupported exactly for the ten letters the format has and the system does not handle, else as a parse error. |
| ItchLayout.EncodesExactly | src/itch/itch_encode.cpp:118-191 | A message is written exactly when bytes of that length can be laid out as it, and then they are so laid out; a wrong length and an invalid message have errors of their own. |
| OuchCodec.WriteAppendage | src/ouch/ouch_encode.cpp:38-67 | An appendage is written as its length and bytes exactly when it has at most 65535 of them and fits. |
| OuchCodec.EncodeEnterOrder | src/ouch/ouch_encode.cpp:104-232 | An enter order encodes in place to its wire bytes exactly when it is valid and the buffer has its length; a refused one writes nothing. |
| OuchCodec.EncodeReplaceOrder | src/ouch/ouch_encode.cpp:234-336 | The same for a replace. |
| OuchCodec.EncodeCancelOrder | src/ouch/ouch_encode.cpp:338-385 | The same for a cancel. |
| OuchCodec.EncodeMessage | src/ouch/ouch_encode.cpp:78-102 | The same for any message. |
| OuchCodec.DecodeUndoesEncode | src/ouch/ouch_decode.cpp:82-523 | Every valid message, with any appendage of up to 65535 bytes, decodes from its encoding to itself. |
| OuchCodec.EncodeUndoesDecode | src/ouch/ouch_decode.cpp:82-523 | Every byte string that decodes is the encoding of a valid message. |
| OuchLayout.EnterOrderLayout | src/ouch/ouch_decode.cpp:124-307 | Exactly the bytes O with twelve fields at their offsets, letters from their sets, quantity between 1 and 999999, a price and an appendage that ends the string decode, to those fields. |
| OuchLayout.ReplaceOrderLayout | src/ouch/ouch_decode.cpp:309-453 | Likewise U with nine fields; the two references differ and neither is zero. |
| OuchLayout.CancelOrderLayout | src/ouch/ouch_decode.cpp:455-523 | Likewise X with reference, quantity up to 999999 and appendage. |
| OuchLayout.DecodesExactly | src/ouch/ouch_decode.cpp:82-122 | Exactly the byte strings laid out as one of the three messages decode, and to that message. |
| OuchLayout.EncodesExactly | src/ouch/ouch_encode.cpp:78-102 | A message is written exactly when bytes of that length can be laid out as it, and then they are; a wrong length and an invalid message have errors of their own. |
| Mold.DownstreamPacketEncodedLength | src/moldudp64/moldudp64_encode.cpp:62-76 | The length computed for a packet is the length of its bytes. |
| Mold.EncodeDownstreamPacket | src/moldudp64/moldudp64_encode.cpp:107-183 | A packet encodes to its bytes exactly when buffer, count, numbering and payload sizes are right, with the error the code gives otherwise. |
| Mold.DecodeDownstreamPacket | src/moldudp64/moldudp64_decode.cpp:43-123 | The decoding loop computes the recursive reading of the packet, errors included. |
| Mold.DecodeUndoesEncode | src/moldudp64/moldudp64_decode.cpp:43-123 | A packet that encodes reads back as itself exactly when, for a data packet, its count is neither reserved code and its numbers do not wrap. |
| Mold.EncodeUndoesDecode | src/moldudp64/moldudp64_decode.cpp:43-123 | Every byte string that decodes is the encoding of what it decodes to. |
| MoldLayout.DecodesExactly | src/moldudp64/moldudp64_decode.cpp:43-123 | Exactly the bytes of ten-byte session, first number at 10, count at 18 and blocks that fill the rest decode, to that packet: 0 counts a heartbeat, 65535 an end of session, else so many blocks, numbered consecutively without wrapping. |
| MoldLayout.EncodesExactly | src/moldudp64/moldudp64_encode.cpp:107-183 | A packet is written exactly when the bytes can be laid out as it, a control packet has its count and no blocks, and a data packet its count of blocks, numbered in 64 bits; a wrong length has an error of its own. |
| MoldLayout.RefusesTheRest | src/moldudp64/moldudp64_decode.cpp:43-123 | Any other bytes are a parse error. |
| ItchReplay.DecodeMoldItchPacket | src/replay/moldudp64_itch_replay.cpp:8-48 | A packet's messages are decoded one by one, in order, and the first failure is the answer. |
| ItchReplay.ReplayIsThePacket | src/replay/moldudp64_itch_replay.cpp:8-48 | A replayed packet has the packet's header and each block's message under the block's number; a failure is that of the packet or of the first block that does not decode. |
| Framer.MoldUdp64PacketFramer.constructor | src/gen/moldudp64_packet_framer.cpp:30-39 | A session starts at the number given, or at one for zero. |
| Framer.MoldUdp64PacketFramer.FrameDataPacket | src/gen/moldudp64_packet_framer.cpp:41-100 | A batch is framed from the next number and moves it by its size exactly when it is not empty, countable and all valid; otherwise nothing is returned and nothing moves. |
| Framer.MoldUdp64PacketFramer.FrameHeartbeat | src/gen/moldudp64_packet_framer.cpp:102-118 | A heartbeat carries the next number and does not move it. |
| Framer.BatchReplays | src/gen/moldudp64_packet_framer.cpp:41-100 | A framed batch reads back as its messages, numbered from the next number, exactly when it has fewer than 65535 and the numbers do not wrap. |
| Framer.SessionReplays | src/gen/moldudp64_packet_framer.cpp:41-118 | Over any run of calls, the non-empty outputs read back as exactly the messages of the accepted calls, numbered consecutively. |
| BookReference.ApplyKeepsWellFormed | src/book/symbol_order_book.cpp:23-181 | Every message keeps every resting order under its own nonzero reference, with shares and price left. |
| BookReference.ErrorsAreAtomicExactly | src/book/symbol_order_book.cpp:133-169 | An error leaves the orders as they were, except exactly for a replacement whose new reference is zero, which no decoded message is. |
| BookReference.AddAgreesExactly | src/book/symbol_order_book.cpp:322-333 | Adding to a level keeps every level equal to the sum and number of its orders exactly when the new total fits 64 bits. |
| BookReference.RemoveAgrees | src/book/symbol_order_book.cpp:335-380 | Removing keeps them equal, so the clamps and the missing-level return never hide a mismatch. |
| BookReference.FewEnoughOrdersFit | src/book/symbol_order_book.cpp:322-333 | With at most 2^32 resting orders every total fits. |
| BookLaws.AddRests | src/book/symbol_order_book.cpp:243-277 | An add is taken exactly when it is addressed to this book, complete, for its stock and new; then it rests with the message's side, shares and price, and every other order is untouched. |
| BookLaws.SharesComeOff | src/book/symbol_order_book.cpp:279-305 | An execution or cancel is taken exactly when the order rests with at least so many shares; it rests on exactly when it had more, with exactly so many fewer, same side and price, and every other order is untouched. |
| BookLaws.DeleteRemoves | src/book/symbol_order_book.cpp:307-320 | A delete is taken exactly when the order rests; then it is gone and every other is untouched. |
| BookLaws.ReplaceMoves | src/book/symbol_order_book.cpp:133-169 | A replacement is taken exactly when the old order rests and the new one is complete and new; then the old one is gone and the new one rests on its side with the message's shares and price. |
| BookLaws.OthersPassBy | src/book/symbol_order_book.cpp:23-181 | No other message changes a book or fails. |
| BookLaws.SharesAreAccounted | src/book/symbol_order_book.cpp:23-181 | After any run of messages, under every reference, shares resting plus shares executed or cancelled since equal the shares it was last opened with, at the price it was opened with; nothing rests exactly when it was never opened, all came off or it was deleted or replaced. |
| OrderBook.BookApplyIsReference | src/book/symbol_order_book.cpp:23-181 | To the orders every message does what the orders-only reference says, which `BookLaws` tells field by field, with the same answer. |
| OrderBook.BookApplyKeepsGood | src/book/symbol_order_book.cpp:243-380 | Every message keeps every level equal to the sum and number of its orders, as long as the new totals fit 64 bits. |
| OrderBook.BookFailureChangesNothing | src/book/symbol_order_book.cpp:133-169 | An error changes neither orders nor levels, but for the zero-reference replacement. |
| OrderBook.SymbolOrderBook.Apply | src/book/symbol_order_book.cpp:23-181 | The object takes the specified step of orders and levels, answer included. |
| OrderBook.SymbolOrderBook.AddOrder | src/book/symbol_order_book.cpp:243-277 | An order is added exactly when it is complete, for this stock and new, to the order map and its side's level. |
| OrderBook.SymbolOrderBook.ReduceOrder | src/book/symbol_order_book.cpp:279-305 | Exactly the shares asked for come off an order that has them, and an order with none left is gone from orders and level. |
| OrderBook.SymbolOrderBook.DeleteOrder | src/book/symbol_order_book.cpp:307-320 | A known order is removed whole, and its shares with it. |
| OrderBook.SymbolOrderBook.ReplaceOrder | src/book/symbol_order_book.cpp:133-169 | A replacement takes the side of the order it replaces and, once the old order is gone, is added as a new one. |
| OrderBook.SymbolOrderBook.BestBid | src/book/symbol_order_book.cpp:183-190 | The best bid is the first level; while levels agree with the orders, the highest price at which a buy order rests, with the total and number there. |
| OrderBook.SymbolOrderBook.BestAsk | src/book/symbol_order_book.cpp:192-199 | The best ask likewise, with the lowest price of a sell order. |
| Instruments.InstrumentDirectory.ApplyDirectory | src/instrument/instrument_directory.cpp:5-75 | A directory message lists an instrument or refreshes its details, keeping its trading status and every other instrument, never changes the stock of a listed one, and keeps the symbol index exact. |
| Instruments.InstrumentDirectory.ApplyTradingAction | src/instrument/instrument_directory.cpp:77-110 | A trading action sets the status and reason of a listed instrument whose stock matches, and nothing else of it or of any other. |
| Instruments.InstrumentDirectory.InstrumentsForSymbol | src/instrument/instrument_directory.cpp:135-145 | The instruments given for a symbol are exactly those that trade it, once each. |
| Instruments.ListingIsFinal | src/instrument/instrument_directory.cpp:5-75 | A directory message is taken exactly when venue and message are valid and the instrument is new or trades that stock; then it trades it, and every other listing is kept. |
| Instruments.TradingActionIsTaken | src/instrument/instrument_directory.cpp:77-110 | A trading action is taken exactly when venue and message are valid and the instrument is listed for that stock, with an error for each other case. |
| Instruments.StatusLetters | src/instrument/instrument_directory.cpp:151-166 | H, P, Q and T are halted, paused, quotation only and trading. |
| Instruments.EntryShowsTheMessage | src/instrument/instrument_directory.cpp:25-73 | An entry shows each field of the last directory message; a refresh keeps status and reason, and a new entry starts unknown. |
| Venues.VenueBook.Apply | src/book/venue_book.cpp:20-43 | The object takes the venue's specified step: the one book named, created if listed, takes the message. |
| Venues.VenueBook.GetOrCreateBook | src/book/venue_book.cpp:121-139 | A listed instrument's book is found or made empty; no other changes. |
| Venues.VenueBook.Best | src/book/venue_book.cpp:45-99 | A venue's quote is the first level of the instrument's book, under its symbol. |
| Venues.MultiVenueBook.AddVenue | src/book/multi_venue_book.cpp:11-23 | A venue is added empty unless its number is zero or taken; all others are kept. |
| Venues.MultiVenueBook.Apply | src/book/multi_venue_book.cpp:25-36 | The object takes the market's specified step, orders and levels of every venue included. |
| Venues.MultiVenueBook.Best | src/book/multi_venue_book.cpp:38-60 | The quote for an instrument is the one its book shows, so it is the same before and after whatever leaves the book alone. |
| Venues.MultiVenueBook.Quotes | src/book/multi_venue_book.cpp:62-100 | The quotes for a symbol are those shown by exactly the instruments that trade it, in listing order. |
| MarketBooks.MarketApplyAt | src/book/venue_book.cpp:20-43 | A message changes the one book it names, if that is listed on a registered venue, and no other; otherwise the error says which is missing. |
| MarketBooks.MarketApplyShows | src/book/multi_venue_book.cpp:25-36 | The books of all venues do to their orders what the reference does, with the same answer. |
| MarketBooks.MarketApplyKeepsGood | src/book/multi_venue_book.cpp:25-36 | Every message keeps all levels of all books right, as long as all totals fit. |
| MarketBooks.FailureShowsExactly | src/book/venue_book.cpp:20-43 | A failed message changes an instrument's orders exactly when it is the zero-reference replacement. |
| MarketBooks.FailureChangesNoQuote | src/book/venue_book.cpp:20-43 | A failed message may create an empty book but changes no book's orders or levels, and so no quote, except for the zero-reference replacement. |
| MarketBooks.ListingIsComplete | src/book/multi_venue_book.cpp:62-100 | With levels right, the quotes shown for a symbol are the best prices of exactly the instruments that trade it and have orders on that side. |
| Bbo.BestIsUnbeaten | src/bbo/normalized_bbo.cpp:9-62 | The quote chosen is listed and no listed quote beats it. |
| Bbo.BestIgnoresListingOrder | src/bbo/normalized_bbo.cpp:9-62 | Its price, quantity and venue depend only on which quotes are listed. |
| Bbo.BestIsIndependentExactly | src/bbo/normalized_bbo.cpp:9-62 | The whole quote is the same for every order of any list of quotes exactly when only one quote is unbeaten. |
| Bbo.UnbeatenQuotesTie | src/bbo/normalized_bbo.cpp:34-62 | Two unbeaten quotes tie in price, quantity and venue. |
| Bbo.TiedListingsShowTheirOrder | src/bbo/normalized_bbo.cpp:34-62 | The smallest case: two listings show their order exactly when they tie. |
| Bbo.BestIsConsolidated | src/bbo/normalized_bbo.cpp:9-32 | The chosen price is at least as good as that of any order resting for the symbol on any venue. |
| Bbo.BestIsBbo | src/bbo/normalized_bbo.cpp:9-62 | Every instrument's own best quote is for a price no better than the chosen one; at the same price for no more shares; and for as many at the same price of no lower venue number. |
| Bbo.BboIsDetermined | src/bbo/normalized_bbo.cpp:9-62 | Whether there is a best quote, and its price, quantity and venue, depend on the listings and resting orders alone. |
| Bbo.BestQuote | src/bbo/normalized_bbo.cpp:9-62 | With levels right, the selection loop yields the consolidated best of one side: best price, then most shares, then lowest venue number. |
| Bbo.Get | src/bbo/normalized_bbo.cpp:9-32 | With levels right, the view's bid and ask are each best by price, then shares, then venue number, over every order and every instrument's best quote for the symbol. |
| ReplayApply.EachMessageIsCountedOnce | src/replay/itch_replay_apply.cpp:18-128 | Messages up to the first failure are counted once each, in 64 bits, and the number remembered is that of the last one looked at. |
| ReplayApply.CountersCountTheirOwn | src/replay/itch_replay_apply.cpp:68-128 | The instrument, book and ignored counters each grow, in 64 bits, by the messages of their own types among those before the first failure. |
| ReplayApply.PacketCountsOnce | src/replay/itch_replay_apply.cpp:18-53 | A packet counts as one packet and one of its own kind; a failed message only as failed. |
| ReplayApply.FailureStops | src/replay/itch_replay_apply.cpp:41-50 | After a failure no later message of the packet has any effect or is counted. |
| ReplayApply.ItchReplayApplier.ApplyPacket | src/replay/itch_replay_apply.cpp:18-53 | A data packet applies its messages in order up to the first failure, other packets apply nothing, and the statistics record exactly that. |
| ReplayApply.ItchReplayApplier.ApplyDecoded | src/replay/itch_replay_apply.cpp:55-62 | A message's number is remembered whether or not it succeeds. |
| ReplayApply.ItchReplayApplier.Apply | src/replay/itch_replay_apply.cpp:68-128 | A message goes to the directory, the books or neither, and is counted there if it succeeds. |
| MarketRun.StocksNeverChange | src/replay/itch_replay_apply.cpp:18-128 | However registrations and packets on all venues interleave, a listed instrument trades the same stock ever after. |
| MarketRun.RunHolds | src/replay/itch_replay_apply.cpp:18-128 | After any such run the books hold exactly the orders that rest by the reference. |
| MarketRun.VenuesAreRegistered | src/book/multi_venue_book.cpp:11-23 | After any run exactly the venues that were registered are there. |
| MarketRun.MessageListsExactly | src/instrument/instrument_directory.cpp:5-75 | A valid directory message lists its instrument under its stock if it is new; no other message lists or relists any. |
| MarketRun.RunIsLogged | src/replay/itch_replay_apply.cpp:18-128 | After any run over any venues each instrument's orders are what the messages that reached its book leave, in order. |
| MarketRun.RunAccountsForShares | src/replay/itch_replay_apply.cpp:18-128 | After any such run, under every reference of every listed instrument, shares resting plus shares executed or cancelled since equal the shares it was last opened with. |
| MarketRun.RunKeepsGood | src/book/symbol_order_book.cpp:243-380 | After any run in which no instrument ever has more than 2^32 resting orders, every level of every book is the sum and number of its orders. |
| MarketRun.FewMessagesFewOrders | src/book/symbol_order_book.cpp:243-277 | A run of at most 2^32 messages is such a run. |
| MarketRun.FailedMessageChangesNoQuote | src/book/venue_book.cpp:20-43 | After any run a message that fails changes no quote of any instrument, except for the zero-reference replacement. |
| MarketRun.QuoteAfter | src/bbo/normalized_bbo.cpp:9-32 | After any such run, over any venues, the quotes the objects give for any symbol are, of the orders that rest by the reference, best by price, then shares, then venue number. |
| Controls.NotionalIsExact | src/risk/risk_supervisor.cpp:245-274 | For all 32-bit quantities and 64-bit prices the risk supervisor's overflow guards decide exactly whether the true product exceeds the limit. |
| Controls.GateNotionalIsExact | src/gate/guardrail_state.cpp:184-212 | And so do the guardrail's, which are written separately. |
| Controls.GatesAgree | src/gate/guardrail_state.cpp:11-62 | With equal settings the two gates let through the same messages with the same notional, despite their different check orders, and exactly the allowed ones. |
| Controls.OverrideDecides | src/gate/guardrail_state.cpp:96-123 | An override decides its own symbol and no other, and the last one wins. |
| Controls.GateState.Change | src/gate/guardrail_state.cpp:64-109 | Each setter changes its own switch and nothing else, as `ControlLaws.ChangeSetsItsSwitch` tells switch by switch. |
| ControlLaws.ChangeSetsItsSwitch | src/gate/guardrail_state.cpp:64-109 | Each change gives the switch it names the value it gives, an override for each symbol included, and every other switch is as before. |
| ControlLaws.GatesLetThrough | src/gate/guardrail_state.cpp:11-62 | Either gate lets a message through exactly when it is not halted and, for an order, not cancel-only, its symbol tradable, its quantity between 1 and 999999 and within limits, its price positive and the true product within limits. |
| ControlLaws.HaltAndCancelOnly | src/risk/risk_supervisor.cpp:66-76 | After a halt nothing passes either gate; after cancel-only on an unhalted gate exactly the cancels of at most 999999 pass both. |
| ControlLaws.ClearedOverridesLeaveTheDefault | src/gate/guardrail_state.cpp:106-123 | With overrides cleared an order passes exactly if the default allows its symbol and it is within limits. |
| ControlLaws.OverriddenSymbolObeys | src/gate/guardrail_state.cpp:96-104 | No order in a disabled symbol passes; one in an enabled symbol passes whatever the default. |
| ControlLaws.NewGateLetsThrough | src/gate/guardrail_state.cpp:7-9 | A new gate lets through everything within its limits. |
| ControlLaws.RiskNamesTheFirst | src/risk/risk_supervisor.cpp:167-243 | The risk supervisor's reason is the first of halt, cancel-only, symbol, quantity, price, size and notional that is wrong, and its answer carries the order's fields. |
| ControlLaws.GateNamesTheFirst | src/gate/guardrail_state.cpp:11-62 | The guardrail's reason is the first of halt, cancel-only, quantity, price, missing symbol, symbol, size and notional that is wrong. |
| ControlLaws.RefusedCancelIsTold | src/risk/risk_supervisor.cpp:34-56 | A cancel is refused for a halt or a quantity over 999999 and nothing else, by both gates. |
| ControlLaws.ReportedNotional | src/risk/risk_supervisor.cpp:261-274 | The notional reported is the true product up to the largest 64-bit number, and zero before it is looked at. |
| Lifecycle.StepIsDescribed | src/execution/order_lifecycle.cpp:22-249 | Every answer tells all that changed; every rejection changed nothing. |
| LifecycleLaws.EnterAnswers | src/execution/order_lifecycle.cpp:22-87 | An order is accepted exactly when it is complete and its reference exceeds the highest; then it lives with every field of the message. A refusal names the first fault and changes nothing. |
| LifecycleLaws.ReplaceAnswers | src/execution/order_lifecycle.cpp:89-163 | A replacement is accepted exactly when it is complete, the order it names is live and its reference exceeds the highest; the new order has the message's quantity, price and terms and the old one's side, symbol, capacity and cross type. |
| LifecycleLaws.CancelAnswers | src/execution/order_lifecycle.cpp:165-206 | A valid cancel of a live order with L left takes L if it says 0, else the smaller of what it says and L; it answers canceled exactly when nothing is left, and the order otherwise lives on with only its leaves changed. |
| LifecycleLaws.FillAnswers | src/execution/order_lifecycle.cpp:208-249 | A valid fill of at most what is left takes exactly that, and answers filled exactly when nothing is left; a larger one is an overfill. |
| LifecycleLaws.RunAnswers | src/execution/order_lifecycle.cpp:22-249 | In every run each command is answered as its own fields and the orders then alive demand. |
| LifecycleLaws.AnswersAreDetermined | src/execution/order_lifecycle.cpp:22-249 | These demands leave one answer and one next state, the engine's. |
| Lifecycle.RunKeepsInv | src/execution/order_lifecycle.cpp:22-249 | In every reachable state each live order is under its own reference, at most the highest, with between one and its quantity left, at most 999999. |
| Lifecycle.EveryReferenceBalances | src/execution/order_lifecycle.cpp:60-248 | After any run, what is left under a reference is what was brought in less what was taken off, and a live order's quantity is all that was brought in. |
| Lifecycle.OpenedOnce | src/execution/order_lifecycle.cpp:60-248 | All that is ever brought in under a reference, live or gone, is the quantity of its one opening, so fills, cancels and replacement never exceed it. |
| Lifecycle.QuantityIsConserved | src/execution/order_lifecycle.cpp:60-248 | After any run, total leaves is all quantity brought in less all reported decrements. |
| Lifecycle.EnterAcceptedExactly | src/execution/order_lifecycle.cpp:22-58 | A valid enter is accepted exactly when its reference exceeds the highest. |
| Lifecycle.HighestNeverFalls | src/execution/order_lifecycle.cpp:282-294 | The highest reference never falls between clears. |
| Lifecycle.OpenedReferencesIncrease | src/execution/order_lifecycle.cpp:282-294 | In any run the references that open orders strictly increase. |
| Lifecycle.DeadStaysDead | src/execution/order_lifecycle.cpp:38-58 | A reference that is gone never becomes live again. |
| Lifecycle.OrderLifecycleEngine.Enter | src/execution/order_lifecycle.cpp:22-87 | The object's enter is the specified step, answer and state. |
| Lifecycle.OrderLifecycleEngine.Replace | src/execution/order_lifecycle.cpp:89-163 | Likewise replace, which keeps side, symbol, capacity and cross type. |
| Lifecycle.OrderLifecycleEngine.Cancel | src/execution/order_lifecycle.cpp:165-206 | Likewise cancel, where zero or at least what is left removes the order and anything else exactly that much. |
| Lifecycle.OrderLifecycleEngine.Execute | src/execution/order_lifecycle.cpp:208-249 | Likewise a fill, which is refused when it exceeds what is left. |
| Lifecycle.OrderLifecycleEngine.Clear | src/execution/order_lifecycle.cpp:277-280 | Nothing is live and no reference is spent. |
| Engine.NoRiskBypass | src/execution/simulated_execution_engine.cpp:11-76 | With limits fixed, over any run of messages, fills, clears and other switches, every live order is within the quantity and notional limits, though a replacement of an unknown order skips the gate. |
| Engine.LockedRunShrinks | src/execution/simulated_execution_engine.cpp:11-76 | Along any run that stays halted or cancel-only no new reference appears and total leaves never increases. |
| Engine.OpenedOrderPassedGate | src/execution/simulated_execution_engine.cpp:26-51 | A message that opens an order did so with the gate open, its symbol enabled and its size within the limits. |
| EngineLaws.SubmitAnswers | src/execution/simulated_execution_engine.cpp:11-66 | A message goes to the lifecycle exactly when the gate lets it through or it replaces an unknown order, and the answer is the lifecycle's; otherwise nothing changes and the answer carries the gate's reason and the message's reference. |
| EngineLaws.LifecycleAnswers | src/execution/simulated_execution_engine.cpp:129-150 | An answer from the lifecycle keeps its status, reason, references, decrement and leaves, and is accepted exactly when it is not a rejection. |
| EngineLaws.RunAnswers | src/execution/simulated_execution_engine.cpp:11-76 | So it is after any run of submits, fills, switch changes and clears. |
| Engine.SimulatedExecutionEngine.SubmitEnter | src/execution/simulated_execution_engine.cpp:11-24 | The object's enter is the gated step, and its answer names the rejecting side. |
| Engine.SimulatedExecutionEngine.SubmitReplace | src/execution/simulated_execution_engine.cpp:26-51 | Likewise replace, checked against the symbol of the order it replaces. |
| Engine.SimulatedExecutionEngine.SubmitCancel | src/execution/simulated_execution_engine.cpp:53-66 | Likewise cancel, which only a halt or a quantity over 999999 keeps from the lifecycle. |
| Engine.SimulatedExecutionEngine.Execute | src/execution/simulated_execution_engine.cpp:68-76 | A fill goes to the lifecycle ungated. |
| EncodedSubmit.SubmitToBackend | src/execution/encoded_backend_submit.cpp:62-132 | Whatever it holds already, the backend is called exactly for valid messages, once, with bytes that decode to the message, and has taken exactly that request on top when the submit is accepted. |
| EncodedSubmit.SubmitToAsync | src/execution/encoded_backend_submit.cpp:62-132 | Through the asynchronous backend a message is queued, as bytes that decode to it, exactly when it is valid, its encoding fits a slot and the ring has room. |
| EncodedSubmit.SendAndDrain | include/fgep/execution/async_execution_backend.hpp:43-103 | After any interleaving of encoded submits and polls and then a drain, the inner backend's new calls decode, in order, to exactly the messages whose submits were accepted. |
| GuardrailControl.ApplyAllAppliesNews | src/gate/guardrail_control.cpp:89-101 | Applying all terminates and yields the fold of exactly the pending updates newer than everything applied or queued before them; the rest are dropped. |
| GuardrailControl.StaleChangesNothing | src/gate/guardrail_control.cpp:144-156 | Taking an update that is not news out of the queue changes nothing that is applied. |
| GuardrailControl.RepeatChangesNothing | src/gate/guardrail_control.cpp:144-156 | An update applied again, any run later short of a reset, changes only the drop count. |
| GuardrailControl.RunKeepsInv | src/gate/guardrail_control.cpp:63-196 | In every run the gate holds the fold of the applied updates, their numbers strictly increase, and staged is applied plus dropped plus pending plus cleared. |
| GuardrailControl.NothingPushedIsDropped | src/gate/guardrail_control.cpp:129-142 | When the path numbers every update itself, none is dropped exactly when fewer than 2^64 are pushed. |
| ControlLaws.ApplyAllSetsSwitches | src/gate/guardrail_control.cpp:89-101 | After applying all, each switch holds what the last news to set it says, or what it held before if none does. |
| ControlLaws.ApplyAllSetsHalt | src/gate/guardrail_control.cpp:89-101 | The halt in particular is the value of the last halt update among the news, or as before. |
| ControlLaws.RunSetsSwitches | src/gate/guardrail_control.cpp:63-196 | After any run each switch holds what the last update applied to it since the reset says. |
| ControlLaws.StepKeepsAhead | src/gate/guardrail_control.cpp:63-70 | Whatever numbers updates are given elsewhere, the next number stays above every number waiting or applied, exactly until one numbered 2^64 - 1 is staged. |
| ControlLaws.RunKeepsAhead | src/gate/guardrail_control.cpp:63-142 | So in any run in which none is, an update the path numbers is newer than all before it. |
| GuardrailControl.GuardrailControlPath.Push | src/gate/guardrail_control.cpp:5-61 | An update is given the next number and staged last. |
| GuardrailControl.GuardrailControlPath.Enqueue | src/gate/guardrail_control.cpp:63-70 | A staged update moves the next number past its own if it has to. |
| GuardrailControl.GuardrailControlPath.ApplyNext | src/gate/guardrail_control.cpp:72-87 | The oldest update is applied if it is newer than the last applied, dropped otherwise, and the answer says which. |
| GuardrailControl.GuardrailControlPath.ApplyAll | src/gate/guardrail_control.cpp:89-101 | The loop applies exactly the news of the queue and counts them. |
| GuardrailControl.GuardrailControlPath.ClearPending | src/gate/guardrail_control.cpp:119-121 | Only the queue is emptied. |
| GuardrailControl.GuardrailControlPath.Reset | src/gate/guardrail_control.cpp:123-127 | The path is as new. |
| Fpga.GapReportedExactly | src/hardware/fpga_gate_reference.cpp:99-115 | After any run a packet is answered with a gap exactly when it is tracked and its number is not one more than the last tracked one's, which was not the largest. |
| Fpga.VerdictMeans | src/hardware/fpga_gate_reference.cpp:85-161 | A packet is accepted exactly when it passes every check, left to software exactly when something needed is missing, and dropped exactly when malformed. |
| Fpga.ReasonMeans | src/hardware/fpga_gate_reference.cpp:85-161 | The reason is the first of malformed, gap, key, locate, order fields and range that is wrong; rejects are exactly gaps, disabled locates and values out of range. |
| Fpga.ExpectedMoves | src/hardware/fpga_gate_reference.cpp:99-115 | A whole packet with a number moves the expected number past its own, gap or not; no other packet moves it. |
| Fpga.DecidedOneTickLater | src/hardware/fpga_gate_reference.cpp:18-26 | A decision is stamped one tick after its packet, and unstamped if the packet is. |
| Fpga.LocatesAreSet | src/hardware/fpga_gate_reference.cpp:187-202 | Switching one locate sets that one alone, switching all sets every one. |
| Fpga.StartsOpen | src/hardware/fpga_gate_reference.cpp:31-40 | A new gate has every locate enabled, expects no number and has counted nothing. |
| Fpga.CountersBalance | src/hardware/fpga_gate_reference.cpp:49-72 | After any run the packet count is the sum of the decision counts, and drops are malformed packets. |
| Fpga.CountersCount | src/hardware/fpga_gate_reference.cpp:49-72 | After any run each decision counter is the number of packets so decided since the last reset. |
| Fpga.SoftwareReferenceFpgaGate.Evaluate | src/hardware/fpga_gate_reference.cpp:46-162 | The object's verdict, answer, tracking and counters are the specified step. |
| Fpga.SoftwareReferenceFpgaGate.SetStockLocateEnabled | src/hardware/fpga_gate_reference.cpp:193-202 | One locate is switched, and one out of range changes nothing. |
| Latency.RankIsExact | src/telemetry/latency_summary.cpp:18-19 | The rank computed in 64 bits is the nearest rank exactly when the computation does not wrap. |
| Latency.PercentileIsRight | src/telemetry/latency_summary.cpp:9-24 | For any fraction the value chosen is a sample with at least that share of samples at or below it and fewer below it. |
| Latency.PercentileEdges | src/telemetry/latency_summary.cpp:9-24 | No samples or no denominator give zero, a fraction of zero the smallest sample, one above one the largest. |
| Latency.WrappedRankMisses | src/telemetry/latency_summary.cpp:18-23 | When the rank wraps, samples that all differ are given another value than their percentile. |
| Latency.PercentileIsUnique | src/telemetry/latency_summary.cpp:9-24 | There is only one such value, whatever the order of the samples. |
| Latency.PercentilesOrdered | src/telemetry/latency_summary.cpp:91-94 | A larger fraction has no smaller percentile. |
| Latency.MeanBounds | src/telemetry/latency_summary.cpp:26-35 | The mean of the saturating sum is at most the largest sample, and at least the smallest exactly when that many copies of the smallest fit 64 bits. |
| Latency.SaturatedMeanCanUndercut | src/telemetry/latency_summary.cpp:26-35 | Two samples of the largest value have a mean below both. |
| Latency.SummarizeLatencies | src/telemetry/latency_summary.cpp:69-97 | The summary holds the true minimum, maximum and saturating mean, and each percentile whose rank does not wrap, in order; nothing for no samples. |
| Latency.LatencyRecorder.Summarize | src/telemetry/latency_summary.cpp:116-118 | The recorder summarizes exactly the samples recorded. |

## Left out

- The C++ memory model beyond stale reads: stores of one thread are seen in order, and a stop, once stored, is seen by the next load.
- Sockets and the kernel UDP, DPDK and AF_XDP backends: calls into code outside the repository.
- Starting and joining the worker thread as objects; they are steps of `WorkerMachine` and moves of `WorkerRing`.
- The MoldUDP64 request packet: a fixed 20-byte layout of the same three header fields, whose codec would repeat the header's proofs.
- Resetting the framer: it puts the next number back to the first, so a session after it is a session from the start.
- Benchmarks, applications, the runtime's allocation hooks, reference fixtures and report text.
- Recording an end-to-end latency from a pipeline event, and the names and notes of measurement kinds.
- The hash functions of symbols; sets of symbols are sets.
- AsyncBackend.AsyncExecutionBackend.WorkerLoop: as one method it lets other threads act between its tests only; every finer interleaving is covered by `WorkerRing.ThreadsDrain` and `WorkerRing.StoppedThreadTerminates`.
- WorkerMachine.RunKeepsInv: counters are true counts, because their wrapping is proved of the objects.
- ReplayApply.ItchReplayApplier.ApplyPacket: the null checks of directory and books have no counterpart, as references here are never null.
