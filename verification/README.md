# Verification of the Vireon PHP binding

The binding is a Rust library with a C interface and one PHP file that calls it. This project models
what happens on the way between them and proves it for all inputs and all runs:

- **Endpoints** (`Endpoints.dfy`, `Streams.dfy`, `Interleaving.dfy`, `Delivery.dfy`). A subscription, group
  subscription or stream is an optional source behind a lock. `Endpoints` has the source as a FIFO queue
  with a closed flag, the receive calls as functions on it, and the Rust code as classes proved against
  these functions. `Interleaving` lets any number of threads use one endpoint in small steps while
  producers push and close; `Delivery` states what every interleaving guarantees.
- **The C heap** (`CHeap.dfy`, `Marshal.dfy`, `Receivers.dfy`, `Clients.dfy`, `AbiRuns.dfy`). Blocks have a
  kind and a length, and a free that meets a dead block or another layout has no result. `Marshal` has the
  functions of `src/message.rs` over mutable memory, `Receivers` the exported receive functions and the
  PHP methods on top of them, `Clients` request and reply, `AbiRuns` arbitrary runs of a C caller that
  frees in any order and as often as it likes.
- **Text** (`Utf8.dfy`, `CStrings.dfy`). The decoder that repairs ill-formed UTF-8 (section 4 of RFC 3629;
  replacement of maximal subparts as in section 3.9 of the Unicode Standard), the NUL-terminated strings,
  and the path of a topic from one PHP process to another.
- **Objects, handles, errors** (`Sessions.dfy`). The PHP objects that own handles, address reuse, and the
  last-error slot.
- **The example programs** (`Ordering.dfy`, `Congestion.dfy`, `Bench.dfy`, `Progress.dfy`). Their
  constants are parameters. The checking and draining loops run on the modelled PHP receive calls.

`Base.dfy` holds the shared types. `dafny verify dfyconfig.toml` checks everything.

## Assumptions

- The SDK's source is FIFO; `recv` gives None only when closed and drained; a closed source accepts
  nothing; a failed publish was not accepted. What producers do during a call is an input (a script of
  events). A script is finite, and a `recv` that nothing in it can wake is read as finding the end, so
  that the functions are total; in the step model such a thread simply waits.
- PHP FFI reads a `uint64_t` into a PHP int by its 64 bits, passes a PHP int to a C `int` by its low 32
  bits, zero-initialises new structs, and `FFI::string` on a `char*` stops at the first NUL.
- The vector of exported structs has capacity equal to its length, as `vireon_batch_free` takes it.
- Objects are not cloned, and no handle is closed while another thread uses it (the repository's
  README.md, lines 127-130). The tokio runtime is initialised.

## Where the code and its text disagree

The model follows the code in each case.

- `vireon_client_rpc` is described as returning 1 on timeout (`src/client.rs:180`); it returns -1 with an
  error text (`Clients.Client.VireonClientRpc`). The receive functions are described as returning -1 on
  error (`src/subscription.rs:19`); they never do (`Receivers.VireonRecv`, `Receivers.VireonRecvBatch`).
- A received topic that contains a NUL becomes the empty string (`CStrings.ForeignTopic`).
- `openStream` with the topic "0" opens a stream without a topic (`CStrings.StreamTopicMatchesPublish`).
- Sequence numbers from 2^63 on reach PHP as negative integers (`Base.PhpIntFaithful`), and a consecutive
  sequence that crosses 2^63 fails the ordering example (`Ordering.PassMeans`).
- With light streams and at most 100 heavy messages the congestion example publishes nothing to the light
  streams and must fail (`Congestion.VerdictCanPassIff`).
- A method called after an explicit `__destruct` uses the null handle; this is the only way in which a
  handle use can go wrong (`Sessions.HandlesAreSafe`).

## Model

| member | source | states |
|---|---|---|
| Delivery.InOrderWithoutLossOrDuplication | src/subscription.rs:27-38 | In every interleaving of any number of threads and the producers, the results in lock order, the holder's messages and the queue are exactly what was pushed before the close; each result is a contiguous piece |
| Delivery.SeenIffNoNullOut | src/subscription.rs:41-46 | Callers see all that was taken exactly when no successful receive had a null out pointer |
| Delivery.EveryBatchIsIteratedRecv | src/subscription.rs:62-83 | Each batch of each interleaving equals that many single receives run alone on the source it found with the producer activity it witnessed: same messages, and the same source left behind, after one more look if it ended on an empty queue |
| Delivery.EndIsForever | src/stream.rs:26-38 | After one receive has reported the end, everything pushed was delivered, and in every continuation the source is never asked again, receives report the end, publishes fail with NotConnected and send nothing, `stream_id` and `pending_bytes` give 0 |
| Delivery.SentIsWhatWasAccepted | src/stream.rs:110-116 | In every interleaving, each publish is accepted exactly when its turn under the lock found the stream open and the SDK took it, not connected exactly when latched; getters likewise; what was sent is exactly the data of the accepted publishes, in lock order |
| Delivery.EveryCallIsAnsweredOnce | src/stream.rs:60-81 | The finished calls of each thread and the one it is in are exactly the calls it made, once each and in its own order |
| Delivery.EveryCallEnds | src/subscription.rs:62-81 | The calls made bound the steps that any schedule takes for them; no step is left exactly when all calls are answered or the lock holder waits on an open, empty source; an idle thread can always call |
| Delivery.OnlyTheHolderActs | src/stream.rs:110-116 | Only the lock holder receives, publishes or reads; other threads change nothing, producers only push or close |
| Delivery.HoldIsBounded | src/stream.rs:60-80 | Until the next acquisition, the holder takes at most a fixed number of steps and source calls, whatever others do: the batch limit for a batch |
| Delivery.HoldFromAcquisition | src/subscription.rs:60-80 | From taking the lock on, a batch uses the source at most 1..256 times as its count says and takes two more steps; any other call at most once and three steps |
| Delivery.HolderIsNeverStuck | src/subscription.rs:27-38 | The holder can always take a step, except a receive waiting for its first message on an open, empty source; then the only steps anyone has are new calls and producer events |
| Interleaving.StepKeepsInv | src/stream.rs:60-81 | Each step of each thread keeps lock ownership, the latch, the ledger of messages and the serial reading of every call |
| Interleaving.BatchContinues | src/subscription.rs:71-79 | A half-done batch, completed alone, is what it has taken followed by a drain of the source as it is now |
| Endpoints.BatchIsIteratedRecv | src/subscription.rs:60-81 | For every i32 count, a batch of k messages is k single receives: same messages, latch and source, up to the events seen by a last empty look; it is empty exactly when the endpoint ends |
| Endpoints.BatchLimitIs | src/subscription.rs:60 | The limit is the count itself from 1 to 256, 256 for negative or larger counts, and 1 for 0 |
| Endpoints.BatchFromIdleSource | src/subscription.rs:60-81 | With q > 0 messages queued and no producer active, a batch is exactly the first min(q, limit) of them, the limit being the clamped count, and leaves the others |
| Endpoints.PhpCountRespected | php/VireonSdk.php:268-271 | For every PHP int, at most that many messages come exactly when at least one is asked for |
| Endpoints.IterateDeliversPrefix | src/subscription.rs:27-38 | k receives deliver the first k messages of all that will ever come and leave the rest; fewer means all were delivered and the endpoint is latched |
| Endpoints.RecvTakesFront | src/subscription.rs:29-36 | A receive takes the front message, or finds that none will ever come |
| Endpoints.Endpoint.ReceiveOne | src/subscription.rs:27-39 | The locked code of a receive computes the receive function on message, latch and source |
| Endpoints.Endpoint.ReceiveMany | src/subscription.rs:60-83 | The locked code of a batch, with its push loop and break, computes the batch function |
| Streams.Stream.PublishData | src/stream.rs:100-152 | A publish gives 0 and sends the decoded topic with the payload exactly when the stream is not latched and the SDK takes it; otherwise it gives -1, sends nothing and stores "PublishError: " with the not-connected text exactly when latched, with the SDK's text otherwise; a text with a NUL becomes the fixed message |
| Receivers.VireonRecv | src/subscription.rs:21-49 | Return code, out struct and heap for every out pointer; a null one still takes the message and gives 0 |
| Receivers.VireonRecvBatch | src/subscription.rs:54-101 | The same for batches: the array holds exactly the taken messages |
| Receivers.Subscription.RecvMessage | php/VireonSdk.php:258-266 | PHP gets the received message decoded, and the C heap is as before, each allocation made being released once |
| Receivers.Subscription.RecvMessages | php/VireonSdk.php:268-288 | The same for a batch of any PHP int |
| Clients.Client.VireonClientRpc | src/client.rs:182-211 | The request handed to the SDK, its timeout at least 0.001; code 0 with the reply exported, or -1 with "RpcError: " and the SDK's text stored and the struct untouched, a timeout included |
| Clients.Client.Rpc | php/VireonSdk.php:226-233 | Request topics are the PHP strings up to their first NUL, repaired; a reply is decoded and freed, a refusal throws "RpcError: " and its own text, or the fixed message if that has a NUL; the C heap is as before |
| Receivers.MsgFromNative | php/VireonSdk.php:158-167 | The struct is copied and then freed with its fields nulled |
| Receivers.CopyBatch | php/VireonSdk.php:277-285 | The loop over the array gives all messages in order |
| Receivers.PhpBatchEmptyIffEnded | php/VireonSdk.php:268-288 | A PHP batch is empty exactly when the endpoint ended; otherwise it has 1 to the limit messages, each with the topic, payload and 64-bit numbers of the message that as many single receives give |
| Receivers.ReleasedAfterDecoding | src/message.rs:57-98 | One exported message, decoded and freed, leaves the heap as it was |
| CHeap.BatchRoundTrip | src/subscription.rs:88-98 | Export to an array, decoding and batch free: the messages in order, the same live blocks as before, allocations and releases equal |
| CHeap.DecodeInvertsExport | src/message.rs:57-77 | Decoding an exported struct gives every payload byte and both numbers |
| CHeap.PublishedMessageArrives | src/message.rs:58-76 | From publisher to receiver: exactly which topics and numbers arrive unchanged, and the payload always |
| CHeap.FreeMessageReleasesOwned | src/message.rs:81-98 | Freeing releases what the struct owns, nothing else, nulls its topic and payload and keeps its two numbers; a second free changes nothing |
| CHeap.FreeBatchReleasesOwned | src/message.rs:102-118 | Freeing a batch releases what its elements still own and the array |
| CHeap.EqualCellsMeanAllReleased | src/message.rs:81-118 | With the same live blocks, allocations and releases in between are the same, by address, kind and length |
| Marshal.Memory.SdkMsgToC | src/message.rs:57-77 | Export allocates fresh, separate blocks holding the topic text and the payload |
| Marshal.Memory.MsgFree | src/message.rs:81-98 | The code computes the free of a null pointer, a struct of PHP's, or an array element |
| Marshal.Memory.BatchFree | src/message.rs:102-118 | The loop and the array release compute the batch free |
| Marshal.Memory.ExportBatch | src/subscription.rs:88-98 | The array's structs represent the batch's messages one by one |
| AbiRuns.EveryRunConserves | src/message.rs:79-118 | Over every run with frees in any order and repetition: no free goes wrong, live blocks are exactly those reachable from one struct each, nothing is left when nothing is owned |
| AbiRuns.ElementsFirstMakesNoDifference | src/message.rs:102-118 | Freeing any elements beforehand, any number of times, then the batch: exactly the batch's blocks are gone, the ledger balances with no new allocation, and freeing again does nothing |
| Utf8.LossyIsValid | src/string_h.rs:12-14 | The decoder's output is the encoding of some characters |
| Utf8.LossyIdentityIffValid | src/string_h.rs:12-14 | The decoder changes its input exactly when it is not valid |
| Utf8.LossyIdempotent | src/message.rs:58 | Decoding twice is decoding once |
| Utf8.LossyKeepsNul | src/message.rs:58-59 | Decoding neither adds nor removes a NUL |
| Utf8.LossySplitsAtAscii | src/string_h.rs:12-14 | Decoding works separately on both sides of an ASCII byte |
| Utf8.ReplacesMaximalSubpart | src/message.rs:58 | Each replacement stands for the longest start of some character, or one byte |
| Utf8.LossyKeepsCharacter | src/string_h.rs:12-14 | A character encoded at the front is kept, and decoding goes on behind it |
| Utf8.LossyReplacesStart | src/message.rs:58 | When no character is encoded at the front, the longest start of one there, or one byte, becomes EF BF BD, and decoding goes on behind it |
| Utf8.DecodeInvertsEncode | src/string_h.rs:12-14 | Reading an encoded character gives it back |
| CStrings.TopicRoundTrip | src/string_h.rs:8-15 | Any published PHP string is received cut at its first NUL and repaired once |
| CStrings.TopicRoundTripIdentity | src/string_h.rs:8-15 | It is received unchanged exactly when it is valid UTF-8 without NUL |
| CStrings.ForeignTopic | src/message.rs:58-60 | For arbitrary topic bytes: unchanged exactly when valid without NUL; empty when a NUL is in it |
| CStrings.TruncateThenDecode | src/string_h.rs:12-14 | Cutting at the first NUL and decoding commute |
| CStrings.StreamTopicMatchesPublish | php/VireonSdk.php:209-213 | Exactly which strings open a stream on the topic they publish to |
| Sessions.HandlesAreSafe | src/handle.rs:15-31 | Over every run no handle is used dead or at another type; the null handle is used exactly by methods of an object destructed by hand |
| Sessions.HandlesAreConserved | src/handle.rs:6-31 | Each live handle has one owner of its type; each is reclaimed once; none is left when all objects are destructed |
| Sessions.CreationMakes | src/client.rs:71-153 | A creating call returns exactly when the SDK agreed and the parent is alive; then one handle of its kind, one object owning it and one ledger entry are added, and nothing else changes |
| Sessions.ObjectsAreThoseMade | php/VireonSdk.php:148-155 | Over every run, the objects are exactly those named by a successful creating action with a live parent, of its kind, with its handle until destructed |
| Sessions.DestructionUnmakes | php/VireonSdk.php:179-184 | A destructor on a live object takes its handle away, enters it once as reclaimed, and stores only the close error of a client or pool; on a dead one it does nothing |
| Sessions.CallsMakeNothing | php/VireonSdk.php:140-146 | Other calls leave objects and handles alone; what they throw is the text they stored |
| Sessions.ExceptionsAreNeverStale | src/error.rs:13-28 | Over every run, exactly the refused calls of live objects throw, with the prefix of their kind or method and the SDK's own text; if that has a NUL, with "error message contained null byte" |
| Sessions.Session.ConnectTo | src/builder.rs:94-100 | The creating code and `checkHandle` compute the connect step |
| Sessions.Session.DeriveFrom | src/client.rs:71-153 | The same for subscriptions, groups and streams of a client |
| Sessions.Session.Call | php/VireonSdk.php:186-207 | A method's error goes through the slot into its exception |
| Sessions.Session.Destroy | php/VireonSdk.php:179-184 | The destructor closes, reclaims once and clears the field; the close's error is only stored |
| Ordering.CheckOrder | examples/ordering.php:26-42 | The drain loop counts what as many single receives deliver |
| Ordering.CountersZeroIff | examples/ordering.php:35-37 | Both counters are zero exactly for consecutive numbers from 0 or above, over all PHP ints |
| Ordering.Accounting | examples/ordering.php:35-38 | Without duplicates, received and missing numbers fill the range, and gaps never exceed the missing |
| Ordering.CountersCount | examples/ordering.php:35-37 | The duplicates are the arrivals not above their predecessor, the gaps those that skip a number after a non-negative one |
| Ordering.GapsAreMissingRuns | examples/ordering.php:35-36 | Without duplicates, the gaps are the maximal runs of missing numbers |
| Ordering.PassMeans | examples/ordering.php:86-88 | PASS exactly when the first n messages exist with consecutive 64-bit numbers below 2^63 |
| Ordering.PassMeansAllDelivered | examples/ordering.php:53-88 | With the script's n frames alone on the topic, PASS exactly when all n were delivered in order |
| Ordering.TooFewFail | examples/ordering.php:86 | A stream with fewer than n messages to deliver fails |
| Ordering.PassBoundsLostStart | examples/ordering.php:35-36 | With `total` frames on the topic, a PASS leaves room for at most total - n frames lost before the first arrival |
| Ordering.LostStart | examples/ordering.php:86-88 | Losing just the first frames passes exactly when n of the `total` remain; with the script's own n, exactly when nothing is lost |
| Ordering.PublishFrames | examples/ordering.php:52-59 | For every finite failure pattern the frames 0..n-1 are sent once each, in order |
| Ordering.StampDecodes | examples/ordering.php:52-56 | A frame is 256 bytes, four of them the index modulo 2^32, least significant first, the others zero; so the stamp gives the index back exactly below 2^32 |
| Congestion.PublishAll | examples/hol_congestion.php:58-66 | For every failure pattern: the heavy stream gets its count, all light streams the same number |
| Congestion.LightCountBound | examples/hol_congestion.php:59-65 | At least (n-1)/100 each, exactly that when no attempt failed at a due index |
| Congestion.OneMoreRefusal | examples/hol_congestion.php:59-65 | Each further refusal at a positive multiple of 100 adds one light message per stream, any other refusal none |
| Congestion.LightGetsSomethingIff | examples/hol_congestion.php:58-66 | Light streams get anything exactly with more than 100 heavy messages |
| Congestion.VerdictCanPassIff | examples/hol_congestion.php:92-98 | Some delivery of what was published passes exactly with a single stream or more than 100 heavy messages |
| Congestion.Report | examples/hol_congestion.php:80-98 | Minimum, total over all streams and verdict of arbitrary counts |
| Congestion.SumSplits | examples/hol_congestion.php:82-87 | The total counts each stream once, however the streams are divided |
| Bench.DrainLoop | examples/bench.php:43-49 | The loop over PHP batches computes the drain function and leaves the C heap as it was |
| Bench.DrainedBounds | examples/bench.php:44-49 | It stops between the count and 255 above, short of it exactly when the endpoint ended |
| Bench.DrainedTakesContent | examples/bench.php:44-49 | It takes what as many single receives would, and everything when it stops short |
| Bench.DrainedFromIdleSource | examples/bench.php:44-49 | From q queued messages and no active producer the loop takes min(q, 256 b), where b batches of 256 are what it needs to reach the count |
| Progress.RecordReadsBack | examples/ordering.php:65-69 | Every record parses back to its three numbers and is never taken for the empty file or "ready" |
| Progress.DecimalDigits | examples/ordering.php:43 | The decimals in the files have their digits most significant first and no leading zeros |
| Progress.DecimalReadsBack | examples/bench.php:79-80 | A single decimal parses back |
| Base.PhpIntFaithful | php/VireonSdk.php:164 | 64-bit numbers reach PHP unchanged exactly below 2^63, become the negative number with the same 64 bits above, and never collide |
| Base.CountOnTheWire | php/VireonSdk.php:268-271 | The count that C sees is the 32-bit number congruent to PHP's, and as a `usize` the 64-bit number congruent to that |

## Left out

- Clients.Client.Rpc: the client's own handle is the subject of `Sessions` (the action `Invoke`), not of this
  contract; a timeout that is not a finite number is not modelled.
- Streams.Stream.PublishData: the stream's own handle is the subject of `Sessions`, not of this contract.
- The SDK behind the binding: QUIC, routing, round-robin, delivery policies, reconnecting, and how long it
  makes a publish wait.
- Scheduling and lock fairness: step choice is nondeterministic, and nothing is claimed to happen
  eventually beyond the bounded hold.
- Exporting to the C heap is not interleaved with other threads' exports; the allocator may return any
  free address, so an export by another thread is one more choice of addresses.
- The group and stream receive functions and PHP classes are word-for-word copies of the subscription's
  and are represented by it.
- `vireon_pool_member`, `vireon_pool_len`, and the builder's option mapping in `src/config.rs` and
  `src/builder.rs` with its `cstr_to_option`: single-branch facts.
- Fork, signals, sleeps, deadlines, file access and the throughput numbers of the examples. A partial read
  of a progress file is not modelled; a light publish that throws ends the congestion example before any
  verdict and is not modelled.
- `(int)` on text that starts with a space or a sign: the examples never write such text.
- Loading the library and the C declarations in `VireonFFI::init`.
- The representation of an empty published payload as a null pointer with length 0.
